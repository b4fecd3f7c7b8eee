/** The V4 stream loop as a protocol: subscription acknowledgements, timeouts, retries with growing delays. */
module V4Acks {
  import opened Options

  const ACK_RETRY_MAX: nat := 5

  /** What the select of the loop picks. A failed acknowledgement carries the fate of the retry it may lead to:
      whether the delay was slept through and whether subscribing again worked. */
  datatype Event =
    | CtxDone
    | ReadError
    | ReaderClosed
    | Timeout(slept: bool, subscribed: bool)
    | Acknowledged
    | Rejected(slept: bool, subscribed: bool)
    | OtherFrame
    | FrameError

  datatype Reason =
    | Cancelled
    | ReadFailed
    | ReaderGone
    | AckTimeout(attempts: nat)
    | AckRejected(attempts: nat)
    | SubscribeFailed
    | FrameFailed

  datatype Outcome = Live(waitingAck: bool, timerArmed: bool, ackFailures: nat) | Ended(reason: Reason)

  /** The delay before a retry, in seconds. */
  function AckBackoff(attempt: int): nat {
    var attempt := if attempt < 1 then 1 else attempt;
    var delay := attempt * 2;
    if delay > 10 then 10 else delay
  }

  // ---------------------------------------------------------------- what a history of events means

  /** An acknowledgement is outstanding: at the start, and after a retry; a success settles it. */
  predicate Waiting(es: seq<Event>) {
    if es == [] then true else
    match es[|es| - 1]
    case Acknowledged => false
    case Rejected(_, _) => true
    case _ => Waiting(es[..|es| - 1])
  }

  /** A timer that is not armed cannot fire. */
  predicate IsFailure(before: seq<Event>, e: Event) {
    e.Rejected? || (e.Timeout? && Waiting(before))
  }

  /** Failed acknowledgements since the last success. */
  function Failures(es: seq<Event>): nat {
    if es == [] || es[|es| - 1].Acknowledged? then 0
    else Failures(es[..|es| - 1]) + if IsFailure(es[..|es| - 1], es[|es| - 1]) then 1 else 0
  }

  function AllFailures(es: seq<Event>): nat {
    if es == [] then 0
    else AllFailures(es[..|es| - 1]) + if IsFailure(es[..|es| - 1], es[|es| - 1]) then 1 else 0
  }

  function Successes(es: seq<Event>): nat {
    if es == [] then 0 else Successes(es[..|es| - 1]) + if es[|es| - 1].Acknowledged? then 1 else 0
  }

  /** The delays slept for failures since the last success. */
  function Delay(failures: nat): nat {
    if failures == 0 then 0 else Delay(failures - 1) + AckBackoff(failures)
  }

  /** No history in `es` has exhausted its retries. */
  ghost predicate Patient(es: seq<Event>) {
    forall n :: 0 <= n <= |es| ==> Failures(es[..n]) < ACK_RETRY_MAX
  }

  /** Why the stream ends with event `e` after a history that has not ended it, if it does. */
  function EndingOf(stopOnAckError: bool, before: seq<Event>, e: Event): Option<Reason> {
    match e
    case CtxDone => Some(Cancelled)
    case ReadError => Some(ReadFailed)
    case ReaderClosed => Some(ReaderGone)
    case FrameError => Some(FrameFailed)
    case Acknowledged => None
    case OtherFrame => None
    case Timeout(slept, subscribed) =>
      if !Waiting(before) then None
      else if GivesUp(stopOnAckError, before) then Some(AckTimeout(Failures(before) + 1))
      else RetryEnding(slept, subscribed)
    case Rejected(slept, subscribed) =>
      if GivesUp(stopOnAckError, before) then Some(AckRejected(Failures(before) + 1))
      else RetryEnding(slept, subscribed)
  }

  /** One more failure is the last: told to stop, or the fifth in a row. */
  predicate GivesUp(stopOnAckError: bool, before: seq<Event>) {
    stopOnAckError || Failures(before) + 1 == ACK_RETRY_MAX
  }

  function RetryEnding(slept: bool, subscribed: bool): Option<Reason> {
    if !slept then Some(Cancelled) else if !subscribed then Some(SubscribeFailed) else None
  }

  /** The stream ends with a broken context, reader or frame, or with a failed acknowledgement that is the last one
      allowed or whose retry fails. */
  lemma EndsIff(stopOnAckError: bool, before: seq<Event>, e: Event)
    ensures EndingOf(stopOnAckError, before, e).Some? <==>
      || e.CtxDone? || e.ReadError? || e.ReaderClosed? || e.FrameError?
      || ((e.Rejected? || (e.Timeout? && Waiting(before))) &&
          (stopOnAckError || Failures(before) == 4 || !e.slept || !e.subscribed))
  {
    hide Waiting, Failures;
  }

  /** When it ends for which reason. */
  lemma EndsBecause(stopOnAckError: bool, before: seq<Event>, e: Event)
    ensures
      var ending, last := EndingOf(stopOnAckError, before, e), stopOnAckError || Failures(before) == 4;
      var failed := e.Rejected? || (e.Timeout? && Waiting(before));
      && (ending == Some(ReadFailed) <==> e.ReadError?)
      && (ending == Some(ReaderGone) <==> e.ReaderClosed?)
      && (ending == Some(FrameFailed) <==> e.FrameError?)
      && (ending == Some(Cancelled) <==> e.CtxDone? || (failed && !last && !e.slept))
      && (ending == Some(SubscribeFailed) <==> failed && !last && e.slept && !e.subscribed)
      && (forall n :: ending == Some(AckTimeout(n)) <==> e.Timeout? && failed && last && n == Failures(before) + 1)
      && (forall n :: ending == Some(AckRejected(n)) <==> e.Rejected? && last && n == Failures(before) + 1)
  {
    hide Waiting, Failures;
  }

  /** Nothing in the history ended the stream. */
  ghost predicate Ongoing(stopOnAckError: bool, es: seq<Event>) {
    forall n :: 0 <= n < |es| ==> EndingOf(stopOnAckError, es[..n], es[n]).None?
  }

  lemma OngoingStep(stopOnAckError: bool, es: seq<Event>, e: Event)
    ensures Ongoing(stopOnAckError, es + [e]) <==>
      Ongoing(stopOnAckError, es) && EndingOf(stopOnAckError, es, e).None?
  {
    hide EndingOf;
    var all := es + [e];
    forall n | 0 <= n < |es| ensures all[..n] == es[..n] && all[n] == es[n] {}
    assert all[..|es|] == es && all[|es|] == e;
  }

  lemma OngoingPrefix(stopOnAckError: bool, es: seq<Event>, n: nat)
    requires n <= |es|
    ensures Ongoing(stopOnAckError, es) ==> Ongoing(stopOnAckError, es[..n])
  {
    hide EndingOf;
    forall k | 0 <= k < n ensures es[..n][..k] == es[..k] && es[..n][k] == es[k] {}
  }

  /** The stream goes on exactly through histories without a broken context, reader or frame, without five failures in
      a row, and, if there is any failure, without being told to stop and with every retry slept and subscribed. */
  lemma {:induction false} OngoingIff(stopOnAckError: bool, es: seq<Event>)
    ensures Ongoing(stopOnAckError, es) <==> Patient(es) && forall n :: 0 <= n < |es| ==>
      && !es[n].CtxDone? && !es[n].ReadError? && !es[n].ReaderClosed? && !es[n].FrameError?
      && (es[n].Rejected? || (es[n].Timeout? && Waiting(es[..n])) ==>
            !stopOnAckError && es[n].slept && es[n].subscribed)
  {
    hide Waiting, Failures, Ongoing;
    NoHistory();
    if es != [] {
      var init, e := es[..|es| - 1], es[|es| - 1];
      assert es == init + [e];
      assert Patient(init) ==> Failures(init) < ACK_RETRY_MAX by { assert init[..|init|] == init; }
      hide Patient;
      OngoingIff(stopOnAckError, init);
      OngoingStep(stopOnAckError, init, e);
      OneMoreEvent(init, e);
      EndsIff(stopOnAckError, init, e);
      forall n | 0 <= n < |init| ensures init[n] == es[n] && init[..n] == es[..n] {}
    }
  }

  /** Where acknowledgements failed: rejections, and timeouts while one is outstanding. */
  ghost function FailuresAt(es: seq<Event>): (at: set<nat>)
    ensures forall i: nat :: i in at <==> i < |es| && (es[i].Rejected? || (es[i].Timeout? && Waiting(es[..i])))
  {
    set i: nat | i < |es| && (es[i].Rejected? || (es[i].Timeout? && Waiting(es[..i])))
  }

  /** Each failure is counted once. */
  lemma {:induction false} AllFailuresCount(es: seq<Event>)
    ensures AllFailures(es) == |FailuresAt(es)|
  {
    if es != [] {
      var n := |es| - 1;
      var init := es[..n];
      AllFailuresCount(init);
      forall i | 0 <= i < n ensures init[..i] == es[..i] && init[i] == es[i] {}
      assert FailuresAt(es) == FailuresAt(init) + if IsFailure(init, es[n]) then {n} else {};
      hide IsFailure, FailuresAt;
    }
  }

  /** Each success is counted once. */
  lemma {:induction false} SuccessesCount(es: seq<Event>)
    ensures Successes(es) == |set i: nat | i < |es| && es[i].Acknowledged?|
  {
    if es != [] {
      var n := |es| - 1;
      var init := es[..n];
      SuccessesCount(init);
      assert Successes(es) == Successes(init) + if es[n].Acknowledged? then 1 else 0;
      hide *;
      assert (set i: nat | i < |es| && es[i].Acknowledged?) ==
        (set i: nat | i < n && init[i].Acknowledged?) + if es[n].Acknowledged? then {n} else {};
    }
  }

  /** The failures in a row are those since the last success, or all of them if there was none. */
  lemma {:induction false} FailuresInARow(before: seq<Event>, since: seq<Event>)
    requires before == [] || before[|before| - 1].Acknowledged?
    requires forall e :: e in since ==> !e.Acknowledged?
    ensures Failures(before + since) == AllFailures(before + since) - AllFailures(before)
  {
    hide IsFailure;
    if since == [] {
      assert before + since == before;
    } else {
      var n := |since| - 1;
      assert (before + since)[..|before| + n] == before + since[..n];
      FailuresInARow(before, since[..n]);
      assert since[n] in since;
    }
  }

  /** Retries are bounded by the successes between them. */
  lemma {:induction false} FailuresPerSuccess(es: seq<Event>)
    requires Patient(es)
    ensures AllFailures(es) <= 4 * Successes(es) + Failures(es) <= 4 * (Successes(es) + 1)
  {
    assert es[..|es|] == es;
    if es != [] {
      var init := es[..|es| - 1];
      forall n | 0 <= n <= |init| ensures Failures(init[..n]) < ACK_RETRY_MAX {
        assert init[..n] == es[..n];
      }
      FailuresPerSuccess(init);
      assert init[..|init|] == init;
    }
  }

  /** Delays between two successes grow quadratically, and stay within 20 seconds. */
  lemma {:induction false} DelayBound(failures: nat)
    requires failures < ACK_RETRY_MAX
    ensures Delay(failures) == failures * (failures + 1) <= 20
  {
    if failures > 0 {
      DelayBound(failures - 1);
    }
  }

  /** More waiting only ends in a success, and only a rejection can reopen it. */
  lemma {:induction false} WaitingIff(es: seq<Event>)
    ensures Waiting(es) <==>
      forall i :: 0 <= i < |es| && es[i].Acknowledged? ==> exists j :: i < j < |es| && es[j].Rejected?
  {
    if es != [] {
      var n := |es| - 1;
      var init, e := es[..n], es[n];
      WaitingIff(init);
      forall i | 0 <= i < n ensures init[i] == es[i] {}
      if e.Acknowledged? {
        assert es[n].Acknowledged?;
      } else if e.Rejected? {
        assert es[n].Rejected?;
      } else if Waiting(init) {
        forall i | 0 <= i < |es| && es[i].Acknowledged? ensures exists j :: i < j < |es| && es[j].Rejected? {
          assert init[i].Acknowledged?;
          var j :| i < j < |init| && init[j].Rejected?;
          assert es[j].Rejected?;
        }
      } else {
        var i :| 0 <= i < |init| && init[i].Acknowledged? && !exists j :: i < j < |init| && init[j].Rejected?;
        assert es[i].Acknowledged?;
        forall j | i < j < |es| ensures !es[j].Rejected? {
          if j < n {
            assert !init[j].Rejected?;
          }
        }
      }
    }
  }

  // ---------------------------------------------------------------- the loop

  /** Runs the loop over the events `select` yields. `taken` is the part of them handled, `resubscriptions`
      counts the subscribe calls made, `slept` the seconds of delay since the last success. */
  method RunStream(events: seq<Event>, stopOnAckError: bool)
    returns (outcome: Outcome, ghost taken: seq<Event>, ghost resubscriptions: nat, ghost slept: nat)
    ensures taken <= events
    // while alive: the timer is armed exactly while waiting, and the failure count is that of the history
    ensures outcome.Live? ==>
      && taken == events
      && outcome.waitingAck == outcome.timerArmed == Waiting(taken)
      && outcome.ackFailures == Failures(taken) < ACK_RETRY_MAX
      && resubscriptions == AllFailures(taken) && slept == Delay(Failures(taken))
    // it ends with the first event that ends it, for that event's reason, and with no other
    ensures outcome.Live? <==> Ongoing(stopOnAckError, events)
    ensures outcome.Ended? ==>
      && taken != [] && Ongoing(stopOnAckError, taken[..|taken| - 1])
      && EndingOf(stopOnAckError, taken[..|taken| - 1], taken[|taken| - 1]) == Some(outcome.reason)
      && resubscriptions == AllFailures(taken[..|taken| - 1]) + if outcome.reason == SubscribeFailed then 1 else 0
    ensures outcome.Ended? ==> taken != [] && Patient(taken[..|taken| - 1])
    ensures outcome.Live? ==> Patient(taken)
    // so retries are bounded
    ensures resubscriptions <= 4 * (Successes(taken) + 1) && slept <= 20
    ensures stopOnAckError ==> resubscriptions == 0
  {
    hide Waiting, Failures, AllFailures, Successes, Patient, Delay, AckBackoff, Ongoing;
    NoHistory();
    var waitingAck, timerArmed, ackFailures := true, true, 0;
    resubscriptions, slept := 0, 0;
    for n := 0 to |events|
      invariant waitingAck == timerArmed == Waiting(events[..n])
      invariant ackFailures == Failures(events[..n]) < ACK_RETRY_MAX
      invariant Patient(events[..n]) && Ongoing(stopOnAckError, events[..n])
      invariant resubscriptions == AllFailures(events[..n]) && slept == Delay(ackFailures)
      invariant stopOnAckError ==> resubscriptions == 0
    {
      var e := events[n];
      taken := events[..n + 1];
      assert taken == events[..n] + [e] && taken[..n] == events[..n];
      OneMoreEvent(events[..n], e);
      OngoingStep(stopOnAckError, events[..n], e);
      OngoingPrefix(stopOnAckError, events, n + 1);
      FailuresPerSuccess(events[..n]);
      DelayBound(ackFailures);
      match e
      case CtxDone =>
        return Ended(Cancelled), taken, resubscriptions, slept;
      case ReadError =>
        return Ended(ReadFailed), taken, resubscriptions, slept;
      case ReaderClosed =>
        return Ended(ReaderGone), taken, resubscriptions, slept;
      case FrameError =>
        return Ended(FrameFailed), taken, resubscriptions, slept;
      case OtherFrame =>
      case Acknowledged =>
        ackFailures, slept := 0, 0;
        waitingAck, timerArmed := false, false;
      case Timeout(sleptWell, subscribed) =>
        if !waitingAck {
          continue;
        }
        ackFailures := ackFailures + 1;
        if stopOnAckError || ackFailures >= ACK_RETRY_MAX {
          return Ended(AckTimeout(ackFailures)), taken, resubscriptions, slept;
        }
        var retried: Option<Reason>;
        retried, resubscriptions, slept := Retry(ackFailures, sleptWell, subscribed, resubscriptions, slept);
        FailuresPerSuccess(taken);
        if retried.Some? {
          return Ended(retried.value), taken, resubscriptions, slept;
        }
        waitingAck, timerArmed := true, true;
      case Rejected(sleptWell, subscribed) =>
        ackFailures := ackFailures + 1;
        waitingAck, timerArmed := false, false;
        if stopOnAckError || ackFailures >= ACK_RETRY_MAX {
          return Ended(AckRejected(ackFailures)), taken, resubscriptions, slept;
        }
        var retried: Option<Reason>;
        retried, resubscriptions, slept := Retry(ackFailures, sleptWell, subscribed, resubscriptions, slept);
        FailuresPerSuccess(taken);
        if retried.Some? {
          return Ended(retried.value), taken, resubscriptions, slept;
        }
        waitingAck, timerArmed := true, true;
    }
    assert events[..|events|] == events;
    FailuresPerSuccess(events);
    DelayBound(ackFailures);
    return Live(waitingAck, timerArmed, ackFailures), events, resubscriptions, slept;
  }

  /** Sleeps, then subscribes again; a reason means the stream ends here. */
  method Retry(attempt: nat, sleptWell: bool, subscribed: bool, ghost resubscriptions0: nat, ghost slept0: nat)
    returns (ended: Option<Reason>, ghost resubscriptions: nat, ghost slept: nat)
    requires 0 < attempt < ACK_RETRY_MAX && slept0 == Delay(attempt - 1)
    ensures slept == Delay(attempt) <= 20
    ensures resubscriptions == resubscriptions0 + if sleptWell then 1 else 0
    ensures ended == RetryEnding(sleptWell, subscribed)
  {
    var delay := AckBackoff(attempt);
    slept := slept0 + delay;
    DelayBound(attempt);
    if !sleptWell {
      return Some(Cancelled), resubscriptions0, slept;
    }
    resubscriptions := resubscriptions0 + 1;
    if !subscribed {
      return Some(SubscribeFailed), resubscriptions, slept;
    }
    return None, resubscriptions, slept;
  }

  lemma NoHistory()
    ensures Waiting([]) && Failures([]) == AllFailures([]) == Successes([]) == Delay(0) == 0 && Patient([])
    ensures forall stop :: Ongoing(stop, [])
  {
  }

  /** How one more event changes what a history means. */
  lemma OneMoreEvent(es: seq<Event>, e: Event)
    ensures
      var all, failed := es + [e], if IsFailure(es, e) then 1 else 0;
      && all[..|es|] == es
      && (Waiting(all) <==> e.Rejected? || (!e.Acknowledged? && Waiting(es)))
      && Failures(all) == (if e.Acknowledged? then 0 else Failures(es) + failed)
      && AllFailures(all) == AllFailures(es) + failed
      && Successes(all) == Successes(es) + (if e.Acknowledged? then 1 else 0)
      && (Patient(all) <==> Patient(es) && Failures(all) < ACK_RETRY_MAX)
  {
    hide Patient;
    var all := es + [e];
    assert all[..|es|] == es && all[|es|] == e;
    PatientStep(es, e);
  }

  lemma PatientStep(es: seq<Event>, e: Event)
    ensures Patient(es + [e]) <==> Patient(es) && Failures(es + [e]) < ACK_RETRY_MAX
  {
    hide Failures;
    var all := es + [e];
    assert all[..|es| + 1] == all;
    forall n | 0 <= n <= |es| ensures all[..n] == es[..n] {}
  }
}
