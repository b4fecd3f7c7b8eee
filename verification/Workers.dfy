/** The pool of Redis workers: each batches its messages, all share the counters, the server and its store. */
module Workers {
  import opened ExchangeKeys
  import opened KeyMigration
  import opened Options
  import opened Pipeline
  import RedisClient

  /** The total number of elements. */
  function Total<T>(lists: seq<seq<T>>): nat {
    if lists == [] then 0 else |lists[0]| + Total(lists[1..])
  }

  lemma {:induction false} TotalUpdate<T>(lists: seq<seq<T>>, i: nat, l: seq<T>)
    requires i < |lists|
    ensures Total(lists[i := l]) == Total(lists) - |lists[i]| + |l|
  {
    if i > 0 {
      assert lists[i := l][1..] == lists[1..][i - 1 := l];
      TotalUpdate(lists[1..], i - 1, l);
    } else {
      assert lists[i := l][1..] == lists[1..];
    }
  }

  lemma {:induction false} TotalOfEmpty<T>(lists: seq<seq<T>>)
    requires forall i :: 0 <= i < |lists| ==> lists[i] == []
    ensures Total(lists) == 0
  {
    if lists != [] {
      TotalOfEmpty(lists[1..]);
    }
  }

  // ---------------------------------------------------------------- what the server has run

  /** A command with the worker that sent it. */
  datatype Sent = Sent(worker: nat, command: Command)

  function CommandsIn(log: seq<Sent>): (r: seq<Command>)
    ensures |r| == |log|
    ensures forall j :: 0 <= j < |log| ==> r[j] == log[j].command
  {
    seq(|log|, j requires 0 <= j < |log| => log[j].command)
  }

  /** One worker's part of a log. */
  function PartOf(log: seq<Sent>, i: nat): seq<Command> {
    if log == [] then []
    else PartOf(log[..|log| - 1], i) + if log[|log| - 1].worker == i then [log[|log| - 1].command] else []
  }

  function Tagged(i: nat, cmds: seq<Command>): (r: seq<Sent>)
    ensures |r| == |cmds|
    ensures forall j :: 0 <= j < |cmds| ==> r[j] == Sent(i, cmds[j])
  {
    seq(|cmds|, j requires 0 <= j < |cmds| => Sent(i, cmds[j]))
  }

  lemma PartOfOneMore(log: seq<Sent>, s: Sent, k: nat)
    ensures PartOf(log + [s], k) == PartOf(log, k) + if s.worker == k then [s.command] else []
    ensures CommandsIn(log + [s]) == CommandsIn(log) + [s.command]
  {
    assert (log + [s])[..|log|] == log;
  }

  lemma RunOneMore(m: Store, cmds: seq<Command>, c: Command)
    ensures Run(m, cmds + [c]) == Execute(Run(m, cmds), c)
  {
    assert (cmds + [c])[..|cmds|] == cmds;
  }

  lemma ExecuteAt(m: Store, c: Command, key: string)
    ensures Get(Execute(m, c), key) ==
      if c.key == key then RedisClient.Assign(Get(m, key), c.fields) else Get(m, key)
  {
  }

  /** A key that only one worker writes holds what that worker's commands alone make of it. */
  lemma {:induction false} SoleWriter(m: Store, log: seq<Sent>, i: nat, key: string)
    requires forall s :: s in log && s.command.key == key ==> s.worker == i
    ensures Get(Run(m, CommandsIn(log)), key) == Get(Run(m, PartOf(log, i)), key)
  {
    hide Run, CommandsIn, Execute;
    assert log == [] ==> CommandsIn(log) == [];
    if log != [] {
      var init, s := log[..|log| - 1], log[|log| - 1];
      assert log == init + [s] && s in log;
      SoleWriter(m, init, i, key);
      PartOfOneMore(init, s, i);
      RunOneMore(m, CommandsIn(init), s.command);
      ExecuteAt(Run(m, CommandsIn(init)), s.command, key);
      if s.worker == i {
        RunOneMore(m, PartOf(init, i), s.command);
        ExecuteAt(Run(m, PartOf(init, i)), s.command, key);
      } else {
        assert PartOf(init, i) + [] == PartOf(init, i);
      }
    }
  }

  lemma {:induction false} SoleWorker(log: seq<Sent>)
    requires forall s :: s in log ==> s.worker == 0
    ensures PartOf(log, 0) == CommandsIn(log)
  {
    if log != [] {
      var init, s := log[..|log| - 1], log[|log| - 1];
      assert log == init + [s] && s in log;
      SoleWorker(init);
      PartOfOneMore(init, s, 0);
    }
  }

  // ---------------------------------------------------------------- one worker

  /** One worker: its batch, whether it waits for a pipeline to return, the commands the server has not come to yet,
      and whether one of the pipeline's commands was refused. */
  datatype Worker = Worker(batch: seq<Entry>, flushing: bool, outstanding: seq<Command>, refused: bool)

  const IDLE := Worker([], false, [], false)

  /** What a worker has taken from the channel, the entries it has flushed, and whether all its pipelines so far ran
      whole. */
  datatype History = History(received: seq<MarketData>, flushed: seq<Entry>, clean: bool)

  const NO_HISTORY := History([], [], true)

  /** A worker's flushed entries and its batch, unless that is being flushed, are its messages' entries, in order. */
  ghost predicate InOrder(w: Worker, h: History) {
    && h.flushed + (if w.flushing then [] else w.batch) == EntriesOf(h.received)
    && (w.flushing ==> w.batch != []) && (!w.flushing ==> w.outstanding == [] && !w.refused)
    && (forall c :: c in w.outstanding ==> c in HSetsOf(h.received))
  }

  /** What the server has run for a worker and what is outstanding are the commands of its flushed entries, in order. */
  ghost predicate RunInOrder(ran: seq<Command>, w: Worker, h: History) {
    && (w.refused ==> !h.clean)
    && (h.clean ==> ran + w.outstanding == Commands(h.flushed))
  }

  ghost predicate FromMessages(s: Sent, histories: seq<History>) {
    s.worker < |histories| && s.command in HSetsOf(histories[s.worker].received)
  }

  /** All messages the workers have taken. */
  ghost function Received(histories: seq<History>): (r: seq<seq<MarketData>>)
    ensures |r| == |histories|
    ensures forall i :: 0 <= i < |histories| ==> r[i] == histories[i].received
  {
    seq(|histories|, i requires 0 <= i < |histories| => histories[i].received)
  }

  function Batches(workers: seq<Worker>): (r: seq<seq<Entry>>)
    ensures |r| == |workers|
    ensures forall i :: 0 <= i < |workers| ==> r[i] == workers[i].batch
  {
    seq(|workers|, i requires 0 <= i < |workers| => workers[i].batch)
  }

  lemma OneMoreMessage(mds: seq<MarketData>, md: MarketData)
    ensures EntriesOf(mds + [md]) == EntriesOf(mds) + EntriesFor(md)
  {
    assert (mds + [md])[..|mds|] == mds;
  }

  /** Receiving a message keeps a worker's entries in order. */
  lemma ReceiveKeeps(w: Worker, h: History, ran: seq<Command>, md: MarketData)
    requires InOrder(w, h) && RunInOrder(ran, w, h) && !w.flushing
    ensures
      var w', h' := w.(batch := w.batch + EntriesFor(md)), h.(received := h.received + [md]);
      InOrder(w', h') && RunInOrder(ran, w', h')
  {
    hide EntriesOf, EntriesFor, HSetsOf, Commands;
    OneMoreMessage(h.received, md);
    assert h.flushed + (w.batch + EntriesFor(md)) == h.flushed + w.batch + EntriesFor(md);
  }

  /** Sending a batch flushes its entries; every command sent is one of a message received. */
  lemma SendKeeps(w: Worker, h: History, ran: seq<Command>)
    requires InOrder(w, h) && RunInOrder(ran, w, h) && !w.flushing && w.batch != []
    ensures
      var w' := Worker(w.batch, true, Commands(w.batch), false);
      var h' := h.(flushed := h.flushed + w.batch);
      InOrder(w', h') && RunInOrder(ran, w', h')
  {
    hide EntriesOf, HSetsOf, Commands;
    CommandsConcat(h.flushed, w.batch);
    MessagesCommands(h.received);
    assert forall c :: c in Commands(w.batch) ==> c in Commands(h.flushed) + Commands(w.batch);
    assert ran + [] == ran;
  }

  /** The server comes to the head of a worker's outstanding commands, and runs or refuses it. */
  lemma ServeKeeps(w: Worker, h: History, ran: seq<Command>, accepted: bool)
    requires InOrder(w, h) && RunInOrder(ran, w, h) && w.outstanding != []
    ensures
      var w' := w.(outstanding := w.outstanding[1..], refused := w.refused || !accepted);
      var h' := h.(clean := h.clean && accepted);
      InOrder(w', h') && RunInOrder(ran + if accepted then [w.outstanding[0]] else [], w', h')
  {
    hide EntriesOf, HSetsOf, Commands;
    assert ran + [w.outstanding[0]] + w.outstanding[1..] == ran + w.outstanding;
  }

  /** A pipeline returns; after an error what it had outstanding is abandoned. */
  lemma ReturnKeeps(w: Worker, h: History, ran: seq<Command>, err: bool)
    requires InOrder(w, h) && RunInOrder(ran, w, h) && w.flushing
    requires !err ==> w.outstanding == [] && !w.refused
    ensures InOrder(IDLE, h.(clean := h.clean && !err)) && RunInOrder(ran, IDLE, h.(clean := h.clean && !err))
  {
    hide EntriesOf, HSetsOf, Commands;
    assert h.flushed + [] == h.flushed;
  }

  // ---------------------------------------------------------------- the pool

  /** Every worker is in order with what the server has run. */
  ghost predicate WorkersOk(workers: seq<Worker>, histories: seq<History>, executed: seq<Sent>) {
    && |histories| == |workers|
    && (forall i :: 0 <= i < |workers| ==> InOrder(workers[i], histories[i]))
    && forall i :: 0 <= i < |workers| ==> RunInOrder(PartOf(executed, i), workers[i], histories[i])
  }

  /** Every command of a log was sent for a message. */
  ghost predicate AllFromMessages(log: seq<Sent>, histories: seq<History>) {
    forall s :: s in log ==> FromMessages(s, histories)
  }

  /** Only a failed pipeline abandons commands. */
  ghost predicate AllUnclean(abandoned: seq<Sent>, histories: seq<History>) {
    forall s :: s in abandoned ==> s.worker < |histories| && !histories[s.worker].clean
  }

  lemma {:induction false} HSetsStay(mds: seq<MarketData>, more: seq<MarketData>)
    requires mds <= more
    ensures forall c :: c in HSetsOf(mds) ==> c in HSetsOf(more)
    decreases |more|
  {
    hide HSetsFor;
    if mds != more {
      assert mds <= more[..|more| - 1];
      HSetsStay(mds, more[..|more| - 1]);
    }
  }

  lemma MessagesStay(s: Sent, histories: seq<History>, i: nat, h: History)
    requires i < |histories| && histories[i].received <= h.received && FromMessages(s, histories)
    ensures FromMessages(s, histories[i := h])
  {
    hide HSetsOf;
    HSetsStay(histories[i].received, h.received);
  }

  lemma LogStays(log: seq<Sent>, histories: seq<History>, i: nat, h: History)
    requires i < |histories| && histories[i].received <= h.received && AllFromMessages(log, histories)
    ensures AllFromMessages(log, histories[i := h])
  {
    hide FromMessages;
    forall s | s in log ensures FromMessages(s, histories[i := h]) {
      MessagesStay(s, histories, i, h);
    }
  }

  /** A step of one worker keeps all of them in order. */
  lemma WorkersStep(workers: seq<Worker>, histories: seq<History>, executed: seq<Sent>,
                    i: nat, w: Worker, h: History, executed': seq<Sent>)
    requires WorkersOk(workers, histories, executed) && i < |workers|
    requires InOrder(w, h) && RunInOrder(PartOf(executed', i), w, h)
    requires forall k :: 0 <= k < |workers| && k != i ==> PartOf(executed', k) == PartOf(executed, k)
    ensures WorkersOk(workers[i := w], histories[i := h], executed')
  {
    hide InOrder, RunInOrder, PartOf;
  }

  lemma LogGrows(log: seq<Sent>, histories: seq<History>, more: seq<Sent>)
    requires AllFromMessages(log, histories) && AllFromMessages(more, histories)
    ensures AllFromMessages(log + more, histories)
  {
    hide FromMessages;
  }

  lemma OutstandingIsSent(w: Worker, histories: seq<History>, i: nat)
    requires i < |histories| && InOrder(w, histories[i])
    ensures AllFromMessages(Tagged(i, w.outstanding), histories)
  {
    hide HSetsOf, EntriesOf;
  }

  lemma PartsAfter(executed: seq<Sent>, s: Sent)
    ensures PartOf(executed + [s], s.worker) == PartOf(executed, s.worker) + [s.command]
    ensures forall k :: k != s.worker ==> PartOf(executed + [s], k) == PartOf(executed, k)
  {
    forall k: nat
      ensures PartOf(executed + [s], k) ==
        if s.worker == k then PartOf(executed, k) + [s.command] else PartOf(executed, k)
    {
      PartOfOneMore(executed, s, k);
      assert PartOf(executed, k) + [] == PartOf(executed, k);
    }
  }

  /** What the server has run, and what it may still run, given what the workers have done. */
  ghost predicate Logged(workers: seq<Worker>, histories: seq<History>, executed: seq<Sent>, abandoned: seq<Sent>,
                         found: Store, store: Store)
  {
    && WorkersOk(workers, histories, executed)
    && store == Run(found, CommandsIn(executed))
    && AllFromMessages(executed, histories)
    && AllFromMessages(abandoned, histories) && AllUnclean(abandoned, histories)
  }

  /** A step of one worker that the server takes no part in. */
  lemma WorkerLogged(workers: seq<Worker>, histories: seq<History>, executed: seq<Sent>, abandoned: seq<Sent>,
                     found: Store, store: Store, i: nat, w: Worker, h: History)
    requires Logged(workers, histories, executed, abandoned, found, store) && i < |workers|
    requires InOrder(w, h) && RunInOrder(PartOf(executed, i), w, h)
    requires histories[i].received <= h.received && (h.clean ==> histories[i].clean)
    ensures Logged(workers[i := w], histories[i := h], executed, abandoned, found, store)
  {
    hide InOrder, RunInOrder, AllFromMessages, Run;
    WorkersStep(workers, histories, executed, i, w, h, executed);
    LogStays(executed, histories, i, h);
    LogStays(abandoned, histories, i, h);
  }

  lemma ReceiveLogged(workers: seq<Worker>, histories: seq<History>, executed: seq<Sent>, abandoned: seq<Sent>,
                      found: Store, store: Store, i: nat, md: MarketData)
    requires Logged(workers, histories, executed, abandoned, found, store) && i < |workers| && !workers[i].flushing
    ensures
      var w, h := workers[i], histories[i];
      Logged(workers[i := w.(batch := w.batch + EntriesFor(md))], histories[i := h.(received := h.received + [md])],
             executed, abandoned, found, store)
  {
    hide InOrder, RunInOrder, AllFromMessages, AllUnclean, Run, EntriesFor;
    var w, h := workers[i], histories[i];
    ReceiveKeeps(w, h, PartOf(executed, i), md);
    WorkerLogged(workers, histories, executed, abandoned, found, store, i, w.(batch := w.batch + EntriesFor(md)),
                 h.(received := h.received + [md]));
  }

  lemma StartLogged(workers: seq<Worker>, histories: seq<History>, executed: seq<Sent>, abandoned: seq<Sent>,
                    found: Store, store: Store, i: nat)
    requires Logged(workers, histories, executed, abandoned, found, store) && i < |workers|
    requires !workers[i].flushing && workers[i].batch != []
    ensures
      var b, h := workers[i].batch, histories[i];
      Logged(workers[i := Worker(b, true, Commands(b), false)], histories[i := h.(flushed := h.flushed + b)],
             executed, abandoned, found, store)
  {
    hide InOrder, RunInOrder, AllFromMessages, AllUnclean, Run;
    SendKeeps(workers[i], histories[i], PartOf(executed, i));
    var b, h := workers[i].batch, histories[i];
    WorkerLogged(workers, histories, executed, abandoned, found, store, i, Worker(b, true, Commands(b), false),
                 h.(flushed := h.flushed + b));
  }

  lemma ServeLogged(workers: seq<Worker>, histories: seq<History>, executed: seq<Sent>, abandoned: seq<Sent>,
                    found: Store, store: Store, i: nat)
    requires Logged(workers, histories, executed, abandoned, found, store) && i < |workers|
    requires workers[i].outstanding != []
    ensures
      var w, c := workers[i], workers[i].outstanding[0];
      Logged(workers[i := w.(outstanding := w.outstanding[1..])], histories, executed + [Sent(i, c)], abandoned,
             found, Execute(store, c))
  {
    hide InOrder, RunInOrder, AllFromMessages, Run, Execute;
    var w, c := workers[i], workers[i].outstanding[0];
    ServeKeeps(w, histories[i], PartOf(executed, i), true);
    PartsAfter(executed, Sent(i, c));
    WorkersStep(workers, histories, executed, i, w.(outstanding := w.outstanding[1..]), histories[i],
                executed + [Sent(i, c)]);
    assert histories[i := histories[i]] == histories;
    OutstandingIsSent(w, histories, i);
    HeadFromMessages(i, w.outstanding, histories);
    LogGrows(executed, histories, [Sent(i, c)]);
    PartOfOneMore(executed, Sent(i, c), i);
    RunOneMore(found, CommandsIn(executed), c);
  }

  lemma HeadFromMessages(i: nat, cmds: seq<Command>, histories: seq<History>)
    requires cmds != [] && AllFromMessages(Tagged(i, cmds), histories)
    ensures AllFromMessages([Sent(i, cmds[0])], histories)
  {
    hide FromMessages;
    assert Tagged(i, cmds)[0] == Sent(i, cmds[0]);
  }

  lemma RefuseLogged(workers: seq<Worker>, histories: seq<History>, executed: seq<Sent>, abandoned: seq<Sent>,
                     found: Store, store: Store, i: nat)
    requires Logged(workers, histories, executed, abandoned, found, store) && i < |workers|
    requires workers[i].outstanding != []
    ensures
      var w := workers[i];
      Logged(workers[i := w.(outstanding := w.outstanding[1..], refused := true)],
             histories[i := histories[i].(clean := false)], executed, abandoned, found, store)
  {
    hide InOrder, RunInOrder, AllFromMessages, AllUnclean, Run;
    var w := workers[i];
    ServeKeeps(w, histories[i], PartOf(executed, i), false);
    assert PartOf(executed, i) + [] == PartOf(executed, i);
    WorkerLogged(workers, histories, executed, abandoned, found, store, i,
                 w.(outstanding := w.outstanding[1..], refused := true), histories[i].(clean := false));
  }

  lemma AbandonedLogged(workers: seq<Worker>, histories: seq<History>, executed: seq<Sent>, abandoned: seq<Sent>,
                        found: Store, store: Store, s: Sent)
    requires Logged(workers, histories, executed, abandoned, found, store) && s in abandoned
    ensures Logged(workers, histories, executed + [s], abandoned, found, Execute(store, s.command))
  {
    hide InOrder, FromMessages, Run, Execute;
    var i := s.worker;
    PartsAfter(executed, s);
    WorkersStep(workers, histories, executed, i, workers[i], histories[i], executed + [s]);
    assert workers[i := workers[i]] == workers && histories[i := histories[i]] == histories;
    PartOfOneMore(executed, s, i);
    RunOneMore(found, CommandsIn(executed), s.command);
  }

  lemma DroppedLogged(workers: seq<Worker>, histories: seq<History>, executed: seq<Sent>, abandoned: seq<Sent>,
                      found: Store, store: Store, fewer: seq<Sent>)
    requires Logged(workers, histories, executed, abandoned, found, store) && forall s :: s in fewer ==> s in abandoned
    ensures Logged(workers, histories, executed, fewer, found, store)
  {
    hide WorkersOk, FromMessages, Run;
  }

  lemma EndLogged(workers: seq<Worker>, histories: seq<History>, executed: seq<Sent>, abandoned: seq<Sent>,
                  found: Store, store: Store, i: nat, err: bool)
    requires Logged(workers, histories, executed, abandoned, found, store) && i < |workers|
    requires workers[i].flushing && (!err ==> workers[i].outstanding == [] && !workers[i].refused)
    ensures
      var h := histories[i];
      Logged(workers[i := IDLE], histories[i := h.(clean := h.clean && !err)], executed,
             abandoned + Tagged(i, workers[i].outstanding), found, store)
  {
    hide InOrder, RunInOrder, AllFromMessages, Run;
    var w, h := workers[i], histories[i];
    var h' := h.(clean := h.clean && !err);
    ReturnKeeps(w, h, PartOf(executed, i), err);
    WorkerLogged(workers, histories, executed, abandoned, found, store, i, IDLE, h');
    OutstandingIsSent(w, histories, i);
    LogStays(Tagged(i, w.outstanding), histories, i, h');
    LogGrows(abandoned, histories[i := h'], Tagged(i, w.outstanding));
  }

  lemma IdleWorker(workers: seq<Worker>, histories: seq<History>, executed: seq<Sent>, i: nat)
    requires WorkersOk(workers, histories, executed) && i < |workers|
    ensures workers[i].outstanding != [] || workers[i].refused ==> workers[i].flushing
    ensures workers[i].flushing ==> workers[i].batch != []
    ensures !workers[i].flushing ==> workers[i] == Worker(workers[i].batch, false, [], false)
  {
    hide HSetsOf, EntriesOf, RunInOrder;
    assert InOrder(workers[i], histories[i]);
  }

  /** Every entry is counted once: written, failed, or in a batch. While no error is reported, every pipeline that has
      returned ran whole. */
  ghost predicate Counted(workers: seq<Worker>, histories: seq<History>, processed: nat, ops: nat, errors: nat,
                          failed: nat)
  {
    && |workers| == |histories|
    && processed == Total(Received(histories))
    && ops + failed + Total(Batches(workers)) == 2 * processed
    && (failed == 0 <==> errors == 0)
    && (errors == 0 ==> forall i :: 0 <= i < |workers| ==> histories[i].clean || workers[i].refused)
  }

  /** How the sums change with one worker. */
  lemma SumsAfter(workers: seq<Worker>, histories: seq<History>, i: nat, w: Worker, h: History)
    requires |workers| == |histories| && i < |workers|
    ensures Total(Batches(workers[i := w])) == Total(Batches(workers)) - |workers[i].batch| + |w.batch|
    ensures Total(Received(histories[i := h])) == Total(Received(histories)) - |histories[i].received| + |h.received|
  {
    TotalUpdate(Batches(workers), i, w.batch);
    TotalUpdate(Received(histories), i, h.received);
    assert Batches(workers[i := w]) == Batches(workers)[i := w.batch];
    assert Received(histories[i := h]) == Received(histories)[i := h.received];
  }

  class WorkerPool {
    const pipelineSize: nat
    var workers: seq<Worker>
    /** Commands of failed pipelines that may still reach the server, in any order, or never. */
    var abandoned: seq<Sent>
    var store: Store
    var totalProcessed: nat
    var totalRedisOps: nat
    var totalRedisErrors: nat
    var perExchange: map<string, nat>

    ghost var histories: seq<History>
    /** The entries of failed flushes. */
    ghost var failed: nat
    /** Every command the server has run, on top of the store found at the start. */
    ghost var executed: seq<Sent>
    ghost const found: Store

    ghost predicate Valid()
      reads this
    {
      // no batch waits once it has reached the pipeline size
      && Consistent() && forall i :: 0 <= i < |workers| ==> workers[i].flushing || |workers[i].batch| < pipelineSize
    }

    ghost predicate Consistent()
      reads this
    {
      && pipelineSize > 0
      && Logged(workers, histories, executed, abandoned, found, store)
      && Counted(workers, histories, totalProcessed, totalRedisOps, totalRedisErrors, failed)
    }

    constructor (numWorkers: int, size: int, store: Store)
      ensures Valid() && executed == [] && abandoned == [] && this.store == found == store
      ensures |workers| == if numWorkers <= 0 then 8 else numWorkers
      ensures |histories| == |workers|
      ensures forall i :: 0 <= i < |workers| ==> workers[i] == IDLE && histories[i] == NO_HISTORY
      ensures totalProcessed == totalRedisOps == totalRedisErrors == failed == 0 && perExchange == map[]
      ensures pipelineSize == (if size <= 0 then 300 else size)
    {
      var n := if numWorkers <= 0 then 8 else numWorkers;
      pipelineSize := if size <= 0 then 300 else size;
      workers := seq(n, _ => IDLE);
      this.store, found, abandoned := store, store, [];
      totalProcessed, totalRedisOps, totalRedisErrors, perExchange := 0, 0, 0, map[];
      histories, failed, executed := seq(n, _ => NO_HISTORY), 0, [];
      new;
      hide EntriesFor, HSetsFor;
      TotalOfEmpty(Batches(workers));
      TotalOfEmpty(Received(histories));
    }

    /** Worker i starts to flush: its batch goes onto a pipeline, and the worker waits for it to return. */
    method StartFlush(i: nat)
      requires Consistent() && i < |workers| && !workers[i].flushing
      modifies `workers, `histories
      ensures Consistent()
      ensures
        var b, h := old(workers)[i].batch, old(histories)[i];
        if b == [] then workers == old(workers) && histories == old(histories)
        else
          && workers == old(workers)[i := Worker(b, true, Commands(b), false)]
          && histories == old(histories)[i := h.(flushed := h.flushed + b)]
    {
      hide WorkersOk, AllFromMessages, AllUnclean, Run, Total;
      var batch := workers[i].batch;
      if |batch| == 0 {
        return;
      }
      var cmds := QueueBatch(batch);
      IdleWorker(workers, histories, executed, i);
      StartLogged(workers, histories, executed, abandoned, found, store, i);
      ghost var h := histories[i].(flushed := histories[i].flushed + batch);
      SumsAfter(workers, histories, i, Worker(batch, true, cmds, false), h);
      workers, histories := workers[i := Worker(batch, true, cmds, false)], histories[i := h];
    }

    /** The server comes to the next command of worker i's pipeline, and runs or refuses it. */
    method Serve(i: nat, accepted: bool)
      requires Valid() && i < |workers| && workers[i].outstanding != []
      modifies `workers, `store, `histories, `executed
      ensures Valid()
      ensures
        var w, h := old(workers)[i], old(histories)[i];
        && workers == old(workers)[i := w.(outstanding := w.outstanding[1..], refused := w.refused || !accepted)]
        && histories == old(histories)[i := h.(clean := h.clean && accepted)]
        && executed == old(executed) + (if accepted then [Sent(i, w.outstanding[0])] else [])
        && store == if accepted then Execute(old(store), w.outstanding[0]) else old(store)
    {
      hide WorkersOk, AllFromMessages, AllUnclean, Run, Total, Execute;
      var w := workers[i];
      var w' := w.(outstanding := w.outstanding[1..], refused := w.refused || !accepted);
      ghost var h := histories[i].(clean := histories[i].clean && accepted);
      IdleWorker(workers, histories, executed, i);
      SumsAfter(workers, histories, i, w', h);
      if accepted {
        ServeLogged(workers, histories, executed, abandoned, found, store, i);
        assert histories[i := h] == histories;
        store, executed := Execute(store, w.outstanding[0]), executed + [Sent(i, w.outstanding[0])];
      } else {
        RefuseLogged(workers, histories, executed, abandoned, found, store, i);
      }
      workers, histories := workers[i := w'], histories[i := h];
    }

    /** The server comes to a command of a failed pipeline after all. */
    method ServeAbandoned(j: nat, accepted: bool)
      requires Valid() && j < |abandoned|
      modifies `abandoned, `store, `executed
      ensures Valid() && abandoned == old(abandoned)[..j] + old(abandoned)[j + 1..]
      ensures executed == old(executed) + if accepted then [old(abandoned)[j]] else []
      ensures store == if accepted then Execute(old(store), old(abandoned)[j].command) else old(store)
    {
      hide Logged, Counted, Execute;
      var s := abandoned[j];
      var fewer := abandoned[..j] + abandoned[j + 1..];
      if accepted {
        AbandonedLogged(workers, histories, executed, abandoned, found, store, s);
        store, executed := Execute(store, s.command), executed + [s];
      }
      DroppedLogged(workers, histories, executed, abandoned, found, store, fewer);
      abandoned := fewer;
    }

    /** Worker i's pipeline returns. It succeeds only when the server has run all of it; after an error what was
        outstanding may be lost, or reach the server later. */
    method EndFlush(i: nat, err: bool)
      requires Valid() && i < |workers| && workers[i].flushing
      requires !err ==> workers[i].outstanding == [] && !workers[i].refused
      modifies `workers, `abandoned, `totalRedisOps, `totalRedisErrors, `histories, `failed
      ensures Valid() && workers == old(workers)[i := IDLE]
      ensures histories == old(histories)[i := old(histories)[i].(clean := old(histories)[i].clean && !err)]
      ensures totalRedisOps == old(totalRedisOps) + if err then 0 else |old(workers)[i].batch|
      ensures totalRedisErrors == old(totalRedisErrors) + if err then 1 else 0
      ensures failed == old(failed) + if err then |old(workers)[i].batch| else 0
      ensures abandoned == old(abandoned) + Tagged(i, old(workers)[i].outstanding)
    {
      hide WorkersOk, AllFromMessages, AllUnclean, Run, Total, Tagged;
      var w := workers[i];
      ghost var h := histories[i].(clean := histories[i].clean && !err);
      IdleWorker(workers, histories, executed, i);
      EndLogged(workers, histories, executed, abandoned, found, store, i, err);
      SumsAfter(workers, histories, i, IDLE, h);
      if err {
        totalRedisErrors := totalRedisErrors + 1;
        failed := failed + |w.batch|;
      } else {
        totalRedisOps := totalRedisOps + |w.batch|;
      }
      abandoned := abandoned + Tagged(i, w.outstanding);
      workers, histories := workers[i := IDLE], histories[i := h];
    }

    /** Worker i, not flushing, takes a message from the channel. */
    method Receive(i: nat, md: MarketData)
      requires Valid() && i < |workers| && !workers[i].flushing
      modifies `workers, `totalProcessed, `perExchange, `histories
      ensures Valid()
      ensures workers ==
        var b := old(workers)[i].batch + EntriesFor(md);
        var sends := |b| >= pipelineSize;
        old(workers)[i := Worker(b, sends, if sends then Commands(b) else [], false)]
      ensures Received(histories) == Received(old(histories))[i := old(histories)[i].received + [md]]
      ensures totalProcessed == old(totalProcessed) + 1
      ensures perExchange == old(perExchange)[md.exchange :=
        1 + if md.exchange in old(perExchange) then old(perExchange)[md.exchange] else 0]
    {
      hide WorkersOk, InOrder, RunInOrder, AllFromMessages, AllUnclean, Run, Total, EntryFor, RawKey, CanonKey;
      var w := workers[i];
      var entryRaw := EntryFor(RawKey(md), md);
      var entryCanon := EntryFor(CanonKey(md), md);
      var batch := w.batch + [entryRaw];
      batch := batch + [entryCanon];
      assert batch == w.batch + EntriesFor(md);
      ghost var h := histories[i].(received := histories[i].received + [md]);
      IdleWorker(workers, histories, executed, i);
      ReceiveLogged(workers, histories, executed, abandoned, found, store, i, md);
      SumsAfter(workers, histories, i, w.(batch := batch), h);
      workers, histories := workers[i := w.(batch := batch)], histories[i := h];
      totalProcessed := totalProcessed + 1;
      perExchange := perExchange[md.exchange := 1 + if md.exchange in perExchange then perExchange[md.exchange] else 0];
      if |batch| >= pipelineSize {
        StartFlush(i);
      }
    }

    /** Worker i's timer fires, or its channel is closed: the pending batch goes out. */
    method Tick(i: nat)
      requires Valid() && i < |workers| && !workers[i].flushing
      modifies `workers, `histories
      ensures Valid() && Received(histories) == Received(old(histories))
      ensures
        var b := old(workers)[i].batch;
        workers == if b == [] then old(workers) else old(workers)[i := Worker(b, true, Commands(b), false)]
    {
      hide InOrder, RunInOrder, AllFromMessages, AllUnclean, Run, Total;
      StartFlush(i);
      assert Received(histories) == Received(old(histories));
    }
  }

  // ---------------------------------------------------------------- what the store is worth

  /** Nothing is left in a batch or on its way. */
  ghost predicate Drained(pool: WorkerPool)
    reads pool
  {
    forall i :: 0 <= i < |pool.workers| ==> pool.workers[i] == IDLE
  }

  /** Batching is invisible: once everything is flushed, without errors, the store is that of some interleaving of
      the workers' single HSETs, each worker's in the order of its messages. */
  lemma BatchingIsInvisible(pool: WorkerPool)
    requires pool.Valid() && Drained(pool) && pool.totalRedisErrors == 0
    ensures pool.store == Run(pool.found, CommandsIn(pool.executed))
    ensures forall s :: s in pool.executed ==> s.worker < |pool.workers|
    ensures forall i :: 0 <= i < |pool.workers| ==> PartOf(pool.executed, i) == HSetsOf(pool.histories[i].received)
    ensures pool.totalRedisOps == 2 * pool.totalProcessed
  {
    hide HSetsOf, Run, EntriesOf;
    TotalOfEmpty(Batches(pool.workers));
    forall i | 0 <= i < |pool.workers|
      ensures PartOf(pool.executed, i) == HSetsOf(pool.histories[i].received)
    {
      var h := pool.histories[i];
      assert InOrder(pool.workers[i], h) && RunInOrder(PartOf(pool.executed, i), pool.workers[i], h);
      assert h.flushed + [] == h.flushed && PartOf(pool.executed, i) + [] == PartOf(pool.executed, i);
      MessagesCommands(h.received);
    }
  }

  lemma {:induction false} HSetOrigin(mds: seq<MarketData>, c: Command)
    requires c in HSetsOf(mds)
    ensures exists md :: md in mds && c in HSetsFor(md)
  {
    var init, md := mds[..|mds| - 1], mds[|mds| - 1];
    assert md in mds;
    if c !in HSetsFor(md) {
      HSetOrigin(init, c);
    }
  }

  /** A message of some worker that writes the key. */
  ghost predicate Writes(pool: WorkerPool, i: nat, md: MarketData, key: string)
    reads pool
  {
    i < |pool.histories| && md in pool.histories[i].received && (key == RawKey(md) || key == CanonKey(md))
  }

  lemma ExecutedWrites(pool: WorkerPool, s: Sent) returns (md: MarketData)
    requires pool.Valid() && s in pool.executed
    ensures Writes(pool, s.worker, md, s.command.key) && s.command.fields == FieldsFor(md)
  {
    hide HSetsOf, RawKey, CanonKey, FieldsFor, Run, WorkersOk, AllUnclean, Counted;
    assert FromMessages(s, pool.histories);
    HSetOrigin(pool.histories[s.worker].received, s.command);
    md :| md in pool.histories[s.worker].received && s.command in HSetsFor(md);
  }

  lemma LastExecuted(pool: WorkerPool, key: string)
    requires pool.Valid()
    ensures
      match LastFor(CommandsIn(pool.executed), key)
      case None => Get(pool.store, key) == Get(pool.found, key)
      case Some(c) => Get(pool.store, key) == RedisClient.Assign(Get(pool.found, key), c.fields)
  {
    hide Writes, FieldsFor, WorkersOk, AllFromMessages, AllUnclean, Counted, Run;
    var cmds := CommandsIn(pool.executed);
    forall c | c in cmds ensures WritesQuote(c) {
      var j :| 0 <= j < |cmds| && cmds[j] == c;
      var md := ExecutedWrites(pool, pool.executed[j]);
    }
    LastQuoteWins(pool.found, cmds, key);
  }

  lemma LastMessage(pool: WorkerPool, key: string) returns (md: MarketData)
    requires pool.Valid() && LastFor(CommandsIn(pool.executed), key).Some?
    ensures LastFor(CommandsIn(pool.executed), key).value.fields == FieldsFor(md)
    ensures exists i :: Writes(pool, i, md, key)
  {
    hide Writes, FieldsFor, WorkersOk, AllFromMessages, AllUnclean, Counted, Run;
    var cmds := CommandsIn(pool.executed);
    var j :| 0 <= j < |cmds| && cmds[j] == LastFor(cmds, key).value;
    md := ExecutedWrites(pool, pool.executed[j]);
  }

  /** At any moment, whatever the interleaving and whatever has failed, a hash holds either what was found there, or
      on top of that exactly one message: the four fields of different messages are never mixed. */
  lemma QuotesAreNeverTorn(pool: WorkerPool, key: string)
    requires pool.Valid()
    ensures Get(pool.store, key) == Get(pool.found, key) ||
      exists i, md :: Writes(pool, i, md, key) &&
        Get(pool.store, key) == RedisClient.Assign(Get(pool.found, key), FieldsFor(md))
  {
    hide Writes, FieldsFor, WorkersOk, AllFromMessages, AllUnclean, Counted, Run;
    LastExecuted(pool, key);
    if LastFor(CommandsIn(pool.executed), key).Some? {
      var md := LastMessage(pool, key);
    }
  }

  /** A key that only one worker's messages write ends up as that worker's messages alone leave it, in order: the
      others do not interfere. */
  lemma OthersDoNotInterfere(pool: WorkerPool, i: nat, key: string)
    requires pool.Valid() && Drained(pool) && pool.totalRedisErrors == 0 && i < |pool.workers|
    requires forall k, md :: Writes(pool, k, md, key) ==> k == i
    ensures Get(pool.store, key) == Get(Run(pool.found, HSetsOf(pool.histories[i].received)), key)
  {
    hide Writes, Run, HSetsOf;
    BatchingIsInvisible(pool);
    forall s | s in pool.executed && s.command.key == key ensures s.worker == i {
      var md := ExecutedWrites(pool, s);
    }
    SoleWriter(pool.found, pool.executed, i, key);
  }

  /** A single worker, once everything is flushed, has written its messages' HSETs, in order. */
  lemma OneWorkerWritesItsMessages(pool: WorkerPool)
    requires pool.Valid() && Drained(pool) && pool.totalRedisErrors == 0 && |pool.workers| == 1
    ensures pool.store == Run(pool.found, HSetsOf(pool.histories[0].received))
  {
    hide Run, HSetsOf, WorkersOk, Counted, AllFromMessages, AllUnclean;
    BatchingIsInvisible(pool);
    SoleWorker(pool.executed);
  }

  // ---------------------------------------------------------------- what a migration finds

  /** The message's time is one fmt.Sprint renders from a non-negative int64. */
  ghost predicate Stamped(md: MarketData) {
    exists n: nat :: n < 0x8000_0000_0000_0000 && md.timestamp == Decimal(n)
  }

  /** Every hash is a quote, and none is empty. */
  ghost predicate QuotesOnly(m: Store) {
    forall k :: k in m ==> m[k] != map[] && Quoted(m[k])
  }

  lemma StampedHashIsQuoted(h: Hash, md: MarketData)
    requires Stamped(md)
    ensures Quoted(RedisClient.Assign(h, FieldsFor(md))) && RedisClient.Assign(h, FieldsFor(md)) != map[]
  {
    hide Decimal, ParseInt, FieldsFor, RedisClient.Assign;
    var n: nat :| n < 0x8000_0000_0000_0000 && md.timestamp == Decimal(n);
    TimestampRoundTrip(n);
    AssignFour(h, md);
    assert "price" in RedisClient.Assign(h, FieldsFor(md));
  }

  lemma {:induction false} WrittenKeys(m: Store, cmds: seq<Command>, key: string)
    requires key in Run(m, cmds)
    ensures key in m || LastFor(cmds, key).Some?
  {
    if cmds != [] && cmds[|cmds| - 1].key != key {
      WrittenKeys(m, cmds[..|cmds| - 1], key);
    }
  }

  /** At any moment a store of quotes that stamped messages are written to is one. */
  lemma WorkersWriteQuotes(pool: WorkerPool)
    requires pool.Valid() && QuotesOnly(pool.found)
    requires forall i, md :: 0 <= i < |pool.histories| && md in pool.histories[i].received ==> Stamped(md)
    ensures QuotesOnly(pool.store)
  {
    hide RawKey, CanonKey, FieldsFor, WorkersOk, AllFromMessages, AllUnclean, Counted, Run, Stamped, Quoted;
    var cmds := CommandsIn(pool.executed);
    forall key | key in pool.store ensures pool.store[key] != map[] && Quoted(pool.store[key]) {
      WrittenKeys(pool.found, cmds, key);
      LastExecuted(pool, key);
      if LastFor(cmds, key).Some? {
        var md := LastMessage(pool, key);
        StampedHashIsQuoted(Get(pool.found, key), md);
      }
    }
  }

  /** So normalizing such a store leaves each settled key with the newest of what its group's scan brings to it. */
  lemma NormalizingKeepsNewest(pool: WorkerPool, prices: seq<string>, canons: seq<string>, g: Group, x: string)
    requires pool.Valid() && QuotesOnly(pool.found)
    requires forall i, md :: 0 <= i < |pool.histories| && md in pool.histories[i].received ==> Stamped(md)
    requires InGroup(g, x) && !Moves(g, x)
    requires (forall k :: k in prices ==> InGroup(Price, k)) && forall k :: k in canons ==> InGroup(PriceCanon, k)
    requires
      var keys := if g.Price? then prices else canons;
      exists s :: Contributes(g, pool.store, keys, s, x)
    ensures
      var keys, after := if g.Price? then prices else canons, NormalizeExchangeKeys(pool.store, prices, canons);
      x in after && HoldsNewest(g, pool.store, keys, x, after[x])
  {
    hide Stamped, InGroup, Moves, HoldsNewest, NormalizeExchangeKeys, WorkerPool.Valid, Quoted, FeedsInto;
    WorkersWriteQuotes(pool);
    RunKeepsNewest(pool.store, prices, canons, g, x);
  }
}
