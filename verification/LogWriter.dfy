/** The log file that never keeps more than a fixed number of lines. */
module LogWriter {
  import opened Bytes

  const NEWLINE: byte := 10
  const BUF_SIZE: nat := 8192

  function Newlines(s: seq<byte>): nat {
    if s == [] then 0 else (if s[0] == NEWLINE then 1 else 0) + Newlines(s[1..])
  }

  /** The position after the (n + 1)-th newline from the end, or 0 when there are not that many. */
  function Cut(s: seq<byte>, n: nat): (c: nat)
    ensures c <= |s|
  {
    if s == [] then 0
    else if s[|s| - 1] != NEWLINE then Cut(s[..|s| - 1], n)
    else if n == 0 then |s|
    else Cut(s[..|s| - 1], n - 1)
  }

  /** What is kept of a content: its last `maxLines` lines; a negative limit keeps everything. */
  function LastLines(s: seq<byte>, maxLines: int): seq<byte> {
    if maxLines < 0 then s else s[Cut(s, maxLines)..]
  }

  predicate AtLineStart(s: seq<byte>, k: nat) {
    k == 0 || (k <= |s| && s[k - 1] == NEWLINE)
  }

  // ---------------------------------------------------------------- meaning

  lemma {:induction false} NewlinesSplit(s: seq<byte>, k: nat)
    requires k <= |s|
    ensures Newlines(s) == Newlines(s[..k]) + Newlines(s[k..])
  {
    if k > 0 {
      NewlinesSplit(s[1..], k - 1);
      assert s[1..][..k - 1] == s[..k][1..] && s[1..][k - 1..] == s[k..];
    } else {
      assert s[..k] == [] && s[k..] == s;
    }
  }

  lemma NewlinesLast(s: seq<byte>)
    requires s != []
    ensures Newlines(s) == Newlines(s[..|s| - 1]) + if s[|s| - 1] == NEWLINE then 1 else 0
  {
    NewlinesSplit(s, |s| - 1);
    assert s[|s| - 1..] == [s[|s| - 1]] && s[|s| - 1..][1..] == [];
  }

  /** A newline with exactly n newlines behind it is where the cut is. */
  lemma {:induction false} CutAt(s: seq<byte>, n: nat, k: nat)
    requires 0 < k <= |s| && s[k - 1] == NEWLINE && Newlines(s[k..]) == n
    ensures Cut(s, n) == k
  {
    if k < |s| {
      var r := s[..|s| - 1];
      NewlinesLast(s[k..]);
      assert s[k..][..|s| - k - 1] == r[k..];
      if s[|s| - 1] == NEWLINE {
        CutAt(r, n - 1, k);
      } else {
        CutAt(r, n, k);
      }
    } else {
      assert s[k..] == [];
    }
  }

  /** Nothing is cut from a content with at most n newlines, and only then. */
  lemma {:induction false} CutNothing(s: seq<byte>, n: nat)
    ensures Cut(s, n) == 0 <==> Newlines(s) <= n
  {
    if s != [] {
      NewlinesLast(s);
      CutNothing(s[..|s| - 1], n);
      if n > 0 {
        CutNothing(s[..|s| - 1], n - 1);
      }
    }
  }

  /** A cut content is line-aligned and holds exactly n newlines. */
  lemma {:induction false} CutIsAligned(s: seq<byte>, n: nat)
    ensures AtLineStart(s, Cut(s, n))
    ensures Cut(s, n) > 0 ==> Newlines(s[Cut(s, n)..]) == n
  {
    if s != [] {
      var r, k := s[..|s| - 1], Cut(s, n);
      if s[|s| - 1] != NEWLINE {
        CutIsAligned(r, n);
      } else if n > 0 {
        CutIsAligned(r, n - 1);
      }
      if k < |s| {
        NewlinesLast(s[k..]);
        assert s[k..][..|s| - k - 1] == r[k..];
      } else {
        assert s[k..] == [];
      }
    }
  }

  /** LastLines is the longest line-aligned suffix with at most n newlines. */
  lemma LastLinesIsLongest(s: seq<byte>, n: nat, k: nat)
    requires AtLineStart(s, k) && k <= |s|
    ensures Newlines(LastLines(s, n)) <= n
    ensures LastLines(s, n) == s <==> Newlines(s) <= n
    ensures Newlines(s[k..]) <= n ==> |s[k..]| <= |LastLines(s, n)|
  {
    var c := Cut(s, n);
    CutNothing(s, n);
    CutIsAligned(s, n);
    if k < c {
      NewlinesSplit(s[k..], c - k - 1);
      assert s[k..][c - k - 1..] == s[c - 1..] && s[c - 1..][1..] == s[c..];
      assert Newlines(s[k..]) > n;
    }
  }

  // ---------------------------------------------------------------- trimming as one goes

  /** Keeping the last n lines first does not disturb keeping the last m <= n of them later. */
  lemma {:induction false} TrimEarlyCut(c: seq<byte>, p: seq<byte>, n: nat, m: nat)
    requires m <= n
    ensures LastLines(LastLines(c, n) + p, m) == LastLines(c + p, m)
    decreases |p|
  {
    hide LastLines;
    var t := LastLines(c, n);
    if p == [] {
      assert t + p == t && c + p == c;
      TrimTwice(c, n, m);
    } else {
      var q, x := p[..|p| - 1], p[|p| - 1];
      assert t + p == t + q + [x] && c + p == c + q + [x];
      if x != NEWLINE || m > 0 {
        TrimEarlyCut(c, q, n, if x == NEWLINE then m - 1 else m);
      }
      LastLinesAppend(t + q, x, m);
      LastLinesAppend(c + q, x, m);
    }
  }

  lemma LastLinesAppend(s: seq<byte>, x: byte, m: nat)
    ensures LastLines(s + [x], m) ==
      if x == NEWLINE && m == 0 then [] else LastLines(s, if x == NEWLINE then m - 1 else m) + [x]
  {
  }

  lemma TrimTwice(c: seq<byte>, n: nat, m: nat)
    requires m <= n
    ensures LastLines(LastLines(c, n), m) == LastLines(c, m)
  {
    var t, k := LastLines(c, n), Cut(c, n);
    CutNothing(c, n);
    CutIsAligned(c, n);
    CutNothing(c, m);
    CutIsAligned(c, m);
    CutNothing(t, m);
    var j := Cut(c, m);
    if k > 0 {
      LastLinesIsLongest(c, n, j);
      NewlinesSplit(c, k);
      if j > k {
        assert t[j - k..] == c[j..] && t[j - k - 1] == c[j - 1];
        CutAt(t, m, j - k);
      } else {
        assert j == k;
      }
    }
  }

  /** Trimming before an append loses nothing that trimming once afterwards would keep. */
  lemma TrimEarly(c: seq<byte>, p: seq<byte>, maxLines: int)
    ensures LastLines(LastLines(c, maxLines) + p, maxLines) == LastLines(c + p, maxLines)
  {
    if maxLines >= 0 {
      TrimEarlyCut(c, p, maxLines, maxLines);
    }
  }

  // ---------------------------------------------------------------- the writer

  class LineLimitedWriter {
    var file: seq<byte>
    const maxLines: int
    /** The content found on opening and everything written since. */
    ghost var history: seq<byte>

    ghost predicate Valid()
      reads this
    {
      file == LastLines(history, maxLines)
    }

    constructor (content: seq<byte>, maxLines: int)
      ensures Valid() && history == content && this.maxLines == maxLines
    {
      file, history := content, content;
      this.maxLines := maxLines;
      new;
      TrimUnlocked(BUF_SIZE);
    }

    method Write(p: seq<byte>) returns (n: nat)
      requires Valid()
      modifies this
      ensures Valid() && history == old(history) + p && n == |p|
    {
      file := file + p;
      n := |p|;
      TrimEarly(history, p, maxLines);
      history := history + p;
      TrimUnlocked(BUF_SIZE);
    }

    method ReadAt(buf: array<byte>, n: nat, offset: nat)
      requires n <= buf.Length && offset + n <= |file|
      modifies buf
      ensures buf[..n] == file[offset..offset + n]
    {
      forall i | 0 <= i < n {
        buf[i] := file[offset + i];
      }
    }

    /** The source reads 8192 bytes at a time; any positive buffer size will do. */
    method TrimUnlocked(bufSize: nat)
      requires bufSize > 0
      modifies this`file
      ensures file == LastLines(old(file), maxLines)
    {
      var size := |file|;
      if size <= 0 {
        return;
      }
      var offset, newlineCount, cutoff := size, 0, 0;
      var buf := new byte[bufSize];
      while offset > 0 && newlineCount <= maxLines
        invariant file == old(file) && 0 <= offset <= size
        invariant cutoff == 0 && newlineCount == Newlines(file[offset..])
        invariant maxLines >= 0 ==> newlineCount <= maxLines
        decreases offset
      {
        var readSize := bufSize;
        if readSize > offset {
          readSize := offset;
        }
        offset := offset - readSize;
        ReadAt(buf, readSize, offset);
        newlineCount, cutoff := ScanChunk(buf, readSize, offset, newlineCount);
        if cutoff != 0 {
          break;
        }
      }
      if newlineCount <= maxLines || cutoff == 0 {
        if maxLines >= 0 {
          assert file[0..] == file;
          CutNothing(file, maxLines);
        }
        return;
      }
      var tailLen := size - cutoff;
      var tail := new byte[tailLen];
      ReadAt(tail, tailLen, cutoff);
      assert tail[..] == tail[..tailLen] == file[cutoff..];
      file := [];
      file := file + tail[..];
      assert file == old(file)[cutoff..];
    }

    /** The loop over one chunk, from its last byte down. */
    method ScanChunk(buf: array<byte>, readSize: nat, offset: nat, newlineCount: nat) returns (count: nat, cutoff: nat)
      requires readSize <= buf.Length && offset + readSize <= |file|
      requires buf[..readSize] == file[offset..offset + readSize]
      requires newlineCount == Newlines(file[offset + readSize..]) <= maxLines
      ensures cutoff == 0 ==> count == Newlines(file[offset..]) <= maxLines
      ensures cutoff != 0 ==> count > maxLines && cutoff == Cut(file, maxLines)
    {
      count, cutoff := newlineCount, 0;
      var i := readSize - 1;
      while i >= 0
        invariant -1 <= i < readSize && cutoff == 0
        invariant count == Newlines(file[offset + i + 1..]) <= maxLines
      {
        assert buf[i] == buf[..readSize][i] == file[offset + i];
        assert file[offset + i..][1..] == file[offset + i + 1..];
        if buf[i] == NEWLINE {
          count := count + 1;
          if count > maxLines {
            cutoff := offset + i + 1;
            CutAt(file, maxLines, cutoff);
            break;
          }
        }
        i := i - 1;
      }
    }
  }
}
