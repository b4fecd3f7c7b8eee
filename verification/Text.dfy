/** ASCII string operations of Go's `strings` package that the connectors rely on. */
module Text {

  /** Go's unicode.IsSpace, restricted to ASCII. */
  predicate IsSpace(c: char) {
    c == ' ' || '\t' <= c <= '\r'
  }

  function UpperChar(c: char): char {
    if 'a' <= c <= 'z' then c - 'a' + 'A' else c
  }

  function LowerChar(c: char): char {
    if 'A' <= c <= 'Z' then c - 'A' + 'a' else c
  }

  function ToUpper(s: string): (r: string)
    ensures |r| == |s|
    ensures forall i :: 0 <= i < |s| ==> r[i] == UpperChar(s[i])
  {
    seq(|s|, i requires 0 <= i < |s| => UpperChar(s[i]))
  }

  function ToLower(s: string): (r: string)
    ensures |r| == |s|
    ensures forall i :: 0 <= i < |s| ==> r[i] == LowerChar(s[i])
  {
    seq(|s|, i requires 0 <= i < |s| => LowerChar(s[i]))
  }

  /** The upper case of the alphabet; no other character changes. */
  lemma UpperCase(c: char)
    ensures ToUpper("abcdefghijklmnopqrstuvwxyz") == "ABCDEFGHIJKLMNOPQRSTUVWXYZ"
    ensures !('a' <= c <= 'z') ==> UpperChar(c) == c
  {
  }

  /** Its lower case. */
  lemma LowerCase(c: char)
    ensures ToLower("ABCDEFGHIJKLMNOPQRSTUVWXYZ") == "abcdefghijklmnopqrstuvwxyz"
    ensures !('A' <= c <= 'Z') ==> LowerChar(c) == c
  {
  }

  /** Six characters are blanks. */
  lemma Blanks(c: char)
    ensures IsSpace(c) <==> c in {' ', '\t', '\n', '\U{0B}', '\U{0C}', '\r'}
  {
  }

  function TrimLeft(s: string): (r: string)
    ensures |r| <= |s| && r == s[|s| - |r|..]
    ensures r != [] ==> !IsSpace(r[0])
  {
    if s == [] || !IsSpace(s[0]) then s else
    var r := TrimLeft(s[1..]);
    assert s[1..][|s| - 1 - |r|..] == s[|s| - |r|..];
    r
  }

  function TrimRight(s: string): (r: string)
    ensures |r| <= |s| && r == s[..|r|]
    ensures r != [] ==> !IsSpace(r[|r| - 1])
  {
    if s != [] && IsSpace(s[|s| - 1]) then TrimRight(s[..|s| - 1]) else s
  }

  function TrimSpace(s: string): string {
    TrimRight(TrimLeft(s))
  }

  /** A string with no blank at either end. */
  predicate Trimmed(s: string) {
    s != [] ==> !IsSpace(s[0]) && !IsSpace(s[|s| - 1])
  }

  lemma TrimSpaceTrims(s: string)
    ensures Trimmed(TrimSpace(s))
    ensures Trimmed(s) ==> TrimSpace(s) == s
    ensures forall c :: c in TrimSpace(s) ==> c in s
  {
    var l := TrimLeft(s);
    var r := TrimRight(l);
    assert r != [] ==> r[0] == l[0];
  }

  lemma {:induction false} TrimLeftDropsBlanks(s: string)
    ensures forall i :: 0 <= i < |s| - |TrimLeft(s)| ==> IsSpace(s[i])
  {
    if s != [] && IsSpace(s[0]) {
      TrimLeftDropsBlanks(s[1..]);
      assert forall i :: 1 <= i < |s| ==> s[i] == s[1..][i - 1];
    }
  }

  lemma {:induction false} TrimRightDropsBlanks(s: string)
    ensures forall i :: |TrimRight(s)| <= i < |s| ==> IsSpace(s[i])
  {
    if s != [] && IsSpace(s[|s| - 1]) {
      TrimRightDropsBlanks(s[..|s| - 1]);
      assert forall i :: 0 <= i < |s| - 1 ==> s[i] == s[..|s| - 1][i];
    }
  }

  predicate Blank(s: string) {
    forall i :: 0 <= i < |s| ==> IsSpace(s[i])
  }

  /** Trimming removes blanks at the two ends and nothing else. */
  lemma TrimSpaceDropsBlanks(s: string)
    ensures exists before, after :: Blank(before) && Blank(after) && s == before + TrimSpace(s) + after
  {
    hide TrimLeft, TrimRight, IsSpace;
    TrimLeftDropsBlanks(s);
    var l := TrimLeft(s);
    TrimRightDropsBlanks(l);
    var r := TrimRight(l);
    var before, after := s[..|s| - |l|], l[|r|..];
    assert l == r + after;
    assert s == before + l == before + r + after;
    forall i | 0 <= i < |after| ensures IsSpace(after[i]) { assert after[i] == l[|r| + i]; }
    forall i | 0 <= i < |before| ensures IsSpace(before[i]) { assert before[i] == s[i]; }
    assert Blank(before) && Blank(after);
  }

  /** Exactly blanks trim away altogether. */
  lemma OnlyBlanksTrimAway(s: string)
    ensures TrimSpace(s) == "" <==> Blank(s)
  {
    hide IsSpace, TrimLeft, TrimRight, TrimSpace;
    TrimSpaceDropsBlanks(s);
    TrimSpaceTrims(s);
    if TrimSpace(s) != "" {
      assert TrimSpace(s)[0] in s;
    }
  }

  /** Upper-casing changes nothing but case. */
  lemma UpperKeeps(s: string)
    ensures ToLower(ToUpper(s)) == ToLower(s) && forall c :: c in ToUpper(s) ==> !('a' <= c <= 'z')
    ensures Trimmed(s) ==> Trimmed(ToUpper(s))
  {
    forall i | 0 <= i < |s| ensures LowerChar(UpperChar(s[i])) == LowerChar(s[i]) {}
  }
}
