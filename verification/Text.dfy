/** Strings as the service normalises them: `QString::trimmed`, and ids joined with a pipe. */
module Text {

  predicate IsSpace(c: char) {
    || c == ' ' || '\t' <= c <= '\r' || c == '\U{85}' || c == '\U{A0}' || c == '\U{1680}'
    || '\U{2000}' <= c <= '\U{200A}' || '\U{2028}' <= c <= '\U{2029}'
    || c == '\U{202F}' || c == '\U{205F}' || c == '\U{3000}'
  }

  function TrimLeft(s: string): string {
    if s != "" && IsSpace(s[0]) then TrimLeft(s[1..]) else s
  }

  function TrimRight(s: string): string {
    if s != "" && IsSpace(s[|s| - 1]) then TrimRight(s[..|s| - 1]) else s
  }

  /** `QString::trimmed`. */
  function Trimmed(s: string): string {
    TrimRight(TrimLeft(s))
  }

  lemma {:induction false} TrimLeftStarts(s: string)
    ensures TrimLeft(s) != "" ==> !IsSpace(TrimLeft(s)[0])
  {
    if s != "" && IsSpace(s[0]) { TrimLeftStarts(s[1..]); }
  }

  lemma {:induction false} TrimRightEnds(s: string)
    ensures TrimRight(s) <= s
    ensures TrimRight(s) != "" ==> !IsSpace(TrimRight(s)[|TrimRight(s)| - 1])
  {
    if s != "" && IsSpace(s[|s| - 1]) { TrimRightEnds(s[..|s| - 1]); }
  }

  /** What is left is a middle part: everything before and after it is space, and its own ends are not. */
  lemma TrimmedIsMiddle(s: string) returns (i: nat, j: nat)
    ensures i <= j <= |s| && Trimmed(s) == s[i..j]
    ensures forall k :: 0 <= k < i || j <= k < |s| ==> IsSpace(s[k])
    ensures i < j ==> !IsSpace(s[i]) && !IsSpace(s[j - 1])
  {
    i := LeftSpaces(s);
    var n := RightSpaces(s[i..]);
    j := i + n;
    forall k | j <= k < |s| ensures IsSpace(s[k]) { assert s[i..][k - i] == s[k]; }
    assert s[i..][..n] == s[i..j];
    TrimLeftStarts(s);
    TrimRightEnds(TrimLeft(s));
  }

  lemma {:induction false} LeftSpaces(s: string) returns (i: nat)
    ensures i <= |s| && TrimLeft(s) == s[i..] && forall k :: 0 <= k < i ==> IsSpace(s[k])
  {
    if s != "" && IsSpace(s[0]) {
      i := LeftSpaces(s[1..]);
      assert s[1..][i..] == s[i + 1..];
      forall k | 1 <= k < i + 1 ensures IsSpace(s[k]) { assert s[k] == s[1..][k - 1]; }
      i := i + 1;
    } else {
      i := 0;
    }
  }

  lemma {:induction false} RightSpaces(s: string) returns (n: nat)
    ensures n <= |s| && TrimRight(s) == s[..n] && forall k :: n <= k < |s| ==> IsSpace(s[k])
  {
    if s != "" && IsSpace(s[|s| - 1]) {
      n := RightSpaces(s[..|s| - 1]);
      assert s[..|s| - 1][..n] == s[..n];
      forall k | n <= k < |s| - 1 ensures IsSpace(s[k]) { assert s[k] == s[..|s| - 1][k]; }
    } else {
      n := |s|;
    }
  }

  /** Trimming twice is trimming once, for every string. */
  lemma TrimmedIsIdempotent(s: string)
    ensures Trimmed(Trimmed(s)) == Trimmed(s)
  {
    TrimLeftStarts(s);
    TrimRightEnds(TrimLeft(s));
  }

  /** A string that is already trimmed and not empty: what every stored identifier is. */
  predicate Clean(s: string) {
    s != "" && Trimmed(s) == s
  }

  lemma TrimmedIsClean(s: string)
    requires Trimmed(s) != ""
    ensures Clean(Trimmed(s))
  {
    TrimmedIsIdempotent(s);
  }

  /** Clean is a matter of the two ends. */
  lemma CleanEnds(s: string)
    ensures Clean(s) <==> s != "" && !IsSpace(s[0]) && !IsSpace(s[|s| - 1])
  {
    TrimLeftStarts(s);
    TrimRightEnds(TrimLeft(s));
  }

  // ------------------------------------------------------ keys joined with a pipe

  predicate PipeFree(s: string) {
    '|' !in s
  }

  lemma FirstPipe(a: string, rest: string, b: string, more: string)
    requires PipeFree(a) && PipeFree(b) && a + "|" + rest == b + "|" + more
    ensures a == b && rest == more
  {
    var s := a + "|" + rest;
    assert s[|a|] == '|' && s[|b|] == '|';
    forall i | 0 <= i < |a| ensures s[i] != '|' { assert s[i] == a[i]; }
    forall i | 0 <= i < |b| ensures s[i] != '|' { assert s[i] == b[i]; }
    assert s[..|a|] == a && s[..|b|] == b && s[|a| + 1..] == rest && s[|b| + 1..] == more;
  }

  lemma LastPipe(a: string, rest: string, b: string, more: string)
    requires PipeFree(rest) && PipeFree(more) && a + "|" + rest == b + "|" + more
    ensures a == b && rest == more
  {
    var s := a + "|" + rest;
    assert s[|a|] == '|' && s[|b|] == '|';
    forall i | |a| < i < |s| ensures s[i] != '|' { assert s[i] == rest[i - |a| - 1]; }
    forall i | |b| < i < |s| ensures s[i] != '|' { assert s[i] == more[i - |b| - 1]; }
    assert s[..|a|] == a && s[..|b|] == b && s[|a| + 1..] == rest && s[|b| + 1..] == more;
  }
}
