/**
 The two string functions every stored code passes through, over ASCII text:
 `strings.TrimSpace` and `strings.ToUpper`. The results here justify that two
 codes differing only in letter case and surrounding space are one stored code.
 */
module Text {

  /** The six ASCII characters that Go's TrimSpace removes: space and U+0009 to U+000D. */
  predicate IsSpace(c: char) {
    c == ' ' || 9 <= c as int <= 13
  }

  function UpperChar(c: char): char {
    if 'a' <= c <= 'z' then (c as int - 32) as char else c
  }

  function TrimLeft(s: string): string {
    if s != "" && IsSpace(s[0]) then TrimLeft(s[1..]) else s
  }

  function TrimRight(s: string): string {
    if s != "" && IsSpace(s[|s| - 1]) then TrimRight(s[..|s| - 1]) else s
  }

  function Trim(s: string): string {
    TrimRight(TrimLeft(s))
  }

  function ToUpper(s: string): string {
    seq(|s|, i requires 0 <= i < |s| => UpperChar(s[i]))
  }

  /** The form in which a code is stored and compared. */
  function Canonical(s: string): string {
    ToUpper(Trim(s))
  }

  predicate IsTrimmed(s: string) {
    s == "" || (!IsSpace(s[0]) && !IsSpace(s[|s| - 1]))
  }

  predicate IsUpper(s: string) {
    forall i :: 0 <= i < |s| ==> !('a' <= s[i] <= 'z')
  }

  predicate IsCanonical(s: string) {
    IsTrimmed(s) && IsUpper(s)
  }

  /** Equal when letter case is ignored. */
  predicate EqualFold(a: string, b: string) {
    |a| == |b| && forall i :: 0 <= i < |a| ==> UpperChar(a[i]) == UpperChar(b[i])
  }

  lemma {:induction false} TrimLeftStarts(s: string)
    ensures var r := TrimLeft(s);
            |r| <= |s| && r == s[|s| - |r|..] && (r != "" ==> !IsSpace(r[0]))
  {
    if s != "" && IsSpace(s[0]) {
      TrimLeftStarts(s[1..]);
    }
  }

  lemma {:induction false} TrimRightEnds(s: string)
    ensures var r := TrimRight(s);
            r <= s && (r != "" ==> !IsSpace(r[|r| - 1]))
  {
    if s != "" && IsSpace(s[|s| - 1]) {
      TrimRightEnds(s[..|s| - 1]);
    }
  }

  lemma TrimIsTrimmed(s: string)
    ensures IsTrimmed(Trim(s))
  {
    TrimLeftStarts(s);
    TrimRightEnds(TrimLeft(s));
  }

  /** Trimming takes off space at both ends, all of it, and nothing else. */
  lemma TrimIsMiddle(s: string) returns (i: nat, j: nat)
    ensures i <= j <= |s| && Trim(s) == s[i..j]
    ensures forall k :: 0 <= k < i || j <= k < |s| ==> s[k] as int in {9, 10, 11, 12, 13, 32}
    ensures i < j ==> s[i] as int !in {9, 10, 11, 12, 13, 32} && s[j - 1] as int !in {9, 10, 11, 12, 13, 32}
  {
    i := TrimLeftDrops(s);
    var kept := TrimRightDrops(TrimLeft(s));
    j := i + kept;
    TrimIsTrimmed(s);
    assert Trim(s) == s[i..][..kept];
    assert forall k :: j <= k < |s| ==> s[k] == s[i..][k - i];
  }

  lemma {:induction false} TrimLeftDrops(s: string) returns (i: nat)
    ensures i <= |s| && TrimLeft(s) == s[i..]
    ensures forall k :: 0 <= k < i ==> IsSpace(s[k])
  {
    i := 0;
    if s != "" && IsSpace(s[0]) {
      var rest := TrimLeftDrops(s[1..]);
      i := rest + 1;
      assert forall k :: 1 <= k < i ==> s[k] == s[1..][k - 1];
    }
  }

  lemma {:induction false} TrimRightDrops(s: string) returns (j: nat)
    ensures j <= |s| && TrimRight(s) == s[..j]
    ensures forall k :: j <= k < |s| ==> IsSpace(s[k])
  {
    j := |s|;
    if s != "" && IsSpace(s[|s| - 1]) {
      j := TrimRightDrops(s[..|s| - 1]);
      assert forall k :: j <= k < |s| - 1 ==> s[k] == s[..|s| - 1][k];
    }
  }

  /** Upper-casing turns each small letter into the capital at its place in the alphabet and keeps all else. */
  lemma UpperIsByAlphabet(s: string, i: nat)
    requires i < |s|
    ensures |ToUpper(s)| == |s|
    ensures forall n :: 0 <= n < 26 && s[i] == "abcdefghijklmnopqrstuvwxyz"[n] ==>
              ToUpper(s)[i] == "ABCDEFGHIJKLMNOPQRSTUVWXYZ"[n]
    ensures s[i] !in "abcdefghijklmnopqrstuvwxyz" ==> ToUpper(s)[i] == s[i]
  {
    var lower, upper := "abcdefghijklmnopqrstuvwxyz", "ABCDEFGHIJKLMNOPQRSTUVWXYZ";
    assert forall n :: 0 <= n < 26 ==> lower[n] as int == 97 + n && upper[n] as int == 65 + n;
    if 'a' <= s[i] <= 'z' {
      assert lower[s[i] as int - 97] == s[i];
    }
  }

  lemma TrimmedIsFixed(s: string)
    requires IsTrimmed(s)
    ensures Trim(s) == s
  {
  }

  /** What is stored is a fixed point: storing a stored code again changes nothing. */
  lemma CanonicalIsFixed(s: string)
    ensures IsCanonical(Canonical(s)) && Canonical(Canonical(s)) == Canonical(s)
  {
    TrimIsTrimmed(s);
    var c := Canonical(s);
    assert Trim(c) == c;
    assert ToUpper(c) == c;
  }

  /** Two inputs name the same stored code exactly when they agree up to case and surrounding space. */
  lemma CanonicalAgrees(a: string, b: string)
    ensures Canonical(a) == Canonical(b) <==> EqualFold(Trim(a), Trim(b))
  {
    var x, y := Trim(a), Trim(b);
    if ToUpper(x) == ToUpper(y) {
      assert |x| == |ToUpper(x)| == |ToUpper(y)| == |y|;
      forall i | 0 <= i < |x| ensures UpperChar(x[i]) == UpperChar(y[i]) {
        assert ToUpper(x)[i] == ToUpper(y)[i];
      }
    }
  }
}
