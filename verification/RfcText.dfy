/** String helpers shared by the request handler and the parameter stores. */
module RfcText {

  predicate OccursAt(s: string, p: string, i: int) {
    0 <= i && i + |p| <= |s| && s[i..i + |p|] == p
  }

  predicate Contains(s: string, p: string) {
    exists i :: 0 <= i <= |s| && OccursAt(s, p, i)
  }

  const NPOS := -1

  /** The first occurrence of `p` at or behind `from`, or NPOS. */
  function Find(s: string, p: string, from: nat): (r: int)
    ensures r == NPOS ==> forall i :: from <= i ==> !OccursAt(s, p, i)
    ensures r != NPOS ==> from <= r && OccursAt(s, p, r) && forall i :: from <= i < r ==> !OccursAt(s, p, i)
    decreases |s| - from
  {
    if from + |p| > |s| then NPOS
    else if OccursAt(s, p, from) then from
    else Find(s, p, from + 1)
  }

  /*** RemoveSubstring ***/

  function EraseAt(s: string, i: nat, n: nat): string
    requires i + n <= |s|
  {
    s[..i] + s[i + n..]
  }

  /** Erasing first occurrences until none is left. */
  function Strip(s: string, p: string): string
    requires p != ""
    decreases |s|
  {
    var i := Find(s, p, 0);
    if i == NPOS then s else Strip(EraseAt(s, i, |p|), p)
  }

  /** The in-place loop. Every round takes |p| characters away, so there are at most |s| / |p| of them. */
  method RemoveSubstring(str: string, toRemove: string) returns (r: string, erased: nat)
    requires toRemove != ""
    ensures r == Strip(str, toRemove)
    ensures !Contains(r, toRemove)
    ensures |r| == |str| - erased * |toRemove| && erased <= |str| / |toRemove|
  {
    r, erased := str, 0;
    var pos := Find(r, toRemove, 0);
    while pos != NPOS
      invariant pos == Find(r, toRemove, 0)
      invariant Strip(r, toRemove) == Strip(str, toRemove)
      invariant |r| == |str| - erased * |toRemove|
      decreases |r|
    {
      Distribute(erased, |toRemove|);
      r := EraseAt(r, pos, |toRemove|);
      erased := erased + 1;
      pos := Find(r, toRemove, 0);
    }
    StripKeeps(r, toRemove);
    QuotientBound(erased, |toRemove|, |str|);
  }

  lemma Distribute(n: nat, d: nat)
    ensures (n + 1) * d == n * d + d
  {
  }

  lemma QuotientBound(n: nat, d: nat, x: nat)
    requires d > 0 && n * d <= x
    ensures n <= x / d
  {
    var q := x / d;
    assert x < q * d + d;
    if q < n {
      Distribute(q, d);
      Monotone(q + 1, n, d);
      assert false;
    }
  }

  lemma {:induction false} Monotone(a: nat, b: nat, d: nat)
    requires a <= b
    ensures a * d <= b * d
  {
    if a < b {
      Distribute(b - 1, d);
      Monotone(a, b - 1, d);
    }
  }

  lemma {:induction false} StripRemovesAll(s: string, p: string)
    requires p != ""
    ensures !Contains(Strip(s, p), p)
    decreases |s|
  {
    var i := Find(s, p, 0);
    if i != NPOS {
      StripRemovesAll(EraseAt(s, i, |p|), p);
    }
  }

  lemma StripKeeps(s: string, p: string)
    requires p != "" && !Contains(s, p)
    ensures Strip(s, p) == s
  {
    var i := Find(s, p, 0);
    assert i == NPOS || OccursAt(s, p, i);
  }

  lemma {:induction false} StripIdempotent(s: string, p: string)
    requires p != ""
    ensures Strip(Strip(s, p), p) == Strip(s, p)
  {
    StripRemovesAll(s, p);
    StripKeeps(Strip(s, p), p);
  }

  /*** Case and alphabet ***/

  function Lower(c: char): char {
    if 'A' <= c <= 'Z' then c - 'A' + 'a' else c
  }

  predicate StringCaseCompare(a: string, b: string) {
    |a| == |b| && forall i :: 0 <= i < |a| ==> Lower(a[i]) == Lower(b[i])
  }

  predicate IsAlnum(c: char) {
    '0' <= c <= '9' || 'A' <= c <= 'Z' || 'a' <= c <= 'z'
  }

  predicate CheckSpecialCharacters(s: string) {
    exists i :: 0 <= i < |s| && !IsAlnum(s[i])
  }

  /** What these predicates mean, character by character. */
  lemma ContainsIsConcat(s: string, p: string)
    ensures Contains(s, p) <==> exists u: string, v: string :: s == u + p + v
  {
    if Contains(s, p) {
      var i :| 0 <= i <= |s| && OccursAt(s, p, i);
      assert s == s[..i] + p + s[i + |p|..];
    }
    forall u: string, v: string | s == u + p + v
      ensures Contains(s, p)
    {
      assert s[|u|..|u| + |p|] == p;
      assert OccursAt(s, p, |u|);
    }
  }

  predicate IsLetter(c: char) {
    'A' <= c <= 'Z' || 'a' <= c <= 'z'
  }

  /** Equal up to case: the same characters, letters apart by the distance of the two cases. */
  lemma CaseCompareExactly(a: string, b: string)
    ensures StringCaseCompare(a, b)
        <==> |a| == |b| && forall i :: 0 <= i < |a| ==>
               a[i] == b[i] || (IsLetter(a[i]) && IsLetter(b[i]) && (a[i] as int == b[i] as int + 32 || b[i] as int == a[i] as int + 32))
  {
    if |a| == |b| {
      forall i | 0 <= i < |a|
        ensures Lower(a[i]) == Lower(b[i])
            <==> a[i] == b[i] || (IsLetter(a[i]) && IsLetter(b[i]) && (a[i] as int == b[i] as int + 32 || b[i] as int == a[i] as int + 32))
      {
      }
    }
  }

  /** Special is every character that is neither a decimal digit nor a letter. */
  lemma SpecialExactly(s: string)
    ensures CheckSpecialCharacters(s) <==> exists i :: 0 <= i < |s| && !IsLetter(s[i]) && s[i] !in "0123456789"
  {
    forall i | 0 <= i < |s|
      ensures IsAlnum(s[i]) <==> IsLetter(s[i]) || s[i] in "0123456789"
    {
      DigitText(s[i]);
    }
  }

  lemma DigitText(c: char)
    ensures '0' <= c <= '9' <==> c in "0123456789"
  {
    var digits := "0123456789";
    if '0' <= c <= '9' {
      assert digits[(c - '0') as int] == c;
    }
  }
}
