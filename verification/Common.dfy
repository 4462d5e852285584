/** The result shapes, and the list, set and text helpers the modules share. */
module Common {
  datatype Option<+T> = None | Some(value: T)

  datatype Result<+T, +E> = Ok(value: T) | Err(error: E)

  predicate Distinct<T(==)>(s: seq<T>) {
    forall i, j | 0 <= i < j < |s| :: s[i] != s[j]
  }

  /** First occurrences, in order. */
  function Firsts<T(==)>(s: seq<T>): seq<T> {
    if s == [] then []
    else
      var front := Firsts(s[..|s| - 1]);
      if s[|s| - 1] in s[..|s| - 1] then front else front + [s[|s| - 1]]
  }

  lemma {:induction false} FirstsKeep<T(!new)>(s: seq<T>)
    ensures Distinct(Firsts(s)) && forall x :: x in Firsts(s) <==> x in s
  {
    if s != [] {
      FirstsKeep(s[..|s| - 1]);
      assert forall x :: x in s <==> x in s[..|s| - 1] || x == s[|s| - 1];
    }
  }

  lemma {:induction false} FirstsOfDistinct<T>(s: seq<T>)
    requires Distinct(s)
    ensures Firsts(s) == s
  {
    if s != [] {
      FirstsOfDistinct(s[..|s| - 1]);
    }
  }

  lemma SubsetSize<T>(a: set<T>, b: set<T>)
    requires a <= b
    ensures |a| <= |b| && (a != b ==> |a| < |b|)
  {
    assert b == a + (b - a);
  }

  function StripLeft(s: string, dropped: set<char>): string {
    if s != "" && s[0] in dropped then StripLeft(s[1..], dropped) else s
  }

  function StripRight(s: string, dropped: set<char>): (r: string)
    ensures r <= s
    ensures s != "" && s[0] !in dropped ==> r != ""
  {
    if s != "" && s[|s| - 1] in dropped then StripRight(s[..|s| - 1], dropped) else s
  }

  /** Python's `strip` with the characters it drops. */
  function Strip(s: string, dropped: set<char>): string {
    StripRight(StripLeft(s, dropped), dropped)
  }

  /** The characters Python's `isspace` holds of, which `strip` drops when it is given none. */
  predicate IsBlank(c: char) {
    || '\t' <= c <= '\r' || '\U{1C}' <= c <= ' ' || c in {'\U{85}', '\U{A0}', '\U{1680}'}
    || '\U{2000}' <= c <= '\U{200A}' || c in {'\U{2028}', '\U{2029}', '\U{202F}', '\U{205F}', '\U{3000}'}
  }

  const BLANKS: set<char> := set c: char | IsBlank(c)
}
