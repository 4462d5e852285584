/**
 The public slug of an author (cases/models.py): a base from the name, then numbered candidates
 until one is free. `slugify` is foreign: its output is the input here, any text at all.
 */
module AuthorSlug {
  import opened Common

  const BASE_MAX := 55
  const SLUG_MAX := 60
  const FALLBACK := "author"

  predicate IsLetter(c: char) {
    'a' <= c <= 'z' || 'A' <= c <= 'Z'
  }

  // ----- text -----

  function Take(s: string, n: nat): (r: string)
    ensures |r| <= n && r <= s
  {
    if |s| <= n then s else s[..n]
  }

  function OrElse(s: string, fallback: string): string {
    if s == "" then fallback else s
  }

  /** The base of every candidate. */
  function BaseOf(slugified: string): (base: string)
    ensures base != "" && |base| <= BASE_MAX && IsLetter(base[0])
  {
    var named := OrElse(slugified, FALLBACK);
    var lettered := if IsLetter(named[0]) then named else "author-" + named;
    assert IsLetter(lettered[0]);
    OrElse(Strip(Take(lettered, BASE_MAX), {'-'}), FALLBACK)
  }

  /** `text` without what `dropped` says at its end, and nothing more. */
  predicate CutOnly(base: string, text: string, dropped: set<char>) {
    && base <= text
    && (forall i | |base| <= i < |text| :: text[i] in dropped)
    && (base != "" ==> base[|base| - 1] !in dropped)
  }

  lemma {:induction false} StripRightCutsOnly(s: string, dropped: set<char>)
    ensures CutOnly(StripRight(s, dropped), s, dropped)
  {
    if s != "" && s[|s| - 1] in dropped {
      StripRightCutsOnly(s[..|s| - 1], dropped);
    }
  }

  /**
   The base keeps the name: the first 55 characters of it, "author-" before one that does not
   begin with a letter, without the dashes that end them; a name with nothing in it is "author".
   */
  lemma BaseKeepsTheName(slugified: string)
    ensures var named := if slugified == "" then "author"
                         else if IsLetter(slugified[0]) then slugified else "author-" + slugified;
            CutOnly(BaseOf(slugified), if |named| <= 55 then named else named[..55], {'-'})
  {
    var named := OrElse(slugified, FALLBACK);
    var lettered := if IsLetter(named[0]) then named else "author-" + named;
    StripRightCutsOnly(Take(lettered, BASE_MAX), {'-'});
  }

  /** A name that is a slug already is its own base. */
  lemma SlugIsItsOwnBase(slugified: string)
    requires 0 < |slugified| <= 55 && 'a' <= slugified[0] <= 'z' && slugified[|slugified| - 1] != '-'
    ensures BaseOf(slugified) == slugified
  {
    BaseKeepsTheName(slugified);
  }

  // ----- decimal numerals -----

  function Digit(d: nat): char
    requires d < 10
  {
    "0123456789"[d]
  }

  function Decimal(n: nat): (s: string)
    ensures s != "" && (|s| == 1 <==> n < 10)
  {
    if n < 10 then [Digit(n)] else Decimal(n / 10) + [Digit(n % 10)]
  }

  lemma {:induction false} DecimalHasNoDash(n: nat)
    ensures forall i | 0 <= i < |Decimal(n)| :: Decimal(n)[i] != '-'
  {
    if n >= 10 {
      DecimalHasNoDash(n / 10);
    }
  }

  lemma {:induction false} DecimalIsInjective(m: nat, n: nat)
    requires Decimal(m) == Decimal(n)
    ensures m == n
  {
    var s := Decimal(m);
    assert s[|s| - 1] == Digit(m % 10) == Digit(n % 10);
    if m >= 10 && n >= 10 {
      assert Decimal(m / 10) == s[..|s| - 1] == Decimal(n / 10);
      DecimalIsInjective(m / 10, n / 10);
    }
  }

  lemma {:induction false} DecimalGrows(m: nat, n: nat)
    requires m <= n
    ensures |Decimal(m)| <= |Decimal(n)|
  {
    if n >= 10 && m >= 10 {
      DecimalGrows(m / 10, n / 10);
    }
  }

  // ----- candidates -----

  function Tail(k: nat): string {
    "-" + Decimal(k)
  }

  /** The k-th candidate: the base, then the base cut to fit and numbered. */
  function CandidateAt(base: string, k: nat): string {
    if k <= 1 then base
    else Take(base, if |Tail(k)| <= SLUG_MAX then SLUG_MAX - |Tail(k)| else 0) + Tail(k)
  }

  /** The dash before the numeral is the last one. */
  lemma DashOfTail(a: string, n: nat)
    ensures (a + Tail(n))[|a|] == '-'
    ensures forall i | |a| < i < |a + Tail(n)| :: (a + Tail(n))[i] != '-'
    ensures (a + Tail(n))[|a| + 1..] == Decimal(n)
  {
    DecimalHasNoDash(n);
    assert forall i | |a| < i < |a + Tail(n)| :: (a + Tail(n))[i] == Decimal(n)[i - |a| - 1];
  }

  /** Texts that end in a dash and a numeral have equal numerals when they are equal. */
  lemma NumeralIsReadBack(a: string, m: nat, b: string, n: nat)
    requires a + Tail(m) == b + Tail(n)
    ensures m == n
  {
    DashOfTail(a, m);
    DashOfTail(b, n);
    assert |a| == |b|;
    DecimalIsInjective(m, n);
  }

  /** Cutting the base never makes two candidates the same. */
  lemma CandidatesAreDistinct(base: string, j: nat, k: nat)
    requires |base| <= BASE_MAX && 0 < j < k
    ensures CandidateAt(base, j) != CandidateAt(base, k)
  {
    if j == 1 {
      assert |CandidateAt(base, k)| > |base|;
    } else if CandidateAt(base, j) == CandidateAt(base, k) {
      NumeralIsReadBack(CandidateAt(base, j)[..|CandidateAt(base, j)| - |Tail(j)|], j,
                        CandidateAt(base, k)[..|CandidateAt(base, k)| - |Tail(k)|], k);
    }
  }

  /** The first n candidates. */
  function FirstCandidates(base: string, n: nat): set<string> {
    if n == 0 then {} else FirstCandidates(base, n - 1) + {CandidateAt(base, n)}
  }

  lemma {:induction false} LaterCandidateIsNew(base: string, m: nat, n: nat)
    requires |base| <= BASE_MAX && m < n
    ensures CandidateAt(base, n) !in FirstCandidates(base, m)
  {
    if m > 0 {
      LaterCandidateIsNew(base, m - 1, n);
      CandidatesAreDistinct(base, m, n);
    }
  }

  lemma {:induction false} FirstCandidatesCount(base: string, n: nat)
    requires |base| <= BASE_MAX
    ensures |FirstCandidates(base, n)| == n
  {
    if n > 0 {
      FirstCandidatesCount(base, n - 1);
      LaterCandidateIsNew(base, n - 1, n);
    }
  }

  /** The numbers a search among `taken` can need leave a letter in front of their tail. */
  predicate NumbersFit(taken: set<string>) {
    |Tail(|taken| + 1)| < SLUG_MAX
  }

  lemma TailFits(taken: set<string>, k: nat)
    requires NumbersFit(taken) && k <= |taken| + 1
    ensures |Tail(k)| < SLUG_MAX
  {
    DecimalGrows(k, |taken| + 1);
  }

  /**
   `_generate_unique_slug`: the first free candidate, found among the first |taken| + 1, of at
   most 60 characters and starting with a letter.
   */
  method GenerateUniqueSlug(slugified: string, taken: set<string>) returns (candidate: string)
    requires NumbersFit(taken)
    ensures candidate !in taken
    ensures 0 < |candidate| <= SLUG_MAX && IsLetter(candidate[0])
    ensures exists k: nat ::
              && 0 < k <= |taken| + 1 && candidate == CandidateAt(BaseOf(slugified), k)
              && FirstCandidates(BaseOf(slugified), k - 1) <= taken
  {
    var base := OrElse(slugified, FALLBACK);
    if !IsLetter(base[0]) {
      base := "author-" + base;
    }
    base := OrElse(Strip(Take(base, BASE_MAX), {'-'}), FALLBACK);
    assert base == BaseOf(slugified);
    candidate := base;
    var suffix := 1;
    while candidate in taken
      invariant 0 < suffix <= |taken| + 1 && candidate == CandidateAt(base, suffix)
      invariant FirstCandidates(base, suffix - 1) <= taken
      decreases |taken| + 1 - suffix
    {
      FirstCandidatesCount(base, suffix);
      SubsetSize(FirstCandidates(base, suffix), taken);
      suffix := suffix + 1;
      TailFits(taken, suffix);
      var tail := "-" + Decimal(suffix);
      candidate := Take(base, SLUG_MAX - |tail|) + tail;
    }
    TailFits(taken, suffix);
    CandidateFits(base, suffix);
  }

  lemma CandidateFits(base: string, k: nat)
    requires base != "" && |base| <= BASE_MAX && IsLetter(base[0]) && k > 0 && |Tail(k)| < SLUG_MAX
    ensures 0 < |CandidateAt(base, k)| <= SLUG_MAX && IsLetter(CandidateAt(base, k)[0])
  {
  }
}
