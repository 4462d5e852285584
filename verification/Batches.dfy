/**
 Selecting the next batch to bind (casework/select_batch.py): rows proposed by a table, kept by
 what the live case still needs. Reads only.

 Cells are the stripped text of a row; `tokens` is what its material columns parse to, and
 `stakes` what its amount reads as. A GET is a function: None when it fails.
 */
module Batches {
  import opened Common
  import opened Cases
  import opened Binder

  /** What an amount reads as: a float, either infinity included. Garbage reads as 0. */
  datatype Amount = MinusInfinity | Finite(value: real) | Infinity

  predicate AtLeast(a: Amount, b: Amount) {
    a.Infinity? || b.MinusInfinity? || (a.Finite? && b.Finite? && a.value >= b.value)
  }

  datatype MasterRow = MasterRow(
    slug: string,
    caseNo: string,
    cells: map<string, string>,
    tokens: seq<Option<Candidate>>,
    stakes: Amount)

  type Live = string -> Option<(State, seq<Evidence>)>

  datatype Stats = Stats(
    proposed: nat, outOfYear: nat, dropped: nat, noCandidates: nat,
    fetchFailed: nat, notDraft: nat, alreadyBound: nat, selected: nat)

  const NO_STATS := Stats(0, 0, 0, 0, 0, 0, 0, 0)

  function CandidatesOf(row: MasterRow): seq<Candidate> {
    Firsts(Present(row.tokens))
  }

  /** The first three characters name the fiscal year; no years means no filter. */
  predicate InYearScope(row: MasterRow, years: set<string>) {
    years == {} || (if |row.caseNo| <= 3 then row.caseNo else row.caseNo[..3]) in years
  }

  /** A quarantine matches the cell; a column the row lacks reads as the empty cell. */
  predicate Quarantined(row: MasterRow, drops: seq<(string, string)>) {
    exists i | 0 <= i < |drops| ::
      (if drops[i].0 in row.cells then row.cells[drops[i].0] else "") == drops[i].1
  }

  predicate Proposed(row: MasterRow, years: set<string>, drops: seq<(string, string)>) {
    InYearScope(row, years) && !Quarantined(row, drops) && row.slug != "" && CandidatesOf(row) != []
  }

  function Pool(rows: seq<MasterRow>, years: set<string>, drops: seq<(string, string)>): seq<MasterRow> {
    if rows == [] then []
    else
      Pool(rows[..|rows| - 1], years, drops)
      + if Proposed(rows[|rows| - 1], years, drops) then [rows[|rows| - 1]] else []
  }

  // ----- the sort by stakes -----

  /** Insert after every row of at least the same stakes. */
  function Inserted(sorted: seq<MasterRow>, row: MasterRow): seq<MasterRow> {
    if sorted == [] || AtLeast(sorted[|sorted| - 1].stakes, row.stakes) then sorted + [row]
    else Inserted(sorted[..|sorted| - 1], row) + [sorted[|sorted| - 1]]
  }

  /** The stable sort, greatest stakes first. */
  function ByStakes(pool: seq<MasterRow>): seq<MasterRow> {
    if pool == [] then [] else Inserted(ByStakes(pool[..|pool| - 1]), pool[|pool| - 1])
  }

  predicate Descending(rows: seq<MasterRow>) {
    forall i, j | 0 <= i < j < |rows| :: AtLeast(rows[i].stakes, rows[j].stakes)
  }

  /** The rows of one amount, in order. */
  function WithStakes(rows: seq<MasterRow>, stakes: Amount): seq<MasterRow> {
    if rows == [] then []
    else WithStakes(rows[..|rows| - 1], stakes)
         + if rows[|rows| - 1].stakes == stakes then [rows[|rows| - 1]] else []
  }

  lemma {:induction false} InsertedRows(sorted: seq<MasterRow>, row: MasterRow)
    ensures multiset(Inserted(sorted, row)) == multiset(sorted) + multiset{row}
    ensures forall x :: x in Inserted(sorted, row) <==> x in sorted || x == row
  {
    if sorted != [] && !AtLeast(sorted[|sorted| - 1].stakes, row.stakes) {
      var front, last := sorted[..|sorted| - 1], sorted[|sorted| - 1];
      assert sorted == front + [last];
      InsertedRows(front, row);
    }
  }

  lemma {:induction false} InsertedDescends(sorted: seq<MasterRow>, row: MasterRow)
    requires Descending(sorted)
    ensures Descending(Inserted(sorted, row))
  {
    if sorted != [] && !AtLeast(sorted[|sorted| - 1].stakes, row.stakes) {
      var front, last := sorted[..|sorted| - 1], sorted[|sorted| - 1];
      InsertedDescends(front, row);
      InsertedRows(front, row);
      var deeper := Inserted(front, row);
      forall i | 0 <= i < |deeper|
        ensures AtLeast(deeper[i].stakes, last.stakes)
      {
        assert deeper[i] in deeper;
      }
    }
  }

  lemma WithStakesSnoc(rows: seq<MasterRow>, row: MasterRow, v: Amount)
    ensures WithStakes(rows + [row], v) == WithStakes(rows, v) + if row.stakes == v then [row] else []
  {
    assert (rows + [row])[..|rows|] == rows;
  }

  /** Among rows of equal stakes the new one comes last. */
  lemma {:induction false} InsertedIsStable(sorted: seq<MasterRow>, row: MasterRow, v: Amount)
    requires Descending(sorted)
    ensures WithStakes(Inserted(sorted, row), v) == WithStakes(sorted, v) + if row.stakes == v then [row] else []
  {
    if sorted == [] || AtLeast(sorted[|sorted| - 1].stakes, row.stakes) {
      WithStakesSnoc(sorted, row, v);
    } else {
      var front, last := sorted[..|sorted| - 1], sorted[|sorted| - 1];
      InsertedIsStable(front, row, v);
      WithStakesSnoc(Inserted(front, row), last, v);
    }
  }

  /** The sort loses and repeats no row, and puts greater stakes first. */
  lemma {:induction false} ByStakesSorts(pool: seq<MasterRow>)
    ensures Descending(ByStakes(pool)) && multiset(ByStakes(pool)) == multiset(pool)
  {
    if pool != [] {
      ByStakesSorts(pool[..|pool| - 1]);
      InsertedRows(ByStakes(pool[..|pool| - 1]), pool[|pool| - 1]);
      InsertedDescends(ByStakes(pool[..|pool| - 1]), pool[|pool| - 1]);
      assert pool == pool[..|pool| - 1] + [pool[|pool| - 1]];
    }
  }

  /** Rows of equal stakes keep the order of the table. */
  lemma {:induction false} ByStakesIsStable(pool: seq<MasterRow>, stakes: Amount)
    ensures WithStakes(ByStakes(pool), stakes) == WithStakes(pool, stakes)
  {
    if pool != [] {
      ByStakesIsStable(pool[..|pool| - 1], stakes);
      ByStakesSorts(pool[..|pool| - 1]);
      InsertedIsStable(ByStakes(pool[..|pool| - 1]), pool[|pool| - 1], stakes);
    }
  }

  // ----- the selection -----

  datatype Reading = FetchFailed | NotDraft | AlreadyBound | NeedsBinding

  /** What the live case says of a row. */
  function Read(row: MasterRow, live: Live): Reading {
    match live(row.slug)
    case None => FetchFailed
    case Some((state, evidence)) =>
      if state != Draft then NotDraft
      else if MissingCandidates(CurrentEvidence(evidence), CandidatesOf(row)) == [] then AlreadyBound
      else NeedsBinding
  }

  /** Every row of the pool that needs binding. */
  function Needing(pool: seq<MasterRow>, live: Live): seq<MasterRow> {
    if pool == [] then []
    else Needing(pool[..|pool| - 1], live)
         + if Read(pool[|pool| - 1], live) == NeedsBinding then [pool[|pool| - 1]] else []
  }

  /** The cap: 0 is none. The loop breaks before its first read when the limit is negative. */
  function Capped(needing: seq<MasterRow>, limit: int): seq<MasterRow> {
    if limit == 0 || |needing| <= limit then needing
    else if limit < 0 then []
    else needing[..limit]
  }

  function Counted(stats: Stats, reading: Reading): Stats {
    match reading
    case FetchFailed => stats.(fetchFailed := stats.fetchFailed + 1)
    case NotDraft => stats.(notDraft := stats.notDraft + 1)
    case AlreadyBound => stats.(alreadyBound := stats.alreadyBound + 1)
    case NeedsBinding => stats.(selected := stats.selected + 1)
  }

  /** What keeps a row out of the pool, in the order it is looked for. */
  datatype Fate = OutOfYear | Dropped | NoCandidates | Pooled

  /** The fate of a row, read off its cells. */
  predicate HasFate(row: MasterRow, years: set<string>, drops: seq<(string, string)>, fate: Fate) {
    var inYear := years == {} || exists year :: year in years && year == Prefix(row.caseNo, 3);
    var dropped := exists drop :: drop in drops && Cell(row, drop.0) == drop.1;
    var usable := row.slug != "" && exists token :: token in row.tokens && token.Some?;
    match fate
    case OutOfYear => !inYear
    case Dropped => inYear && dropped
    case NoCandidates => inYear && !dropped && !usable
    case Pooled => inYear && !dropped && usable
  }

  function Prefix(s: string, n: nat): string {
    if |s| < n then s else s[..n]
  }

  function Cell(row: MasterRow, column: string): string {
    if column in row.cells then row.cells[column] else ""
  }

  function FateOf(row: MasterRow, years: set<string>, drops: seq<(string, string)>): Fate {
    if !InYearScope(row, years) then OutOfYear
    else if Quarantined(row, drops) then Dropped
    else if row.slug == "" || CandidatesOf(row) == [] then NoCandidates
    else Pooled
  }

  lemma {:induction false} PresentExactly<T>(s: seq<Option<T>>)
    ensures Present(s) != [] <==> exists x :: x in s && x.Some?
  {
    if s != [] {
      PresentExactly(s[..|s| - 1]);
      assert forall x :: x in s <==> x in s[..|s| - 1] || x == s[|s| - 1];
    }
  }

  lemma QuarantinedExactly(row: MasterRow, drops: seq<(string, string)>)
    ensures Quarantined(row, drops) <==> exists drop :: drop in drops && Cell(row, drop.0) == drop.1
  {
    if drop :| drop in drops && Cell(row, drop.0) == drop.1 {
      var i :| 0 <= i < |drops| && drops[i] == drop;
      assert Cell(row, drops[i].0) == drops[i].1;
    }
    if i :| 0 <= i < |drops| && Cell(row, drops[i].0) == drops[i].1 {
      assert drops[i] in drops;
    }
  }

  /** Each row has the one fate its cells say. */
  lemma FateIsRight(row: MasterRow, years: set<string>, drops: seq<(string, string)>, fate: Fate)
    ensures FateOf(row, years, drops) == fate <==> HasFate(row, years, drops, fate)
    ensures FateOf(row, years, drops) == Pooled <==> Proposed(row, years, drops)
  {
    assert |row.caseNo| == 3 ==> row.caseNo[..3] == row.caseNo;
    QuarantinedExactly(row, drops);
    PresentExactly(row.tokens);
    FirstsKeep(Present(row.tokens));
    if Present(row.tokens) != [] {
      assert Present(row.tokens)[0] in CandidatesOf(row);
    }
    if CandidatesOf(row) != [] {
      assert CandidatesOf(row)[0] in Present(row.tokens);
    }
  }

  function FateCount(rows: seq<MasterRow>, years: set<string>, drops: seq<(string, string)>, fate: Fate): nat {
    if rows == [] then 0
    else FateCount(rows[..|rows| - 1], years, drops, fate)
         + if FateOf(rows[|rows| - 1], years, drops) == fate then 1 else 0
  }

  /** The counters of the rows filtered so far. */
  function Filtered(rows: seq<MasterRow>, years: set<string>, drops: seq<(string, string)>): Stats {
    NO_STATS.(proposed := |rows|,
              outOfYear := FateCount(rows, years, drops, OutOfYear),
              dropped := FateCount(rows, years, drops, Dropped),
              noCandidates := FateCount(rows, years, drops, NoCandidates))
  }

  lemma FilteredSnoc(rows: seq<MasterRow>, i: nat, years: set<string>, drops: seq<(string, string)>)
    requires i < |rows|
    ensures var before := Filtered(rows[..i], years, drops).(proposed := i + 1);
            Filtered(rows[..i + 1], years, drops)
            == match FateOf(rows[i], years, drops)
               case OutOfYear => before.(outOfYear := before.outOfYear + 1)
               case Dropped => before.(dropped := before.dropped + 1)
               case NoCandidates => before.(noCandidates := before.noCandidates + 1)
               case Pooled => before
  {
    assert rows[..i + 1][..i] == rows[..i];
  }

  lemma {:induction false} FatesAddUp(rows: seq<MasterRow>, years: set<string>, drops: seq<(string, string)>)
    ensures var stats := Filtered(rows, years, drops);
            |rows| == stats.outOfYear + stats.dropped + stats.noCandidates + |Pool(rows, years, drops)|
  {
    if rows != [] {
      FatesAddUp(rows[..|rows| - 1], years, drops);
    }
  }

  /** The pool keeps the order of the table, whatever way the table is cut. */
  lemma {:induction false} PoolInOrder(
    a: seq<MasterRow>, b: seq<MasterRow>, years: set<string>, drops: seq<(string, string)>)
    ensures Pool(a + b, years, drops) == Pool(a, years, drops) + Pool(b, years, drops)
  {
    if b == [] {
      assert a + b == a;
    } else {
      PoolInOrder(a, b[..|b| - 1], years, drops);
      assert (a + b)[..|a + b| - 1] == a + b[..|b| - 1];
    }
  }

  lemma PoolOfOne(row: MasterRow, years: set<string>, drops: seq<(string, string)>)
    ensures Pool([row], years, drops) == if HasFate(row, years, drops, Pooled) then [row] else []
  {
    FateIsRight(row, years, drops, Pooled);
    assert [row][..0] == [];
  }

  /** What a read row is, read off its live case. */
  lemma ReadingExactly(row: MasterRow, live: Live)
    ensures Read(row, live) == FetchFailed <==> live(row.slug) == None
    ensures Read(row, live) == NotDraft <==> live(row.slug).Some? && live(row.slug).value.0 != Draft
    ensures Read(row, live) == NeedsBinding
            <==> && live(row.slug).Some? && live(row.slug).value.0 == Draft
                 && exists c :: c in CandidatesOf(row) && !Bound(CurrentEvidence(live(row.slug).value.1), IriOf(c))
  {
    if live(row.slug).Some? {
      var current := CurrentEvidence(live(row.slug).value.1);
      MissingExactly(current, CandidatesOf(row));
      var missing := MissingCandidates(current, CandidatesOf(row));
      if missing != [] {
        assert missing[0] in missing;
      }
    }
  }

  function ReadingCount(pool: seq<MasterRow>, live: Live, reading: Reading): nat {
    if pool == [] then 0
    else ReadingCount(pool[..|pool| - 1], live, reading)
         + if Read(pool[|pool| - 1], live) == reading then 1 else 0
  }

  /** A positive cap takes a prefix, none takes all; a negative one nothing but an empty list. */
  lemma CappedExactly(needing: seq<MasterRow>, limit: int)
    ensures var capped := Capped(needing, limit);
            && capped <= needing
            && |capped| == if limit == 0 || 0 < |needing| <= limit then |needing| else if limit < 0 then 0
                           else if |needing| < limit then |needing| else limit
  {
  }

  lemma PoolSnoc(rows: seq<MasterRow>, i: nat, years: set<string>, drops: seq<(string, string)>)
    requires i < |rows|
    ensures Pool(rows[..i + 1], years, drops)
            == if Proposed(rows[i], years, drops) then Pool(rows[..i], years, drops) + [rows[i]]
               else Pool(rows[..i], years, drops)
  {
    assert rows[..i + 1][..i] == rows[..i];
  }

  lemma NeedingSnoc(pool: seq<MasterRow>, i: nat, live: Live)
    requires i < |pool|
    ensures Needing(pool[..i + 1], live)
            == if Read(pool[i], live) == NeedsBinding then Needing(pool[..i], live) + [pool[i]]
               else Needing(pool[..i], live)
  {
    assert pool[..i + 1][..i] == pool[..i];
  }

  lemma {:induction false} NeedingIsPrefixed(pool: seq<MasterRow>, i: nat, live: Live)
    requires i <= |pool|
    ensures Needing(pool[..i], live) <= Needing(pool, live)
  {
    if i < |pool| {
      NeedingIsPrefixed(pool[..|pool| - 1], i, live);
      assert pool[..|pool| - 1][..i] == pool[..i];
    } else {
      assert pool[..i] == pool;
    }
  }

  /** The filtering half of `select_batch`, with its counters. */
  method Propose(rows: seq<MasterRow>, years: set<string>, drops: seq<(string, string)>)
    returns (pool: seq<MasterRow>, stats: Stats)
    ensures pool == Pool(rows, years, drops)
    ensures stats == Filtered(rows, years, drops)
    ensures |rows| == stats.outOfYear + stats.dropped + stats.noCandidates + |pool|
  {
    pool, stats := [], NO_STATS;
    for i := 0 to |rows|
      invariant pool == Pool(rows[..i], years, drops)
      invariant stats == Filtered(rows[..i], years, drops)
    {
      PoolSnoc(rows, i, years, drops);
      FilteredSnoc(rows, i, years, drops);
      stats := stats.(proposed := stats.proposed + 1);
      if !InYearScope(rows[i], years) {
        stats := stats.(outOfYear := stats.outOfYear + 1);
      } else if Quarantined(rows[i], drops) {
        stats := stats.(dropped := stats.dropped + 1);
      } else {
        var candidates := CandidatesFromRow(rows[i].tokens);
        if rows[i].slug == "" || candidates == [] {
          stats := stats.(noCandidates := stats.noCandidates + 1);
        } else {
          pool := pool + [rows[i]];
        }
      }
    }
    assert rows[..|rows|] == rows;
    FatesAddUp(rows, years, drops);
  }

  /** The rows read so far are counted under what they are, and nothing else moved. */
  predicate Tallied(before: Stats, stats: Stats, pool: seq<MasterRow>, live: Live) {
    stats == before.(fetchFailed := ReadingCount(pool, live, FetchFailed),
                     notDraft := ReadingCount(pool, live, NotDraft),
                     alreadyBound := ReadingCount(pool, live, AlreadyBound),
                     selected := ReadingCount(pool, live, NeedsBinding))
  }

  lemma CountedTallies(before: Stats, stats: Stats, pool: seq<MasterRow>, read: nat, live: Live)
    requires read < |pool| && Tallied(before, stats, pool[..read], live)
    ensures Tallied(before, Counted(stats, Read(pool[read], live)), pool[..read + 1], live)
  {
    assert pool[..read + 1][..read] == pool[..read];
  }

  lemma {:induction false} ReadingsAddUp(pool: seq<MasterRow>, live: Live)
    ensures ReadingCount(pool, live, FetchFailed) + ReadingCount(pool, live, NotDraft)
            + ReadingCount(pool, live, AlreadyBound) + ReadingCount(pool, live, NeedsBinding) == |pool|
    ensures ReadingCount(pool, live, NeedsBinding) == |Needing(pool, live)|
  {
    if pool != [] {
      ReadingsAddUp(pool[..|pool| - 1], live);
    }
  }

  /** The reading half: live cases in order until the cap; `read` counts them. */
  method ReadLive(pool: seq<MasterRow>, live: Live, limit: int, before: Stats)
    returns (selected: seq<MasterRow>, stats: Stats, read: nat)
    requires before.fetchFailed + before.notDraft + before.alreadyBound + before.selected == 0
    ensures selected == Capped(Needing(pool, live), limit)
    ensures read <= |pool| && (limit == 0 ==> read == |pool|)
    ensures stats == before.(fetchFailed := ReadingCount(pool[..read], live, FetchFailed),
                             notDraft := ReadingCount(pool[..read], live, NotDraft),
                             alreadyBound := ReadingCount(pool[..read], live, AlreadyBound),
                             selected := |selected|)
    ensures stats.fetchFailed + stats.notDraft + stats.alreadyBound + stats.selected == read
  {
    selected, stats, read := [], before, 0;
    while read < |pool|
      invariant read <= |pool|
      invariant selected == Needing(pool[..read], live)
      invariant limit != 0 ==> |selected| <= limit || selected == []
      invariant Tallied(before, stats, pool[..read], live)
    {
      ReadingsAddUp(pool[..read], live);
      if limit != 0 && |selected| >= limit {
        NeedingIsPrefixed(pool, read, live);
        return;
      }
      NeedingSnoc(pool, read, live);
      CountedTallies(before, stats, pool, read, live);
      var reading := Read(pool[read], live);
      stats := Counted(stats, reading);
      if reading == NeedsBinding {
        selected := selected + [pool[read]];
      }
      read := read + 1;
    }
    ReadingsAddUp(pool[..read], live);
    assert pool[..|pool|] == pool;
  }

  /** `select_batch`: filter, sort by stakes, read the live cases until the cap. */
  method SelectBatch(
    rows: seq<MasterRow>, live: Live, years: set<string>, limit: int, drops: seq<(string, string)>)
    returns (selected: seq<MasterRow>, stats: Stats, read: nat)
    ensures |ByStakes(Pool(rows, years, drops))| == |Pool(rows, years, drops)|
    ensures selected == Capped(Needing(ByStakes(Pool(rows, years, drops)), live), limit)
    ensures read <= |Pool(rows, years, drops)| && (limit == 0 ==> read == |Pool(rows, years, drops)|)
    ensures var taken := ByStakes(Pool(rows, years, drops))[..read];
            stats == Filtered(rows, years, drops).(fetchFailed := ReadingCount(taken, live, FetchFailed),
                                                   notDraft := ReadingCount(taken, live, NotDraft),
                                                   alreadyBound := ReadingCount(taken, live, AlreadyBound),
                                                   selected := |selected|)
    ensures stats.outOfYear + stats.dropped + stats.noCandidates + |Pool(rows, years, drops)| == |rows|
    ensures stats.fetchFailed + stats.notDraft + stats.alreadyBound + stats.selected == read
  {
    var pool, proposed := Propose(rows, years, drops);
    ByStakesSorts(pool);
    assert |ByStakes(pool)| == |multiset(ByStakes(pool))| == |multiset(pool)| == |pool|;
    selected, stats, read := ReadLive(ByStakes(pool), live, limit, proposed);
  }

  /**
   The selector and the binder agree: a readable row is passed over exactly when its case is not
   a draft, or is one the binder would probe nothing for.
   */
  lemma SelectionAgreesWithTheBinder(row: MasterRow, live: Live, etag: Option<nat>, probe: Candidate -> Verdict)
    requires live(row.slug).Some?
    ensures var (state, evidence) := live(row.slug).value;
            var plan := Planned(state, evidence, etag, CandidatesOf(row), probe);
            && (Read(row, live) == NeedsBinding <==> plan.probes != [])
            && (Read(row, live) == NotDraft <==> plan.action == SkipState)
            && (Read(row, live) == AlreadyBound ==> plan.action == Noop)
  {
  }

  /** A row is selected only from the proposed ones, and without a cap every needing one is. */
  lemma {:induction false} NeedingExactly(pool: seq<MasterRow>, live: Live)
    ensures forall row :: row in Needing(pool, live) <==> row in pool && Read(row, live) == NeedsBinding
  {
    if pool != [] {
      NeedingExactly(pool[..|pool| - 1], live);
      assert forall row :: row in pool <==> row in pool[..|pool| - 1] || row == pool[|pool| - 1];
    }
  }
}
