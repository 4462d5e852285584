/**
 The tag vocabulary (case_tags/models.py): roll-up along `broader`, resolution along
 `merged_into`. Both are walks that have to end on any graph the tables may hold.
 */
module Tags {
  import opened Common

  datatype TagStatus = Proposed | Active | Deprecated | Merged

  datatype Tag = Tag(status: TagStatus, broader: Option<string>, mergedInto: Option<string>)

  /** `tag` None: the value was retired. */
  datatype Alias = Alias(tag: Option<string>, retiredReason: string)

  datatype Resolution = Unknown | Retired(reason: string) | Canonical(tagId: string)

  // ----- walks along one edge per node -----

  type Edges = map<string, string>

  function Next(edges: Edges, id: string): Option<string> {
    if id in edges then Some(edges[id]) else None
  }

  /** The node n edges on. */
  function Iter(edges: Edges, id: string, n: nat): Option<string> {
    if n == 0 then Some(id)
    else match Iter(edges, id, n - 1)
      case None => None
      case Some(x) => Next(edges, x)
  }

  ghost predicate OnCycle(edges: Edges, id: string) {
    exists n: nat :: n > 0 && Iter(edges, id, n) == Some(id)
  }

  ghost predicate Acyclic(edges: Edges) {
    forall id :: !OnCycle(edges, id)
  }

  lemma {:induction false} IterAdds(edges: Edges, id: string, m: nat, n: nat)
    requires Iter(edges, id, m).Some?
    ensures Iter(edges, id, m + n) == Iter(edges, Iter(edges, id, m).value, n)
  {
    if n > 0 {
      IterAdds(edges, id, m, n - 1);
    }
  }

  lemma {:induction false} IterDefinedBelow(edges: Edges, id: string, m: nat, n: nat)
    requires m <= n && Iter(edges, id, n).Some?
    ensures Iter(edges, id, m).Some?
    ensures m < n ==> Iter(edges, id, m).value in edges
  {
    if m < n {
      assert Iter(edges, id, n - 1).Some?;
      IterDefinedBelow(edges, id, m, n - 1);
    }
  }

  // ----- the edges of the table -----

  function BroaderEdges(tags: map<string, Tag>): Edges {
    map id | id in tags && tags[id].broader.Some? :: tags[id].broader.value
  }

  /** A merged tag leads to its replacement, when that row exists. */
  function MergeEdges(tags: map<string, Tag>): Edges {
    map id | id in tags && tags[id].status == Merged && tags[id].mergedInto.Some?
             && tags[id].mergedInto.value in tags :: tags[id].mergedInto.value
  }

  // ----- clean -----

  /** `Tag.clean` accepts the row: it looks at the parent, and no further. */
  predicate Clean(tags: map<string, Tag>, id: string, tag: Tag) {
    && (tag.broader.Some? ==>
          && tag.broader.value != id
          && (tag.broader.value in tags ==> tags[tag.broader.value].broader == None))
    && (tag.status == Merged ==> tag.mergedInto.Some?)
    && tag.mergedInto != Some(id)
  }

  /** An edit that `clean` accepts is stored; another changes nothing. */
  function Edited(tags: map<string, Tag>, id: string, tag: Tag): map<string, Tag> {
    if Clean(tags, id, tag) then tags[id := tag] else tags
  }

  function EditedAll(tags: map<string, Tag>, edits: seq<(string, Tag)>): map<string, Tag> {
    if edits == [] then tags
    else
      var last := edits[|edits| - 1];
      Edited(EditedAll(tags, edits[..|edits| - 1]), last.0, last.1)
  }

  // ----- with_broader -----

  /** A walk from `id` that repeats no node. */
  ghost predicate IsWalk(edges: Edges, id: string, chain: seq<string>) {
    && chain != [] && Distinct(chain)
    && forall i | 0 <= i < |chain| :: Iter(edges, id, i) == Some(chain[i])
  }

  lemma WalkExtends(edges: Edges, id: string, chain: seq<string>, next: string)
    requires IsWalk(edges, id, chain) && Next(edges, chain[|chain| - 1]) == Some(next) && next !in chain
    ensures IsWalk(edges, id, chain + [next])
  {
    assert Iter(edges, id, |chain| - 1) == Some(chain[|chain| - 1]);
  }

  /** The longest one. */
  ghost predicate IsAncestorPath(edges: Edges, id: string, chain: seq<string>) {
    && IsWalk(edges, id, chain)
    && match Next(edges, chain[|chain| - 1])
       case None => true
       case Some(next) => next in chain
  }

  // ----- resolve -----

  /** The walk of `resolve` from `id`, given the targets already followed. */
  function Follow(edges: Edges, id: string, seen: set<string>): string
    decreases |edges.Values - seen|
  {
    match Next(edges, id)
    case None => id
    case Some(next) =>
      if next in seen then id
      else
        assert edges.Values - (seen + {next}) < edges.Values - seen by {
          assert next in edges.Values;
        }
        SubsetSize(edges.Values - (seen + {next}), edges.Values - seen);
        Follow(edges, next, seen + {next})
  }

  function ResolvedTag(tags: map<string, Tag>, id: string): string {
    Follow(MergeEdges(tags), id, {})
  }

  function Resolve(tags: map<string, Tag>, aliases: map<string, Alias>, key: string): Resolution {
    if key !in aliases then Unknown
    else match aliases[key].tag
      case None => Retired(aliases[key].retiredReason)
      case Some(id) => if id in tags then Canonical(ResolvedTag(tags, id)) else Unknown
  }

  class Vocabulary {
    var tags: map<string, Tag>
    var aliases: map<string, Alias>

    constructor (tags: map<string, Tag>, aliases: map<string, Alias>)
      ensures this.tags == tags && this.aliases == aliases
    {
      this.tags, this.aliases := tags, aliases;
    }

    /** `clean`, then the save. */
    method Edit(id: string, tag: Tag) returns (accepted: bool)
      modifies this`tags
      ensures accepted <==> Clean(old(tags), id, tag)
      ensures tags == Edited(old(tags), id, tag)
    {
      if tag.broader.Some? {
        var parent := tag.broader.value;
        if parent == id {
          return false;
        }
        if parent in tags && tags[parent].broader.Some? {
          return false;
        }
      }
      if tag.status == Merged && tag.mergedInto == None {
        return false;
      }
      if tag.mergedInto == Some(id) {
        return false;
      }
      tags := tags[id := tag];
      return true;
    }

    /** `with_broader`. It ends whatever the table holds. */
    method WithBroader(id: string) returns (chain: seq<string>)
      requires id in tags
      ensures IsAncestorPath(BroaderEdges(tags), id, chain)
    {
      ghost var edges := BroaderEdges(tags);
      ghost var unpassed := edges.Keys;
      chain := [id];
      var parent := tags[id].broader;
      while parent.Some? && parent.value !in chain
        invariant IsWalk(edges, id, chain)
        invariant parent == Next(edges, chain[|chain| - 1])
        invariant forall x | x in edges && x !in unpassed :: x in chain
        invariant parent.Some? ==> chain[|chain| - 1] in unpassed
        decreases unpassed
      {
        unpassed := unpassed - {chain[|chain| - 1]};
        WalkExtends(edges, id, chain, parent.value);
        chain := chain + [parent.value];
        parent := if parent.value in tags then tags[parent.value].broader else None;
      }
    }

    /** `resolve`. It ends on merge cycles too. */
    method ResolveValue(key: string) returns (r: Resolution)
      ensures r == Resolve(tags, aliases, key)
    {
      if key !in aliases {
        return Unknown;
      }
      if aliases[key].tag == None {
        return Retired(aliases[key].retiredReason);
      }
      var id := aliases[key].tag.value;
      if id !in tags {
        return Unknown;
      }
      ghost var edges := MergeEdges(tags);
      ghost var start := id;
      var seen: set<string> := {};
      while tags[id].status == Merged && tags[id].mergedInto.Some?
        invariant id in tags
        invariant Follow(edges, id, seen) == Follow(edges, start, {})
        decreases edges.Values - seen
      {
        var target := tags[id].mergedInto.value;
        if target in seen {
          break;
        }
        if target !in tags {
          break;
        }
        assert target in edges.Values by {
          assert edges[id] == target;
        }
        seen := seen + {target};
        id := target;
      }
      return Canonical(id);
    }
  }

  // ----- broader: acyclic, but deeper than one level -----

  /** A new edge to a node without one closes no cycle. */
  lemma EdgeToALeafKeepsAcyclic(edges: Edges, id: string, parent: string)
    requires Acyclic(edges) && parent != id && parent !in edges
    ensures Acyclic(edges[id := parent])
  {
    var after := edges[id := parent];
    forall x
      ensures !OnCycle(after, x)
    {
      if OnCycle(after, x) {
        var n: nat :| n > 0 && Iter(after, x, n) == Some(x);
        CycleAvoids(after, x, n, parent);
        CycleWithoutTheEdge(edges, after, x, n, id);
        assert OnCycle(edges, x);
      }
    }
  }

  /** No node of a cycle is one that has no edge. */
  lemma CycleAvoids(edges: Edges, x: string, n: nat, leaf: string)
    requires n > 0 && Iter(edges, x, n) == Some(x) && leaf !in edges
    ensures forall m: nat | m <= n :: Iter(edges, x, m).Some? && Iter(edges, x, m).value != leaf
  {
    IterDefinedBelow(edges, x, 0, n);
    forall m: nat | m <= n
      ensures Iter(edges, x, m).Some? && Iter(edges, x, m).value != leaf
    {
      IterDefinedBelow(edges, x, m, n);
    }
  }

  /** A cycle that never reaches the new edge's end never takes it. */
  lemma {:induction false} CycleWithoutTheEdge(edges: Edges, after: Edges, x: string, n: nat, id: string)
    requires id in after && after == edges[id := after[id]]
    requires forall m: nat | m <= n :: Iter(after, x, m).Some? && Iter(after, x, m).value != after[id]
    ensures Iter(edges, x, n) == Iter(after, x, n)
  {
    if n > 0 {
      CycleWithoutTheEdge(edges, after, x, n - 1, id);
      assert Iter(after, x, n).value != after[id];
    }
  }

  lemma FewerEdgesKeepAcyclic(edges: Edges, id: string)
    requires Acyclic(edges)
    ensures Acyclic(edges - {id})
  {
    forall x
      ensures !OnCycle(edges - {id}, x)
    {
      if n: nat :| n > 0 && Iter(edges - {id}, x, n) == Some(x) {
        FewerEdgesWalkTheSame(edges, id, x, n);
        assert OnCycle(edges, x);
      }
    }
  }

  lemma {:induction false} FewerEdgesWalkTheSame(edges: Edges, id: string, x: string, n: nat)
    requires Iter(edges - {id}, x, n).Some?
    ensures Iter(edges, x, n) == Iter(edges - {id}, x, n)
  {
    if n > 0 {
      FewerEdgesWalkTheSame(edges, id, x, n - 1);
    }
  }

  lemma EditKeepsAcyclic(tags: map<string, Tag>, id: string, tag: Tag)
    requires Acyclic(BroaderEdges(tags))
    ensures Acyclic(BroaderEdges(Edited(tags, id, tag)))
  {
    if Clean(tags, id, tag) {
      var edges, after := BroaderEdges(tags), BroaderEdges(tags[id := tag]);
      match tag.broader
      case None =>
        assert after == edges - {id};
        FewerEdgesKeepAcyclic(edges, id);
      case Some(parent) =>
        assert after == edges[id := parent];
        EdgeToALeafKeepsAcyclic(edges, id, parent);
    }
  }

  /** Any sequence of edits that `clean` accepts keeps the roll-up free of cycles. */
  lemma {:induction false} AcceptedEditsKeepAcyclic(tags: map<string, Tag>, edits: seq<(string, Tag)>)
    requires Acyclic(BroaderEdges(tags))
    ensures Acyclic(BroaderEdges(EditedAll(tags, edits)))
  {
    if edits != [] {
      AcceptedEditsKeepAcyclic(tags, edits[..|edits| - 1]);
      EditKeepsAcyclic(EditedAll(tags, edits[..|edits| - 1]), edits[|edits| - 1].0, edits[|edits| - 1].1);
    }
  }

  /** A merged tag names its replacement, and no tag is merged into itself. */
  predicate MergesAreNamed(tags: map<string, Tag>) {
    forall id | id in tags ::
      (tags[id].status == Merged ==> tags[id].mergedInto.Some?) && tags[id].mergedInto != Some(id)
  }

  /** Any sequence of accepted edits keeps merges named. */
  lemma {:induction false} AcceptedEditsKeepMergesNamed(tags: map<string, Tag>, edits: seq<(string, Tag)>)
    requires MergesAreNamed(tags)
    ensures MergesAreNamed(EditedAll(tags, edits))
  {
    if edits != [] {
      AcceptedEditsKeepMergesNamed(tags, edits[..|edits| - 1]);
    }
  }

  /** What `clean` refuses: a tag above itself or below one that has a broader, a merge into nothing or itself. */
  lemma EditIsRefusedExactlyWhen(tags: map<string, Tag>, id: string, tag: Tag)
    ensures Clean(tags, id, tag)
            <==> && !(tag.broader == Some(id))
                 && !(exists parent | parent in tags :: tag.broader == Some(parent) && tags[parent].broader.Some?)
                 && !(tag.status == Merged && tag.mergedInto == None)
                 && !(tag.mergedInto == Some(id))
    ensures Edited(tags, id, tag) == if Clean(tags, id, tag) then tags[id := tag] else tags
  {
  }

  /** The rule the model documents: what a tag rolls up into rolls up no further. */
  predicate OneLevel(tags: map<string, Tag>) {
    forall id | id in tags && tags[id].broader.Some? && tags[id].broader.value in tags ::
      tags[tags[id].broader.value].broader == None
  }

  predicate HasNarrower(tags: map<string, Tag>, id: string) {
    exists child | child in tags :: child != id && tags[child].broader == Some(id)
  }

  /** An accepted edit keeps the one-level rule exactly when a tag with narrower ones gets no broader. */
  lemma OneLevelKeptExactlyWhen(tags: map<string, Tag>, id: string, tag: Tag)
    requires OneLevel(tags) && Clean(tags, id, tag)
    ensures OneLevel(Edited(tags, id, tag)) <==> tag.broader == None || !HasNarrower(tags, id)
  {
    var after := Edited(tags, id, tag);
    if tag.broader.Some? && HasNarrower(tags, id) {
      var child :| child in tags && child != id && tags[child].broader == Some(id);
      assert after[child].broader == Some(id) && after[id].broader.Some?;
    }
  }

  const LEAF := Tag(Active, None, None)
  const THREE_TAGS: map<string, Tag> := map["a" := LEAF, "b" := LEAF, "c" := LEAF]

  /** Two accepted edits make a chain of three. */
  lemma TwoEditsMakeAChain()
    ensures OneLevel(THREE_TAGS)
    ensures var edits := [("a", LEAF.(broader := Some("b")))] + [("b", LEAF.(broader := Some("c")))];
            var tags := EditedAll(THREE_TAGS, edits);
            && !OneLevel(tags)
            && IsAncestorPath(BroaderEdges(tags), "a", ["a", "b", "c"])
  {
    var first := [("a", LEAF.(broader := Some("b")))];
    var both := first + [("b", LEAF.(broader := Some("c")))];
    assert first[..0] == [] && both[..1] == first;
    var one := THREE_TAGS["a" := LEAF.(broader := Some("b"))];
    assert EditedAll(THREE_TAGS, first) == one;
    var tags := one["b" := LEAF.(broader := Some("c"))];
    assert EditedAll(THREE_TAGS, both) == tags;
    var edges := BroaderEdges(tags);
    assert tags["a"].broader == Some("b") && tags["b"].broader == Some("c") && "c" in tags && tags["c"] == LEAF;
    assert Iter(edges, "a", 0) == Some("a");
    assert Iter(edges, "a", 1) == Some("b");
    assert Iter(edges, "a", 2) == Some("c");
  }

  /** A walk that stopped at a tag already passed went around a cycle. */
  lemma ReturnOfTheWalk(edges: Edges, id: string, chain: seq<string>) returns (x: string)
    requires IsAncestorPath(edges, id, chain) && Next(edges, chain[|chain| - 1]).Some?
    ensures OnCycle(edges, x)
  {
    var last := |chain| - 1;
    var i :| 0 <= i < |chain| && chain[i] == Next(edges, chain[last]).value;
    x := chain[i];
    assert Iter(edges, id, last) == Some(chain[last]) && Iter(edges, id, i) == Some(x);
    IterAdds(edges, id, i, last + 1 - i);
    assert Iter(edges, id, last + 1) == Some(x);
  }

  /** On an acyclic graph the ancestor path is complete: it ends at a tag without a broader one. */
  lemma AncestorPathIsComplete(edges: Edges, id: string, chain: seq<string>)
    requires Acyclic(edges) && IsAncestorPath(edges, id, chain)
    ensures Next(edges, chain[|chain| - 1]) == None
    ensures forall n: nat, x | Iter(edges, id, n) == Some(x) :: x in chain
  {
    var last := |chain| - 1;
    if Next(edges, chain[last]).Some? {
      var x := ReturnOfTheWalk(edges, id, chain);
    }
    forall n: nat, x | Iter(edges, id, n) == Some(x)
      ensures x in chain
    {
      if n > last {
        IterDefinedBelow(edges, id, last, n);
      } else {
        assert chain[n] == x;
      }
    }
  }

  /** Two ancestor paths of a tag are the same: what the indexer writes is determined. */
  lemma AncestorPathIsUnique(edges: Edges, id: string, a: seq<string>, b: seq<string>)
    requires IsAncestorPath(edges, id, a) && IsAncestorPath(edges, id, b) && |a| <= |b|
    ensures a == b
  {
    assert forall i | 0 <= i < |a| :: Iter(edges, id, i) == Some(a[i]) && Iter(edges, id, i) == Some(b[i]);
    if |a| < |b| {
      LongerWalkRepeats(edges, id, a, b);
    }
  }

  /** A walk that goes on past an ancestor path comes back to it. */
  lemma LongerWalkRepeats(edges: Edges, id: string, a: seq<string>, b: seq<string>)
    requires IsAncestorPath(edges, id, a) && |a| < |b|
    requires forall i | 0 <= i < |b| :: Iter(edges, id, i) == Some(b[i])
    ensures !Distinct(b)
  {
    var n := |a|;
    assert Iter(edges, id, n - 1) == Some(a[n - 1]) && Iter(edges, id, n) == Some(b[n]);
    assert Next(edges, a[n - 1]) == Some(b[n]);
    var i :| 0 <= i < n && a[i] == b[n];
    assert Iter(edges, id, i) == Some(a[i]) && Iter(edges, id, i) == Some(b[i]);
  }

  // ----- merges -----

  ghost predicate Reaches(edges: Edges, a: string, b: string) {
    exists n: nat :: n > 0 && Iter(edges, a, n) == Some(b)
  }

  lemma ReachesStep(edges: Edges, a: string, n: nat, b: string)
    requires Iter(edges, a, n) == Some(b) && b in edges
    ensures Iter(edges, a, n + 1) == Some(edges[b])
  {
  }

  lemma {:induction false} FollowIsReached(edges: Edges, id: string, seen: set<string>)
    ensures Follow(edges, id, seen) == id || Reaches(edges, id, Follow(edges, id, seen))
    decreases |edges.Values - seen|
  {
    if Next(edges, id).Some? && Next(edges, id).value !in seen {
      var next := Next(edges, id).value;
      assert next in edges.Values;
      SubsetSize(edges.Values - (seen + {next}), edges.Values - seen);
      FollowIsReached(edges, next, seen + {next});
      assert Iter(edges, id, 0) == Some(id);
      assert Iter(edges, id, 1) == Some(next);
      var end := Follow(edges, id, seen);
      if end != next {
        var n: nat :| n > 0 && Iter(edges, next, n) == Some(end);
        IterAdds(edges, id, 1, n);
        assert Iter(edges, id, 1 + n) == Some(end);
      }
    }
  }

  lemma {:induction false} FollowStaysInTheTable(tags: map<string, Tag>, id: string, seen: set<string>)
    requires id in tags
    ensures Follow(MergeEdges(tags), id, seen) in tags
    decreases |MergeEdges(tags).Values - seen|
  {
    var edges := MergeEdges(tags);
    if Next(edges, id).Some? && Next(edges, id).value !in seen {
      var next := Next(edges, id).value;
      assert next in edges.Values;
      SubsetSize(edges.Values - (seen + {next}), edges.Values - seen);
      FollowStaysInTheTable(tags, next, seen + {next});
    }
  }

  /** A tag that is marked merged into a row of the table. */
  predicate MergesOn(tags: map<string, Tag>, id: string) {
    id in tags && tags[id].status == Merged && tags[id].mergedInto.Some? && tags[id].mergedInto.value in tags
  }

  /**
   What a lookup answers, on any table: an unknown key or an alias of a row that is gone is
   unknown, a retired alias gives its reason, and any other the row it comes to along merges,
   which on acyclic merges is one merged no further.
   */
  lemma LookupExactly(tags: map<string, Tag>, aliases: map<string, Alias>, key: string)
    ensures var r := Resolve(tags, aliases, key);
            if key !in aliases then r == Unknown
            else match aliases[key].tag
              case None => r == Retired(aliases[key].retiredReason)
              case Some(id) =>
                if id !in tags then r == Unknown
                else
                  && r.Canonical? && r.tagId in tags
                  && (r.tagId == id || Reaches(MergeEdges(tags), id, r.tagId))
                  && (Acyclic(MergeEdges(tags)) ==> !MergesOn(tags, r.tagId))
  {
    if key in aliases && aliases[key].tag.Some? && aliases[key].tag.value in tags {
      var id := aliases[key].tag.value;
      FollowIsReached(MergeEdges(tags), id, {});
      FollowStaysInTheTable(tags, id, {});
      if Acyclic(MergeEdges(tags)) {
        FollowEndsAtALeaf(MergeEdges(tags), id, {});
      }
    }
  }

  /** The edges the walks go along, row by row. */
  lemma EdgesExactly(tags: map<string, Tag>, id: string)
    ensures MergesOn(tags, id) <==> id in MergeEdges(tags)
    ensures MergesOn(tags, id) ==> MergeEdges(tags)[id] == tags[id].mergedInto.value
    ensures id in tags && tags[id].broader.Some? <==> id in BroaderEdges(tags)
    ensures id in BroaderEdges(tags) ==> BroaderEdges(tags)[id] == tags[id].broader.value
  {
  }

  /** Where no cycle is in the way, resolution ends at a tag that is not merged any further. */
  lemma {:induction false} FollowEndsAtALeaf(edges: Edges, id: string, seen: set<string>)
    requires Acyclic(edges)
    requires forall s | s in seen :: s == id || Reaches(edges, s, id)
    ensures Next(edges, Follow(edges, id, seen)) == None
    decreases |edges.Values - seen|
  {
    match Next(edges, id)
    case None =>
    case Some(next) =>
      assert !(next in seen) by {
        if next in seen {
          NextIsSeen(edges, id, next);
        }
      }
      forall s | s in seen + {next}
        ensures s == next || Reaches(edges, s, next)
      {
        if s != next {
          StepReaches(edges, s, id);
        }
      }
      assert next in edges.Values;
      SubsetSize(edges.Values - (seen + {next}), edges.Values - seen);
      FollowEndsAtALeaf(edges, next, seen + {next});
  }

  lemma NextIsSeen(edges: Edges, id: string, next: string)
    requires Next(edges, id) == Some(next) && (next == id || Reaches(edges, next, id))
    ensures OnCycle(edges, next)
  {
    if next == id {
      assert Iter(edges, id, 0) == Some(id);
      assert Iter(edges, id, 1) == Some(id);
    } else {
      var n: nat :| n > 0 && Iter(edges, next, n) == Some(id);
      ReachesStep(edges, next, n, id);
    }
  }

  lemma StepReaches(edges: Edges, s: string, id: string)
    requires id in edges && (s == id || Reaches(edges, s, id))
    ensures Reaches(edges, s, edges[id])
  {
    if s == id {
      assert Iter(edges, id, 0) == Some(id);
      assert Iter(edges, id, 1) == Some(edges[id]);
    } else {
      var n: nat :| n > 0 && Iter(edges, s, n) == Some(id);
      ReachesStep(edges, s, n, id);
    }
  }

  /** A node the walk never comes to might as well have been seen. */
  lemma {:induction false} UnreachedSeenIsIrrelevant(edges: Edges, id: string, seen: set<string>, b: string)
    requires !Reaches(edges, id, b)
    ensures Follow(edges, id, seen + {b}) == Follow(edges, id, seen)
    decreases |edges.Values - seen|
  {
    match Next(edges, id)
    case None =>
    case Some(next) =>
      assert Iter(edges, id, 0) == Some(id);
      assert Iter(edges, id, 1) == Some(next);
      assert next != b;
      if next !in seen {
        forall n: nat | n > 0
          ensures Iter(edges, next, n) != Some(b)
        {
          IterAdds(edges, id, 1, n);
        }
        assert next in edges.Values;
        SubsetSize(edges.Values - (seen + {next}), edges.Values - seen);
        UnreachedSeenIsIrrelevant(edges, next, seen + {next}, b);
        assert seen + {next} + {b} == seen + {b} + {next};
      }
  }

  lemma RepeatReturnsEarlier(edges: Edges, b: string, i: nat, j: nat, k: nat)
    requires i < j < k && Iter(edges, b, k) == Some(b) && Iter(edges, b, i) == Iter(edges, b, j)
    ensures Iter(edges, b, i + (k - j)) == Some(b)
  {
    IterDefinedBelow(edges, b, j, k);
    IterAdds(edges, b, j, k - j);
    IterAdds(edges, b, i, k - j);
  }

  /** The first return to a node on a cycle; the nodes before it are distinct. */
  lemma FirstReturn(edges: Edges, b: string) returns (k: nat)
    requires OnCycle(edges, b)
    ensures k > 0 && Iter(edges, b, k) == Some(b)
    ensures forall m: nat | 0 < m < k :: Iter(edges, b, m).Some? && Iter(edges, b, m).value != b
    ensures forall i: nat, j: nat | 0 < i < j < k :: Iter(edges, b, i) != Iter(edges, b, j)
  {
    var n: nat :| n > 0 && Iter(edges, b, n) == Some(b);
    k := 1;
    while Iter(edges, b, k) != Some(b)
      invariant 0 < k <= n
      invariant forall m: nat | 0 < m < k :: Iter(edges, b, m) != Some(b)
      decreases n - k
    {
      k := k + 1;
    }
    forall m: nat | 0 < m < k
      ensures Iter(edges, b, m).Some? && Iter(edges, b, m).value != b
    {
      IterDefinedBelow(edges, b, m, k);
    }
    forall i: nat, j: nat | 0 < i < j < k
      ensures Iter(edges, b, i) != Iter(edges, b, j)
    {
      if Iter(edges, b, i) == Iter(edges, b, j) {
        RepeatReturnsEarlier(edges, b, i, j, k);
      }
    }
  }

  /** The nodes 1..i of the walk from b. */
  ghost function Passed(edges: Edges, b: string, i: nat): set<string>
    requires forall m: nat | 0 < m <= i :: Iter(edges, b, m).Some?
  {
    set m: nat | 0 < m <= i :: Iter(edges, b, m).value
  }

  /** Around a cycle of length k from b: the walk stops at b, or one before it when b was seen. */
  lemma {:induction false} FollowAround(edges: Edges, b: string, k: nat, i: nat, withB: bool)
    requires 1 < k && 0 < i < k && Iter(edges, b, k) == Some(b)
    requires forall m: nat | 0 < m < k :: Iter(edges, b, m).Some? && Iter(edges, b, m).value != b
    requires forall i: nat, j: nat | 0 < i < j < k :: Iter(edges, b, i) != Iter(edges, b, j)
    ensures Follow(edges, Iter(edges, b, i).value, Passed(edges, b, i) + if withB then {b} else {})
            == if withB then Iter(edges, b, k - 1).value else b
    decreases k - i
  {
    var x := Iter(edges, b, i).value;
    var seen := Passed(edges, b, i) + if withB then {b} else {};
    IterDefinedBelow(edges, b, i, k);
    if i < k - 1 {
      var next := Iter(edges, b, i + 1).value;
      assert Next(edges, x) == Some(next);
      assert next !in seen;
      assert Passed(edges, b, i + 1) == Passed(edges, b, i) + {next};
      assert seen + {next} == Passed(edges, b, i + 1) + if withB then {b} else {};
      FollowAround(edges, b, k, i + 1, withB);
    } else {
      assert Next(edges, x) == Some(b);
      if !withB {
        assert b !in seen;
        var first := Iter(edges, b, 1).value;
        assert Iter(edges, b, 0) == Some(b) && Next(edges, b) == Some(first);
        assert first in Passed(edges, b, i);
        assert Follow(edges, x, seen) == Follow(edges, b, seen + {b});
      }
    }
  }

  /**
   After A is merged into B, an alias of A resolves as an alias of B does exactly when B is not
   on a cycle of merges.
   */
  lemma MergedAliasResolvesAlikeExactlyWhen(tags: map<string, Tag>, a: string, b: string)
    requires a in tags && b in tags && tags[a].status == Merged && tags[a].mergedInto == Some(b)
    requires forall id | id in tags :: tags[id].mergedInto != Some(id)
    ensures ResolvedTag(tags, a) == ResolvedTag(tags, b) <==> !OnCycle(MergeEdges(tags), b)
  {
    var edges := MergeEdges(tags);
    assert Next(edges, a) == Some(b);
    assert Follow(edges, a, {}) == Follow(edges, b, {} + {b});
    if !OnCycle(edges, b) {
      UnreachedSeenIsIrrelevant(edges, b, {}, b);
    } else {
      var k := FirstReturn(edges, b);
      assert Iter(edges, b, 0) == Some(b);
      assert Iter(edges, b, 1) == Next(edges, b) != Some(b);
      var first := Iter(edges, b, 1).value;
      assert Next(edges, b) == Some(first);
      assert Passed(edges, b, 1) == {first};
      FollowAround(edges, b, k, 1, false);
      FollowAround(edges, b, k, 1, true);
      assert {} + {first} == Passed(edges, b, 1) + {};
      assert {} + {b} + {first} == Passed(edges, b, 1) + {b};
    }
  }

  /** On acyclic merges both resolve to the same tag, and that one is not merged any further. */
  lemma AcyclicMergesResolve(tags: map<string, Tag>, a: string, b: string)
    requires a in tags && b in tags && tags[a].status == Merged && tags[a].mergedInto == Some(b)
    requires (forall id | id in tags :: tags[id].mergedInto != Some(id)) && Acyclic(MergeEdges(tags))
    ensures ResolvedTag(tags, a) == ResolvedTag(tags, b)
    ensures Next(MergeEdges(tags), ResolvedTag(tags, b)) == None
  {
    MergedAliasResolvesAlikeExactlyWhen(tags, a, b);
    FollowEndsAtALeaf(MergeEdges(tags), b, {});
  }
}
