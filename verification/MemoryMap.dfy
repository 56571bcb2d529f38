/** Consolidation of contiguous address ranges for the linker script (memory_map.py). */
module MemoryMap {

  datatype Region = Region(name: string, base: nat, length: nat) {
    function End(): nat { base + length }
    predicate Contains(x: nat) { base <= x < End() }
  }

  ghost predicate Covers(rs: seq<Region>, x: nat) {
    exists r :: r in rs && r.Contains(x)
  }

  ghost predicate DistinctNames(rs: seq<Region>) {
    forall i, j :: 0 <= i < j < |rs| ==> rs[i].name != rs[j].name
  }

  predicate Apart(x: Region, y: Region) { x.End() <= y.base || y.End() <= x.base }

  ghost predicate NonEmpty(rs: seq<Region>) {
    forall i :: 0 <= i < |rs| ==> rs[i].length > 0
  }

  /** Non-empty regions that share no address. */
  ghost predicate Disjoint(rs: seq<Region>) {
    NonEmpty(rs) && forall i, j :: 0 <= i < j < |rs| ==> Apart(rs[i], rs[j])
  }

  ghost predicate Ordered(rs: seq<Region>) {
    forall i, j :: 0 <= i < j < |rs| ==> rs[i].base <= rs[j].base
  }

  /** Sorted with a gap after every region: disjoint, and no two regions touch. */
  ghost predicate Separated(rs: seq<Region>) {
    forall i, j :: 0 <= i < j < |rs| ==> rs[i].End() < rs[j].base
  }

  // ---------- the sort ----------

  function Insert(rs: seq<Region>, r: Region): seq<Region> {
    if rs == [] || rs[|rs| - 1].base <= r.base then rs + [r]
    else Insert(rs[..|rs| - 1], r) + [rs[|rs| - 1]]
  }

  /** The stable sort by base. */
  function SortByBase(rs: seq<Region>): seq<Region> {
    if rs == [] then [] else Insert(SortByBase(rs[..|rs| - 1]), rs[|rs| - 1])
  }

  lemma {:induction false} InsertKeeps(rs: seq<Region>, r: Region)
    ensures multiset(Insert(rs, r)) == multiset(rs) + multiset{r}
  {
    if rs != [] {
      assert rs == rs[..|rs| - 1] + [rs[|rs| - 1]];
      InsertKeeps(rs[..|rs| - 1], r);
    }
  }

  lemma {:induction false} InsertSorts(rs: seq<Region>, r: Region)
    requires Ordered(rs)
    ensures Ordered(Insert(rs, r)) && forall x :: x in Insert(rs, r) ==> x in rs || x == r
  {
    if rs != [] && rs[|rs| - 1].base > r.base {
      var rest, last := rs[..|rs| - 1], rs[|rs| - 1];
      InsertSorts(rest, r);
      AppendOrdered(Insert(rest, r), last);
    }
  }

  lemma AppendOrdered(rs: seq<Region>, last: Region)
    requires Ordered(rs) && forall x :: x in rs ==> x.base <= last.base
    ensures Ordered(rs + [last])
  {
  }

  lemma {:induction false} SortSorts(rs: seq<Region>)
    ensures Ordered(SortByBase(rs)) && multiset(SortByBase(rs)) == multiset(rs)
  {
    if rs != [] {
      assert rs == rs[..|rs| - 1] + [rs[|rs| - 1]];
      SortSorts(rs[..|rs| - 1]);
      InsertSorts(SortByBase(rs[..|rs| - 1]), rs[|rs| - 1]);
      InsertKeeps(SortByBase(rs[..|rs| - 1]), rs[|rs| - 1]);
    }
  }

  /** The regions with one base, in list order. */
  ghost function OfBase(rs: seq<Region>, base: nat): seq<Region> {
    if rs == [] then [] else OfBase(rs[..|rs| - 1], base) + if rs[|rs| - 1].base == base then [rs[|rs| - 1]] else []
  }

  lemma OfBaseLast(rs: seq<Region>, r: Region, base: nat)
    ensures OfBase(rs + [r], base) == OfBase(rs, base) + if r.base == base then [r] else []
  {
    assert (rs + [r])[..|rs|] == rs;
  }

  lemma {:induction false} InsertStable(rs: seq<Region>, r: Region, base: nat)
    ensures OfBase(Insert(rs, r), base) == OfBase(rs + [r], base)
  {
    OfBaseLast(rs, r, base);
    if rs != [] && rs[|rs| - 1].base > r.base {
      var rest, last := rs[..|rs| - 1], rs[|rs| - 1];
      InsertStable(rest, r, base);
      OfBaseLast(Insert(rest, r), last, base);
      SwapUnequal(rest, last, r, base);
      assert rs == rest + [last];
    }
  }

  lemma SwapUnequal(rest: seq<Region>, last: Region, r: Region, base: nat)
    requires last.base != r.base
    ensures OfBase(rest + [r], base) + (if last.base == base then [last] else []) ==
      OfBase(rest + [last], base) + if r.base == base then [r] else []
  {
    OfBaseLast(rest, r, base);
    OfBaseLast(rest, last, base);
  }

  /** The sort is stable: regions with equal bases keep their order. */
  lemma {:induction false} SortIsStable(rs: seq<Region>, base: nat)
    ensures OfBase(SortByBase(rs), base) == OfBase(rs, base)
  {
    if rs != [] {
      var rest, last := rs[..|rs| - 1], rs[|rs| - 1];
      assert rs == rest + [last];
      SortIsStable(rest, base);
      InsertStable(SortByBase(rest), last, base);
      OfBaseLast(SortByBase(rest), last, base);
      OfBaseLast(rest, last, base);
    }
  }

  /** Every two regions are related, both ways. */
  ghost predicate Pairwise(rs: seq<Region>, rel: (Region, Region) -> bool) {
    forall i, j :: 0 <= i < j < |rs| ==> rel(rs[i], rs[j]) && rel(rs[j], rs[i])
  }

  lemma PairwiseLast(rs: seq<Region>, r: Region, rel: (Region, Region) -> bool)
    ensures Pairwise(rs + [r], rel) <==> Pairwise(rs, rel) && forall x :: x in rs ==> rel(x, r) && rel(r, x)
  {
    var t := rs + [r];
    if Pairwise(t, rel) {
      forall x | x in rs
        ensures rel(x, r) && rel(r, x)
      {
        var i :| 0 <= i < |rs| && rs[i] == x;
        assert rel(t[i], t[|rs|]) && rel(t[|rs|], t[i]);
      }
      forall i, j | 0 <= i < j < |rs|
        ensures rel(rs[i], rs[j]) && rel(rs[j], rs[i])
      {
        assert rel(t[i], t[j]) && rel(t[j], t[i]);
      }
    }
  }

  lemma {:induction false} InsertMembers(rs: seq<Region>, r: Region, x: Region)
    ensures x in Insert(rs, r) <==> x in rs || x == r
  {
    InsertKeeps(rs, r);
    assert x in multiset(Insert(rs, r)) <==> x in multiset(rs) + multiset{r};
  }

  lemma {:induction false} InsertPairwise(rs: seq<Region>, r: Region, rel: (Region, Region) -> bool)
    ensures Pairwise(Insert(rs, r), rel) <==> Pairwise(rs + [r], rel)
  {
    PairwiseLast(rs, r, rel);
    if rs != [] && rs[|rs| - 1].base > r.base {
      var rest, last := rs[..|rs| - 1], rs[|rs| - 1];
      assert rs == rest + [last];
      InsertPairwise(rest, r, rel);
      PairwiseLast(rest, r, rel);
      PairwiseLast(rest, last, rel);
      PairwiseLast(Insert(rest, r), last, rel);
      forall x
        ensures x in Insert(rest, r) <==> x in rest || x == r
      {
        InsertMembers(rest, r, x);
      }
    }
  }

  /** What holds between every two regions holds after the sort exactly when it did before. */
  lemma {:induction false} SortPairwise(rs: seq<Region>, rel: (Region, Region) -> bool)
    ensures Pairwise(SortByBase(rs), rel) <==> Pairwise(rs, rel)
  {
    if rs != [] {
      var rest, last := rs[..|rs| - 1], rs[|rs| - 1];
      assert rs == rest + [last];
      SortPairwise(rest, rel);
      PairwiseLast(rest, last, rel);
      PairwiseLast(SortByBase(rest), last, rel);
      InsertPairwise(SortByBase(rest), last, rel);
      SortMembers(rest);
    }
  }

  lemma SortMembers(rs: seq<Region>)
    ensures forall x :: x in SortByBase(rs) <==> x in rs
  {
    SortSorts(rs);
    forall x
      ensures x in SortByBase(rs) <==> x in rs
    {
      assert x in multiset(SortByBase(rs)) <==> x in multiset(rs);
    }
  }

  lemma SortKeepsNames(rs: seq<Region>)
    requires DistinctNames(rs)
    ensures DistinctNames(SortByBase(rs))
  {
    var rel := (x: Region, y: Region) => x.name != y.name;
    assert Pairwise(rs, rel);
    SortPairwise(rs, rel);
    var s := SortByBase(rs);
    assert forall i, j :: 0 <= i < j < |s| ==> rel(s[i], s[j]);
  }

  lemma SortKeepsNonEmpty(rs: seq<Region>)
    ensures NonEmpty(SortByBase(rs)) <==> NonEmpty(rs)
  {
    SortMembers(rs);
    MembersNonEmpty(rs);
    MembersNonEmpty(SortByBase(rs));
  }

  lemma MembersNonEmpty(rs: seq<Region>)
    ensures NonEmpty(rs) <==> forall x :: x in rs ==> x.length > 0
  {
    if forall x :: x in rs ==> x.length > 0 {
      forall i | 0 <= i < |rs|
        ensures rs[i].length > 0
      {
        assert rs[i] in rs;
      }
    }
  }

  lemma SortKeepsDisjoint(rs: seq<Region>)
    ensures Disjoint(SortByBase(rs)) <==> Disjoint(rs)
  {
    var rel := (x: Region, y: Region) => Apart(x, y);
    SortPairwise(rs, rel);
    SortKeepsNonEmpty(rs);
    DisjointIsPairwise(rs, rel);
    DisjointIsPairwise(SortByBase(rs), rel);
  }

  lemma DisjointIsPairwise(rs: seq<Region>, rel: (Region, Region) -> bool)
    requires forall x, y :: rel(x, y) == Apart(x, y)
    ensures Disjoint(rs) <==> NonEmpty(rs) && Pairwise(rs, rel)
  {
    if Pairwise(rs, rel) {
      forall i, j | 0 <= i < j < |rs|
        ensures Apart(rs[i], rs[j])
      {
        assert rel(rs[i], rs[j]);
      }
    }
  }

  // ---------- the merge ----------

  /** Each region joins the last one when it continues it. */
  function Merged(rs: seq<Region>): seq<Region> {
    if rs == [] then []
    else MergeInto(Merged(rs[..|rs| - 1]), rs[|rs| - 1])
  }

  function MergeInto(m: seq<Region>, r: Region): seq<Region> {
    if m != [] && r.base == m[|m| - 1].End()
    then m[..|m| - 1] + [m[|m| - 1].(length := m[|m| - 1].length + r.length)]
    else m + [r]
  }

  function LastEnd(rs: seq<Region>): nat { if rs == [] then 0 else rs[|rs| - 1].End() }

  /** Each region ends before the next begins: neighbours neither touch nor overlap. */
  ghost predicate Gapped(rs: seq<Region>) {
    forall i :: 0 <= i < |rs| - 1 ==> rs[i].End() < rs[i + 1].base
  }

  /** Each region ends by where the next begins. */
  ghost predicate InSequence(rs: seq<Region>) {
    forall i :: 0 <= i < |rs| - 1 ==> rs[i].End() <= rs[i + 1].base
  }

  lemma GappedLast(m: seq<Region>, r: Region)
    ensures Gapped(m + [r]) <==> Gapped(m) && (m != [] ==> LastEnd(m) < r.base)
  {
    var t := m + [r];
    if m != [] {
      assert t[|m| - 1] == m[|m| - 1] && t[|m| - 1 + 1] == r;
    }
    if Gapped(t) {
      forall i | 0 <= i < |m| - 1
        ensures m[i].End() < m[i + 1].base
      {
        assert t[i].End() < t[i + 1].base;
      }
    }
  }

  lemma InSequenceLast(rs: seq<Region>, r: Region)
    ensures InSequence(rs + [r]) <==> InSequence(rs) && (rs != [] ==> LastEnd(rs) <= r.base)
  {
    var t := rs + [r];
    if rs != [] {
      assert t[|rs| - 1] == rs[|rs| - 1] && t[|rs| - 1 + 1] == r;
    }
    if InSequence(t) {
      forall i | 0 <= i < |rs| - 1
        ensures rs[i].End() <= rs[i + 1].base
      {
        assert t[i].End() <= t[i + 1].base;
      }
    }
  }

  lemma MergeIntoGapped(m: seq<Region>, r: Region)
    ensures Gapped(MergeInto(m, r)) <==> Gapped(m) && (m != [] ==> LastEnd(m) <= r.base)
  {
    if m != [] && r.base == m[|m| - 1].End() {
      var front, last := m[..|m| - 1], m[|m| - 1];
      assert m == front + [last];
      GappedLast(front, last);
      GappedLast(front, last.(length := last.length + r.length));
    } else {
      GappedLast(m, r);
    }
  }

  /** Merging keeps where the last region ends. */
  lemma {:induction false} MergedEnd(rs: seq<Region>)
    ensures (rs == [] <==> Merged(rs) == []) && LastEnd(Merged(rs)) == LastEnd(rs)
  {
    if rs != [] {
      MergeIntoEnd(Merged(rs[..|rs| - 1]), rs[|rs| - 1]);
    }
  }

  lemma MergeIntoEnd(m: seq<Region>, r: Region)
    ensures MergeInto(m, r) != [] && LastEnd(MergeInto(m, r)) == r.End()
  {
  }

  /** Merging leaves a gap between any two neighbours exactly when each region ends by where the next begins,
      for any list of regions. */
  lemma {:induction false} MergedGappedIff(rs: seq<Region>)
    ensures Gapped(Merged(rs)) <==> InSequence(rs)
  {
    if rs != [] {
      var rest, r := rs[..|rs| - 1], rs[|rs| - 1];
      MergedGappedIff(rest);
      MergedEnd(rest);
      InSequenceLast(rest, r);
      assert rs == rest + [r];
      MergeIntoGapped(Merged(rest), r);
    }
  }

  /** Gaps between neighbours are gaps between any two. */
  lemma {:induction false} GappedIsSeparated(rs: seq<Region>)
    ensures Gapped(rs) <==> Separated(rs)
  {
    if rs != [] {
      var rest, last := rs[..|rs| - 1], rs[|rs| - 1];
      assert rs == rest + [last];
      GappedIsSeparated(rest);
      GappedLast(rest, last);
      if Gapped(rs) {
        forall i | 0 <= i < |rest|
          ensures rest[i].End() < last.base
        {
          assert i < |rest| - 1 ==> rest[i].End() < rest[|rest| - 1].base;
        }
      }
    }
  }

  /** For regions that are not empty, sorted by base, that is disjointness. */
  lemma {:induction false} InSequenceIsDisjoint(rs: seq<Region>)
    requires Ordered(rs) && NonEmpty(rs)
    ensures InSequence(rs) <==> Disjoint(rs)
  {
    if InSequence(rs) {
      InSequenceApart(rs);
    } else {
      var i :| 0 <= i < |rs| - 1 && rs[i].End() > rs[i + 1].base;
      assert rs[i].base <= rs[i + 1].base;
      assert !Apart(rs[i], rs[i + 1]);
    }
  }

  lemma {:induction false} InSequenceApart(rs: seq<Region>)
    requires InSequence(rs)
    ensures forall i, j :: 0 <= i < j < |rs| ==> rs[i].End() <= rs[j].base
  {
    if rs != [] {
      var rest, last := rs[..|rs| - 1], rs[|rs| - 1];
      assert rs == rest + [last];
      InSequenceLast(rest, last);
      InSequenceApart(rest);
      forall i | 0 <= i < |rest|
        ensures rest[i].End() <= last.base
      {
        assert i < |rest| - 1 ==> rest[i].End() <= rest[|rest| - 1].base;
      }
    }
  }

  lemma {:induction false} MergedNonEmpty(rs: seq<Region>)
    requires NonEmpty(rs)
    ensures NonEmpty(Merged(rs))
  {
    if rs != [] {
      MergedNonEmpty(rs[..|rs| - 1]);
    }
  }

  /** Merging loses and adds no address, whatever the regions. */
  lemma {:induction false} MergedCovers(rs: seq<Region>, x: nat)
    ensures Covers(Merged(rs), x) <==> Covers(rs, x)
  {
    if rs != [] {
      var rest, r := rs[..|rs| - 1], rs[|rs| - 1];
      MergedCovers(rest, x);
      MergeIntoCovers(Merged(rest), r, x);
      CoversLast(rest, r, x);
      assert rs == rest + [r];
    }
  }

  lemma MergeIntoCovers(m: seq<Region>, r: Region, x: nat)
    ensures Covers(MergeInto(m, r), x) <==> Covers(m, x) || r.Contains(x)
  {
    if m != [] && r.base == m[|m| - 1].End() {
      var front, last := m[..|m| - 1], m[|m| - 1];
      var joined := last.(length := last.length + r.length);
      assert m == front + [last] && MergeInto(m, r) == front + [joined];
      CoversLast(front, joined, x);
      CoversLast(front, last, x);
    } else {
      CoversLast(m, r, x);
    }
  }

  lemma CoversLast(front: seq<Region>, last: Region, x: nat)
    ensures Covers(front + [last], x) <==> Covers(front, x) || last.Contains(x)
  {
    if r :| r in front && r.Contains(x) {
      assert r in front + [last];
    }
    assert last in front + [last];
  }

  // ---------- the loops ----------

  /** What is left of a list without the removed regions. */
  ghost function Kept(rs: seq<Region>, removal: seq<Region>): seq<Region> {
    if rs == [] then []
    else if rs[0] in removal then Kept(rs[1..], removal)
    else [rs[0]] + Kept(rs[1..], removal)
  }

  lemma {:induction false} KeptAppend(x: seq<Region>, y: seq<Region>, removal: seq<Region>)
    ensures Kept(x + y, removal) == Kept(x, removal) + Kept(y, removal)
  {
    if x == [] {
      assert x + y == y;
    } else {
      assert (x + y)[1..] == x[1..] + y;
      KeptAppend(x[1..], y, removal);
    }
  }

  lemma {:induction false} KeptWithout(rs: seq<Region>, removal: seq<Region>, r: Region)
    requires r !in rs
    ensures Kept(rs, removal + [r]) == Kept(rs, removal)
  {
    if rs != [] {
      KeptWithout(rs[1..], removal, r);
    }
  }

  lemma {:induction false} AllRemoved(rs: seq<Region>, removal: seq<Region>)
    requires forall j :: 0 <= j < |rs| ==> rs[j] in removal
    ensures Kept(rs, removal) == []
  {
    if rs != [] {
      AllRemoved(rs[1..], removal);
    }
  }

  /** list.remove: the first equal region goes. */
  function RemoveFirst(rs: seq<Region>, r: Region): seq<Region> {
    if rs == [] then [] else if rs[0] == r then rs[1..] else [rs[0]] + RemoveFirst(rs[1..], r)
  }

  lemma {:induction false} RemoveKept(rs: seq<Region>, removal: seq<Region>, r: Region)
    requires DistinctNames(rs)
    ensures RemoveFirst(Kept(rs, removal), r) == Kept(rs, removal + [r])
  {
    if rs != [] {
      var head, tail := rs[0], rs[1..];
      RemoveKept(tail, removal, r);
      RemoveFromHead(head, Kept(tail, removal), r);
      if head == r {
        assert head !in tail;
        KeptWithout(tail, removal, r);
      }
      RemovedMembers(removal, r, head);
    }
  }

  lemma RemoveFromHead(head: Region, tail: seq<Region>, r: Region)
    ensures RemoveFirst([head] + tail, r) == if head == r then tail else [head] + RemoveFirst(tail, r)
    ensures r !in tail ==> RemoveFirst(tail, r) == tail
  {
    assert ([head] + tail)[1..] == tail;
    if r !in tail {
      RemoveAbsent(tail, r);
    }
  }

  lemma {:induction false} RemoveAbsent(rs: seq<Region>, r: Region)
    requires r !in rs
    ensures RemoveFirst(rs, r) == rs
  {
    if rs != [] {
      RemoveAbsent(rs[1..], r);
    }
  }

  lemma RemovedMembers(removal: seq<Region>, r: Region, x: Region)
    ensures x in removal + [r] <==> x in removal || x == r
  {
  }

  /** No removed region has the name of region b or of a region still to come. */
  ghost predicate OthersRemoved(list: seq<Region>, removal: seq<Region>, b: nat, i: nat) {
    forall k, j :: 0 <= k < |removal| && 0 <= j < |list| && (j == b || i <= j) ==> removal[k].name != list[j].name
  }

  ghost predicate SameNames(list: seq<Region>, sorted: seq<Region>, i: nat) {
    && |list| == |sorted|
    && (forall j :: 0 <= j < |list| ==> list[j].name == sorted[j].name)
    && (forall j :: i <= j < |list| ==> list[j] == sorted[j])
  }

  ghost predicate RunRemoved(list: seq<Region>, removal: seq<Region>, from: nat, to: nat) {
    to <= |list| && forall j :: from <= j < to ==> list[j] in removal
  }

  /** The merge loop at i: region b is the one later regions may join, those after it have joined it, and
      what is kept is the merge of the regions seen. */
  ghost predicate Merging(list: seq<Region>, sorted: seq<Region>, removal: seq<Region>, b: nat, i: nat) {
    && b < i <= |list| && SameNames(list, sorted, i)
    && RunRemoved(list, removal, b + 1, i) && OthersRemoved(list, removal, b, i)
    && Kept(list[..b], removal) + [list[b]] == Merged(sorted[..i])
  }

  lemma MergingKeeps(list: seq<Region>, removal: seq<Region>, b: nat, i: nat)
    requires b < i <= |list| && RunRemoved(list, removal, b + 1, i) && OthersRemoved(list, removal, b, i)
    ensures Kept(list[..i], removal) == Kept(list[..b], removal) + [list[b]]
  {
    var front, run := list[..b], list[b + 1..i];
    assert list[b] !in removal;
    assert list[..i] == front + ([list[b]] + run);
    AllRemoved(run, removal);
    KeptAppend(front, [list[b]] + run, removal);
    KeptAppend([list[b]], run, removal);
    assert Kept([list[b]], removal) == [list[b]];
  }

  function Joined(list: seq<Region>, b: nat, r: Region): seq<Region>
    requires b < |list|
  {
    list[b := list[b].(length := list[b].length + r.length)]
  }

  lemma MergingJoin(list: seq<Region>, sorted: seq<Region>, removal: seq<Region>, b: nat, i: nat)
    requires DistinctNames(sorted) && Merging(list, sorted, removal, b, i) && i < |list|
    requires list[i].base == list[b].End()
    ensures Merging(Joined(list, b, list[i]), sorted, removal + [list[i]], b, i + 1)
  {
    var r := list[i];
    var t, more := Joined(list, b, r), removal + [r];
    assert SameNames(t, sorted, i + 1);
    assert RunRemoved(t, more, b + 1, i + 1);
    assert OthersRemoved(t, more, b, i + 1);
    JoinMerges(list, sorted, removal, b, i);
  }

  lemma JoinMerges(list: seq<Region>, sorted: seq<Region>, removal: seq<Region>, b: nat, i: nat)
    requires DistinctNames(sorted) && SameNames(list, sorted, i) && b < i < |list|
    requires Kept(list[..b], removal) + [list[b]] == Merged(sorted[..i]) && list[i].base == list[b].End()
    ensures var t := Joined(list, b, list[i]);
      Kept(t[..b], removal + [list[i]]) + [t[b]] == Merged(sorted[..i + 1])
  {
    var r, front := list[i], list[..b];
    FrontLacks(list, sorted, b, i);
    JoinedFront(list, removal, b, r);
    MergedNext(sorted, i);
    MergeLast(Kept(front, removal), list[b], r);
  }

  lemma JoinedFront(list: seq<Region>, removal: seq<Region>, b: nat, r: Region)
    requires b < |list| && r !in list[..b]
    ensures var t := Joined(list, b, r);
      Kept(t[..b], removal + [r]) == Kept(list[..b], removal) && t[b] == list[b].(length := list[b].length + r.length)
  {
    assert Joined(list, b, r)[..b] == list[..b];
    KeptWithout(list[..b], removal, r);
  }

  lemma FrontLacks(list: seq<Region>, sorted: seq<Region>, b: nat, i: nat)
    requires DistinctNames(sorted) && SameNames(list, sorted, i) && b < i < |list|
    ensures list[i] !in list[..b] && list[i] == sorted[i]
  {
    forall j | 0 <= j < b
      ensures list[j].name != list[i].name
    {
      assert sorted[j].name != sorted[i].name;
    }
  }

  lemma MergedNext(sorted: seq<Region>, i: nat)
    requires i < |sorted|
    ensures Merged(sorted[..i + 1]) == MergeInto(Merged(sorted[..i]), sorted[i])
  {
    assert sorted[..i + 1][..i] == sorted[..i];
  }

  lemma MergingStart(sorted: seq<Region>)
    requires DistinctNames(sorted) && sorted != []
    ensures Merging(sorted, sorted, [], 0, 1)
  {
    MergedNext(sorted, 0);
    assert sorted[..0] == [];
  }

  lemma MergeLast(m: seq<Region>, last: Region, r: Region)
    ensures r.base == last.End() ==> MergeInto(m + [last], r) == m + [last.(length := last.length + r.length)]
    ensures r.base != last.End() ==> MergeInto(m + [last], r) == m + [last] + [r]
  {
    assert (m + [last])[..|m|] == m;
  }

  lemma MergingNext(list: seq<Region>, sorted: seq<Region>, removal: seq<Region>, b: nat, i: nat)
    requires DistinctNames(sorted) && Merging(list, sorted, removal, b, i) && i < |list|
    requires list[i].base != list[b].End()
    ensures Merging(list, sorted, removal, i, i + 1)
  {
    MergingKeeps(list, removal, b, i);
    MergedNext(sorted, i);
    MergeLast(Kept(list[..b], removal), list[b], list[i]);
  }

  /** One later region: it joins region b in place and is listed for removal, or becomes the new base. */
  method MergeNext(list: seq<Region>, removal: seq<Region>, b: nat, i: nat, ghost sorted: seq<Region>)
    returns (after: seq<Region>, removed: seq<Region>, base: nat)
    requires DistinctNames(sorted) && Merging(list, sorted, removal, b, i) && i < |list|
    ensures Merging(after, sorted, removed, base, i + 1)
  {
    after, removed, base := list, removal, b;
    if list[i].base == list[b].base + list[b].length {
      MergingJoin(list, sorted, removal, b, i);
      after := Joined(list, b, list[i]);
      removed := removal + [list[i]];
    } else {
      MergingNext(list, sorted, removal, b, i);
      base := i;
    }
  }

  /** The loop that joins regions in place and lists those that have joined. */
  method MergeLoop(sorted: seq<Region>) returns (list: seq<Region>, removal: seq<Region>)
    requires DistinctNames(sorted)
    ensures DistinctNames(list) && Kept(list, removal) == Merged(sorted)
  {
    list, removal := sorted, [];
    var base := -1;
    for i := 0 to |sorted|
      invariant MergeState(list, sorted, removal, base, i)
    {
      if base == -1 {
        MergingStart(sorted);
        base := i;
      } else {
        list, removal, base := MergeNext(list, removal, base, i, sorted);
      }
    }
    MergingDone(list, sorted, removal, base);
  }

  ghost predicate MergeState(list: seq<Region>, sorted: seq<Region>, removal: seq<Region>, base: int, i: nat) {
    if i == 0 then base == -1 && list == sorted && removal == []
    else 0 <= base && Merging(list, sorted, removal, base, i)
  }

  lemma MergingDone(list: seq<Region>, sorted: seq<Region>, removal: seq<Region>, b: int)
    requires DistinctNames(sorted)
    requires MergeState(list, sorted, removal, b, |sorted|)
    ensures DistinctNames(list) && Kept(list, removal) == Merged(sorted)
  {
    if sorted != [] {
      MergingKeeps(list, removal, b, |list|);
      assert list[..|list|] == list && sorted[..|list|] == sorted;
    }
  }

  method RemoveAll(merged: seq<Region>, removal: seq<Region>) returns (list: seq<Region>)
    requires DistinctNames(merged)
    ensures list == Kept(merged, removal)
  {
    list := merged;
    KeptNothing(list);
    for k := 0 to |removal|
      invariant list == Kept(merged, removal[..k])
    {
      RemoveKept(merged, removal[..k], removal[k]);
      assert removal[..k + 1] == removal[..k] + [removal[k]];
      list := RemoveFirst(list, removal[k]);
    }
    assert removal[..|removal|] == removal;
  }

  /** The clamp: at most 64 KB of each region. */
  method ClampAll(list: seq<Region>) returns (memories: seq<Region>)
    ensures |memories| == |list|
    ensures forall j :: 0 <= j < |list| ==> memories[j].name == list[j].name && memories[j].base == list[j].base
    ensures forall j :: 0 <= j < |list| ==>
      memories[j].length == if list[j].length < 0x10000 then list[j].length else 0x10000
    ensures forall x: nat :: Covers(memories, x) <==>
      exists r :: r in list && r.base <= x < r.End() && x < r.base + 0x10000
  {
    memories := list;
    for k := 0 to |memories|
      invariant |memories| == |list|
      invariant forall j :: 0 <= j < |list| ==> memories[j].name == list[j].name && memories[j].base == list[j].base
      invariant forall j :: 0 <= j < |list| ==>
        memories[j].length == if j < k && list[j].length > 0x10000 then 0x10000 else list[j].length
    {
      if memories[k].length > 0x10000 {
        memories := memories[k := memories[k].(length := 0x10000)];
      }
    }
    forall x: nat
      ensures Covers(memories, x) <==> exists r :: r in list && r.base <= x < r.End() && x < r.base + 0x10000
    {
      ClampCovers(list, memories, x);
    }
  }

  /** The same regions, each cut to 64 KB. */
  ghost predicate Cut(list: seq<Region>, memories: seq<Region>) {
    && |memories| == |list|
    && (forall j :: 0 <= j < |list| ==> memories[j].name == list[j].name && memories[j].base == list[j].base)
    && forall j :: 0 <= j < |list| ==>
         memories[j].length == if list[j].length < 0x10000 then list[j].length else 0x10000
  }

  /** What is left is the first 64 KB of each region. */
  lemma ClampCovers(list: seq<Region>, memories: seq<Region>, x: nat)
    requires Cut(list, memories)
    ensures Covers(memories, x) <==> exists r :: r in list && r.base <= x < r.End() && x < r.base + 0x10000
  {
    if Covers(memories, x) {
      var j :| 0 <= j < |memories| && memories[j].Contains(x);
      assert list[j] in list;
    }
    if r :| r in list && r.base <= x < r.End() && x < r.base + 0x10000 {
      var j :| 0 <= j < |list| && list[j] == r;
      assert memories[j] in memories && memories[j].Contains(x);
    }
  }

  /** The regions before the clamp. */
  function Consolidated(regions: seq<Region>): seq<Region> { Merged(SortByBase(regions)) }

  /** Consolidation keeps the set of addresses, whatever the regions. */
  lemma ConsolidatedCovers(regions: seq<Region>, x: nat)
    ensures Covers(Consolidated(regions), x) <==> Covers(regions, x)
  {
    SortSorts(regions);
    MergedCovers(SortByBase(regions), x);
    SameCover(SortByBase(regions), regions, x);
  }

  /** No two consolidated regions touch or overlap exactly when each region, sorted by base, ends by where the
      next begins. */
  lemma ConsolidatedSeparatesIff(regions: seq<Region>)
    ensures Separated(Consolidated(regions)) <==> InSequence(SortByBase(regions))
  {
    MergedGappedIff(SortByBase(regions));
    GappedIsSeparated(Consolidated(regions));
  }

  /** For regions that are not empty, exactly when they are disjoint. */
  lemma ConsolidatedSeparates(regions: seq<Region>)
    requires NonEmpty(regions)
    ensures Separated(Consolidated(regions)) <==> Disjoint(regions)
    ensures NonEmpty(Consolidated(regions))
  {
    SortSorts(regions);
    SortKeepsNonEmpty(regions);
    SortKeepsDisjoint(regions);
    ConsolidatedSeparatesIff(regions);
    InSequenceIsDisjoint(SortByBase(regions));
    MergedNonEmpty(SortByBase(regions));
  }

  /** An empty region hides a contact: the sorted list is not in sequence, and the merge leaves two touching
      regions apart. */
  lemma EmptyRegionBlocksMerge(a: Region, gap: Region, c: Region)
    requires a.length > 0 && c.length > 0 && gap.length == 0 && gap.base == a.base && c.base == a.End()
    ensures Consolidated([a, gap, c]) == [a, gap, c] && !Separated(Consolidated([a, gap, c]))
  {
    var none: seq<Region> := [];
    var one := none + [a];
    var two := one + [gap];
    var three := two + [c];
    SortedLast(none, a);
    SortedLast(one, gap);
    SortedLast(two, c);
    MergedLast(none, a);
    MergedLast(one, gap);
    MergedLast(two, c);
    assert three == [a, gap, c];
    InSequenceLast(one, gap);
    InSequenceLast(two, c);
    ConsolidatedSeparatesIff(three);
  }

  lemma SortedLast(rs: seq<Region>, r: Region)
    requires SortByBase(rs) == rs && (rs == [] || rs[|rs| - 1].base <= r.base)
    ensures SortByBase(rs + [r]) == rs + [r]
  {
    assert (rs + [r])[..|rs|] == rs;
  }

  lemma MergedLast(rs: seq<Region>, r: Region)
    requires Merged(rs) == rs && (rs == [] || rs[|rs| - 1].End() != r.base)
    ensures Merged(rs + [r]) == rs + [r]
  {
    assert (rs + [r])[..|rs|] == rs;
  }

  /** Cutting regions short closes no gap and empties no region. */
  lemma ClampShrinks(list: seq<Region>, memories: seq<Region>)
    requires Cut(list, memories)
    ensures Separated(list) ==> Separated(memories)
    ensures NonEmpty(list) ==> NonEmpty(memories)
  {
  }

  /** Every consolidated region starts as one of those given, with its name and base. */
  lemma ConsolidatedStarts(regions: seq<Region>, m: Region)
    requires m in Consolidated(regions)
    ensures exists r :: r in regions && r.name == m.name && r.base == m.base && r.length <= m.length
  {
    MergedStarts(SortByBase(regions), m);
    SortMembers(regions);
  }

  lemma {:induction false} MergedStarts(rs: seq<Region>, m: Region)
    requires m in Merged(rs)
    ensures exists r :: r in rs && r.name == m.name && r.base == m.base && r.length <= m.length
  {
    var rest, last := rs[..|rs| - 1], rs[|rs| - 1];
    assert rs == rest + [last];
    if m in Merged(rest) {
      MergedStarts(rest, m);
    } else if m != last {
      MergedStarts(rest, Merged(rest)[|Merged(rest)| - 1]);
    }
  }

  /** consolidate_address_ranges, its result in the order of the dictionary it builds: each consolidated
      region cut to 64 KB, so within the addresses given, sorted with gaps when the regions are in sequence. */
  method ConsolidateAddressRanges(regions: seq<Region>) returns (memories: seq<Region>)
    requires DistinctNames(regions)
    ensures var joined := Consolidated(regions);
      |memories| == |joined| &&
      forall i :: 0 <= i < |joined| ==>
        memories[i].name == joined[i].name && memories[i].base == joined[i].base &&
        memories[i].length == if joined[i].length < 0x10000 then joined[i].length else 0x10000
    ensures forall x: nat :: Covers(memories, x) <==>
      exists r :: r in Consolidated(regions) && r.base <= x < r.End() && x < r.base + 0x10000
    ensures forall x :: Covers(memories, x) ==> Covers(regions, x)
    ensures InSequence(SortByBase(regions)) ==> Separated(memories)
    ensures Disjoint(regions) ==> Separated(memories) && NonEmpty(memories)
  {
    var sorted := SortByBase(regions);
    SortKeepsNames(regions);
    var joined, removal := MergeLoop(sorted);
    var list := RemoveAll(joined, removal);
    memories := ClampAll(list);
    ClampShrinks(list, memories);
    forall x | Covers(memories, x)
      ensures Covers(regions, x)
    {
      ConsolidatedCovers(regions, x);
    }
    ConsolidatedSeparatesIff(regions);
    if Disjoint(regions) {
      ConsolidatedSeparates(regions);
    }
  }

  lemma SameCover(s: seq<Region>, t: seq<Region>, x: nat)
    requires multiset(s) == multiset(t)
    ensures Covers(s, x) <==> Covers(t, x)
  {
    forall r
      ensures r in s <==> r in t
    {
      assert r in multiset(s) <==> r in multiset(t);
    }
  }

  lemma {:induction false} KeptNothing(rs: seq<Region>)
    ensures Kept(rs, []) == rs
  {
    if rs != [] {
      KeptNothing(rs[1..]);
    }
  }
}
