/** Byte ranges of tensors: a sort and a check of neighbours decide whether any two overlap. */
module GgufLayout {
  import opened Prelude

  datatype Range = Range(start: nat, end: nat)

  predicate Nonempty(r: Range) { r.start < r.end }

  predicate AllNonempty(rs: seq<Range>) { forall i :: 0 <= i < |rs| ==> Nonempty(rs[i]) }

  predicate Disjoint(a: Range, b: Range) { a.end <= b.start || b.end <= a.start }

  /** The order of pairs. */
  predicate Before(a: Range, b: Range) {
    a.start < b.start || (a.start == b.start && a.end <= b.end)
  }

  function Insert(x: Range, rs: seq<Range>): seq<Range> {
    if rs == [] then [x]
    else if Before(x, rs[0]) then [x] + rs
    else [rs[0]] + Insert(x, rs[1..])
  }

  function Sort(rs: seq<Range>): seq<Range> {
    if rs == [] then [] else Insert(rs[0], Sort(rs[1..]))
  }

  predicate Sorted(rs: seq<Range>) { forall i, j :: 0 <= i < j < |rs| ==> Before(rs[i], rs[j]) }

  /** No window of two overlaps. */
  predicate NeighboursApart(rs: seq<Range>) {
    forall i :: 0 <= i < |rs| - 1 ==> rs[i].end <= rs[i + 1].start
  }

  /** No two ranges of the list, neighbours or not, overlap. */
  predicate AllApart(rs: seq<Range>) {
    forall i, j :: 0 <= i < j < |rs| ==> Disjoint(rs[i], rs[j])
  }

  function Lengths(rs: seq<Range>): int {
    if rs == [] then 0 else rs[0].end - rs[0].start + Lengths(rs[1..])
  }

  // ---- sorting permutes ----

  predicate Clear(x: Range, rs: seq<Range>) { forall i :: 0 <= i < |rs| ==> Disjoint(x, rs[i]) }

  lemma {:induction false} AllApartCons(x: Range, rs: seq<Range>)
    ensures AllApart([x] + rs) <==> Clear(x, rs) && AllApart(rs)
  {
    var all := [x] + rs;
    assert forall i :: 0 <= i < |rs| ==> all[i + 1] == rs[i];
    if AllApart(all) {
      forall i | 0 <= i < |rs| ensures Disjoint(x, rs[i]) { assert Disjoint(all[0], all[i + 1]); }
      forall i, j | 0 <= i < j < |rs| ensures Disjoint(rs[i], rs[j]) { assert Disjoint(all[i + 1], all[j + 1]); }
    }
  }

  lemma {:induction false} ClearCons(x: Range, y: Range, rs: seq<Range>)
    ensures Clear(x, [y] + rs) <==> Disjoint(x, y) && Clear(x, rs)
  {
    var all := [y] + rs;
    assert all[0] == y && forall i :: 0 <= i < |rs| ==> all[i + 1] == rs[i];
    if Clear(x, all) {
      forall i | 0 <= i < |rs| ensures Disjoint(x, rs[i]) { assert Disjoint(x, all[i + 1]); }
    }
  }

  lemma {:induction false} InsertClear(z: Range, x: Range, rs: seq<Range>)
    ensures Clear(z, Insert(x, rs)) <==> Disjoint(z, x) && Clear(z, rs)
  {
    hide Disjoint;
    if rs == [] || Before(x, rs[0]) {
      assert Insert(x, rs) == [x] + rs;
      ClearCons(z, x, rs);
    } else {
      InsertClear(z, x, rs[1..]);
      assert rs == [rs[0]] + rs[1..];
      ClearCons(z, rs[0], rs[1..]);
      ClearCons(z, rs[0], Insert(x, rs[1..]));
    }
  }

  lemma {:induction false} InsertApart(x: Range, rs: seq<Range>)
    ensures AllApart(Insert(x, rs)) <==> Clear(x, rs) && AllApart(rs)
  {
    hide Clear, AllApart;
    if rs == [] || Before(x, rs[0]) {
      assert Insert(x, rs) == [x] + rs;
      AllApartCons(x, rs);
    } else {
      var tail := rs[1..];
      assert rs == [rs[0]] + tail;
      InsertApart(x, tail);
      AllApartCons(rs[0], Insert(x, tail));
      AllApartCons(rs[0], tail);
      InsertClear(rs[0], x, tail);
      ClearCons(x, rs[0], tail);
    }
  }

  lemma {:induction false} SortClear(z: Range, rs: seq<Range>)
    ensures Clear(z, Sort(rs)) <==> Clear(z, rs)
  {
    if rs != [] {
      SortClear(z, rs[1..]);
      InsertClear(z, rs[0], Sort(rs[1..]));
      assert rs == [rs[0]] + rs[1..];
      ClearCons(z, rs[0], rs[1..]);
    }
  }

  lemma {:induction false} SortApart(rs: seq<Range>)
    ensures AllApart(Sort(rs)) <==> AllApart(rs)
  {
    hide Clear, AllApart;
    if rs != [] {
      SortApart(rs[1..]);
      InsertApart(rs[0], Sort(rs[1..]));
      SortClear(rs[0], rs[1..]);
      assert rs == [rs[0]] + rs[1..];
      AllApartCons(rs[0], rs[1..]);
    }
  }

  lemma {:induction false} InsertElements(x: Range, rs: seq<Range>)
    ensures forall y :: y in Insert(x, rs) <==> y == x || y in rs
    ensures Lengths(Insert(x, rs)) == x.end - x.start + Lengths(rs)
  {
    if rs == [] || Before(x, rs[0]) {
      assert Insert(x, rs) == [x] + rs;
      assert ([x] + rs)[1..] == rs;
    } else {
      InsertElements(x, rs[1..]);
      var more := Insert(x, rs[1..]);
      assert ([rs[0]] + more)[1..] == more;
      assert rs == [rs[0]] + rs[1..];
    }
  }

  lemma {:induction false} InsertSorted(x: Range, rs: seq<Range>)
    requires Sorted(rs)
    ensures Sorted(Insert(x, rs))
  {
    if rs != [] && !Before(x, rs[0]) {
      InsertSorted(x, rs[1..]);
      InsertElements(x, rs[1..]);
      assert forall y :: y in rs[1..] ==> Before(rs[0], y);
      assert forall y :: y in Insert(x, rs[1..]) ==> Before(rs[0], y);
    }
  }

  /** The result is sorted and holds the same ranges. */
  lemma {:induction false} SortSorts(rs: seq<Range>)
    ensures Sorted(Sort(rs)) && Lengths(Sort(rs)) == Lengths(rs)
    ensures forall y :: y in Sort(rs) <==> y in rs
  {
    if rs != [] {
      SortSorts(rs[1..]);
      InsertSorted(rs[0], Sort(rs[1..]));
      InsertElements(rs[0], Sort(rs[1..]));
      assert rs == [rs[0]] + rs[1..];
    }
  }

  // ---- neighbours are enough ----

  lemma {:induction false} LaterStart(rs: seq<Range>, i: nat, j: nat)
    requires AllNonempty(rs) && NeighboursApart(rs) && i < j < |rs|
    ensures rs[i].end <= rs[j].start
    decreases j
  {
    if i < j - 1 {
      LaterStart(rs, i, j - 1);
      assert Nonempty(rs[j - 1]);
    }
  }

  /** On nonempty ranges the neighbour check after sorting finds exactly the lists in which some pair overlaps. */
  lemma {:induction false} NeighboursAreEnough(rs: seq<Range>)
    requires AllNonempty(rs)
    ensures NeighboursApart(Sort(rs)) <==> AllApart(rs)
  {
    var sorted := Sort(rs);
    SortSorts(rs);
    SortApart(rs);
    forall i | 0 <= i < |sorted| ensures Nonempty(sorted[i]) { assert sorted[i] in rs; }
    if NeighboursApart(sorted) {
      forall i, j | 0 <= i < j < |sorted| ensures Disjoint(sorted[i], sorted[j]) { LaterStart(sorted, i, j); }
    }
    if AllApart(sorted) {
      forall i | 0 <= i < |sorted| - 1 ensures sorted[i].end <= sorted[i + 1].start {
        assert Before(sorted[i], sorted[i + 1]) && Disjoint(sorted[i], sorted[i + 1]) && Nonempty(sorted[i + 1]);
      }
    }
  }

  lemma {:induction false} ApartLengths(rs: seq<Range>, lo: nat, hi: nat)
    requires AllNonempty(rs) && NeighboursApart(rs) && lo <= hi
    requires forall i :: 0 <= i < |rs| ==> lo <= rs[i].start && rs[i].end <= hi
    ensures Lengths(rs) <= hi - lo
    decreases |rs|
  {
    if rs != [] {
      forall i | 0 <= i < |rs[1..]| ensures rs[0].end <= rs[1..][i].start { LaterStart(rs, 0, i + 1); }
      assert Nonempty(rs[0]);
      ApartLengths(rs[1..], rs[0].end, hi);
    }
  }

  /** Ranges that do not overlap are together no longer than the space that holds them. */
  lemma {:induction false} DisjointRangesFit(rs: seq<Range>, lo: nat, hi: nat)
    requires AllNonempty(rs) && AllApart(rs) && lo <= hi
    requires forall i :: 0 <= i < |rs| ==> lo <= rs[i].start && rs[i].end <= hi
    ensures Lengths(rs) <= hi - lo
  {
    NeighboursAreEnough(rs);
    SortSorts(rs);
    var sorted := Sort(rs);
    forall i | 0 <= i < |sorted| ensures Nonempty(sorted[i]) && lo <= sorted[i].start && sorted[i].end <= hi {
      assert sorted[i] in rs;
    }
    ApartLengths(sorted, lo, hi);
  }
}
