/** Largest-remainder apportionment of a spend over a share key's contributions. */
module Apportionment {
  import opened Prelude

  /** A contribution as the apportionment reads it; ids stand for fixed-width hex UUIDs. */
  datatype Share = Share(id: nat, remaining: int, createdAt: int)

  /** One share's quota: its floor, and its claim on a left-over credit. */
  datatype Quota = Quota(index: nat, base: int, remainder: int, createdAt: int, id: nat)

  predicate Positive(cs: seq<Share>) {
    forall i :: 0 <= i < |cs| ==> cs[i].remaining > 0
  }

  function TotalRemaining(cs: seq<Share>): (t: int)
    ensures Positive(cs) ==> t >= |cs|
  {
    if cs == [] then 0
    else
      assert Positive(cs) ==> Positive(cs[1..]);
      cs[0].remaining + TotalRemaining(cs[1..])
  }

  /** The exact quota spend * c / total of each share, numbered from k. */
  function Quotas(cs: seq<Share>, spend: int, total: int, k: nat): (qs: seq<Quota>)
    requires total > 0
    ensures |qs| == |cs|
  {
    if cs == [] then []
    else
      var n := spend * cs[0].remaining;
      [Quota(k, n / total, n % total, cs[0].createdAt, cs[0].id)] + Quotas(cs[1..], spend, total, k + 1)
  }

  function Bases(qs: seq<Quota>): (bs: seq<int>)
    ensures |bs| == |qs| && forall i :: 0 <= i < |qs| ==> bs[i] == qs[i].base
  {
    seq(|qs|, i requires 0 <= i < |qs| => qs[i].base)
  }

  function Remainders(qs: seq<Quota>): (rs: seq<int>)
    ensures |rs| == |qs| && forall i :: 0 <= i < |qs| ==> rs[i] == qs[i].remainder
  {
    seq(|qs|, i requires 0 <= i < |qs| => qs[i].remainder)
  }

  /** Larger remainder first, then older contribution, then smaller id. */
  predicate Precedes(a: Quota, b: Quota) {
    a.remainder > b.remainder
    || (a.remainder == b.remainder
        && (a.createdAt < b.createdAt || (a.createdAt == b.createdAt && a.id <= b.id)))
  }

  ghost predicate Ordered(qs: seq<Quota>) {
    forall i, j :: 0 <= i < j < |qs| ==> Precedes(qs[i], qs[j])
  }

  ghost predicate DistinctIndexes(qs: seq<Quota>) {
    forall i, j :: 0 <= i < j < |qs| ==> qs[i].index != qs[j].index
  }

  ghost predicate IndexesBelow(qs: seq<Quota>, n: nat) {
    forall q :: q in qs ==> q.index < n
  }

  function Insert(q: Quota, qs: seq<Quota>): (r: seq<Quota>)
    ensures |r| == |qs| + 1
    ensures forall c :: c in r <==> c == q || c in qs
  {
    if qs == [] || Precedes(q, qs[0]) then [q] + qs
    else
      assert forall c :: c in qs <==> c == qs[0] || c in qs[1..];
      [qs[0]] + Insert(q, qs[1..])
  }

  function Sort(qs: seq<Quota>): (r: seq<Quota>)
    ensures |r| == |qs|
    ensures forall c :: c in r <==> c in qs
  {
    if qs == [] then []
    else
      assert forall c :: c in qs <==> c == qs[0] || c in qs[1..];
      Insert(qs[0], Sort(qs[1..]))
  }

  /** One extra credit for each quota in turn, until none is left over. */
  function HandOut(rs: seq<int>, order: seq<Quota>, leftover: int): (r: seq<int>)
    requires IndexesBelow(order, |rs|)
    ensures |r| == |rs|
    decreases |order|
  {
    if leftover <= 0 || order == [] then rs
    else
      assert order[0] in order;
      var i := order[0].index;
      HandOut(rs[i := rs[i] + 1], order[1..], leftover - 1)
  }

  /** The spend actually taken: never more than the shares hold. */
  function Taken(cs: seq<Share>, spend: int): int {
    Min(spend, TotalRemaining(cs))
  }

  /** What each share gives up for a spend. */
  function Reductions(cs: seq<Share>, spend: int): (r: seq<int>)
    requires Positive(cs) && cs != []
    ensures |r| == |cs|
  {
    var taken := Taken(cs, spend);
    var qs := Quotas(cs, taken, TotalRemaining(cs), 0);
    QuotasIndexed(cs, taken, TotalRemaining(cs), 0);
    HandOut(Bases(qs), Sort(qs), taken - Sum(Bases(qs)))
  }

  lemma {:induction false} HandOutDone(rs: seq<int>, order: seq<Quota>, leftover: int)
    requires IndexesBelow(order, |rs|) && (order == [] || leftover <= 0)
    ensures HandOut(rs, order, leftover) == rs
  {}

  lemma {:induction false} HandOutStep(rs: seq<int>, order: seq<Quota>, leftover: int)
    requires IndexesBelow(order, |rs|) && order != [] && leftover > 0
    ensures order[0].index < |rs| && IndexesBelow(order[1..], |rs|)
    ensures HandOut(rs, order, leftover) == HandOut(rs[order[0].index := rs[order[0].index] + 1], order[1..], leftover - 1)
  {
    assert order[0] in order;
  }

  // ---- quotas ----

  lemma {:induction false} QuotaAt(cs: seq<Share>, spend: int, total: int, k: nat, i: nat)
    requires total > 0 && i < |cs|
    ensures Quotas(cs, spend, total, k)[i]
         == Quota(k + i, spend * cs[i].remaining / total, spend * cs[i].remaining % total,
                  cs[i].createdAt, cs[i].id)
  {
    if i > 0 {
      QuotaAt(cs[1..], spend, total, k + 1, i - 1);
    }
  }

  lemma {:induction false} QuotasIndexed(cs: seq<Share>, spend: int, total: int, k: nat)
    requires total > 0
    ensures var qs := Quotas(cs, spend, total, k);
      && (forall i :: 0 <= i < |cs| ==> qs[i].index == k + i && 0 <= qs[i].remainder < total)
      && IndexesBelow(qs, k + |cs|) && DistinctIndexes(qs)
  {
    if cs != [] {
      QuotasIndexed(cs[1..], spend, total, k + 1);
    }
  }

  lemma {:induction false} Distribute(a: int, b: int, c: int)
    ensures a * (b + c) == a * b + a * c
  {}

  /** Quotas add up: total * (sum of floors) + (sum of remainders) = spend * (sum of shares). */
  lemma {:induction false} QuotaSum(cs: seq<Share>, spend: int, total: int, k: nat)
    requires total > 0
    ensures var qs := Quotas(cs, spend, total, k);
      total * Sum(Bases(qs)) + Sum(Remainders(qs)) == spend * TotalRemaining(cs)
  {
    var qs := Quotas(cs, spend, total, k);
    if cs != [] {
      QuotaSum(cs[1..], spend, total, k + 1);
      assert qs[1..] == Quotas(cs[1..], spend, total, k + 1);
      QuotaSums(qs);
      var n := spend * cs[0].remaining;
      assert total * qs[0].base + qs[0].remainder == n;
      Distribute(total, qs[0].base, Sum(Bases(qs[1..])));
      Distribute(spend, cs[0].remaining, TotalRemaining(cs[1..]));
    }
  }

  lemma {:induction false} QuotaSums(qs: seq<Quota>)
    requires qs != []
    ensures Sum(Bases(qs)) == qs[0].base + Sum(Bases(qs[1..]))
    ensures Sum(Remainders(qs)) == qs[0].remainder + Sum(Remainders(qs[1..]))
  {
    assert Bases(qs)[1..] == Bases(qs[1..]) && Remainders(qs)[1..] == Remainders(qs[1..]);
  }

  /** A sequence supported on its first k places, bounded by b there. */
  lemma {:induction false} SupportBound(xs: seq<int>, k: nat, b: int)
    requires k <= |xs|
    requires forall i :: 0 <= i < k ==> 0 <= xs[i] <= b
    requires forall i :: k <= i < |xs| ==> xs[i] == 0
    ensures 0 <= Sum(xs) <= k * b
  {
    if xs != [] {
      if k == 0 {
        SupportBound(xs[1..], 0, b);
      } else {
        SupportBound(xs[1..], k - 1, b);
        assert k * b == b + (k - 1) * b;
      }
    }
  }

  lemma {:induction false} MulMonotone(a: int, b: int, c: int)
    requires a <= b && c >= 0
    ensures a * c <= b * c
  {}

  lemma {:induction false} LeftoverBounds(left: int, total: int, n: int)
    requires total > 0 && n > 0 && 0 <= left * total <= n * (total - 1)
    ensures 0 <= left < n
  {
    if left >= n {
      MulMonotone(n, left, total);
      assert false;
    }
  }

  /** Quotas as the apportionment makes them, leaving `left` credits over. */
  ghost predicate Apportionable(qs: seq<Quota>, total: int, left: int) {
    && total > 0 && 0 <= left < |qs|
    && (forall i :: 0 <= i < |qs| ==> qs[i].index == i && 0 <= qs[i].remainder < total)
    && Sum(Remainders(qs)) == left * total
  }

  lemma {:induction false} LeftoverArithmetic(taken: int, total: int, bases: int, remainders: int, n: int)
    requires total > 0 && n > 0
    requires total * bases + remainders == taken * total && 0 <= remainders <= n * (total - 1)
    ensures 0 <= taken - bases < n && remainders == (taken - bases) * total
  {
    Distribute(total, bases, taken - bases);
    LeftoverBounds(taken - bases, total, n);
  }

  /** The leftover is the sum of the remainders over the total, so fewer credits than claims. */
  lemma {:induction false} Leftover(cs: seq<Share>, taken: int)
    requires cs != [] && Positive(cs)
    ensures var total := TotalRemaining(cs);
      var qs := Quotas(cs, taken, total, 0);
      Apportionable(qs, total, taken - Sum(Bases(qs))) && IndexesBelow(qs, |qs|)
  {
    var total := TotalRemaining(cs);
    var qs := Quotas(cs, taken, total, 0);
    QuotaSum(cs, taken, total, 0);
    QuotasIndexed(cs, taken, total, 0);
    SupportBound(Remainders(qs), |qs|, total - 1);
    LeftoverArithmetic(taken, total, Sum(Bases(qs)), Sum(Remainders(qs)), |cs|);
  }

  // ---- sorting ----

  lemma {:induction false} InsertOrdered(q: Quota, qs: seq<Quota>)
    requires Ordered(qs)
    ensures Ordered(Insert(q, qs))
  {
    if qs != [] && !Precedes(q, qs[0]) {
      InsertOrdered(q, qs[1..]);
      assert forall c :: c in Insert(q, qs[1..]) ==> Precedes(qs[0], c);
    }
  }

  lemma {:induction false} SortOrdered(qs: seq<Quota>)
    ensures Ordered(Sort(qs))
  {
    if qs != [] {
      SortOrdered(qs[1..]);
      InsertOrdered(qs[0], Sort(qs[1..]));
    }
  }

  lemma {:induction false} InsertDistinct(q: Quota, qs: seq<Quota>)
    requires DistinctIndexes(qs)
    requires forall c :: c in qs ==> c.index != q.index
    ensures DistinctIndexes(Insert(q, qs))
  {
    if qs != [] && !Precedes(q, qs[0]) {
      InsertDistinct(q, qs[1..]);
      assert forall c :: c in qs[1..] ==> c.index != qs[0].index;
    }
  }

  lemma {:induction false} SortDistinct(qs: seq<Quota>)
    requires DistinctIndexes(qs)
    ensures DistinctIndexes(Sort(qs))
  {
    if qs != [] {
      SortDistinct(qs[1..]);
      InsertDistinct(qs[0], Sort(qs[1..]));
    }
  }

  lemma {:induction false} InsertSum(q: Quota, qs: seq<Quota>)
    ensures Sum(Remainders(Insert(q, qs))) == q.remainder + Sum(Remainders(qs))
  {
    var r := Insert(q, qs);
    assert Remainders(r)[1..] == Remainders(r[1..]);
    if qs == [] || Precedes(q, qs[0]) {
      assert r[1..] == qs;
    } else {
      InsertSum(q, qs[1..]);
      assert r[1..] == Insert(q, qs[1..]);
      assert Remainders(qs)[1..] == Remainders(qs[1..]);
    }
  }

  lemma {:induction false} SortSum(qs: seq<Quota>)
    ensures Sum(Remainders(Sort(qs))) == Sum(Remainders(qs))
  {
    if qs != [] {
      SortSum(qs[1..]);
      InsertSum(qs[0], Sort(qs[1..]));
      assert Remainders(qs)[1..] == Remainders(qs[1..]);
    }
  }

  /** Every quota that can receive a left-over credit has a positive remainder. */
  lemma {:induction false} WinnersHaveRemainder(qs: seq<Quota>, left: nat, total: int, k: nat)
    requires Ordered(qs) && total > 0 && k < left <= |qs|
    requires forall i :: 0 <= i < |qs| ==> 0 <= qs[i].remainder < total
    requires Sum(Remainders(qs)) == left * total
    ensures qs[k].remainder > 0
  {
    if qs[k].remainder == 0 {
      SupportBound(Remainders(qs), k, total - 1);
      LeftoverBounds(left, total, if k == 0 then 1 else k);
      assert false;
    }
  }

  // ---- handing out the leftovers ----

  lemma {:induction false} HandOutSum(rs: seq<int>, order: seq<Quota>, left: nat)
    requires IndexesBelow(order, |rs|) && left <= |order|
    ensures Sum(HandOut(rs, order, left)) == Sum(rs) + left
    decreases |order|
  {
    if left > 0 {
      assert order[0] in order;
      var i := order[0].index;
      SumUpdate(rs, i, rs[i] + 1);
      HandOutSum(rs[i := rs[i] + 1], order[1..], left - 1);
    }
  }

  lemma {:induction false} HandOutAt(rs: seq<int>, order: seq<Quota>, left: nat, k: nat)
    requires IndexesBelow(order, |rs|) && DistinctIndexes(order) && left <= |order| && k < |order|
    ensures HandOut(rs, order, left)[order[k].index] == rs[order[k].index] + (if k < left then 1 else 0)
    decreases |order|
  {
    if left > 0 {
      assert order[0] in order;
      var i := order[0].index;
      var rs' := rs[i := rs[i] + 1];
      if k == 0 {
        HandOutElsewhere(rs', order[1..], left - 1, i);
      } else {
        HandOutAt(rs', order[1..], left - 1, k - 1);
      }
    }
  }

  lemma {:induction false} HandOutElsewhere(rs: seq<int>, order: seq<Quota>, left: nat, i: nat)
    requires IndexesBelow(order, |rs|) && i < |rs|
    requires forall q :: q in order ==> q.index != i
    ensures HandOut(rs, order, left)[i] == rs[i]
    decreases |order|
  {
    if left > 0 && order != [] {
      assert order[0] in order;
      var j := order[0].index;
      HandOutElsewhere(rs[j := rs[j] + 1], order[1..], left - 1, i);
    }
  }

  lemma {:induction false} PlaceInOrder(qs: seq<Quota>, total: int, left: nat, i: nat) returns (k: nat)
    requires Apportionable(qs, total, left) && i < |qs|
    ensures k < |qs| && Sort(qs)[k] == qs[i] && DistinctIndexes(Sort(qs))
    ensures k < left ==> qs[i].remainder > 0
  {
    SortDistinct(qs);
    SortOrdered(qs);
    SortSum(qs);
    assert qs[i] in Sort(qs);
    k :| 0 <= k < |qs| && Sort(qs)[k] == qs[i];
    if k < left {
      assert forall j :: 0 <= j < |qs| ==> Sort(qs)[j] in qs;
      WinnersHaveRemainder(Sort(qs), left, total, k);
    }
  }

  lemma {:induction false} SpendApportionable(cs: seq<Share>, spend: int) returns (qs: seq<Quota>, left: nat)
    requires Positive(cs) && cs != []
    ensures qs == Quotas(cs, Taken(cs, spend), TotalRemaining(cs), 0)
    ensures Apportionable(qs, TotalRemaining(cs), left) && IndexesBelow(Sort(qs), |qs|)
    ensures Reductions(cs, spend) == HandOut(Bases(qs), Sort(qs), left)
    ensures Sum(Bases(qs)) + left == Taken(cs, spend)
  {
    hide Sort, HandOut, Quotas, TotalRemaining, Sum;
    var taken := Taken(cs, spend);
    Leftover(cs, taken);
    qs := Quotas(cs, taken, TotalRemaining(cs), 0);
    left := taken - Sum(Bases(qs));
  }

  /** Where share i stands in the order, and what it therefore gives up. */
  lemma {:induction false} ReductionAt(cs: seq<Share>, spend: int, i: nat) returns (qs: seq<Quota>, left: nat, k: nat)
    requires Positive(cs) && cs != [] && i < |cs|
    ensures qs == Quotas(cs, Taken(cs, spend), TotalRemaining(cs), 0)
    ensures Sum(Bases(qs)) + left == Taken(cs, spend)
    ensures k < |cs| && Sort(qs)[k] == qs[i]
    ensures Reductions(cs, spend)[i] == qs[i].base + (if k < left then 1 else 0)
    ensures k < left ==> qs[i].remainder > 0
  {
    qs, left := SpendApportionable(cs, spend);
    k := PlaceInOrder(qs, TotalRemaining(cs), left, i);
    HandOutAt(Bases(qs), Sort(qs), left, k);
  }

  lemma {:induction false} FloorWithinShare(taken: int, c: int, total: int)
    requires 0 <= taken <= total && total > 0 && c > 0
    ensures 0 <= taken * c / total <= c
    ensures taken * c % total > 0 ==> taken * c / total < c
  {
    var n := taken * c;
    assert 0 <= n <= c * total;
    var q := n / total;
    assert q * total + n % total == n;
    if q >= c + 1 {
      MulMonotone(c + 1, q, total);
      assert false;
    }
  }

  /** Every reduction is its quota's floor or one more, the latter only on a positive remainder. */
  lemma {:induction false} QuotaRule(cs: seq<Share>, spend: int, i: nat)
    requires Positive(cs) && cs != [] && i < |cs|
    ensures var n, total, r := Taken(cs, spend) * cs[i].remaining, TotalRemaining(cs), Reductions(cs, spend)[i];
      r == n / total || (r == n / total + 1 && n % total > 0)
  {
    QuotaAt(cs, Taken(cs, spend), TotalRemaining(cs), 0, i);
    var _, _, _ := ReductionAt(cs, spend, i);
  }

  lemma {:induction false} ReductionWithinShare(cs: seq<Share>, spend: int, i: nat)
    requires Positive(cs) && cs != [] && spend >= 0 && i < |cs|
    ensures 0 <= Reductions(cs, spend)[i] <= cs[i].remaining
  {
    QuotaRule(cs, spend, i);
    FloorWithinShare(Taken(cs, spend), cs[i].remaining, TotalRemaining(cs));
  }

  /** The reductions add up to exactly the spend and never exceed a share. */
  lemma {:induction false} ExactApportionment(cs: seq<Share>, spend: int)
    requires Positive(cs) && cs != [] && spend >= 0
    ensures Sum(Reductions(cs, spend)) == Taken(cs, spend)
    ensures forall i :: 0 <= i < |cs| ==> 0 <= Reductions(cs, spend)[i] <= cs[i].remaining
  {
    var qs, left := SpendApportionable(cs, spend);
    HandOutSum(Bases(qs), Sort(qs), left);
    forall i | 0 <= i < |cs|
      ensures 0 <= Reductions(cs, spend)[i] <= cs[i].remaining
    {
      ReductionWithinShare(cs, spend, i);
    }
  }

  /** A left-over credit never skips a quota that precedes its receiver. */
  lemma {:induction false} LeftoversFollowTheOrder(cs: seq<Share>, spend: int, i: nat, j: nat)
    requires Positive(cs) && cs != [] && i < |cs| && j < |cs|
    ensures var qs := Quotas(cs, Taken(cs, spend), TotalRemaining(cs), 0);
      Reductions(cs, spend)[i] > qs[i].base && Reductions(cs, spend)[j] == qs[j].base ==> Precedes(qs[i], qs[j])
  {
    var qs, left, a := ReductionAt(cs, spend, i);
    var _, _, b := ReductionAt(cs, spend, j);
    SortOrdered(qs);
  }

  /** The first loop of the source: each quota's floor and remainder. */
  method Floors(cs: seq<Share>, taken: int, total: int) returns (quotas: seq<Quota>, flooredTotal: int)
    requires total > 0
    ensures quotas == Quotas(cs, taken, total, 0) && flooredTotal == Sum(Bases(quotas))
  {
    ghost var all := Quotas(cs, taken, total, 0);
    flooredTotal, quotas := 0, [];
    for i := 0 to |cs|
      invariant quotas == all[..i] && flooredTotal == Sum(Bases(quotas))
    {
      QuotaAt(cs, taken, total, 0, i);
      var numerator := taken * cs[i].remaining;
      var q := Quota(i, numerator / total, numerator % total, cs[i].createdAt, cs[i].id);
      flooredTotal := flooredTotal + q.base;
      SumAppend(Bases(quotas), [q.base]);
      assert Bases(quotas + [q]) == Bases(quotas) + [q.base];
      quotas := quotas + [q];
    }
  }

  /** Floors first, then one credit at a time down the sorted quotas. */
  method ProRata(cs: seq<Share>, spend: int) returns (reductions: seq<int>)
    requires Positive(cs) && cs != []
    ensures reductions == Reductions(cs, spend)
  {
    hide Sort, HandOut, Quotas, TotalRemaining, Sum;
    var total := TotalRemaining(cs);
    var taken := Min(spend, total);
    var quotas, flooredTotal := Floors(cs, taken, total);
    QuotasIndexed(cs, taken, total, 0);
    reductions := GrantLeftovers(quotas, taken - flooredTotal);
  }

  /** The second loop of the source, run only when floors leave something over. */
  method GrantLeftovers(quotas: seq<Quota>, leftover: int) returns (reductions: seq<int>)
    requires IndexesBelow(quotas, |quotas|)
    ensures reductions == HandOut(Bases(quotas), Sort(quotas), leftover)
  {
    hide HandOut, Sort, Bases;
    reductions := Bases(quotas);
    if leftover <= 0 {
      HandOutDone(reductions, Sort(quotas), leftover);
    } else {
      var order := Sort(quotas);
      var left, k := leftover, 0;
      assert order[0..] == order;
      while k < |order| && left != 0
        invariant 0 <= k <= |order| && left >= 0
        invariant |reductions| == |quotas| && IndexesBelow(order[k..], |reductions|)
        invariant HandOut(reductions, order[k..], left) == HandOut(Bases(quotas), order, leftover)
      {
        assert order[k..][0] == order[k] && order[k] in order[k..] && order[k..][1..] == order[k + 1..];
        HandOutStep(reductions, order[k..], left);
        reductions := reductions[order[k].index := reductions[order[k].index] + 1];
        left := left - 1;
        k := k + 1;
      }
      HandOutDone(reductions, order[k..], left);
    }
  }
}
