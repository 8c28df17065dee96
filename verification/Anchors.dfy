/** The hashed ledger and its anchors: backfill, prepare, confirm, abandon, and inclusion proofs. */
module Anchors {
  import opened Prelude
  import opened Binary
  import opened Merkle
  import opened Encoding

  /** A row of ledger_entry_hashes. */
  datatype Hashed = Hashed(id: int, entry: Digest, chain: Digest)

  datatype Status = Pending | Confirmed(signature: string) | Abandoned

  /** A row of ledger_anchors; its id is its place in the table. */
  datatype Anchor = Anchor(first: int, last: int, count: int, root: Digest, tip: Digest, status: Status)

  /** The three tables; ledger and hashes are in id order, nextId is the AUTOINCREMENT counter. */
  datatype Db = Db(ledger: seq<Row>, nextId: int, hashes: seq<Hashed>, anchors: seq<Anchor>)

  datatype Error = PendingExists | Gap | NotPending | OutsideRange | HashMismatch

  datatype Inclusion = Inclusion(row: Row, entry: Digest, chain: Digest, proof: seq<ProofStep>, anchor: Anchor)

  // ---- operations as functions of the tables ----

  function Entries(hs: seq<Hashed>): (es: seq<Digest>)
    ensures |es| == |hs| && forall i :: 0 <= i < |hs| ==> es[i] == hs[i].entry
  {
    seq(|hs|, i requires 0 <= i < |hs| => hs[i].entry)
  }

  predicate IsHashed(hs: seq<Hashed>, id: int) {
    exists i :: 0 <= i < |hs| && hs[i].id == id
  }

  /** Rows without a hash, in id order. */
  function Unhashed(ledger: seq<Row>, hs: seq<Hashed>): seq<Row> {
    if ledger == [] then []
    else (if IsHashed(hs, ledger[0].id) then [] else [ledger[0]]) + Unhashed(ledger[1..], hs)
  }

  function LastChain(hs: seq<Hashed>): Digest {
    if hs == [] then Zero else hs[|hs| - 1].chain
  }

  function HashRow(hs: seq<Hashed>, row: Row): seq<Hashed> {
    hs + [Hashed(row.id, EntryHash(row), Chain(LastChain(hs), EntryHash(row)))]
  }

  function HashRows(hs: seq<Hashed>, rows: seq<Row>): seq<Hashed>
    decreases |rows|
  {
    if rows == [] then hs else HashRows(HashRow(hs, rows[0]), rows[1..])
  }

  function Backfill(db: Db): Db {
    db.(hashes := HashRows(db.hashes, Unhashed(db.ledger, db.hashes)))
  }

  /** Hashed entries with ids between lo and hi, in id order. */
  function Select(hs: seq<Hashed>, lo: int, hi: int): seq<Hashed> {
    if hs == [] then []
    else
      var n := |hs| - 1;
      Select(hs[..n], lo, hi) + (if lo <= hs[n].id <= hi then [hs[n]] else [])
  }

  function LastAnchored(anchors: seq<Anchor>): int {
    if anchors == [] then 0
    else
      var n := |anchors| - 1;
      var before := LastAnchored(anchors[..n]);
      if anchors[n].status.Confirmed? then Max(before, anchors[n].last) else before
  }

  predicate HasPending(anchors: seq<Anchor>) {
    exists i :: 0 <= i < |anchors| && anchors[i].status.Pending?
  }

  /** The pending anchor over every hashed row past the last confirmed one, if the range has no gap. */
  function Prepare(db: Db): Result<Db, Error> {
    if HasPending(db.anchors) then Err(PendingExists)
    else
      var hashed := Select(db.hashes, LastAnchored(db.anchors) + 1, TWO_63 - 1);
      if hashed == [] then Ok(db)
      else
        var first, last := hashed[0].id, hashed[|hashed| - 1].id;
        if last - first + 1 != |hashed| then Err(Gap)
        else Ok(db.(anchors := db.anchors + [
          Anchor(first, last, |hashed|, Root(Entries(hashed)), hashed[|hashed| - 1].chain, Pending)]))
  }

  /** Anchor ids start at 1. */
  predicate IsPending(db: Db, anchorId: int) {
    1 <= anchorId <= |db.anchors| && db.anchors[anchorId - 1].status.Pending?
  }

  function SetStatus(db: Db, anchorId: int, status: Status): Result<Db, Error> {
    if IsPending(db, anchorId)
    then Ok(db.(anchors := db.anchors[anchorId - 1 := db.anchors[anchorId - 1].(status := status)]))
    else Err(NotPending)
  }

  function FindRow(ledger: seq<Row>, id: int): Option<Row> {
    if ledger == [] then None else if ledger[0].id == id then Some(ledger[0]) else FindRow(ledger[1..], id)
  }

  predicate Covers(a: Anchor, id: int) {
    a.status.Confirmed? && a.first <= id <= a.last
  }

  /** The newest confirmed anchor whose range holds the id. */
  function FindAnchor(anchors: seq<Anchor>, id: int): Option<Anchor> {
    if anchors == [] then None
    else
      var n := |anchors| - 1;
      if Covers(anchors[n], id) then Some(anchors[n]) else FindAnchor(anchors[..n], id)
  }

  function ProveInclusion(db: Db, id: int): Result<Option<Inclusion>, Error> {
    match (FindRow(db.ledger, id), FindAnchor(db.anchors, id))
    case (Some(row), Some(anchor)) =>
      var hashed := Select(db.hashes, anchor.first, anchor.last);
      var position := id - anchor.first;
      if position < 0 || position >= |hashed| then Err(OutsideRange)
      else if EntryHash(row) != hashed[position].entry then Err(HashMismatch)
      else Ok(Some(Inclusion(row, hashed[position].entry, hashed[position].chain,
                             Path(Entries(hashed), position), anchor)))
    case (_, _) => Ok(None)
  }

  // ---- the invariant ----

  ghost predicate Ascending(hs: seq<Hashed>) {
    forall i, j :: 0 <= i < j < |hs| ==> hs[i].id < hs[j].id
  }

  ghost predicate AscendingRows(rows: seq<Row>) {
    forall i, j :: 0 <= i < j < |rows| ==> rows[i].id < rows[j].id
  }

  /** Every stored chain hash is the fold from genesis over all entries up to it. */
  ghost predicate Chained(hs: seq<Hashed>) {
    forall k :: 0 <= k < |hs| ==> hs[k].chain == ChainTip(Entries(hs[..k + 1]))
  }

  function LastId(hs: seq<Hashed>): int {
    if hs == [] then 0 else hs[|hs| - 1].id
  }

  /** An anchor seals exactly the hashed rows of its range, which has no gap. */
  ghost predicate Seals(a: Anchor, hs: seq<Hashed>) {
    var range := Select(hs, a.first, a.last);
    && 1 <= a.first <= a.last <= LastId(hs) && |range| == a.count == a.last - a.first + 1
    && (forall j :: 0 <= j < a.count ==> range[j].id == a.first + j)
    && a.root == Root(Entries(range)) && a.tip == range[a.count - 1].chain
  }

  predicate Live(a: Anchor) { !a.status.Abandoned? }

  ghost predicate AnchorsOk(anchors: seq<Anchor>, hs: seq<Hashed>) {
    && (forall i :: 0 <= i < |anchors| && Live(anchors[i]) ==> Seals(anchors[i], hs))
    && (forall i, j :: 0 <= i < j < |anchors| && Live(anchors[i]) && Live(anchors[j]) ==>
          anchors[i].last < anchors[j].first)
    && (forall i, j :: 0 <= i < j < |anchors| && Live(anchors[j]) ==> !anchors[i].status.Pending?)
  }

  ghost predicate TablesOk(ledger: seq<Row>, nextId: int, hs: seq<Hashed>) {
    && AscendingRows(ledger) && Ascending(hs) && Chained(hs)
    && 1 <= nextId <= TWO_63
    && (forall i :: 0 <= i < |hs| ==> 1 <= hs[i].id < nextId)
    && (forall i :: 0 <= i < |ledger| ==> 1 <= ledger[i].id < nextId)
    && (forall i :: 0 <= i < |ledger| ==> IsHashed(hs, ledger[i].id) || ledger[i].id > LastId(hs))
  }

  ghost predicate Inv(db: Db) {
    TablesOk(db.ledger, db.nextId, db.hashes) && AnchorsOk(db.anchors, db.hashes)
  }

  // ---- selection ----

  lemma {:induction false} SelectFacts(hs: seq<Hashed>, lo: int, hi: int)
    requires Ascending(hs)
    ensures var r := Select(hs, lo, hi);
      && Ascending(r)
      && (forall h :: h in r ==> h in hs && lo <= h.id <= hi)
      && (forall h :: h in hs && lo <= h.id <= hi ==> h in r)
  {
    if hs != [] {
      var n := |hs| - 1;
      SelectFacts(hs[..n], lo, hi);
      assert hs == hs[..n] + [hs[n]];
      assert forall h :: h in hs[..n] ==> h.id < hs[n].id;
    }
  }

  /** Ranges that pick the same entries select the same sequence. */
  lemma {:induction false} SelectSame(hs: seq<Hashed>, lo: int, hi: int, lo': int, hi': int)
    requires forall h :: h in hs ==> (lo <= h.id <= hi <==> lo' <= h.id <= hi')
    ensures Select(hs, lo, hi) == Select(hs, lo', hi')
  {
    if hs != [] {
      var n := |hs| - 1;
      assert hs[n] in hs && forall h :: h in hs[..n] ==> h in hs;
      SelectSame(hs[..n], lo, hi, lo', hi');
    }
  }

  lemma {:induction false} SelectAppend(hs: seq<Hashed>, h: Hashed, lo: int, hi: int)
    requires h.id > hi
    ensures Select(hs + [h], lo, hi) == Select(hs, lo, hi)
  {
    assert (hs + [h])[..|hs|] == hs;
  }

  /** Strictly rising integers that span exactly their count are consecutive. */
  lemma {:induction false} NoGap(hs: seq<Hashed>, j: nat)
    requires Ascending(hs) && j < |hs| && hs[|hs| - 1].id - hs[0].id + 1 == |hs|
    ensures hs[j].id == hs[0].id + j
  {
    Climbs(hs, 0, j);
    Climbs(hs, j, |hs| - 1);
  }

  lemma {:induction false} Climbs(hs: seq<Hashed>, i: nat, j: nat)
    requires Ascending(hs) && i <= j < |hs|
    ensures hs[j].id >= hs[i].id + (j - i)
    decreases j - i
  {
    if i < j {
      Climbs(hs, i, j - 1);
    }
  }

  // ---- backfill ----

  lemma {:induction false} UnhashedFacts(ledger: seq<Row>, hs: seq<Hashed>)
    requires AscendingRows(ledger)
    ensures var u := Unhashed(ledger, hs);
      && AscendingRows(u)
      && (forall r :: r in u <==> r in ledger && !IsHashed(hs, r.id))
  {
    hide IsHashed;
    if ledger != [] {
      var first, rest := ledger[0], ledger[1..];
      UnhashedFacts(rest, hs);
      assert ledger == [first] + rest;
      assert forall r :: r in rest ==> first.id < r.id;
    }
  }

  lemma {:induction false} ChainedAppend(hs: seq<Hashed>, row: Row)
    requires Chained(hs)
    ensures Chained(HashRow(hs, row))
  {
    hide EntryHash, ChainTip;
    var hs', n := HashRow(hs, row), |hs|;
    forall k | 0 <= k < |hs'| ensures hs'[k].chain == ChainTip(Entries(hs'[..k + 1])) {
      if k < n {
        assert hs'[..k + 1] == hs[..k + 1];
      } else {
        assert hs'[..k + 1] == hs';
        assert Entries(hs') == Entries(hs) + [hs'[n].entry];
        TipAppend(Entries(hs), hs'[n].entry);
        LastChainIsTip(hs);
      }
    }
  }

  lemma {:induction false} TipAppend(es: seq<Digest>, e: Digest)
    ensures ChainTip(es + [e]) == Chain(ChainTip(es), e)
  {
    assert (es + [e])[..|es|] == es;
  }

  lemma {:induction false} LastChainIsTip(hs: seq<Hashed>)
    requires Chained(hs)
    ensures LastChain(hs) == ChainTip(Entries(hs))
  {
    hide ChainTip;
    if hs == [] {
      assert Entries(hs) == [];
      EmptyTip();
    } else {
      assert hs[..|hs| - 1 + 1] == hs;
    }
  }

  lemma {:induction false} EmptyTip()
    ensures ChainTip([]) == Zero
  {
  }

  lemma {:induction false} SealsAppend(a: Anchor, hs: seq<Hashed>, h: Hashed)
    requires Seals(a, hs) && h.id > LastId(hs)
    ensures Seals(a, hs + [h])
  {
    SelectAppend(hs, h, a.first, a.last);
  }

  lemma {:induction false} IsHashedAppend(hs: seq<Hashed>, h: Hashed, id: int)
    ensures IsHashed(hs + [h], id) <==> IsHashed(hs, id) || h.id == id
  {
    var hs' := hs + [h];
    assert hs'[|hs|] == h;
    if IsHashed(hs, id) {
      var i :| 0 <= i < |hs| && hs[i].id == id;
      assert hs'[i].id == id;
    }
  }

  lemma {:induction false} HashRowAnchors(anchors: seq<Anchor>, hs: seq<Hashed>, h: Hashed)
    requires AnchorsOk(anchors, hs) && h.id > LastId(hs)
    ensures AnchorsOk(anchors, hs + [h])
  {
    forall i | 0 <= i < |anchors| && Live(anchors[i]) ensures Seals(anchors[i], hs + [h]) {
      SealsAppend(anchors[i], hs, h);
    }
  }

  lemma {:induction false} AscendingAppend(hs: seq<Hashed>, h: Hashed)
    requires Ascending(hs) && h.id > LastId(hs)
    ensures Ascending(hs + [h])
  {
    forall i, j | 0 <= i < j < |hs| + 1 ensures (hs + [h])[i].id < (hs + [h])[j].id {
      if i < |hs| - 1 {
        assert hs[i].id < hs[|hs| - 1].id;
      }
    }
  }

  lemma {:induction false} HashRowTables(ledger: seq<Row>, nextId: int, hs: seq<Hashed>, row: Row)
    requires TablesOk(ledger, nextId, hs) && row in ledger && row.id > LastId(hs)
    requires forall r :: r in ledger && r.id > LastId(hs) ==> r.id >= row.id
    ensures TablesOk(ledger, nextId, HashRow(hs, row))
  {
    var hs' := HashRow(hs, row);
    ChainedAppend(hs, row);
    AscendingAppend(hs, hs'[|hs|]);
    forall i | 0 <= i < |ledger| ensures IsHashed(hs', ledger[i].id) || ledger[i].id > LastId(hs') {
      IsHashedAppend(hs, hs'[|hs|], ledger[i].id);
      assert ledger[i] in ledger;
    }
  }

  /** Hashing the next row in line keeps every table in order. */
  lemma {:induction false} HashRowKeeps(db: Db, row: Row)
    requires Inv(db) && row in db.ledger && row.id > LastId(db.hashes)
    requires forall r :: r in db.ledger && r.id > LastId(db.hashes) ==> r.id >= row.id
    ensures Inv(db.(hashes := HashRow(db.hashes, row)))
  {
    HashRowTables(db.ledger, db.nextId, db.hashes, row);
    HashRowAnchors(db.anchors, db.hashes, HashRow(db.hashes, row)[|db.hashes|]);
  }

  lemma {:induction false} HashRowsKeep(db: Db, rows: seq<Row>)
    requires Inv(db) && AscendingRows(rows)
    requires forall r :: r in rows <==> r in db.ledger && r.id > LastId(db.hashes)
    ensures Inv(db.(hashes := HashRows(db.hashes, rows)))
    decreases |rows|
  {
    if rows != [] {
      assert rows == [rows[0]] + rows[1..];
      assert rows[0] in rows;
      HashRowKeeps(db, rows[0]);
      HashRowsKeep(db.(hashes := HashRow(db.hashes, rows[0])), rows[1..]);
    }
  }

  lemma {:induction false} UnhashedAscend(db: Db)
    requires Inv(db)
    ensures AscendingRows(Unhashed(db.ledger, db.hashes))
  {
    hide AnchorsOk, Chained, EntryHash, Unhashed, IsHashed;
    UnhashedFacts(db.ledger, db.hashes);
  }

  lemma {:induction false} UnhashedAreNext(db: Db, row: Row)
    requires Inv(db)
    ensures row in Unhashed(db.ledger, db.hashes) <==> row in db.ledger && row.id > LastId(db.hashes)
  {
    hide AnchorsOk, Chained, EntryHash, Unhashed;
    UnhashedFacts(db.ledger, db.hashes);
    assert forall i :: 0 <= i < |db.hashes| ==> db.hashes[i].id <= LastId(db.hashes);
  }

  lemma {:induction false} BackfillKeeps(db: Db)
    requires Inv(db)
    ensures Inv(Backfill(db))
  {
    hide Inv, Unhashed, HashRows, AscendingRows, LastId;
    var u := Unhashed(db.ledger, db.hashes);
    UnhashedAscend(db);
    forall r ensures r in u <==> r in db.ledger && r.id > LastId(db.hashes) { UnhashedAreNext(db, r); }
    HashRowsKeep(db, u);
  }

  lemma {:induction false} HashRowsAt(hs: seq<Hashed>, rows: seq<Row>, k: nat)
    requires k < |rows|
    ensures var t := HashRows(hs, rows);
      |t| == |hs| + |rows| && t[|hs| + k].id == rows[k].id && t[|hs| + k].entry == EntryHash(rows[k])
    decreases |rows|
  {
    hide EntryHash;
    var one := HashRow(hs, rows[0]);
    if k > 0 {
      HashRowsAt(one, rows[1..], k - 1);
    } else if |rows| > 1 {
      HashRowsAt(one, rows[1..], 0);
      HashRowsGrow(one, rows[1..]);
    }
  }

  ghost predicate HashOf(h: Hashed, row: Row) { h.id == row.id && h.entry == EntryHash(row) }

  /** A row of the ledger that had no hash. */
  ghost predicate Lacking(db: Db, row: Row) { row in db.ledger && !IsHashed(db.hashes, row.id) }

  lemma {:induction false} BackfillAppends(db: Db)
    ensures var hs, u, n := Backfill(db).hashes, Unhashed(db.ledger, db.hashes), |db.hashes|;
      db.hashes <= hs && |hs| == n + |u| && Follow(hs, n, u)
  {
    var hs, u, n := Backfill(db).hashes, Unhashed(db.ledger, db.hashes), |db.hashes|;
    hide EntryHash, Unhashed;
    HashRowsGrow(db.hashes, u);
    assert |hs| == n + |u| by { if u != [] { HashRowsAt(db.hashes, u, 0); } }
    forall k | 0 <= k < |u| ensures HashOf(hs[n + k], u[k]) { HashRowsAt(db.hashes, u, k); }
  }

  /** The hash of some row that had none. */
  ghost predicate NewHash(db: Db, h: Hashed) { exists row :: Lacking(db, row) && HashOf(h, row) }

  ghost predicate HashedAfter(hs: seq<Hashed>, n: nat, row: Row) { exists k :: n <= k < |hs| && HashOf(hs[k], row) }

  ghost predicate Follow(hs: seq<Hashed>, n: nat, rows: seq<Row>) {
    |hs| == n + |rows| && forall k :: 0 <= k < |rows| ==> HashOf(hs[n + k], rows[k])
  }

  lemma {:induction false} FollowingHash(hs: seq<Hashed>, n: nat, rows: seq<Row>, k: nat)
    requires Follow(hs, n, rows) && n <= k < |hs|
    ensures HashOf(hs[k], rows[k - n])
  {
    hide HashOf;
    assert HashOf(hs[n + (k - n)], rows[k - n]);
  }

  lemma {:induction false} UnhashedAreLacking(db: Db, row: Row)
    requires Inv(db)
    ensures row in Unhashed(db.ledger, db.hashes) <==> Lacking(db, row)
  {
    hide AnchorsOk, Chained, EntryHash, Unhashed, IsHashed;
    UnhashedFacts(db.ledger, db.hashes);
  }

  lemma {:induction false} NewHashes(db: Db)
    requires Inv(db)
    ensures var hs, n := Backfill(db).hashes, |db.hashes|;
      && db.hashes <= hs
      && (forall k :: n <= k < |hs| ==> NewHash(db, hs[k]))
      && (forall row :: Lacking(db, row) ==> HashedAfter(hs, n, row))
  {
    hide HashOf, Unhashed, Backfill, Inv, IsHashed, Follow, Lacking;
    var hs, u, n := Backfill(db).hashes, Unhashed(db.ledger, db.hashes), |db.hashes|;
    BackfillAppends(db);
    forall k | n <= k < |hs| ensures NewHash(db, hs[k]) {
      FollowingHash(hs, n, u, k);
      UnhashedAreLacking(db, u[k - n]);
    }
    forall row | Lacking(db, row) ensures HashedAfter(hs, n, row) {
      UnhashedAreLacking(db, row);
      var k :| 0 <= k < |u| && u[k] == row;
      FollowingHash(hs, n, u, n + k);
    }
  }

  /** After a backfill every row has a hash: the old hashes come first, and the new ones are those of exactly the rows without one. */
  lemma {:induction false} BackfillHashesEveryRow(db: Db)
    requires Inv(db)
    ensures var hs, n := Backfill(db).hashes, |db.hashes|;
      && db.hashes <= hs
      && (forall k :: n <= k < |hs| ==> NewHash(db, hs[k]))
      && (forall row :: Lacking(db, row) ==> HashedAfter(hs, n, row))
      && (forall row :: row in db.ledger ==> IsHashed(hs, row.id))
  {
    hide Backfill, Inv, NewHash, EntryHash;
    NewHashes(db);
    var hs, n := Backfill(db).hashes, |db.hashes|;
    forall row | row in db.ledger ensures IsHashed(hs, row.id) {
      if IsHashed(db.hashes, row.id) {
        var i :| 0 <= i < n && db.hashes[i].id == row.id;
        assert hs[i].id == row.id;
      } else {
        assert Lacking(db, row);
      }
    }
  }

  // ---- prepare ----

  lemma {:induction false} LastAnchoredIsMax(anchors: seq<Anchor>)
    ensures LastAnchored(anchors) >= 0
    ensures forall i :: 0 <= i < |anchors| && anchors[i].status.Confirmed? ==> anchors[i].last <= LastAnchored(anchors)
    ensures LastAnchored(anchors) > 0 ==>
      exists i :: 0 <= i < |anchors| && anchors[i].status.Confirmed? && anchors[i].last == LastAnchored(anchors)
  {
    if anchors != [] {
      var init := anchors[..|anchors| - 1];
      LastAnchoredIsMax(init);
      assert forall i :: 0 <= i < |init| ==> init[i] == anchors[i];
    }
  }

  /** Everything past lo is the range from its first to its last id. */
  lemma {:induction false} OpenRange(hs: seq<Hashed>, lo: int)
    requires Ascending(hs) && Select(hs, lo, TWO_63 - 1) != []
    requires forall i :: 0 <= i < |hs| ==> hs[i].id < TWO_63
    ensures var r := Select(hs, lo, TWO_63 - 1);
      var first, last := r[0].id, r[|r| - 1].id;
      Select(hs, first, last) == r && Ascending(r) && lo <= first <= last <= LastId(hs)
  {
    var r := Select(hs, lo, TWO_63 - 1);
    SelectFacts(hs, lo, TWO_63 - 1);
    var first, last := r[0].id, r[|r| - 1].id;
    assert r[0] in r && r[|r| - 1] in r;
    forall h | h in hs ensures lo <= h.id <= TWO_63 - 1 <==> first <= h.id <= last {
      if lo <= h.id {
        assert h in r;
      }
    }
    SelectSame(hs, lo, TWO_63 - 1, first, last);
  }

  lemma {:induction false} PreparedSeals(db: Db)
    requires Inv(db) && Prepare(db).Ok? && Prepare(db).value != db
    ensures var table := Prepare(db).value.anchors;
      && |table| == |db.anchors| + 1 && table[..|db.anchors|] == db.anchors
      && Seals(table[|db.anchors|], db.hashes) && table[|db.anchors|].status.Pending?
      && table[|db.anchors|].first > LastAnchored(db.anchors)
  {
    LastAnchoredIsMax(db.anchors);
    OpenRange(db.hashes, LastAnchored(db.anchors) + 1);
    var hashed := Select(db.hashes, LastAnchored(db.anchors) + 1, TWO_63 - 1);
    forall j | 0 <= j < |hashed| ensures hashed[j].id == hashed[0].id + j {
      NoGap(hashed, j);
    }
  }

  lemma {:induction false} PrepareKeeps(db: Db)
    requires Inv(db) && Prepare(db).Ok?
    ensures Inv(Prepare(db).value)
  {
    hide Seals, TablesOk, Select, Root, LastAnchored;
    if Prepare(db).value != db {
      PreparedSeals(db);
      LastAnchoredIsMax(db.anchors);
    }
  }

  /** A stored hash past every confirmed anchor. */
  ghost predicate Waiting(db: Db, h: Hashed) {
    h in db.hashes && forall i :: 0 <= i < |db.anchors| && db.anchors[i].status.Confirmed? ==> db.anchors[i].last < h.id
  }

  ghost predicate WaitingId(db: Db, id: int) { exists h :: Waiting(db, h) && h.id == id }

  /** The waiting ids have no hole. */
  ghost predicate NoHole(db: Db) {
    forall lo, id, hi :: WaitingId(db, lo) && WaitingId(db, hi) && lo < id < hi ==> WaitingId(db, id)
  }

  lemma {:induction false} WaitingIsSelected(db: Db, h: Hashed)
    requires Inv(db)
    ensures Waiting(db, h) <==> h in Select(db.hashes, LastAnchored(db.anchors) + 1, TWO_63 - 1)
  {
    hide Chained, Seals, EntryHash, LastAnchored;
    LastAnchoredIsMax(db.anchors);
    SelectFacts(db.hashes, LastAnchored(db.anchors) + 1, TWO_63 - 1);
  }

  /** Ascending ids without a hole go up by one. */
  lemma {:induction false} DenseIds(hs: seq<Hashed>, j: nat)
    requires Ascending(hs) && j < |hs|
    requires forall id :: hs[0].id <= id <= hs[|hs| - 1].id ==> IsHashed(hs, id)
    ensures hs[j].id == hs[0].id + j
  {
    if j > 0 {
      DenseIds(hs, j - 1);
      var id := hs[j - 1].id + 1;
      assert hs[0].id <= id <= hs[|hs| - 1].id by {
        assert hs[j - 1].id < hs[j].id;
        assert j < |hs| - 1 ==> hs[j].id < hs[|hs| - 1].id;
      }
      assert IsHashed(hs, id);
      var i :| 0 <= i < |hs| && hs[i].id == id;
      assert i > j - 1;
      assert i <= j;
    }
  }

  ghost predicate Dense(hs: seq<Hashed>)
    requires hs != []
  {
    forall id :: hs[0].id <= id <= hs[|hs| - 1].id ==> IsHashed(hs, id)
  }

  /** Ascending ids have no hole exactly if they are as many as the range from first to last holds. */
  lemma {:induction false} DenseIsCounted(hs: seq<Hashed>)
    requires Ascending(hs) && hs != []
    ensures Dense(hs) <==> hs[|hs| - 1].id - hs[0].id + 1 == |hs|
  {
    if Dense(hs) {
      DenseIds(hs, |hs| - 1);
    }
    if hs[|hs| - 1].id - hs[0].id + 1 == |hs| {
      forall id | hs[0].id <= id <= hs[|hs| - 1].id ensures IsHashed(hs, id) {
        NoGap(hs, id - hs[0].id);
      }
    }
  }

  lemma {:induction false} DenseIsNoHole(db: Db, hs: seq<Hashed>)
    requires Ascending(hs) && hs != [] && forall id :: WaitingId(db, id) <==> IsHashed(hs, id)
    ensures Dense(hs) <==> NoHole(db)
    ensures Dense(hs) ==> forall id :: hs[0].id <= id <= hs[|hs| - 1].id <==> WaitingId(db, id)
  {
    hide WaitingId;
    var first, last := hs[0].id, hs[|hs| - 1].id;
    assert IsHashed(hs, first) && IsHashed(hs, last);
    forall id | IsHashed(hs, id) ensures first <= id <= last {
      var i :| 0 <= i < |hs| && hs[i].id == id;
      assert i == 0 || first < id;
    }
    if NoHole(db) {
      forall id | first <= id <= last ensures IsHashed(hs, id) {
        assert WaitingId(db, first) && WaitingId(db, last);
      }
    }
  }

  lemma {:induction false} WaitingIds(db: Db, id: int)
    requires Inv(db)
    ensures WaitingId(db, id) <==> IsHashed(Select(db.hashes, LastAnchored(db.anchors) + 1, TWO_63 - 1), id)
  {
    hide Inv, LastAnchored, Waiting, Select;
    var r := Select(db.hashes, LastAnchored(db.anchors) + 1, TWO_63 - 1);
    forall h ensures Waiting(db, h) <==> h in r { WaitingIsSelected(db, h); }
    if IsHashed(r, id) {
      var i :| 0 <= i < |r| && r[i].id == id;
      assert Waiting(db, r[i]);
    }
  }

  lemma {:induction false} SelectAscends(db: Db, lo: int)
    requires Inv(db)
    ensures Ascending(Select(db.hashes, lo, TWO_63 - 1))
  {
    hide AnchorsOk, Chained, Select, EntryHash;
    SelectFacts(db.hashes, lo, TWO_63 - 1);
  }

  /** What waits is selected, in order; it has no hole exactly if its ids are as many as the range from first to last holds. */
  lemma {:induction false} GapIsHole(db: Db)
    requires Inv(db)
    ensures var r := Select(db.hashes, LastAnchored(db.anchors) + 1, TWO_63 - 1);
      && (r == [] <==> forall h :: !Waiting(db, h))
      && (r != [] ==> (r[|r| - 1].id - r[0].id + 1 == |r| <==> NoHole(db)))
      && (r != [] && NoHole(db) ==> forall id :: r[0].id <= id <= r[|r| - 1].id <==> WaitingId(db, id))
  {
    hide Inv, LastAnchored, Waiting, Select, Dense, NoHole, WaitingId, IsHashed, Ascending;
    var r := Select(db.hashes, LastAnchored(db.anchors) + 1, TWO_63 - 1);
    SelectAscends(db, LastAnchored(db.anchors) + 1);
    forall h ensures Waiting(db, h) <==> h in r { WaitingIsSelected(db, h); }
    forall id ensures WaitingId(db, id) <==> IsHashed(r, id) { WaitingIds(db, id); }
    if r != [] {
      assert Waiting(db, r[0]);
      DenseIsCounted(r);
      DenseIsNoHole(db, r);
    }
  }

  /** The anchor a prepare adds: pending, over exactly the waiting ids, and sealing their hashes. */
  ghost predicate Anchored(db: Db, a: Anchor) {
    && a.status == Pending && Seals(a, db.hashes)
    && forall id :: a.first <= id <= a.last <==> WaitingId(db, id)
  }

  /**
   What a prepare answers, whatever is in the tables: a refusal while an anchor is pending; nothing to do exactly if no hash waits;
   a gap exactly if the waiting ids have a hole; and otherwise one more anchor, pending, over exactly the waiting ids.
   */
  lemma {:induction false} PrepareIsExact(db: Db)
    requires Inv(db)
    ensures if exists i :: 0 <= i < |db.anchors| && db.anchors[i].status == Pending then Prepare(db) == Err(PendingExists)
      else
        && (Prepare(db) == Ok(db) <==> forall h :: !Waiting(db, h))
        && (Prepare(db) == Err(Gap) <==> (exists h :: Waiting(db, h)) && !NoHole(db))
        && ((exists h :: Waiting(db, h)) && NoHole(db) ==>
              exists a :: Prepare(db) == Ok(db.(anchors := db.anchors + [a])) && Anchored(db, a))
  {
    hide Inv, Waiting, NoHole, WaitingId, Seals, Select, Root, LastAnchored, EntryHash;
    if !HasPending(db.anchors) {
      GapIsHole(db);
      var r := Select(db.hashes, LastAnchored(db.anchors) + 1, TWO_63 - 1);
      if r != [] && NoHole(db) {
        PreparedSeals(db);
        var t := Prepare(db).value;
        var a := t.anchors[|db.anchors|];
        assert t == db.(anchors := db.anchors + [a]);
      }
    }
  }

  /** A status says nothing about what an anchor seals. */
  lemma {:induction false} SealsWhatever(a: Anchor, status: Status, hs: seq<Hashed>)
    requires Seals(a, hs)
    ensures Seals(a.(status := status), hs)
  {}

  lemma {:induction false} SetStatusKeeps(db: Db, anchorId: int, status: Status)
    requires Inv(db) && SetStatus(db, anchorId, status).Ok? && !status.Pending?
    ensures Inv(SetStatus(db, anchorId, status).value)
  {
    hide Seals, TablesOk;
    var table, table' := db.anchors, SetStatus(db, anchorId, status).value.anchors;
    forall i | 0 <= i < |table'| && Live(table'[i]) ensures Seals(table'[i], db.hashes) {
      SealsWhatever(table[i], table'[i].status, db.hashes);
    }
  }

  // ---- runs ----

  /** What can happen to the tables, including an operator rewriting or deleting ledger rows. */
  datatype Op =
    | Append(device: Bytes, kind: Bytes, amount: Int64, timestamp: Int64, request: Option<Bytes>, note: Option<Bytes>)
    | Edit(at: nat, row: Row)
    | Delete(at: nat)
    | DoBackfill
    | DoPrepare
    | Confirm(anchorId: int, signature: string)
    | Abandon(anchorId: int)

  function OrSame(r: Result<Db, Error>, db: Db): Db {
    match r case Ok(v) => v case Err(_) => db
  }

  function Step(db: Db, op: Op): Db {
    match op
    case Append(device, kind, amount, timestamp, request, note) =>
      if 1 <= db.nextId < TWO_63
      then db.(ledger := db.ledger + [Row(db.nextId, device, kind, amount, timestamp, request, note)], nextId := db.nextId + 1)
      else db
    case Edit(at, row) =>
      if at < |db.ledger| then db.(ledger := db.ledger[at := row.(id := db.ledger[at].id)]) else db
    case Delete(at) =>
      if at < |db.ledger| then db.(ledger := db.ledger[..at] + db.ledger[at + 1..]) else db
    case DoBackfill => Backfill(db)
    case DoPrepare => OrSame(Prepare(db), db)
    case Confirm(anchorId, signature) => OrSame(SetStatus(db, anchorId, Confirmed(signature)), db)
    case Abandon(anchorId) => OrSame(SetStatus(db, anchorId, Abandoned), db)
  }

  function Run(db: Db, ops: seq<Op>): Db {
    if ops == [] then db else Step(Run(db, ops[..|ops| - 1]), ops[|ops| - 1])
  }

  lemma {:induction false} AppendKeeps(db: Db, row: Row)
    requires Inv(db) && row.id == db.nextId < TWO_63
    ensures Inv(db.(ledger := db.ledger + [row], nextId := db.nextId + 1))
  {
    assert db.hashes != [] ==> LastId(db.hashes) < db.nextId;
  }

  lemma {:induction false} EditKeeps(db: Db, at: nat, row: Row)
    requires Inv(db) && at < |db.ledger| && row.id == db.ledger[at].id
    ensures Inv(db.(ledger := db.ledger[at := row]))
  {}

  lemma {:induction false} DeleteKeeps(db: Db, at: nat)
    requires Inv(db) && at < |db.ledger|
    ensures Inv(db.(ledger := db.ledger[..at] + db.ledger[at + 1..]))
  {
    var rows := db.ledger[..at] + db.ledger[at + 1..];
    assert forall i :: 0 <= i < |rows| ==> rows[i] == db.ledger[if i < at then i else i + 1];
  }

  lemma {:induction false} StepKeeps(db: Db, op: Op)
    requires Inv(db)
    ensures Inv(Step(db, op))
  {
    match op
    case Append(device, kind, amount, timestamp, request, note) =>
      if db.nextId < TWO_63 { AppendKeeps(db, Row(db.nextId, device, kind, amount, timestamp, request, note)); }
    case Edit(at, row) => if at < |db.ledger| { EditKeeps(db, at, row.(id := db.ledger[at].id)); }
    case Delete(at) => if at < |db.ledger| { DeleteKeeps(db, at); }
    case DoBackfill => BackfillKeeps(db);
    case DoPrepare => if Prepare(db).Ok? { PrepareKeeps(db); }
    case Confirm(anchorId, signature) =>
      if IsPending(db, anchorId) { SetStatusKeeps(db, anchorId, Confirmed(signature)); }
    case Abandon(anchorId) => if IsPending(db, anchorId) { SetStatusKeeps(db, anchorId, Abandoned); }
  }

  /** In every run the tables stay in order: see AnchorsOk and Chained. */
  lemma {:induction false} RunKeeps(db: Db, ops: seq<Op>)
    requires Inv(db)
    ensures Inv(Run(db, ops))
  {
    if ops != [] {
      RunKeeps(db, ops[..|ops| - 1]);
      StepKeeps(Run(db, ops[..|ops| - 1]), ops[|ops| - 1]);
    }
  }

  lemma {:induction false} HashRowsGrow(hs: seq<Hashed>, rows: seq<Row>)
    ensures hs <= HashRows(hs, rows)
    decreases |rows|
  {
    if rows != [] {
      HashRowsGrow(HashRow(hs, rows[0]), rows[1..]);
    }
  }

  ghost predicate Extends(later: Db, db: Db) {
    && db.hashes <= later.hashes
    && |db.anchors| <= |later.anchors|
    && (forall i :: 0 <= i < |db.anchors| && !db.anchors[i].status.Pending? ==> later.anchors[i] == db.anchors[i])
  }

  lemma {:induction false} StepExtends(db: Db, op: Op)
    ensures Extends(Step(db, op), db)
  {
    if op.DoBackfill? {
      HashRowsGrow(db.hashes, Unhashed(db.ledger, db.hashes));
    }
  }

  /** Confirmed anchors never change, and stored hashes are only added to. */
  lemma {:induction false} HistoryIsPermanent(db: Db, ops: seq<Op>)
    ensures Extends(Run(db, ops), db)
  {
    if ops != [] {
      HistoryIsPermanent(db, ops[..|ops| - 1]);
      StepExtends(Run(db, ops[..|ops| - 1]), ops[|ops| - 1]);
    }
  }

  /** At most one pending anchor, and confirmed ranges rise without overlap, in every run. */
  lemma {:induction false} RunAnchorsOrdered(db: Db, ops: seq<Op>, i: nat, j: nat)
    requires Inv(db) && i < j < |Run(db, ops).anchors|
    ensures var table := Run(db, ops).anchors;
      && !(table[i].status.Pending? && table[j].status.Pending?)
      && (table[i].status.Confirmed? && table[j].status.Confirmed? ==> table[i].first <= table[i].last < table[j].first <= table[j].last)
  {
    RunKeeps(db, ops);
  }

  // ---- inclusion proofs ----

  lemma {:induction false} FindRowFacts(ledger: seq<Row>, id: int)
    ensures FindRow(ledger, id).Some? ==> FindRow(ledger, id).value in ledger && FindRow(ledger, id).value.id == id
    ensures FindRow(ledger, id).None? ==> forall r :: r in ledger ==> r.id != id
  {
    if ledger != [] {
      FindRowFacts(ledger[1..], id);
    }
  }

  lemma {:induction false} FindAnchorFacts(anchors: seq<Anchor>, id: int)
    ensures FindAnchor(anchors, id).Some? ==> FindAnchor(anchors, id).value in anchors && Covers(FindAnchor(anchors, id).value, id)
    ensures FindAnchor(anchors, id).None? ==> forall a :: a in anchors ==> !Covers(a, id)
  {
    if anchors != [] {
      FindAnchorFacts(anchors[..|anchors| - 1], id);
      assert anchors == anchors[..|anchors| - 1] + [anchors[|anchors| - 1]];
    }
  }

  /** An entry is found in any range that holds its id. */
  lemma {:induction false} EntryAt(hs: seq<Hashed>, lo: int, hi: int, at: nat, h: Hashed)
    requires Ascending(hs) && h in hs && at < |Select(hs, lo, hi)| && Select(hs, lo, hi)[at].id == h.id
    ensures Select(hs, lo, hi)[at] == h
  {
    SelectFacts(hs, lo, hi);
    var g := Select(hs, lo, hi)[at];
    assert g in hs;
    var i, j :| 0 <= i < |hs| && hs[i] == h && 0 <= j < |hs| && hs[j] == g;
    assert i == j;
  }

  /** The stored hash of a confirmed row sits at its own position in the sealed range, and its proof holds. */
  lemma {:induction false} SealedEntry(db: Db, a: Anchor, at: nat, h: Hashed)
    requires Inv(db) && a in db.anchors && Covers(a, h.id) && h in db.hashes && at == h.id - a.first
    ensures var range := Select(db.hashes, a.first, a.last);
      at < |range| && range[at] == h && Fold(h.entry, Path(Entries(range), at)) == Some(a.root)
  {
    var k :| 0 <= k < |db.anchors| && db.anchors[k] == a;
    assert Seals(db.anchors[k], db.hashes);
    EntryAt(db.hashes, a.first, a.last, at, h);
    ProofsVerify(Entries(Select(db.hashes, a.first, a.last)), at);
  }

  /** The stored hash with an id. */
  function FindHash(hs: seq<Hashed>, id: int): Option<Hashed> {
    if hs == [] then None else if hs[0].id == id then Some(hs[0]) else FindHash(hs[1..], id)
  }

  lemma {:induction false} FindHashFacts(hs: seq<Hashed>, h: Hashed)
    requires Ascending(hs) && h in hs
    ensures FindHash(hs, h.id) == Some(h)
  {
    if hs[0].id != h.id {
      assert h in hs[1..] by { assert hs == [hs[0]] + hs[1..]; }
      FindHashFacts(hs[1..], h);
    }
  }

  /** Every row under a live anchor has a stored hash. */
  lemma {:induction false} CoveredIsHashed(db: Db, a: Anchor, id: int) returns (h: Hashed)
    requires Inv(db) && a in db.anchors && Covers(a, id)
    ensures h in db.hashes && h.id == id && FindHash(db.hashes, id) == Some(h)
  {
    hide EntryHash, Root;
    var k :| 0 <= k < |db.anchors| && db.anchors[k] == a;
    assert Seals(db.anchors[k], db.hashes);
    SelectFacts(db.hashes, a.first, a.last);
    h := Select(db.hashes, a.first, a.last)[id - a.first];
    FindHashFacts(db.hashes, h);
  }

  /** The proof is for this row as it stands, under an anchor that covers it, and folds to that anchor's root. */
  predicate Proves(p: Inclusion, row: Row, h: Hashed) {
    && p.row == row && p.entry == h.entry && p.chain == h.chain && Covers(p.anchor, row.id)
    && Fold(EntryHash(row), p.proof) == Some(p.anchor.root)
  }

  ghost predicate Proved(db: Db, row: Row) {
    var r := ProveInclusion(db, row.id);
    r.Ok? && r.value.Some? && FindHash(db.hashes, row.id).Some? && Proves(r.value.value, row, FindHash(db.hashes, row.id).value)
  }

  /**
   What an inclusion query answers, whatever is in the tables: nothing without a row or a confirmed anchor over it;
   otherwise the row has a stored hash, and a proof that folds to the anchored root is returned if the row still hashes
   to it, and a mismatch is reported if not.
   */
  lemma {:induction false} InclusionIsExact(db: Db, id: int)
    requires Inv(db)
    ensures match (FindRow(db.ledger, id), FindAnchor(db.anchors, id), FindHash(db.hashes, id))
      case (Some(row), Some(_), Some(h)) =>
        row.id == id && if EntryHash(row) == h.entry then Proved(db, row) else ProveInclusion(db, id) == Err(HashMismatch)
      case (Some(_), Some(_), None) => false
      case (_, _, _) => ProveInclusion(db, id) == Ok(None)
  {
    hide EntryHash, Inv, Fold, Path, Select, FindRow, FindAnchor, FindHash;
    FindRowFacts(db.ledger, id);
    FindAnchorFacts(db.anchors, id);
    if FindRow(db.ledger, id).Some? && FindAnchor(db.anchors, id).Some? {
      var a := FindAnchor(db.anchors, id).value;
      var h := CoveredIsHashed(db, a, id);
      SealedEntry(db, a, id - a.first, h);
    }
  }

  /** After any run, a row once hashed is proved exactly if its content is still what it was, null strings counting as empty. */
  lemma {:induction false} EditsAreRefused(before: Db, ops: seq<Op>, original: Row)
    requires Inv(before) && ShortStrings(original)
    requires exists h :: h in before.hashes && h.id == original.id && h.entry == EntryHash(original)
    requires var now := Run(before, ops);
      FindRow(now.ledger, original.id).Some? && FindAnchor(now.anchors, original.id).Some?
      && ShortStrings(FindRow(now.ledger, original.id).value)
    ensures var now := Run(before, ops);
      var row := FindRow(now.ledger, original.id).value;
      if SameContent(row, original) then row.id == original.id && Proved(now, row)
      else ProveInclusion(now, original.id) == Err(HashMismatch)
  {
    hide EntryHash, Run, ProveInclusion, FindRow, FindAnchor, SameContent, ShortStrings, Proved, AnchorsOk;
    var now := Run(before, ops);
    RunKeeps(before, ops);
    HistoryIsPermanent(before, ops);
    var h :| h in before.hashes && h.id == original.id && h.entry == EntryHash(original);
    assert h in now.hashes;
    FindHashFacts(now.hashes, h);
    InclusionIsExact(now, original.id);
    EntryHashBindsRow(FindRow(now.ledger, original.id).value, original);
  }

  const EMPTY := Db([], 1, [], [])

  const NO_NOTE := Row(1, [100], [66], 5, 7, None, None)

  /** A row without a note is appended and anchored, and its note then set to an empty one. */
  const NULL_EDIT: seq<Op> := [
    Append([100], [66], 5, 7, None, None), DoBackfill, DoPrepare, Confirm(1, "signature"), Edit(0, NO_NOTE.(note := Some([])))]

  lemma {:induction false} RunSnoc(db: Db, ops: seq<Op>, k: nat)
    requires k < |ops|
    ensures Run(db, ops[..k + 1]) == Step(Run(db, ops[..k]), ops[k])
  {
    hide Step;
    assert ops[..k + 1][..k] == ops[..k];
  }

  lemma {:induction false} FirstBackfill(row: Row)
    ensures Backfill(Db([row], 2, [], [])) == Db([row], 2, HashRow([], row), [])
  {
    hide HashRow;
    assert Unhashed([row], []) == [row];
    assert HashRows([], [row]) == HashRows(HashRow([], row), []);
  }

  lemma {:induction false} FirstPrepare(row: Row, h: Hashed)
    requires h.id == 1
    ensures Prepare(Db([row], 2, [h], [])) == Ok(Db([row], 2, [h], [Anchor(1, 1, 1, Root([h.entry]), h.chain, Pending)]))
  {
    hide Root;
    assert Select([], 1, TWO_63 - 1) == [] && [h][..0] == [];
    assert Select([h], 1, TWO_63 - 1) == [h];
    assert Entries([h]) == [h.entry];
    var anchor := Anchor(1, 1, 1, Root([h.entry]), h.chain, Pending);
    assert [] + [anchor] == [anchor] && LastAnchored([]) == 0 && !HasPending([]);
  }

  /** That edit goes unnoticed: the changed row is proved. */
  lemma {:induction false} NullEditIsProved()
    ensures var row, now := NO_NOTE.(note := Some([])), Run(EMPTY, NULL_EDIT);
      Run(EMPTY, NULL_EDIT[..4]).ledger == [NO_NOTE] && now.ledger == [row] && Proved(now, row)
  {
    hide EntryHash, Run, Root, Backfill, Prepare, FindRow, Proved, Inv, ProveInclusion;
    var ops, row := NULL_EDIT, NO_NOTE.(note := Some([]));
    var h := Hashed(1, EntryHash(NO_NOTE), Chain(Zero, EntryHash(NO_NOTE)));
    var anchor := Anchor(1, 1, 1, Root([h.entry]), h.chain, Pending);
    var sealed := anchor.(status := Confirmed("signature"));
    assert Run(EMPTY, ops[..0]) == EMPTY by { NoOps(ops); }
    RunSnoc(EMPTY, ops, 0);
    assert Run(EMPTY, ops[..1]) == Db([NO_NOTE], 2, [], []);
    RunSnoc(EMPTY, ops, 1);
    FirstBackfill(NO_NOTE);
    assert HashRow([], NO_NOTE) == [h];
    RunSnoc(EMPTY, ops, 2);
    FirstPrepare(NO_NOTE, h);
    RunSnoc(EMPTY, ops, 3);
    assert Run(EMPTY, ops[..4]) == Db([NO_NOTE], 2, [h], [sealed]);
    RunSnoc(EMPTY, ops, 4);
    assert ops[..5] == ops;
    var now := Run(EMPTY, ops);
    assert now == Db([row], 2, [h], [sealed]);
    assert EntryHash(row) == h.entry by { NullIsEmpty(NO_NOTE); }
    EmptyIsInOrder();
    RunKeeps(EMPTY, ops);
    OneRowFound(row, h, sealed);
    InclusionIsExact(now, 1);
  }

  lemma {:induction false} NoOps(ops: seq<Op>)
    ensures Run(EMPTY, ops[..0]) == EMPTY
  {}

  lemma {:induction false} EmptyIsInOrder()
    ensures Inv(EMPTY)
  {}

  lemma {:induction false} OneRowFound(row: Row, h: Hashed, a: Anchor)
    requires row.id == h.id && Covers(a, row.id)
    ensures FindRow([row], row.id) == Some(row) && FindAnchor([a], row.id) == Some(a) && FindHash([h], row.id) == Some(h)
  {}

  // ---- the chain does not depend on how it was batched ----

  /** The hashes are those of the first rows of the ledger as it now stands. */
  ghost predicate Untampered(db: Db) {
    |db.hashes| <= |db.ledger|
    && forall k :: 0 <= k < |db.hashes| ==> db.hashes[k].id == db.ledger[k].id && db.hashes[k].entry == EntryHash(db.ledger[k])
  }

  predicate Honest(op: Op) { !op.Edit? && !op.Delete? }

  lemma {:induction false} UnhashedIsRest(ledger: seq<Row>, hs: seq<Hashed>, n: nat)
    requires n <= |ledger|
    requires forall k :: 0 <= k < |ledger| ==> (IsHashed(hs, ledger[k].id) <==> k < n)
    ensures Unhashed(ledger, hs) == ledger[n..]
  {
    if ledger != [] {
      if n == 0 {
        assert forall k :: 0 <= k < |ledger[1..]| ==> ledger[1..][k] == ledger[k + 1];
        UnhashedIsRest(ledger[1..], hs, 0);
      } else {
        assert forall k :: 0 <= k < |ledger[1..]| ==> ledger[1..][k] == ledger[k + 1];
        UnhashedIsRest(ledger[1..], hs, n - 1);
      }
    }
  }

  lemma {:induction false} HashRowsUntampered(db: Db, n: nat)
    requires Untampered(db) && n == |db.hashes|
    ensures var db' := db.(hashes := HashRows(db.hashes, db.ledger[n..]));
      Untampered(db') && |db'.hashes| == |db.ledger|
    decreases |db.ledger| - n
  {
    if n < |db.ledger| {
      assert db.ledger[n..][0] == db.ledger[n] && db.ledger[n..][1..] == db.ledger[n + 1..];
      HashRowsUntampered(db.(hashes := HashRow(db.hashes, db.ledger[n])), n + 1);
    }
  }

  lemma {:induction false} BackfillUntampered(db: Db)
    requires Inv(db) && Untampered(db)
    ensures Untampered(Backfill(db)) && |Backfill(db).hashes| == |db.ledger|
  {
    forall k | 0 <= k < |db.ledger| ensures IsHashed(db.hashes, db.ledger[k].id) <==> k < |db.hashes| {
      if IsHashed(db.hashes, db.ledger[k].id) {
        var i :| 0 <= i < |db.hashes| && db.hashes[i].id == db.ledger[k].id;
        assert i == k;
      }
      assert k < |db.hashes| ==> db.hashes[k].id == db.ledger[k].id;
    }
    UnhashedIsRest(db.ledger, db.hashes, |db.hashes|);
    HashRowsUntampered(db, |db.hashes|);
  }

  /** Rows added at the end and changes to the anchors alone do not matter. */
  lemma {:induction false} LedgerGrows(db: Db, db': Db)
    requires Untampered(db) && db.ledger <= db'.ledger && db'.hashes == db.hashes
    ensures Untampered(db')
  {
    hide EntryHash;
  }

  lemma {:induction false} HonestStep(db: Db, op: Op)
    requires Inv(db) && Untampered(db) && Honest(op)
    ensures Untampered(Step(db, op))
  {
    hide Inv, Untampered, Backfill, Select, LastAnchored, Root;
    if op.DoBackfill? {
      BackfillUntampered(db);
    } else {
      LedgerGrows(db, Step(db, op));
    }
  }

  lemma {:induction false} HonestRunsStayUntampered(db: Db, ops: seq<Op>)
    requires Inv(db) && Untampered(db) && forall op :: op in ops ==> Honest(op)
    ensures Untampered(Run(db, ops))
  {
    if ops != [] {
      var init := ops[..|ops| - 1];
      assert forall op :: op in init ==> op in ops;
      HonestRunsStayUntampered(db, init);
      RunKeeps(db, init);
      assert Honest(ops[|ops| - 1]);
      HonestStep(Run(db, init), ops[|ops| - 1]);
    }
  }

  /** However appends and backfills interleave, chain hash k is the fold over the first k + 1 rows. */
  lemma {:induction false} ChainIgnoresBatching(db: Db, ops: seq<Op>, k: nat)
    requires Inv(db) && Untampered(db) && forall op :: op in ops ==> Honest(op)
    requires k < |Run(db, ops).hashes|
    ensures k < |Run(db, ops).ledger|
    ensures Run(db, ops).hashes[k].chain == ChainTip(EntryHashes(Run(db, ops).ledger[..k + 1]))
  {
    RunKeeps(db, ops);
    HonestRunsStayUntampered(db, ops);
    var s := Run(db, ops);
    assert Entries(s.hashes[..k + 1]) == EntryHashes(s.ledger[..k + 1]);
  }

  // ---- what an honest operator gets ----

  /** Ids count the rows, and confirmed anchors leave no row out up to the last of them; a pending one starts right after. */
  ghost predicate Complete(db: Db) {
    && db.nextId == |db.ledger| + 1
    && (forall k :: 0 <= k < |db.ledger| ==> db.ledger[k].id == k + 1)
    && (forall id :: 1 <= id <= LastAnchored(db.anchors) ==> Confirms(db.anchors, id))
    && (forall i :: 0 <= i < |db.anchors| && db.anchors[i].status.Pending? ==>
          db.anchors[i].first == LastAnchored(db.anchors) + 1)
  }

  ghost predicate Confirms(anchors: seq<Anchor>, id: int) {
    exists i :: 0 <= i < |anchors| && Covers(anchors[i], id)
  }

  lemma {:induction false} LastAnchoredSet(anchors: seq<Anchor>, at: nat, status: Status)
    requires at < |anchors| && !anchors[at].status.Confirmed?
    ensures LastAnchored(anchors[at := anchors[at].(status := status)]) ==
      if status.Confirmed? then Max(LastAnchored(anchors), anchors[at].last) else LastAnchored(anchors)
  {
    var n, table := |anchors| - 1, anchors[at := anchors[at].(status := status)];
    if at < n {
      LastAnchoredSet(anchors[..n], at, status);
      assert table[..n] == anchors[..n][at := anchors[at].(status := status)];
    } else {
      assert table[..n] == anchors[..n];
    }
  }

  lemma {:induction false} LastAnchoredPending(anchors: seq<Anchor>, a: Anchor)
    requires a.status.Pending?
    ensures LastAnchored(anchors + [a]) == LastAnchored(anchors)
  {
    assert (anchors + [a])[..|anchors|] == anchors;
  }

  lemma {:induction false} StatusComplete(db: Db, anchorId: int, status: Status)
    requires Inv(db) && Complete(db) && IsPending(db, anchorId) && !status.Pending?
    ensures Complete(SetStatus(db, anchorId, status).value)
  {
    hide TablesOk, LastAnchored;
    var at := anchorId - 1;
    var a, table := db.anchors[at], SetStatus(db, anchorId, status).value.anchors;
    LastAnchoredSet(db.anchors, at, status);
    assert Live(a) && Seals(a, db.hashes);
    assert 1 <= a.first <= a.last;
    hide Seals;
    forall i | 0 <= i < |table| ensures !table[i].status.Pending? {
      assert i > at ==> !Live(db.anchors[i]);
    }
    forall id | 1 <= id <= LastAnchored(table) ensures Confirms(table, id) {
      if id <= LastAnchored(db.anchors) {
        assert Confirms(db.anchors, id);
        var i :| 0 <= i < |db.anchors| && Covers(db.anchors[i], id);
        assert table[i] == db.anchors[i];
      } else {
        assert Covers(table[at], id);
      }
    }
  }

  /** An honest prepare finds no gap, and its anchor starts right after the last confirmed one. */
  lemma {:induction false} PrepareIsContiguous(db: Db)
    requires Inv(db) && Untampered(db) && Complete(db) && !HasPending(db.anchors)
    ensures Prepare(db).Ok?
    ensures var t, la := Prepare(db).value.anchors, LastAnchored(db.anchors);
      if |db.hashes| <= la then t == db.anchors
      else |t| == |db.anchors| + 1 && t[..|db.anchors|] == db.anchors && t[|db.anchors|].status.Pending?
           && t[|db.anchors|].first == la + 1 && t[|db.anchors|].last == |db.hashes|
  {
    hide Inv, Untampered, Complete, Root, LastAnchored, HasPending, Select, Entries;
    HashesAreCounted(db);
    var la, n := LastAnchored(db.anchors), |db.hashes|;
    assert la >= 0 by { LastAnchoredIsMax(db.anchors); }
    CountedSelect(db.hashes, la + 1, TWO_63 - 1);
    if la < n {
      var hashed := db.hashes[la..];
      assert hashed[0] == db.hashes[la] && hashed[|hashed| - 1] == db.hashes[n - 1];
    }
  }

  lemma {:induction false} HashesAreCounted(db: Db)
    requires Inv(db) && Untampered(db) && Complete(db)
    ensures |db.hashes| <= TWO_63 - 1 && forall k :: 0 <= k < |db.hashes| ==> db.hashes[k].id == k + 1
  {
    hide EntryHash, LastAnchored, AnchorsOk, Chained, Confirms;
  }

  /** Hashes numbered from one, from an id on. */
  lemma {:induction false} CountedSelect(hs: seq<Hashed>, lo: int, hi: int)
    requires lo >= 1 && |hs| <= hi && forall k :: 0 <= k < |hs| ==> hs[k].id == k + 1
    ensures Select(hs, lo, hi) == if lo <= |hs| then hs[lo - 1..] else []
  {
    if hs != [] {
      var n := |hs| - 1;
      CountedSelect(hs[..n], lo, hi);
      if lo <= n {
        assert hs[lo - 1..] == hs[..n][lo - 1..] + [hs[n]];
      } else if lo == n + 1 {
        assert hs[lo - 1..] == [hs[n]];
      }
    }
  }

  lemma {:induction false} PrepareWritesAnchors(db: Db)
    requires Prepare(db).Ok?
    ensures Prepare(db).value == db.(anchors := Prepare(db).value.anchors)
  {}

  lemma {:induction false} PrepareComplete(db: Db)
    requires Inv(db) && Untampered(db) && Complete(db) && !HasPending(db.anchors)
    ensures Prepare(db).Ok? && Complete(Prepare(db).value)
  {
    hide Inv, Untampered, LastAnchored, Prepare, EntryHash;
    PrepareIsContiguous(db);
    var t := Prepare(db).value;
    assert t == db.(anchors := t.anchors) by { PrepareWritesAnchors(db); }
    if t.anchors != db.anchors {
      var a := t.anchors[|db.anchors|];
      assert t.anchors == db.anchors + [a];
      LastAnchoredPending(db.anchors, a);
      forall id | 1 <= id <= LastAnchored(t.anchors) ensures Confirms(t.anchors, id) {
        assert Confirms(db.anchors, id);
        var i :| 0 <= i < |db.anchors| && Covers(db.anchors[i], id);
        assert t.anchors[i] == db.anchors[i];
      }
    }
  }

  /** The state of an honest run. */
  ghost predicate Sound(db: Db) { Inv(db) && Untampered(db) && Complete(db) }

  /** What the rows and the anchors need does not depend on the hashes. */
  lemma {:induction false} RowsComplete(db: Db, t: Db)
    requires Complete(db) && t.anchors == db.anchors
    requires if t.nextId == db.nextId then t.ledger == db.ledger
      else exists row: Row :: row.id == db.nextId && t.ledger == db.ledger + [row] && t.nextId == db.nextId + 1
    ensures Complete(t)
  {
    hide LastAnchored, Confirms;
  }

  lemma {:induction false} HonestStepComplete(db: Db, op: Op)
    requires Sound(db) && Honest(op)
    ensures Complete(Step(db, op))
  {
    hide Complete, Inv, Untampered, Prepare, LastAnchored;
    match op
    case Append(_, _, _, _, _, _) => RowsComplete(db, Step(db, op));
    case DoBackfill => RowsComplete(db, Step(db, op));
    case DoPrepare => if HasPending(db.anchors) { PendingRefused(db); } else { PrepareComplete(db); }
    case Confirm(anchorId, signature) =>
      if IsPending(db, anchorId) { StatusComplete(db, anchorId, Confirmed(signature)); }
    case Abandon(anchorId) => if IsPending(db, anchorId) { StatusComplete(db, anchorId, Abandoned); }
  }

  lemma {:induction false} PendingRefused(db: Db)
    requires HasPending(db.anchors)
    ensures Prepare(db) == Err(PendingExists)
  {}

  lemma {:induction false} HonestStepSound(db: Db, op: Op)
    requires Sound(db) && Honest(op)
    ensures Sound(Step(db, op))
  {
    hide Inv, Untampered, Complete, Step;
    StepKeeps(db, op);
    HonestStep(db, op);
    HonestStepComplete(db, op);
  }

  lemma {:induction false} HonestRunsAreSound(ops: seq<Op>)
    requires forall op :: op in ops ==> Honest(op)
    ensures Sound(Run(EMPTY, ops))
  {
    hide Step, Sound;
    if ops == [] {
      EmptyIsSound();
    } else {
      var init := ops[..|ops| - 1];
      assert forall op :: op in init ==> op in ops;
      HonestRunsAreSound(init);
      HonestStepSound(Run(EMPTY, init), ops[|ops| - 1]);
    }
  }

  lemma {:induction false} EmptyIsSound()
    ensures Sound(EMPTY)
  {}

  lemma {:induction false} AnchoredIsProved(db: Db, k: nat)
    requires Sound(db) && k < |db.ledger| == |db.hashes| <= LastAnchored(db.anchors)
    ensures Proved(db, db.ledger[k])
  {
    hide EntryHash, Proved, ProveInclusion, FindRow, FindAnchor, FindHash, LastAnchored, AnchorsOk, Chained;
    var row, id := db.ledger[k], k + 1;
    assert Confirms(db.anchors, id);
    FindAnchorFacts(db.anchors, id);
    FindRowFacts(db.ledger, id);
    assert row in db.ledger && row.id == id;
    assert FindRow(db.ledger, id) == Some(row);
    FindHashFacts(db.hashes, db.hashes[k]);
    InclusionIsExact(db, id);
  }

  /** Backfill, prepare and confirm after an honest run without a pending anchor seal every row. */
  lemma {:induction false} SealingSeals(db: Db, signature: string)
    requires Sound(db) && !HasPending(db.anchors)
    ensures var end := Step(Step(Step(db, DoBackfill), DoPrepare), Confirm(|db.anchors| + 1, signature));
      Sound(end) && end.ledger == db.ledger && |end.hashes| == |end.ledger| <= LastAnchored(end.anchors)
  {
    hide Inv, Untampered, Complete, Prepare, LastAnchored, HasPending, SetStatus;
    var filled := Step(db, DoBackfill);
    BackfillUntampered(db);
    HonestStepSound(db, DoBackfill);
    assert filled.anchors == db.anchors && filled.ledger == db.ledger;
    hide Sound, Step, Backfill;
    SealingPrepares(filled, signature);
  }

  lemma {:induction false} SealingPrepares(db: Db, signature: string)
    requires Sound(db) && !HasPending(db.anchors) && |db.hashes| == |db.ledger|
    ensures var end := Step(Step(db, DoPrepare), Confirm(|db.anchors| + 1, signature));
      Sound(end) && end.ledger == db.ledger && |end.hashes| == |end.ledger| <= LastAnchored(end.anchors)
  {
    hide Sound, Prepare, LastAnchored;
    assert Inv(db) && Untampered(db) && Complete(db) by { SoundIs(db); }
    hide Inv, Untampered, Complete;
    PrepareIsContiguous(db);
    PrepareWritesAnchors(db);
    HonestStepSound(db, DoPrepare);
    var prepared, n := Prepare(db).value, |db.anchors|;
    HonestStepSound(prepared, Confirm(n + 1, signature));
    if |db.hashes| > LastAnchored(db.anchors) {
      LastAnchoredSet(prepared.anchors, n, Confirmed(signature));
    }
  }

  lemma {:induction false} SoundIs(db: Db)
    requires Sound(db)
    ensures Inv(db) && Untampered(db) && Complete(db)
  {}

  /** After any honest run that leaves no anchor pending, a backfill, a prepare and a confirm leave every ledger row proved. */
  lemma {:induction false} EveryRowIsProved(ops: seq<Op>, signature: string)
    requires forall op :: op in ops ==> Honest(op)
    requires !HasPending(Run(EMPTY, ops).anchors)
    ensures var db := Run(EMPTY, ops);
      var end := Run(EMPTY, ops + [DoBackfill, DoPrepare, Confirm(|db.anchors| + 1, signature)]);
      end.ledger == db.ledger && forall row :: row in db.ledger ==> Proved(end, row)
  {
    var db, n := Run(EMPTY, ops), |ops|;
    var all := ops + [DoBackfill, DoPrepare, Confirm(|db.anchors| + 1, signature)];
    hide Step, Sound, Run, Proved, LastAnchored, HasPending;
    HonestRunsAreSound(ops);
    assert all[..n] == ops && all[..n + 3] == all;
    RunSnoc(EMPTY, all, n);
    RunSnoc(EMPTY, all, n + 1);
    RunSnoc(EMPTY, all, n + 2);
    SealingSeals(db, signature);
    var end := Run(EMPTY, all);
    forall row | row in db.ledger ensures Proved(end, row) {
      var k :| 0 <= k < |db.ledger| && db.ledger[k] == row;
      AnchoredIsProved(end, k);
    }
  }

  /** Only a pending anchor can be confirmed or abandoned, and nothing else in the tables changes. */
  ghost predicate OnlyStatus(t: Db, db: Db, at: nat, status: Status) {
    && t.ledger == db.ledger && t.nextId == db.nextId && t.hashes == db.hashes && |t.anchors| == |db.anchors|
    && forall i :: 0 <= i < |db.anchors| ==>
      t.anchors[i] == if i == at then db.anchors[i].(status := status) else db.anchors[i]
  }

  /** Both answers of confirm and abandon, by the anchor with that id; and what was decided is not decided again. */
  lemma {:induction false} DecidedOnce(db: Db, anchorId: int, status: Status, again: Status)
    requires !status.Pending?
    ensures (SetStatus(db, anchorId, status) == Err(NotPending)) <==>
      (forall i :: 0 <= i < |db.anchors| && i + 1 == anchorId ==> db.anchors[i].status != Pending)
    ensures SetStatus(db, anchorId, status).Ok? ==>
      && anchorId >= 1 && OnlyStatus(SetStatus(db, anchorId, status).value, db, anchorId - 1, status)
      && SetStatus(SetStatus(db, anchorId, status).value, anchorId, again) == Err(NotPending)
  {
    if IsPending(db, anchorId) {
      assert db.anchors[anchorId - 1].status == Pending;
    }
  }
}
