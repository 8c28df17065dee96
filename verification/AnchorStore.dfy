/** The anchoring functions as the gateway runs them, updating their tables in place. */
module AnchorStore {
  import opened Prelude
  import opened Merkle
  import opened Encoding
  import opened Anchors

  class Store {
    var ledger: seq<Row>
    var nextId: int
    var hashes: seq<Hashed>
    var anchors: seq<Anchor>

    ghost function Tables(): Db
      reads this
    {
      Db(ledger, nextId, hashes, anchors)
    }

    constructor ()
      ensures Inv(Tables()) && Untampered(Tables())
      ensures Tables() == Db([], 1, [], [])
    {
      ledger, nextId, hashes, anchors := [], 1, [], [];
    }

    /** Extends the chain over every row that has no hash yet. */
    method BackfillEntryHashes() returns (count: nat)
      modifies this`hashes
      ensures Tables() == Backfill(old(Tables()))
      ensures count == |Unhashed(ledger, old(hashes))|
    {
      hide EntryHash;
      var rows := Unhashed(ledger, hashes);
      var prev := LastChain(hashes);
      count := |rows|;
      for i := 0 to |rows|
        invariant prev == LastChain(hashes)
        invariant HashRows(hashes, rows[i..]) == HashRows(old(hashes), rows)
      {
        assert rows[i..][0] == rows[i] && rows[i..][1..] == rows[i + 1..];
        var entry := EntryHash(rows[i]);
        var chain := Chain(prev, entry);
        hashes := hashes + [Hashed(rows[i].id, entry, chain)];
        prev := chain;
      }
    }

    /** Returns whether there was anything to anchor. */
    method PrepareAnchor() returns (r: Result<bool, Error>)
      modifies this`hashes, this`anchors
      ensures var db := Backfill(old(Tables()));
        match Prepare(db)
        case Err(e) => r == Err(e) && Tables() == db
        case Ok(db') => Tables() == db' && r == Ok(db' != db)
    {
      var _ := BackfillEntryHashes();
      if exists i :: 0 <= i < |anchors| && anchors[i].status.Pending? {
        return Err(PendingExists);
      }
      var hashed := Select(hashes, LastAnchored(anchors) + 1, TWO_63 - 1);
      if hashed == [] {
        return Ok(false);
      }
      var first, last := hashed[0].id, hashed[|hashed| - 1].id;
      if last - first + 1 != |hashed| {
        return Err(Gap);
      }
      var root := MerkleRoot(Entries(hashed));
      anchors := anchors + [Anchor(first, last, |hashed|, root, hashed[|hashed| - 1].chain, Pending)];
      return Ok(true);
    }

    method ConfirmAnchor(anchorId: int, signature: string) returns (r: Result<(), Error>)
      modifies this`anchors
      ensures match SetStatus(old(Tables()), anchorId, Confirmed(signature))
        case Err(e) => r == Err(e) && Tables() == old(Tables())
        case Ok(db) => r == Ok(()) && Tables() == db
    {
      r := UpdateStatus(anchorId, Confirmed(signature));
    }

    method AbandonAnchor(anchorId: int) returns (r: Result<(), Error>)
      modifies this`anchors
      ensures match SetStatus(old(Tables()), anchorId, Abandoned)
        case Err(e) => r == Err(e) && Tables() == old(Tables())
        case Ok(db) => r == Ok(()) && Tables() == db
    {
      r := UpdateStatus(anchorId, Abandoned);
    }

    method UpdateStatus(anchorId: int, status: Status) returns (r: Result<(), Error>)
      modifies this`anchors
      ensures match SetStatus(old(Tables()), anchorId, status)
        case Err(e) => r == Err(e) && Tables() == old(Tables())
        case Ok(db) => r == Ok(()) && Tables() == db
    {
      if 1 <= anchorId <= |anchors| && anchors[anchorId - 1].status.Pending? {
        anchors := anchors[anchorId - 1 := anchors[anchorId - 1].(status := status)];
        return Ok(());
      }
      return Err(NotPending);
    }

    method InclusionProof(id: int) returns (r: Result<Option<Inclusion>, Error>)
      modifies this`hashes
      ensures Tables() == Backfill(old(Tables())) && r == ProveInclusion(Tables(), id)
    {
      hide EntryHash;
      var _ := BackfillEntryHashes();
      var row := FindRow(ledger, id);
      if row.None? {
        return Ok(None);
      }
      var anchor := FindAnchor(anchors, id);
      if anchor.None? {
        return Ok(None);
      }
      var hashed := Select(hashes, anchor.value.first, anchor.value.last);
      var position := id - anchor.value.first;
      if position < 0 || position >= |hashed| {
        return Err(OutsideRange);
      }
      var proof := MerkleProof(Entries(hashed), position);
      if EntryHash(row.value) != hashed[position].entry {
        return Err(HashMismatch);
      }
      return Ok(Some(Inclusion(row.value, hashed[position].entry, hashed[position].chain, proof, anchor.value)));
    }
  }
}
