/** The canonical binary encoding of a ledger row, its entry hash, and the hash chain. */
module Encoding {
  import opened Prelude
  import opened Binary
  import opened Merkle

  const TWO_63: int := 0x8000_0000_0000_0000

  type Int64 = x: int | -TWO_63 <= x < TWO_63

  /** A ledger row; strings are their UTF-8 bytes. */
  datatype Row = Row(id: Int64, device: Bytes, kind: Bytes, amount: Int64, timestamp: Int64,
                     request: Option<Bytes>, note: Option<Bytes>)

  /** "TEALE-LEDGER-V1" */
  const TAG: Bytes := [84, 69, 65, 76, 69, 45, 76, 69, 68, 71, 69, 82, 45, 86, 49]

  /** Two's complement. */
  function Int64Bytes(x: Int64): (b: Bytes)
    ensures |b| == 8
  {
    LittleEndian(if x < 0 then x + TWO_64 else x, 8)
  }

  /** The length is cast to 32 bits, whatever it is. */
  function LengthPrefixed(s: Bytes): Bytes {
    LittleEndian(|s| % TWO_32, 4) + s
  }

  function OrEmpty(s: Option<Bytes>): Bytes {
    match s case None => [] case Some(v) => v
  }

  function Strings(row: Row): Bytes {
    LengthPrefixed(row.device)
    + (LengthPrefixed(row.kind)
       + (LengthPrefixed(OrEmpty(row.request)) + LengthPrefixed(OrEmpty(row.note))))
  }

  function Encode(row: Row): Bytes {
    TAG + Int64Bytes(row.id) + Int64Bytes(row.timestamp) + Int64Bytes(row.amount) + Strings(row)
  }

  function EntryHash(row: Row): Digest {
    Entry(Encode(row))
  }

  /** Rows a verifier cannot tell apart: a null string encodes like an empty one. */
  predicate SameContent(a: Row, b: Row) {
    && a.id == b.id && a.timestamp == b.timestamp && a.amount == b.amount
    && a.device == b.device && a.kind == b.kind
    && OrEmpty(a.request) == OrEmpty(b.request) && OrEmpty(a.note) == OrEmpty(b.note)
  }

  predicate Shorter(row: Row, n: nat) {
    |row.device| < n && |row.kind| < n && |OrEmpty(row.request)| < n && |OrEmpty(row.note)| < n
  }

  predicate ShortStrings(row: Row) { Shorter(row, TWO_32) }

  // ---- what a verifier reads back ----

  /** An eight-byte number at an offset, read as two's complement. */
  ghost predicate NumberAt(b: Bytes, at: nat, x: Int64) {
    at + 8 <= |b| && FromLittleEndian(b[at..at + 8]) == if x >= 0 then x else 0x1_0000_0000_0000_0000 + x
  }

  /** A string at an offset, behind its four-byte length. */
  ghost predicate StringAt(b: Bytes, at: nat, s: Bytes) {
    && at + 4 + |s| <= |b| && FromLittleEndian(b[at..at + 4]) == |s| && b[at + 4..at + 4 + |s|] == s
  }

  lemma {:induction false} PartAt(a: Bytes, part: Bytes, c: Bytes)
    ensures (a + part + c)[|a|..|a| + |part|] == part
  {}

  lemma {:induction false} NumberReads(a: Bytes, x: Int64, c: Bytes)
    ensures NumberAt(a + Int64Bytes(x) + c, |a|, x)
  {
    hide LittleEndian, FromLittleEndian, Pow256;
    Widths();
    Decoded(if x < 0 then x + TWO_64 else x, 8);
    PartAt(a, Int64Bytes(x), c);
  }

  lemma {:induction false} StringReads(a: Bytes, s: Bytes, c: Bytes)
    requires |s| < TWO_32
    ensures StringAt(a + LengthPrefixed(s) + c, |a|, s)
  {
    hide LittleEndian, FromLittleEndian, Pow256;
    Widths();
    var p := LittleEndian(|s|, 4);
    Decoded(|s|, 4);
    var b := a + LengthPrefixed(s) + c;
    assert b == a + p + (s + c) && b == (a + p) + s + c;
    PartAt(a, p, s + c);
    PartAt(a + p, s, c);
  }

  /** The documented layout: the tag, id, timestamp and amount at fixed offsets, then the four strings one after the other. */
  lemma {:induction false} EncodedLayout(row: Row)
    requires ShortStrings(row)
    ensures var b, d := Encode(row), 39 + 4 + |row.device|;
      var k := d + 4 + |row.kind|;
      var r := k + 4 + |OrEmpty(row.request)|;
      && |b| == r + 4 + |OrEmpty(row.note)|
      && b[..15] == [84, 69, 65, 76, 69, 45, 76, 69, 68, 71, 69, 82, 45, 86, 49]
      && NumberAt(b, 15, row.id) && NumberAt(b, 23, row.timestamp) && NumberAt(b, 31, row.amount)
      && StringAt(b, 39, row.device) && StringAt(b, d, row.kind)
      && StringAt(b, k, OrEmpty(row.request)) && StringAt(b, r, OrEmpty(row.note))
  {
    hide LittleEndian, FromLittleEndian, Int64Bytes, LengthPrefixed, NumberAt, StringAt;
    var b := Encode(row);
    var i, t, a, ss := Int64Bytes(row.id), Int64Bytes(row.timestamp), Int64Bytes(row.amount), Strings(row);
    assert b[..15] == TAG;
    assert b == TAG + i + (t + a + ss) && b == (TAG + i) + t + (a + ss) && b == (TAG + i + t) + a + ss;
    NumberReads(TAG, row.id, t + a + ss);
    NumberReads(TAG + i, row.timestamp, a + ss);
    NumberReads(TAG + i + t, row.amount, ss);
    StringsRead(TAG + i + t + a, row);
  }

  /** Reading one string leaves the rest behind it. */
  lemma {:induction false} NextString(h: Bytes, s: Bytes, rest: Bytes)
    requires |s| < TWO_32
    ensures var b, h' := h + (LengthPrefixed(s) + rest), h + LengthPrefixed(s);
      StringAt(b, |h|, s) && b == h' + rest && |h'| == |h| + 4 + |s|
  {
    StringReads(h, s, rest);
    assert h + (LengthPrefixed(s) + rest) == h + LengthPrefixed(s) + rest;
  }

  lemma {:induction false} StringsRead(h: Bytes, row: Row)
    requires ShortStrings(row)
    ensures var b, d := h + Strings(row), |h| + 4 + |row.device|;
      var k := d + 4 + |row.kind|;
      var r := k + 4 + |OrEmpty(row.request)|;
      && |b| == r + 4 + |OrEmpty(row.note)|
      && StringAt(b, |h|, row.device) && StringAt(b, d, row.kind)
      && StringAt(b, k, OrEmpty(row.request)) && StringAt(b, r, OrEmpty(row.note))
  {
    hide LengthPrefixed, StringAt, OrEmpty;
    var q, n := OrEmpty(row.request), OrEmpty(row.note);
    var x, y, z, w := LengthPrefixed(row.device), LengthPrefixed(row.kind), LengthPrefixed(q), LengthPrefixed(n);
    NextString(h, row.device, y + (z + w));
    NextString(h + x, row.kind, z + w);
    NextString(h + x + y, q, w);
    assert w + [] == w;
    NextString(h + x + y + z, n, []);
  }

  // ---- injectivity ----

  lemma {:induction false} Int64Injective(x: Int64, y: Int64)
    requires Int64Bytes(x) == Int64Bytes(y)
    ensures x == y
  {
    Widths();
    LittleEndianInjective(if x < 0 then x + TWO_64 else x, if y < 0 then y + TWO_64 else y, 8);
  }

  /** Equal concatenations whose first parts have one length agree part by part. */
  lemma {:induction false} Peel(a: Bytes, b: Bytes, x: Bytes, y: Bytes)
    requires |a| == |b| && a + x == b + y
    ensures a == b && x == y
  {
    assert a == (a + x)[..|a|] && b == (b + y)[..|a|];
    assert x == (a + x)[|a|..] && y == (b + y)[|a|..];
  }

  /** A length prefix shows where its string ends. */
  lemma {:induction false} PeelString(s: Bytes, t: Bytes, x: Bytes, y: Bytes)
    requires |s| < TWO_32 && |t| < TWO_32 && LengthPrefixed(s) + x == LengthPrefixed(t) + y
    ensures s == t && x == y
  {
    hide LittleEndian, Pow256;
    var p, q := LittleEndian(|s|, 4), LittleEndian(|t|, 4);
    assert LengthPrefixed(s) + x == p + (s + x) && LengthPrefixed(t) + y == q + (t + y);
    Peel(p, q, s + x, t + y);
    assert |s| < Pow256(4) && |t| < Pow256(4) by { Widths(); }
    LittleEndianInjective(|s|, |t|, 4);
    Peel(s, t, x, y);
  }

  lemma {:induction false} NumbersPeel(a: Row, b: Row)
    requires Encode(a) == Encode(b)
    ensures a.id == b.id && a.timestamp == b.timestamp && a.amount == b.amount && Strings(a) == Strings(b)
  {
    var ha, hb := TAG + Int64Bytes(a.id) + Int64Bytes(a.timestamp), TAG + Int64Bytes(b.id) + Int64Bytes(b.timestamp);
    Peel(ha + Int64Bytes(a.amount), hb + Int64Bytes(b.amount), Strings(a), Strings(b));
    Peel(ha, hb, Int64Bytes(a.amount), Int64Bytes(b.amount));
    Peel(TAG + Int64Bytes(a.id), TAG + Int64Bytes(b.id), Int64Bytes(a.timestamp), Int64Bytes(b.timestamp));
    Peel(TAG, TAG, Int64Bytes(a.id), Int64Bytes(b.id));
    Int64Injective(a.id, b.id);
    Int64Injective(a.timestamp, b.timestamp);
    Int64Injective(a.amount, b.amount);
  }

  lemma {:induction false} StringsPeel(a: Row, b: Row)
    requires ShortStrings(a) && ShortStrings(b) && Strings(a) == Strings(b)
    ensures a.device == b.device && a.kind == b.kind
    ensures OrEmpty(a.request) == OrEmpty(b.request) && OrEmpty(a.note) == OrEmpty(b.note)
  {
    var la, lb := LengthPrefixed(OrEmpty(a.note)), LengthPrefixed(OrEmpty(b.note));
    var ma, mb := LengthPrefixed(OrEmpty(a.request)) + la, LengthPrefixed(OrEmpty(b.request)) + lb;
    PeelString(a.device, b.device, LengthPrefixed(a.kind) + ma, LengthPrefixed(b.kind) + mb);
    PeelString(a.kind, b.kind, ma, mb);
    PeelString(OrEmpty(a.request), OrEmpty(b.request), la, lb);
    assert la + [] == la && lb + [] == lb;
    PeelString(OrEmpty(a.note), OrEmpty(b.note), [], []);
  }

  /** Two rows have one entry hash exactly when they differ at most in null versus empty strings. */
  lemma {:induction false} EntryHashBindsRow(a: Row, b: Row)
    requires ShortStrings(a) && ShortStrings(b)
    ensures EntryHash(a) == EntryHash(b) <==> SameContent(a, b)
  {
    if Encode(a) == Encode(b) {
      NumbersPeel(a, b);
      StringsPeel(a, b);
    }
  }

  /** The bound on lengths is needed: at 2^32 bytes the cast length wraps and different rows collide. */
  lemma {:induction false} LongStringsCollide(zeros: Bytes)
    requires |zeros| == TWO_32 && forall i :: 0 <= i < |zeros| ==> zeros[i] == 0
    ensures var a, b := Row(1, zeros, [], 5, 7, None, None), Row(1, [], [], 5, 7, None, Some(zeros));
      EntryHash(a) == EntryHash(b) && !SameContent(a, b)
  {
    ZeroStrings(zeros);
    hide Strings, Int64Bytes;
  }

  lemma {:induction false} ZeroStrings(zeros: Bytes)
    requires |zeros| == TWO_32 && forall i :: 0 <= i < |zeros| ==> zeros[i] == 0
    ensures Strings(Row(1, zeros, [], 5, 7, None, None)) == Strings(Row(1, [], [], 5, 7, None, Some(zeros)))
  {
    var none: Bytes := [0, 0, 0, 0];
    assert LittleEndian(0, 4) == none;
    assert LengthPrefixed([]) == none && LengthPrefixed(zeros) == none + zeros;
    hide LittleEndian, LengthPrefixed;
    var x, y := none + zeros + (none + (none + none)), none + (none + (none + (none + zeros)));
    assert Strings(Row(1, zeros, [], 5, 7, None, None)) == x && Strings(Row(1, [], [], 5, 7, None, Some(zeros))) == y;
    AllZeros(x, y);
  }

  lemma {:induction false} AllZeros(x: Bytes, y: Bytes)
    requires |x| == |y| && (forall i :: 0 <= i < |x| ==> x[i] == 0) && (forall i :: 0 <= i < |y| ==> y[i] == 0)
    ensures x == y
  {}

  /** Entry hashes tell rows apart whose strings are shorter than n bytes. */
  ghost predicate BindsBelow(n: nat) {
    forall a, b :: Shorter(a, n) && Shorter(b, n) ==> (EntryHash(a) == EntryHash(b) <==> SameContent(a, b))
  }

  /** 2^32 is the exact bound. */
  lemma {:induction false} BindsExactlyBelow(n: nat)
    ensures BindsBelow(n) <==> n <= TWO_32
  {
    hide EntryHash, SameContent;
    if n <= TWO_32 {
      forall a, b | Shorter(a, n) && Shorter(b, n) ensures EntryHash(a) == EntryHash(b) <==> SameContent(a, b) {
        EntryHashBindsRow(a, b);
      }
    } else {
      var zeros: Bytes := seq(TWO_32, i => 0);
      LongStringsCollide(zeros);
      var a, b := Row(1, zeros, [], 5, 7, None, None), Row(1, [], [], 5, 7, None, Some(zeros));
      assert Shorter(a, n) && Shorter(b, n);
    }
  }

  /** A null string and an empty one are not told apart. */
  lemma {:induction false} NullIsEmpty(row: Row)
    ensures EntryHash(row.(note := None)) == EntryHash(row.(note := Some([])))
    ensures EntryHash(row.(request := None)) == EntryHash(row.(request := Some([])))
  {}

  // ---- the chain ----

  /** The chain hash after the given entries, from 32 zero bytes. */
  function ChainTip(entries: seq<Digest>): Digest {
    if entries == [] then Zero
    else Chain(ChainTip(entries[..|entries| - 1]), entries[|entries| - 1])
  }

  function EntryHashes(rows: seq<Row>): (es: seq<Digest>)
    ensures |es| == |rows| && forall i :: 0 <= i < |rows| ==> es[i] == EntryHash(rows[i])
  {
    seq(|rows|, i requires 0 <= i < |rows| => EntryHash(rows[i]))
  }

  lemma {:induction false} TipBindsEntries(a: seq<Digest>, b: seq<Digest>)
    requires ChainTip(a) == ChainTip(b)
    ensures a == b
  {
    if a != [] && b != [] {
      TipBindsEntries(a[..|a| - 1], b[..|b| - 1]);
      assert a == a[..|a| - 1] + [a[|a| - 1]] && b == b[..|b| - 1] + [b[|b| - 1]];
    }
  }

  /** A chain tip fixes the whole history: how many rows, in which order, and each one's content. */
  lemma {:induction false} TipBindsHistory(a: seq<Row>, b: seq<Row>)
    requires forall r :: r in a ==> ShortStrings(r)
    requires forall r :: r in b ==> ShortStrings(r)
    ensures ChainTip(EntryHashes(a)) == ChainTip(EntryHashes(b))
       <==> |a| == |b| && forall i :: 0 <= i < |a| ==> SameContent(a[i], b[i])
  {
    if ChainTip(EntryHashes(a)) == ChainTip(EntryHashes(b)) {
      TipBindsEntries(EntryHashes(a), EntryHashes(b));
      forall i | 0 <= i < |a| ensures SameContent(a[i], b[i]) {
        assert EntryHashes(a)[i] == EntryHashes(b)[i];
        EntryHashBindsRow(a[i], b[i]);
      }
    }
    if |a| == |b| && forall i :: 0 <= i < |a| ==> SameContent(a[i], b[i]) {
      assert EntryHashes(a) == EntryHashes(b);
    }
  }
}
