/** The header's directory of metadata and tensors, and the files whose header and tensor layout are accepted. */
module GgufDirectory {
  import opened Prelude
  import opened Binary
  import opened Gguf
  import opened GgufLayout

  // ---- metadata entries ----

  datatype Entry = Entry(name: Bytes, value: Value)

  const ARCHITECTURE := Ascii("general.architecture")
  const ALIGNMENT := Ascii("general.alignment")
  const LLAMA := Ascii("llama.")
  const SPLIT := Ascii("split.")

  /** The keys whose strings are kept. */
  predicate Retained(name: Bytes) {
    name == ARCHITECTURE || name == ALIGNMENT || LLAMA <= name || SPLIT <= name
  }

  predicate EntryOk(e: Entry) { TextOk(e.name, true) && ValueOk(e.value, Retained(e.name)) }

  predicate KeyTaken(es: seq<Entry>, name: Bytes) { exists i :: 0 <= i < |es| && es[i].name == name }

  function PutEntry(e: Entry, rest: Bytes): Bytes {
    PutText(e.name, PutU32(Type(e.value), PutValue(e.value, rest)))
  }

  function PutEntries(es: seq<Entry>, i: nat, rest: Bytes): Bytes
    requires i <= |es|
    decreases |es| - i
  {
    if i == |es| then rest else PutEntry(es[i], PutEntries(es, i + 1, rest))
  }

  function ReadEntry(s: Bytes, seen: seq<Entry>): (r: Read<Entry>)
    ensures r.Ok? ==> |r.value.1| <= |s|
  {
    var (name, s1) :- ReadText(s, true);
    if KeyTaken(seen, name) then Err(DuplicateKey)
    else
      var (kind, s2) :- ReadU32(s1);
      var (v, s3) :- ReadValue(s2, kind, Retained(name), 0);
      Ok((Entry(name, v), s3))
  }

  /** n more entries after those in done. */
  function ReadEntries(s: Bytes, n: nat, done: seq<Entry>): (r: Read<seq<Entry>>)
    ensures r.Ok? ==> |r.value.1| <= |s|
    decreases n
  {
    if n == 0 then Ok((done, s))
    else
      var (e, s1) :- ReadEntry(s, done);
      ReadEntries(s1, n - 1, done + [e])
  }

  lemma {:induction false} TypeFits(v: Value, retain: bool)
    requires ValueOk(v, retain)
    ensures Type(v) < TWO_32
  {}

  lemma {:induction false} EntryRoundTrip(s: Bytes, seen: seq<Entry>, e: Entry, rest: Bytes)
    ensures ReadEntry(s, seen) == Ok((e, rest)) <==> EntryOk(e) && !KeyTaken(seen, e.name) && s == PutEntry(e, rest)
  {
    hide ReadText, ReadU32, ReadValue, PutText, PutU32, PutValue, TextOk, ValueOk, Type, Retained, KeyTaken;
    if ReadEntry(s, seen) == Ok((e, rest)) {
      var (name, s1) := ReadText(s, true).value;
      var (kind, s2) := ReadU32(s1).value;
      var (v, s3) := ReadValue(s2, kind, Retained(name), 0).value;
      assert e == Entry(name, v) && rest == s3;
      TextRoundTrip(s, true, name, s1);
      U32RoundTrip(s1, kind, s2);
      ValueRoundTrip(s2, kind, Retained(name), 0, v, s3);
    }
    if EntryOk(e) && !KeyTaken(seen, e.name) && s == PutEntry(e, rest) {
      var s2 := PutValue(e.value, rest);
      TypeFits(e.value, Retained(e.name));
      var s1 := PutU32(Type(e.value), s2);
      TextRoundTrip(s, true, e.name, s1);
      U32RoundTrip(s1, Type(e.value), s2);
      ValueRoundTrip(s2, Type(e.value), Retained(e.name), 0, e.value, rest);
    }
  }

  ghost predicate EntriesOk(es: seq<Entry>, from: nat) {
    forall i :: from <= i < |es| ==> EntryOk(es[i]) && !KeyTaken(es[..i], es[i].name)
  }

  lemma {:induction false} EntriesRoundTrip(s: Bytes, n: nat, done: seq<Entry>, es: seq<Entry>, rest: Bytes)
    ensures ReadEntries(s, n, done) == Ok((es, rest))
       <==> |es| == |done| + n && done <= es && EntriesOk(es, |done|) && s == PutEntries(es, |done|, rest)
    decreases n
  {
    hide ReadEntry, PutEntry, EntryOk, KeyTaken;
    var k := |done|;
    if n == 0 {
      assert |es| == k && done <= es <==> es == done;
    } else {
      if ReadEntries(s, n, done) == Ok((es, rest)) {
        var (e, s1) := ReadEntry(s, done).value;
        EntryRoundTrip(s, done, e, s1);
        EntriesRoundTrip(s1, n - 1, done + [e], es, rest);
        assert es[k] == e && es[..k] == done;
      }
      if |es| == k + n && done <= es && EntriesOk(es, k) && s == PutEntries(es, k, rest) {
        var s1 := PutEntries(es, k + 1, rest);
        assert es[..k] == done;
        EntryRoundTrip(s, done, es[k], s1);
        EntriesRoundTrip(s1, n - 1, done + [es[k]], es, rest);
      }
    }
  }

  // ---- tensors ----

  datatype Tensor = Tensor(name: Bytes, dimensions: seq<nat>, encoding: nat, offset: nat, bytes: nat)

  function Product(ds: seq<nat>): nat {
    if ds == [] then 1 else Product(ds[..|ds| - 1]) * ds[|ds| - 1]
  }

  /** Elements per block and bytes per block. */
  function Blocks(encoding: nat): Option<(nat, nat)> {
    match encoding
    case 0 => Some((1, 4))
    case 1 => Some((1, 2))
    case 2 => Some((32, 18))
    case 3 => Some((32, 20))
    case 6 => Some((32, 22))
    case 7 => Some((32, 24))
    case 8 => Some((32, 34))
    case 10 => Some((256, 84))
    case 11 => Some((256, 110))
    case 12 => Some((256, 144))
    case 13 => Some((256, 176))
    case 14 => Some((256, 210))
    case 15 => Some((256, 292))
    case 30 => Some((1, 2))
    case _ => None
  }

  predicate DimensionsOk(ds: seq<nat>, from: nat) {
    forall i :: from <= i < |ds| ==> 0 < ds[i] < TWO_64
  }

  function PutDimensions(ds: seq<nat>, i: nat, rest: Bytes): Bytes
    requires i <= |ds|
    decreases |ds| - i
  {
    if i == |ds| then rest else PutU64(ds[i], PutDimensions(ds, i + 1, rest))
  }

  function ReadDimensions(s: Bytes, n: nat, done: seq<nat>): (r: Read<seq<nat>>)
    ensures r.Ok? ==> |r.value.1| <= |s|
    decreases n
  {
    if n == 0 then Ok((done, s))
    else
      var (d, s1) :- ReadU64(s);
      if d == 0 then Err(ZeroDimension)
      else if Product(done) * d >= TWO_64 then Err(ShapeOverflow)
      else ReadDimensions(s1, n - 1, done + [d])
  }

  lemma {:induction false} ProductSnoc(ds: seq<nat>, d: nat)
    ensures Product(ds + [d]) == Product(ds) * d
  {
    assert (ds + [d])[..|ds|] == ds;
  }

  lemma {:induction false} GrowingProduct(a: nat, b: nat)
    requires b > 0
    ensures a <= a * b
  {}

  /** The order of the checked multiplications never causes a spurious overflow: partial products only grow. */
  lemma {:induction false} ProductPrefix(ds: seq<nat>, k: nat)
    requires k <= |ds| && DimensionsOk(ds, k)
    ensures Product(ds[..k]) <= Product(ds)
    decreases |ds| - k
  {
    if k == |ds| {
      assert ds[..k] == ds;
    } else {
      ProductPrefix(ds, k + 1);
      assert ds[..k + 1] == ds[..k] + [ds[k]];
      ProductSnoc(ds[..k], ds[k]);
      GrowingProduct(Product(ds[..k]), ds[k]);
    }
  }

  lemma {:induction false} DimensionsRoundTrip(s: Bytes, n: nat, done: seq<nat>, ds: seq<nat>, rest: Bytes)
    requires Product(done) < TWO_64
    ensures ReadDimensions(s, n, done) == Ok((ds, rest))
       <==> && |ds| == |done| + n && done <= ds && DimensionsOk(ds, |done|) && Product(ds) < TWO_64
            && s == PutDimensions(ds, |done|, rest)
    decreases n
  {
    hide ReadU64, PutU64, Product;
    var k := |done|;
    if n == 0 {
      assert |ds| == k && done <= ds <==> ds == done;
    } else {
      if ReadDimensions(s, n, done) == Ok((ds, rest)) {
        var (d, s1) := ReadU64(s).value;
        U64RoundTrip(s, d, s1);
        ProductSnoc(done, d);
        DimensionsRoundTrip(s1, n - 1, done + [d], ds, rest);
        assert ds[k] == d;
      }
      if |ds| == k + n && done <= ds && DimensionsOk(ds, k) && Product(ds) < TWO_64 && s == PutDimensions(ds, k, rest) {
        var d, s1 := ds[k], PutDimensions(ds, k + 1, rest);
        U64RoundTrip(s, d, s1);
        assert ds[..k + 1] == done + [d];
        ProductPrefix(ds, k + 1);
        ProductSnoc(done, d);
        DimensionsRoundTrip(s1, n - 1, done + [d], ds, rest);
      }
    }
  }

  /** The bytes of whole blocks. */
  function TensorBytes(ds: seq<nat>, encoding: nat): nat
    requires Blocks(encoding).Some?
  {
    Product(ds) / Blocks(encoding).value.0 * Blocks(encoding).value.1
  }

  predicate ShapeOk(ds: seq<nat>, encoding: nat) {
    && Blocks(encoding).Some? && 1 <= |ds|
    && ds[0] % Blocks(encoding).value.0 == 0
    && TensorBytes(ds, encoding) < TWO_64
  }

  predicate TensorOk(t: Tensor) {
    && TextOk(t.name, true)
    && 1 <= |t.dimensions| <= 4 && DimensionsOk(t.dimensions, 0) && Product(t.dimensions) < TWO_64
    && t.encoding < TWO_32 && t.offset < TWO_64
    && ShapeOk(t.dimensions, t.encoding) && t.bytes == TensorBytes(t.dimensions, t.encoding)
  }

  predicate TensorTaken(ts: seq<Tensor>, name: Bytes) { exists i :: 0 <= i < |ts| && ts[i].name == name }

  function PutTensor(t: Tensor, rest: Bytes): Bytes {
    PutText(t.name, PutU32(|t.dimensions|, PutDimensions(t.dimensions, 0, PutU32(t.encoding, PutU64(t.offset, rest)))))
  }

  function PutTensors(ts: seq<Tensor>, i: nat, rest: Bytes): Bytes
    requires i <= |ts|
    decreases |ts| - i
  {
    if i == |ts| then rest else PutTensor(ts[i], PutTensors(ts, i + 1, rest))
  }

  function Sized(name: Bytes, ds: seq<nat>, encoding: nat, offset: nat): Result<Tensor, Error>
    requires |ds| >= 1
  {
    if Blocks(encoding).None? then Err(UnknownEncoding)
    else if ds[0] % Blocks(encoding).value.0 != 0 then Err(PartialBlock)
    else if TensorBytes(ds, encoding) >= TWO_64 then Err(TensorOverflow)
    else Ok(Tensor(name, ds, encoding, offset, TensorBytes(ds, encoding)))
  }

  function ReadTensor(s: Bytes, seen: seq<Tensor>): (r: Read<Tensor>)
    ensures r.Ok? ==> |r.value.1| <= |s|
  {
    var (name, s1) :- ReadText(s, true);
    if TensorTaken(seen, name) then Err(DuplicateTensor)
    else
      var (n, s2) :- ReadU32(s1);
      if n < 1 || n > 4 then Err(BadDimensionCount)
      else
        var (ds, s3) :- ReadDimensions(s2, n, []);
        var (encoding, s4) :- ReadU32(s3);
        var (offset, s5) :- ReadU64(s4);
        DimensionsRoundTrip(s2, n, [], ds, s3);
        var t :- Sized(name, ds, encoding, offset);
        Ok((t, s5))
  }

  function ReadTensors(s: Bytes, n: nat, done: seq<Tensor>): (r: Read<seq<Tensor>>)
    ensures r.Ok? ==> |r.value.1| <= |s|
    decreases n
  {
    if n == 0 then Ok((done, s))
    else
      var (t, s1) :- ReadTensor(s, done);
      ReadTensors(s1, n - 1, done + [t])
  }

  lemma {:induction false} TensorSound(s: Bytes, seen: seq<Tensor>, t: Tensor, rest: Bytes)
    requires ReadTensor(s, seen) == Ok((t, rest))
    ensures TensorOk(t) && !TensorTaken(seen, t.name) && s == PutTensor(t, rest)
  {
    hide ReadText, ReadU32, ReadU64, ReadDimensions, PutText, PutU32, PutU64, PutDimensions, TextOk, TensorTaken, Product, Blocks, TensorBytes;
    var (name, s1) := ReadText(s, true).value;
    var (n, s2) := ReadU32(s1).value;
    var (ds, s3) := ReadDimensions(s2, n, []).value;
    var (encoding, s4) := ReadU32(s3).value;
    var (offset, s5) := ReadU64(s4).value;
    assert Product([]) == 1 by { EmptyProduct(); }
    TextRoundTrip(s, true, name, s1);
    U32RoundTrip(s1, n, s2);
    DimensionsRoundTrip(s2, n, [], ds, s3);
    U32RoundTrip(s3, encoding, s4);
    U64RoundTrip(s4, offset, s5);
  }

  lemma {:induction false} EmptyProduct()
    ensures Product([]) == 1
  {}

  lemma {:induction false} TensorComplete(s: Bytes, seen: seq<Tensor>, t: Tensor, rest: Bytes)
    requires TensorOk(t) && !TensorTaken(seen, t.name) && s == PutTensor(t, rest)
    ensures ReadTensor(s, seen) == Ok((t, rest))
  {
    hide ReadText, ReadU32, ReadU64, ReadDimensions, PutText, PutU32, PutU64, PutDimensions, TextOk, TensorTaken, Product, Blocks, TensorBytes;
    var ds := t.dimensions;
    var s4 := PutU64(t.offset, rest);
    var s3 := PutU32(t.encoding, s4);
    var s2 := PutDimensions(ds, 0, s3);
    var s1 := PutU32(|ds|, s2);
    assert Product([]) == 1 by { EmptyProduct(); }
    TextRoundTrip(s, true, t.name, s1);
    U32RoundTrip(s1, |ds|, s2);
    DimensionsRoundTrip(s2, |ds|, [], ds, s3);
    U32RoundTrip(s3, t.encoding, s4);
    U64RoundTrip(s4, t.offset, rest);
  }

  ghost predicate TensorsOk(ts: seq<Tensor>, from: nat) {
    forall i :: from <= i < |ts| ==> TensorOk(ts[i]) && !TensorTaken(ts[..i], ts[i].name)
  }

  lemma {:induction false} TensorsRoundTrip(s: Bytes, n: nat, done: seq<Tensor>, ts: seq<Tensor>, rest: Bytes)
    ensures ReadTensors(s, n, done) == Ok((ts, rest))
       <==> |ts| == |done| + n && done <= ts && TensorsOk(ts, |done|) && s == PutTensors(ts, |done|, rest)
    decreases n
  {
    hide ReadTensor, PutTensor, TensorOk, TensorTaken;
    var k := |done|;
    if n == 0 {
      assert |ts| == k && done <= ts <==> ts == done;
    } else {
      if ReadTensors(s, n, done) == Ok((ts, rest)) {
        var (t, s1) := ReadTensor(s, done).value;
        TensorSound(s, done, t, s1);
        TensorsRoundTrip(s1, n - 1, done + [t], ts, rest);
        assert ts[k] == t && ts[..k] == done;
      }
      if |ts| == k + n && done <= ts && TensorsOk(ts, k) && s == PutTensors(ts, k, rest) {
        var s1 := PutTensors(ts, k + 1, rest);
        assert ts[..k] == done;
        TensorComplete(s, done, ts[k], s1);
        TensorsRoundTrip(s1, n - 1, done + [ts[k]], ts, rest);
      }
    }
  }

  // ---- the whole header ----

  datatype Document = Document(entries: seq<Entry>, tensors: seq<Tensor>)

  const MAGIC := Ascii("GGUF")
  const VERSION := 3

  predicate Shards(es: seq<Entry>) { exists i :: 0 <= i < |es| && SPLIT <= es[i].name }

  ghost predicate DocumentOk(d: Document) {
    && |d.entries| <= COUNT_LIMIT && EntriesOk(d.entries, 0) && !Shards(d.entries)
    && 0 < |d.tensors| <= COUNT_LIMIT && TensorsOk(d.tensors, 0)
  }

  function PutCounts(tensors: nat, entries: nat, rest: Bytes): Bytes {
    MAGIC + PutU32(VERSION, PutU64(tensors, PutU64(entries, rest)))
  }

  function PutDocument(d: Document, rest: Bytes): Bytes {
    PutCounts(|d.tensors|, |d.entries|, PutEntries(d.entries, 0, PutTensors(d.tensors, 0, rest)))
  }

  function ReadCounts(s: Bytes): (r: Read<(nat, nat)>)
    ensures r.Ok? ==> |r.value.1| <= |s|
  {
    var (magic, s1) :- ReadBytes(s, 4);
    if magic != MAGIC then Err(BadMagic)
    else
      var (version, s2) :- ReadU32(s1);
      if version != VERSION then Err(BadMagic)
      else
        var (tensors, s3) :- ReadU64(s2);
        var (entries, s4) :- ReadU64(s3);
        if tensors == 0 || tensors > COUNT_LIMIT || entries > COUNT_LIMIT then Err(BadCounts)
        else Ok(((tensors, entries), s4))
  }

  function ReadDocument(s: Bytes): (r: Read<Document>)
    ensures r.Ok? ==> |r.value.1| <= |s|
  {
    var (counts, s1) :- ReadCounts(s);
    var (es, s2) :- ReadEntries(s1, counts.1, []);
    if Shards(es) then Err(Sharded)
    else
      var (ts, s3) :- ReadTensors(s2, counts.0, []);
      Ok((Document(es, ts), s3))
  }

  lemma {:induction false} CountsRoundTrip(s: Bytes, nt: nat, nm: nat, rest: Bytes)
    ensures ReadCounts(s) == Ok(((nt, nm), rest))
       <==> 0 < nt <= COUNT_LIMIT && nm <= COUNT_LIMIT && s == PutCounts(nt, nm, rest)
  {
    hide ReadU32, ReadU64, PutU32, PutU64;
    if ReadCounts(s) == Ok(((nt, nm), rest)) {
      var (magic, s1) := ReadBytes(s, 4).value;
      var (version, s2) := ReadU32(s1).value;
      var (tensors, s3) := ReadU64(s2).value;
      var (entries, s4) := ReadU64(s3).value;
      assert s == magic + s1;
      U32RoundTrip(s1, version, s2);
      U64RoundTrip(s2, tensors, s3);
      U64RoundTrip(s3, entries, s4);
    }
    if 0 < nt <= COUNT_LIMIT && nm <= COUNT_LIMIT && s == PutCounts(nt, nm, rest) {
      var s3 := PutU64(nm, rest);
      var s2 := PutU64(nt, s3);
      var s1 := PutU32(VERSION, s2);
      assert |MAGIC| == 4 && s[..4] == MAGIC && s[4..] == s1;
      U32RoundTrip(s1, VERSION, s2);
      U64RoundTrip(s2, nt, s3);
      U64RoundTrip(s3, nm, rest);
    }
  }

  /** The reader splits off exactly the documents of the grammar, and each as what was written. */
  lemma {:induction false} DocumentRoundTrip(s: Bytes, d: Document, rest: Bytes)
    ensures ReadDocument(s) == Ok((d, rest)) <==> DocumentOk(d) && s == PutDocument(d, rest)
  {
    hide ReadCounts, ReadEntries, ReadTensors, PutCounts, PutEntries, PutTensors, Shards, EntriesOk, TensorsOk;
    if ReadDocument(s) == Ok((d, rest)) {
      var (counts, s1) := ReadCounts(s).value;
      var (es, s2) := ReadEntries(s1, counts.1, []).value;
      var (ts, s3) := ReadTensors(s2, counts.0, []).value;
      assert d == Document(es, ts) && rest == s3;
      CountsRoundTrip(s, counts.0, counts.1, s1);
      EntriesRoundTrip(s1, counts.1, [], es, s2);
      TensorsRoundTrip(s2, counts.0, [], ts, s3);
    }
    if DocumentOk(d) && s == PutDocument(d, rest) {
      var s2 := PutTensors(d.tensors, 0, rest);
      var s1 := PutEntries(d.entries, 0, s2);
      CountsRoundTrip(s, |d.tensors|, |d.entries|, s1);
      EntriesRoundTrip(s1, |d.entries|, [], d.entries, s2);
      TensorsRoundTrip(s2, |d.tensors|, [], d.tensors, rest);
    }
  }
}
