/** Model files: which ones are accepted, and what their tensors then occupy. */
module GgufFile {
  import opened Prelude
  import opened Binary
  import opened Gguf
  import opened GgufLayout
  import opened GgufDirectory

  /** A file whose length fits a u64. */
  type File = f: Bytes | |f| < TWO_64

  datatype Directory = Directory(scalars: map<Bytes, Scalar>, keys: seq<Bytes>, tensors: seq<Tensor>, dataStart: nat, fileBytes: nat)

  function HeaderEnd(file: File): nat { Min(|file|, HEADER_LIMIT) }

  function Scalars(es: seq<Entry>): map<Bytes, Scalar> {
    if es == [] then map[]
    else
      var e := es[|es| - 1];
      Scalars(es[..|es| - 1])[e.name := Summary(e.value, Retained(e.name))]
  }

  function Keys(es: seq<Entry>): seq<Bytes> {
    seq(|es|, i requires 0 <= i < |es| => es[i].name)
  }

  const DEFAULT_ALIGNMENT := 32
  const MAX_ALIGNMENT := 65536

  function Alignment(scalars: map<Bytes, Scalar>): (r: Result<nat, Error>)
    ensures r.Ok? ==> 0 < r.value <= MAX_ALIGNMENT
  {
    if ALIGNMENT !in scalars then Ok(DEFAULT_ALIGNMENT)
    else
      match scalars[ALIGNMENT]
      case Integer(a) => if a == 0 || !PowerOfTwo(a) || a > MAX_ALIGNMENT then Err(BadAlignment) else Ok(a)
      case _ => Err(BadAlignment)
  }

  function RoundUp(pos: nat, a: nat): nat
    requires a > 0
  {
    (pos + (a - 1)) / a * a
  }

  function RangeOf(t: Tensor, dataStart: nat): Range {
    Range(dataStart + t.offset, dataStart + t.offset + t.bytes)
  }

  function RangesOf(ts: seq<Tensor>, dataStart: nat): (rs: seq<Range>)
    ensures |rs| == |ts| && forall i :: 0 <= i < |ts| ==> rs[i] == RangeOf(ts[i], dataStart)
  {
    seq(|ts|, i requires 0 <= i < |ts| => RangeOf(ts[i], dataStart))
  }

  /** The first tensor that is unaligned or leaves the file decides the error. */
  function Misplaced(ts: seq<Tensor>, i: nat, a: nat, dataStart: nat, fileBytes: nat): Option<Error>
    requires a > 0 && i <= |ts|
    decreases |ts| - i
  {
    if i == |ts| then None
    else if ts[i].offset % a != 0 then Some(Unaligned)
    else if RangeOf(ts[i], dataStart).end > fileBytes then Some(OutsideFile)
    else Misplaced(ts, i + 1, a, dataStart, fileBytes)
  }

  function DirectoryOf(d: Document, dataStart: nat, fileBytes: nat): Directory {
    Directory(Scalars(d.entries), Keys(d.entries), d.tensors, dataStart, fileBytes)
  }

  /** The layout check, given the position at which the header ends. */
  function Lay(d: Document, pos: nat, fileBytes: nat): Result<Directory, Error> {
    var a :- Alignment(Scalars(d.entries));
    var dataStart := RoundUp(pos, a);
    match Misplaced(d.tensors, 0, a, dataStart, fileBytes)
    case Some(e) => Err(e)
    case None =>
      if NeighboursApart(Sort(RangesOf(d.tensors, dataStart))) then Ok(DirectoryOf(d, dataStart, fileBytes))
      else Err(Overlapping)
  }

  function Parse(file: File): Result<Directory, Error> {
    var (d, rest) :- ReadDocument(file[..HeaderEnd(file)]);
    Lay(d, HeaderEnd(file) - |rest|, |file|)
  }

  // ---- what is accepted ----

  predicate Placed(t: Tensor, a: nat, dataStart: nat, fileBytes: nat)
    requires a > 0
  {
    t.offset % a == 0 && RangeOf(t, dataStart).end <= fileBytes
  }

  /** Every tensor is aligned and inside the file, and no two overlap. */
  ghost predicate LayoutOk(d: Document, pos: nat, fileBytes: nat) {
    var alignment := Alignment(Scalars(d.entries));
    alignment.Ok? &&
    var dataStart := RoundUp(pos, alignment.value);
    && (forall i :: 0 <= i < |d.tensors| ==> Placed(d.tensors[i], alignment.value, dataStart, fileBytes))
    && AllApart(RangesOf(d.tensors, dataStart))
  }

  /** The file starts, within the header limit, with the document, and its tensors are laid out well. */
  ghost predicate Holds(file: File, d: Document, rest: Bytes) {
    && |rest| <= HeaderEnd(file)
    && file[..HeaderEnd(file)] == PutDocument(d, rest)
    && DocumentOk(d)
    && LayoutOk(d, HeaderEnd(file) - |rest|, |file|)
  }

  lemma {:induction false} MisplacedFinds(ts: seq<Tensor>, i: nat, a: nat, dataStart: nat, fileBytes: nat)
    requires a > 0 && i <= |ts|
    ensures Misplaced(ts, i, a, dataStart, fileBytes).None? <==> forall j :: i <= j < |ts| ==> Placed(ts[j], a, dataStart, fileBytes)
    decreases |ts| - i
  {
    if i < |ts| {
      MisplacedFinds(ts, i + 1, a, dataStart, fileBytes);
    }
  }

  lemma {:induction false} BlocksPositive(encoding: nat)
    requires Blocks(encoding).Some?
    ensures Blocks(encoding).value.0 > 0 && Blocks(encoding).value.1 > 0
  {}

  lemma {:induction false} MultipleTimes(a: nat, b: nat, m: nat)
    requires m > 0 && a % m == 0
    ensures (a * b) % m == 0
  {
    var q := a / m;
    assert a * b == m * (q * b);
    MultipleOf(q * b, m);
  }

  lemma {:induction false} MultipleOf(k: nat, m: nat)
    requires m > 0
    ensures (m * k) % m == 0
  {
    var q, r := (m * k) / m, (m * k) % m;
    assert m * k == m * q + r;
    SmallMultiple(m, k - q, r);
  }

  lemma {:induction false} SmallMultiple(m: nat, x: int, r: nat)
    requires r == m * x && r < m
    ensures r == 0
  {
    if x >= 1 {
      GrowingProduct(m, x);
      assert false;
    }
  }

  lemma {:induction false} WholeBlocks(ds: seq<nat>, block: nat)
    requires |ds| >= 1 && block > 0 && ds[0] % block == 0
    ensures Product(ds) % block == 0
    decreases |ds|
  {
    var n := |ds| - 1;
    if n == 0 {
      assert ds[..n] == [];
      EmptyProduct();
      assert Product(ds) == ds[0];
    } else {
      WholeBlocks(ds[..n], block);
      MultipleTimes(Product(ds[..n]), ds[n], block);
    }
  }

  lemma {:induction false} PositiveProduct(ds: seq<nat>)
    requires DimensionsOk(ds, 0)
    ensures Product(ds) > 0
  {
    ProductPrefix(ds, 0);
    assert ds[..0] == [];
    EmptyProduct();
  }

  /** A tensor has at least one block, and its elements fill its blocks exactly. */
  lemma {:induction false} TensorNonempty(t: Tensor)
    requires TensorOk(t)
    ensures t.bytes > 0
    ensures var (block, size) := Blocks(t.encoding).value; t.bytes * block == Product(t.dimensions) * size
  {
    hide Product, Blocks, TextOk;
    var (block, size) := Blocks(t.encoding).value;
    BlocksPositive(t.encoding);
    WholeBlocks(t.dimensions, block);
    PositiveProduct(t.dimensions);
    var n := Product(t.dimensions);
    var q := n / block;
    assert n == q * block && q > 0;
    assert t.bytes == q * size;
    calc { t.bytes * block; (q * size) * block; (q * block) * size; }
  }

  lemma {:induction false} LayAccepts(d: Document, pos: nat, fileBytes: nat)
    requires DocumentOk(d)
    ensures Lay(d, pos, fileBytes).Ok? <==> LayoutOk(d, pos, fileBytes)
  {
    hide NeighboursApart, AllApart, Sort, Misplaced, TensorOk, Placed, RoundUp;
    var alignment := Alignment(Scalars(d.entries));
    if alignment.Ok? {
      var dataStart := RoundUp(pos, alignment.value);
      MisplacedFinds(d.tensors, 0, alignment.value, dataStart, fileBytes);
      var rs := RangesOf(d.tensors, dataStart);
      forall i | 0 <= i < |rs| ensures Nonempty(rs[i]) { TensorNonempty(d.tensors[i]); }
      NeighboursAreEnough(rs);
    }
  }

  /** A file is accepted exactly if it holds a well-formed document whose tensors are laid out well. */
  lemma {:induction false} AcceptsExactly(file: File)
    ensures Parse(file).Ok? <==> exists d, rest :: Holds(file, d, rest)
  {
    hide DocumentOk, LayoutOk, ReadDocument, PutDocument, Lay;
    var head := file[..HeaderEnd(file)];
    if ReadDocument(head).Ok? {
      var (d, rest) := ReadDocument(head).value;
      DocumentRoundTrip(head, d, rest);
      LayAccepts(d, HeaderEnd(file) - |rest|, |file|);
      assert Parse(file).Ok? ==> Holds(file, d, rest);
    }
    if d, rest :| Holds(file, d, rest) {
      HoldsIsParsed(file, d, rest);
    }
  }

  /** The document an accepted file holds is unique and is what the parser reports. */
  lemma {:induction false} HoldsIsParsed(file: File, d: Document, rest: Bytes)
    requires Holds(file, d, rest)
    ensures ReadDocument(file[..HeaderEnd(file)]) == Ok((d, rest))
    ensures var a := Alignment(Scalars(d.entries));
      a.Ok? && Parse(file) == Ok(DirectoryOf(d, RoundUp(HeaderEnd(file) - |rest|, a.value), |file|))
  {
    hide DocumentOk, ReadDocument, PutDocument, Scalars, Sort, NeighboursApart, RoundUp, Misplaced;
    DocumentRoundTrip(file[..HeaderEnd(file)], d, rest);
    LayAccepts(d, HeaderEnd(file) - |rest|, |file|);
  }

  // ---- what the tensors of an accepted file occupy ----

  function TotalBytes(ts: seq<Tensor>): nat {
    if ts == [] then 0 else TotalBytes(ts[..|ts| - 1]) + ts[|ts| - 1].bytes
  }

  lemma {:induction false} LengthsSnoc(rs: seq<Range>, r: Range)
    ensures Lengths(rs + [r]) == Lengths(rs) + (r.end - r.start)
  {
    if rs == [] {
      assert [] + [r] == [r] && [r][1..] == [];
    } else {
      assert (rs + [r])[1..] == rs[1..] + [r];
      LengthsSnoc(rs[1..], r);
    }
  }

  lemma {:induction false} LengthsAreBytes(ts: seq<Tensor>, dataStart: nat)
    ensures Lengths(RangesOf(ts, dataStart)) == TotalBytes(ts)
  {
    if ts != [] {
      var init, t := ts[..|ts| - 1], ts[|ts| - 1];
      LengthsAreBytes(init, dataStart);
      assert RangesOf(ts, dataStart) == RangesOf(init, dataStart) + [RangeOf(t, dataStart)];
      LengthsSnoc(RangesOf(init, dataStart), RangeOf(t, dataStart));
    }
  }

  lemma {:induction false} MultiplesAdd(x: nat, y: nat, a: nat)
    requires a > 0 && x % a == 0 && y % a == 0
    ensures (x + y) % a == 0
  {
    var p, q := x / a, y / a;
    assert x + y == a * (p + q);
    MultipleOf(p + q, a);
  }

  /** Data starts at the first multiple of the alignment at or after the header. */
  lemma {:induction false} RoundUpIsLeast(pos: nat, a: nat)
    requires a > 0
    ensures RoundUp(pos, a) % a == 0 && pos <= RoundUp(pos, a) < pos + a
  {
    var n := pos + (a - 1);
    var q := n / a;
    assert n == a * q + n % a;
    assert RoundUp(pos, a) == a * q;
    MultipleOf(q, a);
  }

  /**
   In every accepted file each tensor's range is nonempty, aligned and inside the data section,
   no two ranges overlap, and so all tensors together fit between the data start and the end of the file.
   */
  lemma {:induction false} AcceptedTensors(file: File, d: Directory)
    requires Parse(file) == Ok(d)
    ensures d.fileBytes == |file| && d.dataStart <= |file| && d.tensors != []
    ensures Alignment(d.scalars).Ok? && d.dataStart % Alignment(d.scalars).value == 0
    ensures forall i :: 0 <= i < |d.tensors| ==>
      var r := RangeOf(d.tensors[i], d.dataStart);
      Nonempty(r) && r.start % Alignment(d.scalars).value == 0 && d.dataStart <= r.start && r.end <= |file|
    ensures forall i, j :: 0 <= i < j < |d.tensors| ==>
      Disjoint(RangeOf(d.tensors[i], d.dataStart), RangeOf(d.tensors[j], d.dataStart))
    ensures TotalBytes(d.tensors) <= |file| - d.dataStart
  {
    hide ReadDocument, PutDocument, Scalars, NeighboursApart, Sort, RoundUp, TensorOk, EntriesOk, Alignment, Disjoint, TotalBytes, Misplaced, Lengths;
    var head := file[..HeaderEnd(file)];
    var (doc, rest) := ReadDocument(head).value;
    var pos := HeaderEnd(file) - |rest|;
    DocumentRoundTrip(head, doc, rest);
    LayAccepts(doc, pos, |file|);
    var a, ts := Alignment(d.scalars).value, d.tensors;
    assert d.dataStart == RoundUp(pos, a) && ts == doc.tensors && d.scalars == Scalars(doc.entries);
    RoundUpIsLeast(pos, a);
    forall i | 0 <= i < |ts|
      ensures var r := RangeOf(ts[i], d.dataStart); Nonempty(r) && r.start % a == 0 && d.dataStart <= r.start && r.end <= |file|
    {
      assert Placed(ts[i], a, d.dataStart, |file|);
      TensorNonempty(ts[i]);
      MultiplesAdd(d.dataStart, ts[i].offset, a);
    }
    var rs := RangesOf(ts, d.dataStart);
    assert Nonempty(rs[0]);
    forall i, j | 0 <= i < j < |ts| ensures Disjoint(RangeOf(ts[i], d.dataStart), RangeOf(ts[j], d.dataStart)) {
      assert Disjoint(rs[i], rs[j]);
    }
    DisjointRangesFit(rs, d.dataStart, |file|);
    LengthsAreBytes(ts, d.dataStart);
  }

  // ---- what the metadata of an accepted file says ----

  function TwoTo(e: nat): nat { if e == 0 then 1 else 2 * TwoTo(e - 1) }

  lemma {:induction false} TwoToGrows(e: nat, f: nat)
    requires e < f
    ensures TwoTo(e) < TwoTo(f)
  {
    if e < f - 1 {
      TwoToGrows(e, f - 1);
    }
    assert TwoTo(f - 1) >= 1 by { TwoToPositive(f - 1); }
  }

  lemma {:induction false} TwoToPositive(e: nat)
    ensures TwoTo(e) >= 1
  {
    if e > 0 {
      TwoToPositive(e - 1);
    }
  }

  lemma {:induction false} SixteenBits()
    ensures TwoTo(16) == 65536
  {
    assert TwoTo(4) == 16;
    assert TwoTo(8) == 2 * (2 * (2 * (2 * TwoTo(4))));
    assert TwoTo(12) == 2 * (2 * (2 * (2 * TwoTo(8))));
    assert TwoTo(16) == 2 * (2 * (2 * (2 * TwoTo(12))));
  }

  lemma {:induction false} PowerIsTwoTo(n: nat) returns (e: nat)
    requires PowerOfTwo(n)
    ensures n == TwoTo(e)
  {
    if n == 1 {
      e := 0;
    } else {
      var half := PowerIsTwoTo(n / 2);
      e := half + 1;
    }
  }

  lemma {:induction false} TwoToIsPower(e: nat)
    ensures PowerOfTwo(TwoTo(e))
  {
    TwoToPositive(e);
    if e > 0 {
      TwoToIsPower(e - 1);
      TwoToPositive(e - 1);
    }
  }

  /** The alignments that can be stated. */
  ghost predicate Stated(x: Scalar) { x.Integer? && exists e :: 0 <= e <= 16 && x.n == TwoTo(e) }

  /** An alignment that is not stated is 32, and one that is must be a power of two of at most 16 bits. */
  lemma {:induction false} AlignmentIs(scalars: map<Bytes, Scalar>)
    ensures var key, r := Ascii("general.alignment"), Alignment(scalars);
      if key !in scalars then r == Ok(32)
      else (r.Ok? <==> Stated(scalars[key])) && (r.Ok? ==> scalars[key] == Integer(r.value))
  {
    hide PowerOfTwo, TwoTo;
    SixteenBits();
    if ALIGNMENT in scalars && scalars[ALIGNMENT].Integer? {
      var n := scalars[ALIGNMENT].n;
      if PowerOfTwo(n) && n <= 65536 {
        var e := PowerIsTwoTo(n);
        if e > 16 {
          TwoToGrows(16, e);
          assert false;
        }
        TwoToPositive(e);
      }
      if e :| 0 <= e <= 16 && n == TwoTo(e) {
        TwoToIsPower(e);
        TwoToPositive(e);
        if e < 16 {
          TwoToGrows(e, 16);
        }
      }
    }
  }

  /** What is kept of a value: an unsigned integer of 8, 16, 32 or 64 bits by its little-endian bytes, a string of a kept key, else nothing. */
  ghost predicate Kept(e: Entry, x: Scalar) {
    match e.value
    case Fixed(kind, payload) =>
      if kind in {0, 2, 4, 10} then x.Integer? && payload == LittleEndian(x.n, |payload|) else x == Other
    case Str(text) =>
      x == Text(if || e.name == Ascii("general.architecture") || e.name == Ascii("general.alignment")
                   || Ascii("llama.") <= e.name || Ascii("split.") <= e.name then text else [])
    case Array(_, _) => x == Other
  }

  lemma {:induction false} SummaryKeeps(e: Entry)
    ensures Kept(e, Summary(e.value, Retained(e.name)))
  {
    hide LittleEndian, FromLittleEndian;
    if e.value.Fixed? {
      Reencoded(e.value.payload);
    }
  }

  /** Of entries with different keys, each is found under its key with what is kept of its value, and nothing else is found. */
  lemma {:induction false} ScalarsAre(es: seq<Entry>)
    requires forall i, j :: 0 <= i < j < |es| ==> es[i].name != es[j].name
    ensures forall i :: 0 <= i < |es| ==> es[i].name in Scalars(es) && Kept(es[i], Scalars(es)[es[i].name])
    ensures forall key :: key in Scalars(es) ==> key in Keys(es)
  {
    hide Kept, Summary, Retained;
    if es != [] {
      var n := |es| - 1;
      var init, e := es[..n], es[n];
      ScalarsAre(init);
      SummaryKeeps(e);
      assert forall i :: 0 <= i < n ==> init[i] == es[i] && Keys(init)[i] == Keys(es)[i];
      assert Keys(es)[n] == e.name;
    }
  }

  ghost predicate Distinct(names: seq<Bytes>) { forall i, j :: 0 <= i < j < |names| ==> names[i] != names[j] }

  function TensorNames(ts: seq<Tensor>): (names: seq<Bytes>)
    ensures |names| == |ts| && forall i :: 0 <= i < |ts| ==> names[i] == ts[i].name
  {
    seq(|ts|, i requires 0 <= i < |ts| => ts[i].name)
  }

  lemma {:induction false} EntriesDistinct(es: seq<Entry>)
    requires EntriesOk(es, 0)
    ensures Distinct(Keys(es)) && forall i :: 0 <= i < |es| ==> |es[i].name| <= 1_048_576 && Utf8(es[i].name)
  {
    hide Utf8, ValueOk;
    forall i, j | 0 <= i < j < |es| ensures es[i].name != es[j].name {
      assert !KeyTaken(es[..j], es[j].name) && es[..j][i] == es[i];
    }
  }

  lemma {:induction false} TensorsDistinct(ts: seq<Tensor>)
    requires TensorsOk(ts, 0)
    ensures Distinct(TensorNames(ts))
  {
    hide TensorOk;
    forall i, j | 0 <= i < j < |ts| ensures ts[i].name != ts[j].name {
      assert !TensorTaken(ts[..j], ts[j].name) && ts[..j][i] == ts[i];
    }
  }

  lemma {:induction false} CountsBytes(tensors: nat, entries: nat, rest: Bytes)
    ensures var b := PutCounts(tensors, entries, rest); |b| >= 8 && b[..8] == [71, 71, 85, 70, 3, 0, 0, 0]
  {
    assert LittleEndian(3, 4) == [3, 0, 0, 0] by {
      assert LittleEndian(3, 4) == [3] + LittleEndian(0, 3);
      assert LittleEndian(0, 3) == [0] + LittleEndian(0, 2);
      assert LittleEndian(0, 2) == [0] + LittleEndian(0, 1);
    }
    assert MAGIC == [71, 71, 85, 70];
    hide LittleEndian;
    var b := PutCounts(tensors, entries, rest);
    assert b[..8] == MAGIC + LittleEndian(3, 4);
  }

  ghost predicate Shaped(t: Tensor) {
    && 1 <= |t.dimensions| <= 4 && (forall i :: 0 <= i < |t.dimensions| ==> t.dimensions[i] > 0)
    && |t.name| <= 1_048_576 && Utf8(t.name)
  }

  /** Different names, each at most a mebibyte of UTF-8, none of a shard. */
  ghost predicate KeysOk(keys: seq<Bytes>) {
    Distinct(keys) && forall i :: 0 <= i < |keys| ==> |keys[i]| <= 1_048_576 && Utf8(keys[i]) && !(Ascii("split.") <= keys[i])
  }

  ghost predicate ShapesOk(ts: seq<Tensor>) {
    Distinct(TensorNames(ts)) && forall i :: 0 <= i < |ts| ==> Shaped(ts[i])
  }

  lemma {:induction false} DocumentKeys(doc: Document)
    requires DocumentOk(doc)
    ensures 1 <= |doc.tensors| <= 100_000 && |doc.entries| <= 100_000 && KeysOk(Keys(doc.entries)) && ShapesOk(doc.tensors)
    ensures Recorded(doc.entries, Scalars(doc.entries))
  {
    hide Utf8, Recorded, Scalars, EntriesOk;
    EntriesDistinct(doc.entries);
    TensorsDistinct(doc.tensors);
    forall i | 0 <= i < |doc.tensors| ensures Shaped(doc.tensors[i]) { ShapedTensor(doc.tensors[i]); }
    RecordedScalars(doc.entries);
  }

  lemma {:induction false} ShapedTensor(t: Tensor)
    requires TensorOk(t)
    ensures Shaped(t)
  {
    hide Utf8, ShapeOk, Product;
  }

  /**
   Every accepted file starts with the magic and version 3; it has 1 to 100 000 tensors and at most 100 000 keys, all different
   and none of them a shard's; names are at most a mebibyte of UTF-8, shapes have one to four sides, the header ends within
   128 MiB, and the metadata is what the entries say.
   */
  lemma {:induction false} AcceptedHeader(file: File, d: Directory)
    requires Parse(file) == Ok(d)
    ensures |file| >= 8 && file[..8] == [71, 71, 85, 70, 3, 0, 0, 0]
    ensures 1 <= |d.tensors| <= 100_000 && |d.keys| <= 100_000 && d.dataStart < 134_217_728 + 65_536
    ensures KeysOk(d.keys) && ShapesOk(d.tensors)
    ensures exists es :: Keys(es) == d.keys && Recorded(es, d.scalars)
  {
    hide ReadDocument, Lay, Scalars, PutEntries, PutTensors, PutCounts, Recorded, KeysOk, ShapesOk, DocumentOk;
    var head := file[..HeaderEnd(file)];
    var (doc, rest) := ReadDocument(head).value;
    DocumentRoundTrip(head, doc, rest);
    LaidOut(doc, HeaderEnd(file) - |rest|, |file|);
    DocumentKeys(doc);
    CountsBytes(|doc.tensors|, |doc.entries|, PutEntries(doc.entries, 0, PutTensors(doc.tensors, 0, rest)));
    assert file[..8] == head[..8];
  }

  /** The scalars hold exactly what is kept of the entries. */
  ghost predicate Recorded(es: seq<Entry>, scalars: map<Bytes, Scalar>) {
    && (forall i :: 0 <= i < |es| ==> es[i].name in scalars && Kept(es[i], scalars[es[i].name]))
    && (forall key :: key in scalars ==> key in Keys(es))
  }

  lemma {:induction false} RecordedScalars(es: seq<Entry>)
    requires Distinct(Keys(es))
    ensures Recorded(es, Scalars(es))
  {
    hide Kept, Scalars;
    forall i, j | 0 <= i < j < |es| ensures es[i].name != es[j].name { assert Keys(es)[i] != Keys(es)[j]; }
    ScalarsAre(es);
  }

  lemma {:induction false} LaidOut(doc: Document, pos: nat, fileBytes: nat)
    requires Lay(doc, pos, fileBytes).Ok?
    ensures var d := Lay(doc, pos, fileBytes).value;
      && d.keys == Keys(doc.entries) && d.tensors == doc.tensors && d.scalars == Scalars(doc.entries)
      && d.dataStart < pos + 65_536
  {
    hide Scalars, RoundUp, Misplaced, Sort, NeighboursApart, Alignment;
    var a := Alignment(Scalars(doc.entries)).value;
    RoundUpIsLeast(pos, a);
  }

  /** The block sizes, from the bits of an element and what a block adds: scales, minima and sums. */
  lemma {:induction false} BlockSizes(encoding: nat)
    ensures Blocks(encoding).Some? <==> encoding in {0, 1, 2, 3, 6, 7, 8, 10, 11, 12, 13, 14, 15, 30}
    ensures Blocks(0) == Some((1, 32 / 8)) && Blocks(1) == Blocks(30) == Some((1, 16 / 8))
    ensures Blocks(2) == Some((32, 32 * 4 / 8 + 2)) && Blocks(3) == Some((32, 32 * 4 / 8 + 2 + 2))
    ensures Blocks(6) == Some((32, 32 * 5 / 8 + 2)) && Blocks(7) == Some((32, 32 * 5 / 8 + 2 + 2))
    ensures Blocks(8) == Some((32, 32 * 8 / 8 + 2))
    ensures Blocks(10) == Some((256, 256 * 2 / 8 + 16 + 2 + 2)) && Blocks(11) == Some((256, 256 * 3 / 8 + 12 + 2))
    ensures Blocks(12) == Some((256, 256 * 4 / 8 + 12 + 2 + 2)) && Blocks(13) == Some((256, 256 * 5 / 8 + 12 + 2 + 2))
    ensures Blocks(14) == Some((256, 256 * 6 / 8 + 16 + 2)) && Blocks(15) == Some((256, 256 * 8 / 8 + 4 + 32))
  {}
}
