/** The reader as it runs: a position in a file that advances, and the loops that fill the directory. */
module GgufReader {
  import opened Prelude
  import opened Binary
  import opened Gguf
  import opened GgufLayout
  import opened GgufDirectory
  import opened GgufFile

  /** The result and the unread bytes are those of the specification; after an error the position is not used again. */
  ghost predicate Reads<T(!new)>(r: Result<T, Error>, rest: Bytes, spec: Read<T>) {
    match spec
    case Ok(x) => r == Ok(x.0) && rest == x.1
    case Err(e) => r == Err(e)
  }

  class Reader {
    const file: File
    const end: nat
    var pos: nat

    ghost predicate Valid()
      reads this
    {
      end == HeaderEnd(file) && pos <= end
    }

    ghost function Rest(): Bytes
      requires Valid()
      reads this
    {
      file[pos..end]
    }

    constructor (file: File)
      ensures Valid() && this.file == file && Rest() == file[..HeaderEnd(file)]
    {
      this.file := file;
      end := Min(|file|, HEADER_LIMIT);
      pos := 0;
    }

    method Bound(n: nat) returns (r: Result<(), Error>)
      requires Valid()
      ensures r == if n > |Rest()| then Err(HeaderLimit) else Ok(())
    {
      if pos + n >= TWO_64 || pos + n > end {
        return Err(HeaderLimit);
      }
      return Ok(());
    }

    method Take(n: nat) returns (r: Result<Bytes, Error>)
      requires Valid()
      modifies this`pos
      ensures Valid() && Reads(r, Rest(), ReadBytes(old(Rest()), n))
    {
      var _ :- Bound(n);
      var b := file[pos..pos + n];
      assert Rest()[..n] == b && Rest()[n..] == file[pos + n..end];
      pos := pos + n;
      return Ok(b);
    }

    method U32() returns (r: Result<nat, Error>)
      requires Valid()
      modifies this`pos
      ensures Valid() && Reads(r, Rest(), ReadU32(old(Rest())))
    {
      var b :- Take(4);
      return Ok(FromLittleEndian(b));
    }

    method U64() returns (r: Result<nat, Error>)
      requires Valid()
      modifies this`pos
      ensures Valid() && Reads(r, Rest(), ReadU64(old(Rest())))
    {
      var b :- Take(8);
      return Ok(FromLittleEndian(b));
    }

    /** A string that is not retained is skipped, whatever its bytes. */
    method Text(retain: bool) returns (r: Result<Bytes, Error>)
      requires Valid()
      modifies this`pos
      ensures Valid()
      ensures match ReadText(old(Rest()), retain)
        case Ok(x) => r == Ok(if retain then x.0 else []) && Rest() == x.1
        case Err(e) => r == Err(e)
    {
      hide Utf8, ReadU64;
      var n :- U64();
      var _ :- Bound(n);
      ghost var s := Rest();
      assert s[..n] == file[pos..pos + n] && s[n..] == file[pos + n..end];
      if !retain {
        pos := pos + n;
        return Ok([]);
      }
      if n > STRING_LIMIT {
        return Err(LongString);
      }
      var b := file[pos..pos + n];
      pos := pos + n;
      if !Utf8(b) {
        return Err(NotUtf8);
      }
      return Ok(b);
    }

    method Value(kind: nat, retain: bool, depth: nat) returns (r: Result<Scalar, Error>)
      requires Valid() && depth <= 2
      modifies this`pos
      ensures Valid()
      ensures match ReadValue(old(Rest()), kind, retain, depth)
        case Ok(x) => r == Ok(Summary(x.0, retain)) && Rest() == x.1
        case Err(e) => r == Err(e)
      decreases 3 - depth, 0
    {
      hide ReadText, ReadU32, ReadU64, FromLittleEndian;
      if depth > 1 {
        return Err(NestedArray);
      }
      if kind == 0 || kind == 2 || kind == 4 || kind == 10 {
        var b :- Take(Width(kind));
        return Ok(Integer(FromLittleEndian(b)));
      } else if kind == STRING {
        var t :- Text(retain);
        return Ok(Scalar.Text(t));
      } else if kind == ARRAY {
        var item :- U32();
        var n :- U64();
        if n > ARRAY_LIMIT || item == ARRAY {
          return Err(BadArray);
        }
        var _ :- Items(item, n, depth + 1);
        return Ok(Other);
      } else if Width(kind) > 0 {
        var _ :- Take(Width(kind));
        return Ok(Other);
      }
      return Err(UnknownType);
    }

    method Items(item: nat, n: nat, depth: nat) returns (r: Result<(), Error>)
      requires Valid() && depth <= 2
      modifies this`pos
      ensures Valid()
      ensures match ReadItems(old(Rest()), item, n, depth, [])
        case Ok(x) => r == Ok(()) && Rest() == x.1
        case Err(e) => r == Err(e)
      decreases 3 - depth, 1
    {
      ghost var done: seq<Gguf.Value> := [];
      for i := 0 to n
        invariant Valid()
        invariant ReadItems(Rest(), item, n - i, depth, done) == ReadItems(old(Rest()), item, n, depth, [])
      {
        hide ReadValue;
        ghost var v := ReadValue(Rest(), item, false, depth);
        var _ :- Value(item, false, depth);
        done := done + [v.value.0];
      }
      return Ok(());
    }

    /** The metadata loop. */
    method Metadata(n: nat) returns (r: Result<(map<Bytes, Scalar>, seq<Bytes>), Error>)
      requires Valid()
      modifies this`pos
      ensures Valid()
      ensures match ReadEntries(old(Rest()), n, [])
        case Ok(x) => r == Ok((Scalars(x.0), Keys(x.0))) && Rest() == x.1
        case Err(e) => r == Err(e)
    {
      hide ReadText, ReadU32, ReadValue, Summary, Retained, KeyTaken, Scalars, Keys;
      ghost var es: seq<Entry> := [];
      var scalars, keys := map[], [];
      NoEntries();
      for i := 0 to n
        invariant Valid()
        invariant ReadEntries(Rest(), n - i, es) == ReadEntries(old(Rest()), n, [])
        invariant scalars == Scalars(es) && keys == Keys(es)
      {
        ghost var s := Rest();
        var name :- Text(true);
        ScalarsHaveKeys(es, name);
        if name in scalars {
          return Err(DuplicateKey);
        }
        ghost var s1 := Rest();
        var kind :- U32();
        ghost var spec := ReadValue(Rest(), kind, Retained(name), 0);
        var value :- Value(kind, Retained(name), 0);
        ghost var e := Entry(name, spec.value.0);
        assert ReadEntry(s, es) == Ok((e, Rest()));
        MoreEntries(es, e);
        keys := keys + [name];
        scalars := scalars[name := value];
        es := es + [e];
      }
      return Ok((scalars, keys));
    }

    /** The dimension loop, with its running product. */
    method Dimensions(n: nat) returns (r: Result<(seq<nat>, nat), Error>)
      requires Valid()
      modifies this`pos
      ensures Valid()
      ensures match ReadDimensions(old(Rest()), n, [])
        case Ok(x) => r == Ok((x.0, Product(x.0))) && Rest() == x.1
        case Err(e) => r == Err(e)
    {
      hide ReadU64, Product;
      var ds: seq<nat>, elements := [], 1;
      assert Product([]) == 1 by { EmptyProduct(); }
      for i := 0 to n
        invariant Valid()
        invariant ReadDimensions(Rest(), n - i, ds) == ReadDimensions(old(Rest()), n, [])
        invariant elements == Product(ds)
      {
        var d :- U64();
        if d == 0 {
          return Err(ZeroDimension);
        }
        if elements * d >= TWO_64 {
          return Err(ShapeOverflow);
        }
        ProductSnoc(ds, d);
        elements := elements * d;
        ds := ds + [d];
      }
      return Ok((ds, elements));
    }

    method OneTensor(names: set<Bytes>, ghost seen: seq<Tensor>) returns (r: Result<Tensor, Error>)
      requires Valid()
      requires forall name :: name in names <==> TensorTaken(seen, name)
      modifies this`pos
      ensures Valid() && Reads(r, Rest(), ReadTensor(old(Rest()), seen))
    {
      hide ReadText, ReadU32, ReadU64, ReadDimensions, Product, Blocks, TensorTaken;
      var name :- Text(true);
      if name in names {
        return Err(DuplicateTensor);
      }
      var n :- U32();
      if n < 1 || n > 4 {
        return Err(BadDimensionCount);
      }
      ghost var s := Rest();
      var shape :- Dimensions(n);
      var (ds, elements) := shape;
      assert |ds| == n by {
        EmptyProduct();
        DimensionsRoundTrip(s, n, [], ds, Rest());
      }
      var encoding :- U32();
      var offset :- U64();
      var blocks := Blocks(encoding);
      if blocks.None? {
        return Err(UnknownEncoding);
      }
      var (block, size) := blocks.value;
      BlocksPositive(encoding);
      if ds[0] % block != 0 {
        return Err(PartialBlock);
      }
      var bytes := elements / block * size;
      if bytes >= TWO_64 {
        return Err(TensorOverflow);
      }
      return Ok(Tensor(name, ds, encoding, offset, bytes));
    }

    /** The tensor loop. */
    method Tensors(n: nat) returns (r: Result<seq<Tensor>, Error>)
      requires Valid()
      modifies this`pos
      ensures Valid() && Reads(r, Rest(), ReadTensors(old(Rest()), n, []))
    {
      hide ReadTensor, TensorTaken;
      var ts, names := [], {};
      assert forall name :: !TensorTaken([], name) by { NoTensors(); }
      for i := 0 to n
        invariant Valid()
        invariant ReadTensors(Rest(), n - i, ts) == ReadTensors(old(Rest()), n, [])
        invariant forall name :: name in names <==> TensorTaken(ts, name)
      {
        var t :- OneTensor(names, ts);
        forall name ensures TensorTaken(ts + [t], name) <==> TensorTaken(ts, name) || name == t.name {
          MoreTensors(ts, t, name);
        }
        names := names + {t.name};
        ts := ts + [t];
      }
      return Ok(ts);
    }

    method Counts() returns (r: Result<(nat, nat), Error>)
      requires Valid()
      modifies this`pos
      ensures Valid() && Reads(r, Rest(), ReadCounts(old(Rest())))
    {
      hide ReadU32, ReadU64;
      var magic :- Take(4);
      if magic != MAGIC {
        return Err(BadMagic);
      }
      var version :- U32();
      if version != VERSION {
        return Err(BadMagic);
      }
      var tensors :- U64();
      var entries :- U64();
      if tensors == 0 || tensors > COUNT_LIMIT || entries > COUNT_LIMIT {
        return Err(BadCounts);
      }
      return Ok((tensors, entries));
    }
  }

  lemma {:induction false} NoEntries()
    ensures Scalars([]) == map[] && Keys([]) == []
  {}

  lemma {:induction false} MoreEntries(es: seq<Entry>, e: Entry)
    ensures Scalars(es + [e]) == Scalars(es)[e.name := Summary(e.value, Retained(e.name))]
    ensures Keys(es + [e]) == Keys(es) + [e.name]
  {
    hide Summary, Retained;
    assert (es + [e])[..|es|] == es;
  }

  lemma {:induction false} ScalarsHaveKeys(es: seq<Entry>, name: Bytes)
    ensures name in Scalars(es) <==> KeyTaken(es, name)
  {
    hide Summary, Retained;
    if es != [] {
      var init := es[..|es| - 1];
      ScalarsHaveKeys(init, name);
      assert KeyTaken(es, name) <==> KeyTaken(init, name) || es[|es| - 1].name == name by {
        assert forall i :: 0 <= i < |init| ==> init[i] == es[i];
      }
    }
  }

  lemma {:induction false} NoTensors()
    ensures forall name :: !TensorTaken([], name)
  {}

  lemma {:induction false} MoreTensors(ts: seq<Tensor>, t: Tensor, name: Bytes)
    ensures TensorTaken(ts + [t], name) <==> TensorTaken(ts, name) || name == t.name
  {
    var more := ts + [t];
    assert more[|ts|] == t && forall i :: 0 <= i < |ts| ==> more[i] == ts[i];
  }

  // ---- the file ----

  method PlaceTensors(ts: seq<Tensor>, a: nat, dataStart: nat, fileBytes: nat) returns (r: Result<seq<Range>, Error>)
    requires a > 0 && fileBytes < TWO_64
    ensures match Misplaced(ts, 0, a, dataStart, fileBytes)
      case None => r == Ok(RangesOf(ts, dataStart))
      case Some(e) => r == Err(e)
  {
    var ranges := [];
    for i := 0 to |ts|
      invariant Misplaced(ts, i, a, dataStart, fileBytes) == Misplaced(ts, 0, a, dataStart, fileBytes)
      invariant ranges == RangesOf(ts[..i], dataStart)
    {
      if ts[i].offset % a != 0 {
        return Err(Unaligned);
      }
      var start := dataStart + ts[i].offset;
      if start >= TWO_64 || start + ts[i].bytes >= TWO_64 || start + ts[i].bytes > fileBytes {
        return Err(OutsideFile);
      }
      assert ts[..i + 1] == ts[..i] + [ts[i]];
      ranges := ranges + [Range(start, start + ts[i].bytes)];
    }
    assert ts[..|ts|] == ts;
    return Ok(ranges);
  }

  method AnyOverlap(rs: seq<Range>) returns (b: bool)
    ensures b <==> !NeighboursApart(rs)
  {
    var i := 0;
    while i + 1 < |rs|
      invariant i >= 0
      invariant forall j :: 0 <= j < i && j < |rs| - 1 ==> rs[j].end <= rs[j + 1].start
    {
      if rs[i].end > rs[i + 1].start {
        return true;
      }
      i := i + 1;
    }
    return false;
  }

  /** The part of the parser after the tensor loop. */
  method LayOut(scalars: map<Bytes, Scalar>, keys: seq<Bytes>, tensors: seq<Tensor>, pos: nat, fileBytes: nat, ghost d: Document)
    returns (r: Result<Directory, Error>)
    requires fileBytes < TWO_64
    requires scalars == Scalars(d.entries) && keys == Keys(d.entries) && tensors == d.tensors
    ensures r == Lay(d, pos, fileBytes)
  {
    hide Scalars, Keys, NeighboursApart, Sort, Misplaced, PowerOfTwo;
    var a :- Alignment(scalars);
    var dataStart := (pos + (a - 1)) / a * a;
    var ranges :- PlaceTensors(tensors, a, dataStart, fileBytes);
    var overlap := AnyOverlap(Sort(ranges));
    if overlap {
      return Err(Overlapping);
    }
    return Ok(Directory(scalars, keys, tensors, dataStart, fileBytes));
  }

  /** The part of the parser up to the tensor loop. */
  method ReadHeader(reader: Reader) returns (r: Result<(map<Bytes, Scalar>, seq<Bytes>, seq<Tensor>), Error>)
    requires reader.Valid()
    modifies reader`pos
    ensures reader.Valid()
    ensures match ReadDocument(old(reader.Rest()))
      case Ok(x) => r == Ok((Scalars(x.0.entries), Keys(x.0.entries), x.0.tensors)) && reader.Rest() == x.1
      case Err(e) => r == Err(e)
  {
    hide ReadCounts, ReadEntries, ReadTensors, Scalars, Keys, Shards;
    var counts :- reader.Counts();
    ghost var s := reader.Rest();
    var metadata :- reader.Metadata(counts.1);
    var (scalars, keys) := metadata;
    ShardKeys(ReadEntries(s, counts.1, []).value.0);
    if exists key :: key in scalars && SPLIT <= key {
      return Err(Sharded);
    }
    var tensors :- reader.Tensors(counts.0);
    return Ok((scalars, keys, tensors));
  }

  method ParseFile(file: File) returns (r: Result<Directory, Error>)
    ensures r == Parse(file)
  {
    hide ReadDocument, Scalars, Keys, Lay;
    var reader := new Reader(file);
    ghost var spec := ReadDocument(reader.Rest());
    var header := ReadHeader(reader);
    if header.Err? {
      return Err(header.error);
    }
    var (scalars, keys, tensors) := header.value;
    assert reader.pos == HeaderEnd(file) - |spec.value.1|;
    r := LayOut(scalars, keys, tensors, reader.pos, |file|, spec.value.0);
  }

  lemma {:induction false} ShardKeys(es: seq<Entry>)
    ensures Shards(es) <==> exists key :: key in Scalars(es) && SPLIT <= key
  {
    hide Scalars;
    if Shards(es) {
      var i :| 0 <= i < |es| && SPLIT <= es[i].name;
      ScalarsHaveKeys(es, es[i].name);
    }
    if key :| key in Scalars(es) && SPLIT <= key {
      ScalarsHaveKeys(es, key);
    }
  }

  /** The weight sum; for a parsed file its overflow branch is never taken. */
  method WeightBytes(d: Directory) returns (r: Result<nat, ()>)
    ensures r == if TotalBytes(d.tensors) < TWO_64 then Ok(TotalBytes(d.tensors)) else Err(())
    ensures (exists file :: Parse(file) == Ok(d)) ==> r == Ok(TotalBytes(d.tensors)) && r.value <= d.fileBytes - d.dataStart
  {
    if file :| Parse(file) == Ok(d) {
      AcceptedTensors(file, d);
    }
    var sum := 0;
    for i := 0 to |d.tensors|
      invariant sum == TotalBytes(d.tensors[..i]) < TWO_64
    {
      assert d.tensors[..i + 1][..i] == d.tensors[..i];
      TotalGrows(d.tensors, i + 1);
      if sum + d.tensors[i].bytes >= TWO_64 {
        return Err(());
      }
      sum := sum + d.tensors[i].bytes;
    }
    assert d.tensors[..|d.tensors|] == d.tensors;
    return Ok(sum);
  }

  lemma {:induction false} TotalGrows(ts: seq<Tensor>, k: nat)
    requires k <= |ts|
    ensures TotalBytes(ts[..k]) <= TotalBytes(ts)
  {
    if k < |ts| {
      TotalGrows(ts[..|ts| - 1], k);
      assert ts[..|ts| - 1][..k] == ts[..k];
    } else {
      assert ts[..k] == ts;
    }
  }
}
