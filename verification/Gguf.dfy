/**
 The GGUF v3 header: its grammar as a writer, and the bounded reader that takes it apart.
 A writer puts a thing in front of the bytes that follow it; a reader splits it off again.
 */
module Gguf {
  import opened Prelude
  import opened Binary

  const HEADER_LIMIT := 128 * 1024 * 1024
  const STRING_LIMIT := 1024 * 1024
  const ARRAY_LIMIT := 2_000_000
  const COUNT_LIMIT := 100_000

  type U32 = n: int | 0 <= n < TWO_32
  type U64 = n: int | 0 <= n < TWO_64

  datatype Error =
    | HeaderLimit | LongString | NotUtf8 | NestedArray | BadArray | UnknownType
    | BadMagic | BadCounts | DuplicateKey | Sharded | DuplicateTensor | BadDimensionCount | ZeroDimension
    | ShapeOverflow | UnknownEncoding | PartialBlock | TensorOverflow
    | BadAlignment | Unaligned | OutsideFile | Overlapping

  type Read<T> = Result<(T, Bytes), Error>

  function Ascii(s: string): Bytes
    requires forall i :: 0 <= i < |s| ==> s[i] < 128 as char
  {
    seq(|s|, i requires 0 <= i < |s| => s[i] as int)
  }

  predicate Tail(b: Byte) { 0x80 <= b <= 0xBF }

  /** Well-formed UTF-8: shortest form, no surrogates, at most U+10FFFF. */
  predicate Utf8(b: Bytes)
    decreases |b|
  {
    if b == [] then true
    else if b[0] < 0x80 then Utf8(b[1..])
    else if 0xC2 <= b[0] <= 0xDF then |b| >= 2 && Tail(b[1]) && Utf8(b[2..])
    else if 0xE0 <= b[0] <= 0xEF then
      && |b| >= 3 && Tail(b[1]) && Tail(b[2])
      && (b[0] == 0xE0 ==> b[1] >= 0xA0) && (b[0] == 0xED ==> b[1] < 0xA0)
      && Utf8(b[3..])
    else if 0xF0 <= b[0] <= 0xF4 then
      && |b| >= 4 && Tail(b[1]) && Tail(b[2]) && Tail(b[3])
      && (b[0] == 0xF0 ==> b[1] >= 0x90) && (b[0] == 0xF4 ==> b[1] < 0x90)
      && Utf8(b[4..])
    else false
  }

  // ---- numbers and strings ----

  function ReadBytes(s: Bytes, n: nat): (r: Read<Bytes>)
    ensures r.Ok? ==> |r.value.1| <= |s|
  {
    if n > |s| then Err(HeaderLimit) else Ok((s[..n], s[n..]))
  }

  function ReadNumber(s: Bytes, width: nat): (r: Read<nat>)
    ensures r.Ok? ==> |r.value.1| <= |s|
  {
    var (b, rest) :- ReadBytes(s, width);
    Ok((FromLittleEndian(b), rest))
  }

  function ReadU32(s: Bytes): (r: Read<U32>)
    ensures r.Ok? ==> |r.value.1| <= |s|
  {
    Reencode(s, 4);
    var (n, rest) :- ReadNumber(s, 4);
    Ok((n, rest))
  }

  function ReadU64(s: Bytes): (r: Read<U64>)
    ensures r.Ok? ==> |r.value.1| <= |s|
  {
    Reencode(s, 8);
    var (n, rest) :- ReadNumber(s, 8);
    Ok((n, rest))
  }

  lemma {:induction false} Reencode(s: Bytes, width: nat)
    requires width == 4 || width == 8
    ensures ReadNumber(s, width).Ok? ==> ReadNumber(s, width).value.0 < if width == 4 then TWO_32 else TWO_64
  {
    Widths();
    if width <= |s| {
      Reencoded(s[..width]);
    }
  }

  function PutU32(n: nat, rest: Bytes): Bytes { LittleEndian(n, 4) + rest }

  function PutU64(n: nat, rest: Bytes): Bytes { LittleEndian(n, 8) + rest }

  lemma {:induction false} U32RoundTrip(s: Bytes, n: U32, rest: Bytes)
    ensures ReadU32(s) == Ok((n, rest)) <==> s == PutU32(n, rest)
  {
    NumberRoundTrip(s, n, 4, rest);
  }

  lemma {:induction false} U64RoundTrip(s: Bytes, n: U64, rest: Bytes)
    ensures ReadU64(s) == Ok((n, rest)) <==> s == PutU64(n, rest)
  {
    NumberRoundTrip(s, n, 8, rest);
  }

  lemma {:induction false} NumberRoundTrip(s: Bytes, n: nat, width: nat, rest: Bytes)
    requires n < if width == 4 then TWO_32 else TWO_64
    requires width == 4 || width == 8
    ensures ReadNumber(s, width) == Ok((n, rest)) <==> s == LittleEndian(n, width) + rest
  {
    hide LittleEndian, FromLittleEndian, Pow256;
    Widths();
    Decoded(n, width);
    if width <= |s| {
      Reencoded(s[..width]);
      assert s == s[..width] + s[width..];
    }
    var whole := LittleEndian(n, width) + rest;
    assert whole[..width] == LittleEndian(n, width) && whole[width..] == rest;
  }

  predicate TextOk(t: Bytes, retain: bool) {
    |t| < TWO_64 && (retain ==> |t| <= STRING_LIMIT && Utf8(t))
  }

  function ReadText(s: Bytes, retain: bool): (r: Read<Bytes>)
    ensures r.Ok? ==> |r.value.1| <= |s|
  {
    var (n, s1) :- ReadU64(s);
    if n > |s1| then Err(HeaderLimit)
    else if retain && n > STRING_LIMIT then Err(LongString)
    else if retain && !Utf8(s1[..n]) then Err(NotUtf8)
    else Ok((s1[..n], s1[n..]))
  }

  function PutText(t: Bytes, rest: Bytes): Bytes { PutU64(|t|, t + rest) }

  lemma {:induction false} TextRoundTrip(s: Bytes, retain: bool, t: Bytes, rest: Bytes)
    ensures ReadText(s, retain) == Ok((t, rest)) <==> TextOk(t, retain) && s == PutText(t, rest)
  {
    hide ReadU64, PutU64, Utf8;
    if ReadU64(s).Ok? {
      var (n, s1) := ReadU64(s).value;
      U64RoundTrip(s, n, s1);
      if n <= |s1| {
        assert s1 == s1[..n] + s1[n..];
      }
    }
    if |t| < TWO_64 && s == PutText(t, rest) {
      U64RoundTrip(s, |t|, t + rest);
      assert (t + rest)[..|t|] == t && (t + rest)[|t|..] == rest;
    }
  }

  // ---- metadata values ----

  /** A value as the file holds it: scalars of fixed width, strings, and arrays of either. */
  datatype Value = Fixed(kind: nat, payload: Bytes) | Str(text: Bytes) | Array(item: nat, items: seq<Value>)

  /** What the reader keeps of a value. */
  datatype Scalar = Integer(n: nat) | Text(text: Bytes) | Other

  const STRING := 8
  const ARRAY := 9

  /** The size of a scalar type; strings, arrays and unknown types have none. */
  function Width(kind: nat): nat {
    if kind == 0 || kind == 1 || kind == 7 then 1
    else if kind == 2 || kind == 3 then 2
    else if kind == 4 || kind == 5 || kind == 6 then 4
    else if kind == 10 || kind == 11 || kind == 12 then 8
    else 0
  }

  /** One byte for the 8-bit integers and booleans, two, four and eight for the wider numbers, and no other scalar types. */
  lemma {:induction false} ScalarWidths(kind: nat)
    ensures Width(kind) == 1 <==> kind in {0, 1, 7}
    ensures Width(kind) == 2 <==> kind in {2, 3}
    ensures Width(kind) == 4 <==> kind in {4, 5, 6}
    ensures Width(kind) == 8 <==> kind in {10, 11, 12}
    ensures Width(kind) in {0, 1, 2, 4, 8}
  {}

  function Type(v: Value): nat {
    match v
    case Fixed(kind, _) => kind
    case Str(_) => STRING
    case Array(_, _) => ARRAY
  }

  /** Unsigned integers are kept, strings if their key is of interest, and nothing else. */
  function Summary(v: Value, retain: bool): Scalar {
    match v
    case Fixed(kind, payload) =>
      if kind == 0 || kind == 2 || kind == 4 || kind == 10 then Integer(FromLittleEndian(payload)) else Other
    case Str(text) => Text(if retain then text else [])
    case Array(_, _) => Other
  }

  predicate ValueOk(v: Value, retain: bool) {
    match v
    case Fixed(kind, payload) => Width(kind) > 0 && |payload| == Width(kind)
    case Str(text) => TextOk(text, retain)
    case Array(item, items) =>
      && item < TWO_32 && item != ARRAY && |items| <= ARRAY_LIMIT
      && forall i :: 0 <= i < |items| ==> Type(items[i]) == item && ValueOk(items[i], false)
  }

  function PutValue(v: Value, rest: Bytes): Bytes
    decreases v, 0
  {
    match v
    case Fixed(_, payload) => payload + rest
    case Str(text) => PutText(text, rest)
    case Array(item, items) => PutU32(item, PutU64(|items|, PutItems(items, 0, rest)))
  }

  function PutItems(items: seq<Value>, i: nat, rest: Bytes): Bytes
    requires i <= |items|
    decreases items, |items| - i
  {
    if i == |items| then rest else PutValue(items[i], PutItems(items, i + 1, rest))
  }

  function ReadValue(s: Bytes, kind: nat, retain: bool, depth: nat): (r: Read<Value>)
    requires depth <= 2
    ensures r.Ok? ==> |r.value.1| <= |s|
    decreases 3 - depth, 0, 0
  {
    if depth > 1 then Err(NestedArray)
    else if Width(kind) > 0 then
      var (b, s1) :- ReadBytes(s, Width(kind));
      Ok((Fixed(kind, b), s1))
    else if kind == STRING then
      var (t, s1) :- ReadText(s, retain);
      Ok((Str(t), s1))
    else if kind == ARRAY then
      var (item, s1) :- ReadU32(s);
      var (n, s2) :- ReadU64(s1);
      if n > ARRAY_LIMIT || item == ARRAY then Err(BadArray)
      else
        var (items, s3) :- ReadItems(s2, item, n, depth + 1, []);
        Ok((Array(item, items), s3))
    else Err(UnknownType)
  }

  /** n more items after those in done. */
  function ReadItems(s: Bytes, item: nat, n: nat, depth: nat, done: seq<Value>): (r: Read<seq<Value>>)
    requires depth <= 2
    ensures r.Ok? ==> |r.value.1| <= |s|
    decreases 3 - depth, 1, n
  {
    if n == 0 then Ok((done, s))
    else
      var (v, s1) :- ReadValue(s, item, false, depth);
      ReadItems(s1, item, n - 1, depth, done + [v])
  }

  lemma {:induction false} FixedRoundTrip(s: Bytes, kind: nat, v: Value, rest: Bytes, retain: bool, depth: nat)
    requires Width(kind) > 0 && depth <= 1
    ensures ReadValue(s, kind, retain, depth) == Ok((v, rest)) <==> ValueOk(v, retain) && Type(v) == kind && s == PutValue(v, rest)
  {
    var n := Width(kind);
    if n <= |s| {
      assert s == s[..n] + s[n..];
    }
    if v.Fixed? && |v.payload| == n {
      var whole := v.payload + rest;
      assert whole[..n] == v.payload && whole[n..] == rest;
    }
  }

  lemma {:induction false} ItemsRoundTrip(s: Bytes, item: nat, n: nat, done: seq<Value>, items: seq<Value>, rest: Bytes)
    requires item != ARRAY
    ensures ReadItems(s, item, n, 1, done) == Ok((items, rest))
       <==> && |items| == |done| + n && done <= items
            && (forall i :: |done| <= i < |items| ==> Type(items[i]) == item && ValueOk(items[i], false))
            && s == PutItems(items, |done|, rest)
    decreases 2, 1, n
  {
    hide ReadValue, PutValue, ValueOk, Type;
    if n == 0 {
      assert |items| == |done| && done <= items <==> items == done;
    } else {
      var k := |done|;
      if ReadValue(s, item, false, 1).Ok? {
        var (v, s1) := ReadValue(s, item, false, 1).value;
        ValueRoundTrip(s, item, false, 1, v, s1);
        ItemsRoundTrip(s1, item, n - 1, done + [v], items, rest);
        assert done + [v] <= items <==> k < |items| && done <= items && items[k] == v;
      }
      if k < |items| {
        var s1 := PutItems(items, k + 1, rest);
        ValueRoundTrip(s, item, false, 1, items[k], s1);
      }
    }
  }

  lemma {:induction false} ValueRoundTrip(s: Bytes, kind: nat, retain: bool, depth: nat, v: Value, rest: Bytes)
    requires depth == 0 || (depth == 1 && kind != ARRAY)
    ensures ReadValue(s, kind, retain, depth) == Ok((v, rest)) <==> ValueOk(v, retain) && Type(v) == kind && s == PutValue(v, rest)
    decreases 3 - depth, 0, 0
  {
    hide ReadU32, ReadU64, ReadText, PutU32, PutU64, PutText, TextOk;
    if Width(kind) > 0 {
      FixedRoundTrip(s, kind, v, rest, retain, depth);
    } else if kind == STRING {
      if ReadText(s, retain).Ok? {
        var (t, s1) := ReadText(s, retain).value;
        TextRoundTrip(s, retain, t, s1);
        assert ReadValue(s, STRING, retain, depth) == Ok((Str(t), s1));
      }
      if v.Str? {
        TextRoundTrip(s, retain, v.text, rest);
      }
    } else if kind == ARRAY {
      ArrayRoundTrip(s, retain, v, rest);
    }
  }

  lemma {:induction false} ArrayRoundTrip(s: Bytes, retain: bool, v: Value, rest: Bytes)
    ensures ReadValue(s, ARRAY, retain, 0) == Ok((v, rest)) <==> ValueOk(v, retain) && v.Array? && s == PutValue(v, rest)
    decreases 2, 2, 0
  {
    hide ReadU32, ReadU64, ReadItems, PutU32, PutU64, PutItems;
    if ReadValue(s, ARRAY, retain, 0) == Ok((v, rest)) {
      var (item, s1) := ReadU32(s).value;
      var (n, s2) := ReadU64(s1).value;
      U32RoundTrip(s, item, s1);
      U64RoundTrip(s1, n, s2);
      var (items, s3) := ReadItems(s2, item, n, 1, []).value;
      assert v == Array(item, items) && s3 == rest;
      ItemsRoundTrip(s2, item, n, [], v.items, rest);
    }
    if v.Array? && ValueOk(v, retain) && s == PutValue(v, rest) {
      var s2 := PutItems(v.items, 0, rest);
      var s1 := PutU64(|v.items|, s2);
      U32RoundTrip(s, v.item, s1);
      U64RoundTrip(s1, |v.items|, s2);
      ItemsRoundTrip(s2, v.item, |v.items|, [], v.items, rest);
      assert ReadItems(s2, v.item, |v.items|, 1, []) == Ok((v.items, rest));
    }
  }
}
