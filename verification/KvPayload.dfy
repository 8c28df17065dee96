/** The size of the attention cache a dense llama model needs, in checked 64-bit arithmetic. */
module KvPayload {
  import opened Prelude
  import opened Binary
  import opened Gguf
  import opened GgufDirectory
  import opened GgufFile

  datatype Codec = F16 | Q4_0 | Q8_0

  datatype Refusal =
    | NotPositive | NotLlama | BadInteger | LongContext | UnsupportedFeature | BadGeometry | BadLayerCount
    | RowOverflow | MissingMatrix | WrongShape | PartialRow | PayloadOverflow

  /** Elements per block and bytes per block. */
  function Layout(c: Codec): (nat, nat) {
    match c
    case F16 => (1, 2)
    case Q4_0 => (32, 18)
    case Q8_0 => (32, 34)
  }

  const BLOCK_COUNT := Ascii("llama.block_count")
  const CONTEXT_LENGTH := Ascii("llama.context_length")
  const EMBEDDING_LENGTH := Ascii("llama.embedding_length")
  const HEAD_COUNT := Ascii("llama.attention.head_count")
  const HEAD_COUNT_KV := Ascii("llama.attention.head_count_kv")
  const KEY_LENGTH := Ascii("llama.attention.key_length")
  const VALUE_LENGTH := Ascii("llama.attention.value_length")
  const FEED_FORWARD_LENGTH := Ascii("llama.feed_forward_length")
  const RMS_EPSILON := Ascii("llama.attention.layer_norm_rms_epsilon")
  const ROPE_DIMENSION_COUNT := Ascii("llama.rope.dimension_count")
  const ROPE_FREQ_BASE := Ascii("llama.rope.freq_base")
  const ROPE_SCALING := Ascii("llama.rope.scaling.")
  const VOCAB_SIZE := Ascii("llama.vocab_size")
  const LAYER_LIMIT := 100_000

  /** The metadata that does not change how the full history is held. */
  predicate Understood(key: Bytes) {
    || key == BLOCK_COUNT || key == CONTEXT_LENGTH || key == EMBEDDING_LENGTH || key == FEED_FORWARD_LENGTH
    || key == HEAD_COUNT || key == HEAD_COUNT_KV || key == KEY_LENGTH || key == VALUE_LENGTH || key == RMS_EPSILON
    || key == ROPE_DIMENSION_COUNT || key == ROPE_FREQ_BASE || key == VOCAB_SIZE || ROPE_SCALING <= key
  }

  predicate Features(d: Directory) { forall key :: key in d.scalars && LLAMA <= key ==> Understood(key) }

  predicate IsLlama(d: Directory) { ARCHITECTURE in d.scalars && d.scalars[ARCHITECTURE] == Text(Ascii("llama")) }

  /** An integer of the metadata, or 0 where it is missing or of another type. */
  function Int(d: Directory, key: Bytes): nat {
    if key in d.scalars && d.scalars[key].Integer? then d.scalars[key].n else 0
  }

  function Hidden(d: Directory): nat { Int(d, EMBEDDING_LENGTH) }

  function Heads(d: Directory): nat { Int(d, HEAD_COUNT) }

  function KvHeads(d: Directory): nat { Int(d, HEAD_COUNT_KV) }

  function Layers(d: Directory): nat { Int(d, BLOCK_COUNT) }

  /** A head's width: stated, or an equal part of the hidden size. */
  function HeadWidth(d: Directory, key: Bytes): nat {
    if key in d.scalars then Int(d, key) else if Heads(d) == 0 then 0 else Hidden(d) / Heads(d)
  }

  function KeyWidth(d: Directory): nat { HeadWidth(d, KEY_LENGTH) }

  function ValueWidth(d: Directory): nat { HeadWidth(d, VALUE_LENGTH) }

  function Digits(n: nat): Bytes {
    if n < 10 then [48 + n] else Digits(n / 10) + [48 + n % 10]
  }

  datatype Role = Query | KeyRole | ValueRole

  function MatrixName(layer: nat, role: Role): Bytes {
    Ascii("blk.") + Digits(layer)
    + match role
      case Query => Ascii(".attn_q.weight")
      case KeyRole => Ascii(".attn_k.weight")
      case ValueRole => Ascii(".attn_v.weight")
  }

  function Rows(d: Directory, role: Role): nat {
    match role
    case Query => Heads(d) * KeyWidth(d)
    case KeyRole => KvHeads(d) * KeyWidth(d)
    case ValueRole => KvHeads(d) * ValueWidth(d)
  }

  /** The first tensor of that name. */
  function Named(ts: seq<Tensor>, i: nat, name: Bytes): Option<Tensor>
    requires i <= |ts|
    decreases |ts| - i
  {
    if i == |ts| then None else if ts[i].name == name then Some(ts[i]) else Named(ts, i + 1, name)
  }

  predicate HasMatrix(d: Directory, layer: nat, role: Role) {
    var t := Named(d.tensors, 0, MatrixName(layer, role));
    t.Some? && t.value.dimensions == [Hidden(d), Rows(d, role)]
  }

  predicate HasLayer(d: Directory, layer: nat) {
    HasMatrix(d, layer, Query) && HasMatrix(d, layer, KeyRole) && HasMatrix(d, layer, ValueRole)
  }

  /** Grouped-query attention as the metadata states it. */
  predicate Grouped(d: Directory) {
    && Heads(d) > 0 && Hidden(d) > 0 && KvHeads(d) > 0 && Hidden(d) % Heads(d) == 0 && Heads(d) % KvHeads(d) == 0
    && KeyWidth(d) > 0 && ValueWidth(d) > 0
  }

  /** The model's metadata is understood, and every layer's matrices have the shapes it implies. */
  ghost predicate DenseLlama(d: Directory) {
    && IsLlama(d) && Features(d) && Grouped(d) && 0 < Layers(d) <= LAYER_LIMIT
    && forall layer :: 0 <= layer < Layers(d) ==> HasLayer(d, layer)
  }

  predicate Wanted(d: Directory, context: nat, concurrency: nat) {
    0 < context <= Int(d, CONTEXT_LENGTH) && concurrency > 0
  }

  predicate WholeRows(d: Directory, c: Codec) {
    (KeyWidth(d) * KvHeads(d)) % Layout(c).0 == 0 && (ValueWidth(d) * KvHeads(d)) % Layout(c).0 == 0
  }

  function RowBytes(width: nat, heads: nat, c: Codec): nat {
    width * heads / Layout(c).0 * Layout(c).1
  }

  const CELL := 256

  /** The payload without regard to word size. */
  function Payload(d: Directory, context: nat, concurrency: nat, c: Codec): nat {
    (RowBytes(KeyWidth(d), KvHeads(d), c) + RowBytes(ValueWidth(d), KvHeads(d), c))
    * Layers(d) * RoundUp(context, CELL) * concurrency
  }

  /** Every number of the directory is a u64, as it is after parsing. */
  ghost predicate Words(d: Directory) {
    && (forall key :: key in d.scalars && d.scalars[key].Integer? ==> d.scalars[key].n < TWO_64)
    && (forall i :: 0 <= i < |d.tensors| ==> DimensionsOk(d.tensors[i].dimensions, 0))
  }

  function FromDigits(b: Bytes): int {
    if b == [] then 0 else 10 * FromDigits(b[..|b| - 1]) - 48 + b[|b| - 1]
  }

  /** Layers are numbered in decimal, without a leading zero. */
  lemma {:induction false} DigitsAreDecimal(n: nat)
    ensures FromDigits(Digits(n)) == n && forall i :: 0 <= i < |Digits(n)| ==> 48 <= Digits(n)[i] <= 57
    ensures |Digits(n)| > 1 ==> Digits(n)[0] != 48
  {
    if n < 10 {
      assert Digits(n)[..0] == [];
    } else {
      DigitsAreDecimal(n / 10);
      assert Digits(n)[..|Digits(n)| - 1] == Digits(n / 10);
      assert Digits(n)[0] == Digits(n / 10)[0];
    }
  }

  // ---- checks ----

  method Integer(d: Directory, key: Bytes) returns (r: Result<nat, Refusal>)
    ensures r == if Int(d, key) > 0 then Ok(Int(d, key)) else Err(BadInteger)
  {
    if key in d.scalars && d.scalars[key].Integer? && d.scalars[key].n > 0 {
      return Ok(d.scalars[key].n);
    }
    return Err(BadInteger);
  }

  method WidthOf(d: Directory, key: Bytes, hidden: nat, heads: nat) returns (r: Result<nat, Refusal>)
    requires hidden == Hidden(d) > 0 && heads == Heads(d) > 0 && hidden % heads == 0
    ensures r.Ok? <==> HeadWidth(d, key) > 0
    ensures r.Ok? ==> r.value == HeadWidth(d, key)
  {
    if key in d.scalars {
      r := Integer(d, key);
    } else {
      PositiveQuotient(hidden, heads);
      return Ok(hidden / heads);
    }
  }

  lemma {:induction false} PositiveQuotient(a: nat, b: nat)
    requires a > 0 && b > 0 && a % b == 0
    ensures a / b > 0
  {}

  method Find(ts: seq<Tensor>, name: Bytes) returns (t: Option<Tensor>)
    ensures t == Named(ts, 0, name)
  {
    for i := 0 to |ts|
      invariant Named(ts, i, name) == Named(ts, 0, name)
    {
      if ts[i].name == name {
        return Some(ts[i]);
      }
    }
    return None;
  }

  lemma {:induction false} NamedIn(ts: seq<Tensor>, i: nat, name: Bytes)
    requires i <= |ts|
    ensures Named(ts, i, name).Some? ==> Named(ts, i, name).value in ts
    decreases |ts| - i
  {
    if i < |ts| && ts[i].name != name {
      NamedIn(ts, i + 1, name);
    }
  }

  /** A matrix that is present has a row count that fits a word. */
  lemma {:induction false} RowsFit(d: Directory, layer: nat, role: Role)
    requires Words(d) && HasMatrix(d, layer, role)
    ensures Rows(d, role) < TWO_64
  {
    hide Rows, MatrixName;
    NamedIn(d.tensors, 0, MatrixName(layer, role));
    var ds := Named(d.tensors, 0, MatrixName(layer, role)).value.dimensions;
    assert DimensionsOk(ds, 0) && ds[1] == Rows(d, role);
  }

  method CheckMatrix(d: Directory, layer: nat, role: Role, hidden: nat, rows: nat) returns (r: Result<(), Refusal>)
    requires Words(d) && hidden == Hidden(d) && rows == Rows(d, role)
    ensures r.Ok? <==> HasMatrix(d, layer, role)
  {
    hide MatrixName, Rows, Named;
    if rows >= TWO_64 {
      if HasMatrix(d, layer, role) {
        RowsFit(d, layer, role);
        assert false;
      }
      return Err(RowOverflow);
    }
    var t := Find(d.tensors, MatrixName(layer, role));
    if t.None? {
      return Err(MissingMatrix);
    }
    if t.value.dimensions != [hidden, rows] {
      return Err(WrongShape);
    }
    return Ok(());
  }

  method CheckLayer(d: Directory, layer: nat, hidden: nat, heads: nat, kv: nat, wk: nat, wv: nat) returns (r: Result<(), Refusal>)
    requires Words(d) && hidden == Hidden(d) && heads == Heads(d) && kv == KvHeads(d) && wk == KeyWidth(d) && wv == ValueWidth(d)
    ensures r.Ok? <==> HasLayer(d, layer)
  {
    hide HasMatrix, Words, Hidden, Heads, KvHeads, KeyWidth, ValueWidth;
    var _ :- CheckMatrix(d, layer, Query, hidden, heads * wk);
    var _ :- CheckMatrix(d, layer, KeyRole, hidden, kv * wk);
    var _ :- CheckMatrix(d, layer, ValueRole, hidden, kv * wv);
    return Ok(());
  }

  method CheckLayers(d: Directory, layers: nat, hidden: nat, heads: nat, kv: nat, wk: nat, wv: nat) returns (r: Result<(), Refusal>)
    requires Words(d) && hidden == Hidden(d) && heads == Heads(d) && kv == KvHeads(d) && wk == KeyWidth(d) && wv == ValueWidth(d)
    ensures r.Ok? <==> forall layer :: 0 <= layer < layers ==> HasLayer(d, layer)
  {
    hide HasLayer, Words, Hidden, Heads, KvHeads, KeyWidth, ValueWidth;
    for layer := 0 to layers
      invariant forall l :: 0 <= l < layer ==> HasLayer(d, l)
    {
      var _ :- CheckLayer(d, layer, hidden, heads, kv, wk, wv);
    }
    return Ok(());
  }

  method Row(w: nat, kv: nat, c: Codec) returns (r: Result<nat, Refusal>)
    ensures r.Ok? <==> w * kv < TWO_64 && (w * kv) % Layout(c).0 == 0 && RowBytes(w, kv, c) < TWO_64
    ensures r.Ok? ==> r.value == RowBytes(w, kv, c)
  {
    var (block, size) := Layout(c);
    var n := w * kv;
    if n >= TWO_64 {
      return Err(RowOverflow);
    }
    if n % block != 0 {
      return Err(PartialRow);
    }
    if n / block * size >= TWO_64 {
      return Err(RowOverflow);
    }
    return Ok(n / block * size);
  }

  // ---- the product ----

  lemma {:induction false} Product4(a: nat, b: nat, c: nat, d: nat)
    requires b > 0 && c > 0 && d > 0
    ensures a <= a * b <= a * b * c <= a * b * c * d
    ensures a > 0 ==> c <= a * b * c
  {
    GrowingProduct(a, b);
    GrowingProduct(a * b, c);
    GrowingProduct(a * b * c, d);
    if a > 0 {
      GrowingProduct(c, a * b);
    }
  }

  /** Multiplying step by step, each step checked, fails exactly if the whole product does not fit. */
  method CheckedProduct(a: nat, layers: nat, cells: nat, concurrency: nat) returns (r: Result<nat, Refusal>)
    requires layers > 0 && cells > 0 && concurrency > 0
    ensures r.Ok? <==> a * layers * cells * concurrency < TWO_64
    ensures r.Ok? ==> r.value == a * layers * cells * concurrency
  {
    Product4(a, layers, cells, concurrency);
    var v := a;
    if v >= TWO_64 {
      return Err(PayloadOverflow);
    }
    v := v * layers;
    if v >= TWO_64 {
      return Err(PayloadOverflow);
    }
    v := v * cells;
    if v >= TWO_64 {
      return Err(PayloadOverflow);
    }
    v := v * concurrency;
    if v >= TWO_64 {
      return Err(PayloadOverflow);
    }
    return Ok(v);
  }

  lemma {:induction false} PositiveRow(w: nat, kv: nat, c: Codec)
    requires w > 0 && kv > 0 && (w * kv) % Layout(c).0 == 0
    ensures RowBytes(w, kv, c) > 0
  {
    GrowingProduct(w, kv);
    PositiveQuotient(w * kv, Layout(c).0);
  }

  lemma {:induction false} RoundedContext(context: nat)
    ensures context <= RoundUp(context, CELL)
    ensures context + 255 >= TWO_64 <==> RoundUp(context, CELL) >= TWO_64
  {}

  /** Too wide a row or too long a context already makes the whole product too large. */
  lemma {:induction false} PayloadBounds(d: Directory, context: nat, concurrency: nat, c: Codec)
    requires Grouped(d) && WholeRows(d, c) && Layers(d) > 0 && context > 0 && concurrency > 0
    ensures RowBytes(KeyWidth(d), KvHeads(d), c) <= Payload(d, context, concurrency, c)
    ensures RowBytes(ValueWidth(d), KvHeads(d), c) <= Payload(d, context, concurrency, c)
    ensures RoundUp(context, CELL) <= Payload(d, context, concurrency, c)
  {
    hide RowBytes, RoundUp, Layers, KeyWidth, ValueWidth, KvHeads, Hidden, Heads, Layout;
    var k, v := RowBytes(KeyWidth(d), KvHeads(d), c), RowBytes(ValueWidth(d), KvHeads(d), c);
    RoundedContext(context);
    PositiveRow(KeyWidth(d), KvHeads(d), c);
    Product4(k + v, Layers(d), RoundUp(context, CELL), concurrency);
  }

  /**
   The payload is reported exactly if the geometry is accepted and the product fits 64 bits, and it is then that product:
   no order of the checked steps fails on a product that fits.
   */
  method Compute(d: Directory, context: nat, concurrency: nat, c: Codec) returns (r: Result<nat, Refusal>)
    requires Words(d)
    ensures r.Ok? <==> Wanted(d, context, concurrency) && DenseLlama(d) && WholeRows(d, c) && Payload(d, context, concurrency, c) < TWO_64
    ensures r.Ok? ==> r.value == Payload(d, context, concurrency, c)
  {
    hide HasLayer, Understood, RowBytes, Int, Words, RoundUp, Layout;
    if context == 0 || concurrency == 0 {
      return Err(NotPositive);
    }
    if !(ARCHITECTURE in d.scalars && d.scalars[ARCHITECTURE] == Text(Ascii("llama"))) {
      return Err(NotLlama);
    }
    var trained :- Integer(d, CONTEXT_LENGTH);
    if context > trained {
      return Err(LongContext);
    }
    if exists key :: key in d.scalars && LLAMA <= key && !Understood(key) {
      return Err(UnsupportedFeature);
    }
    var heads :- Integer(d, HEAD_COUNT);
    var hidden :- Integer(d, EMBEDDING_LENGTH);
    var kv :- Integer(d, HEAD_COUNT_KV);
    if hidden % heads != 0 || heads % kv != 0 {
      return Err(BadGeometry);
    }
    var wk :- WidthOf(d, KEY_LENGTH, hidden, heads);
    var wv :- WidthOf(d, VALUE_LENGTH, hidden, heads);
    var layers :- Integer(d, BLOCK_COUNT);
    if layers > LAYER_LIMIT {
      return Err(BadLayerCount);
    }
    var _ :- CheckLayers(d, layers, hidden, heads, kv, wk, wv);
    r := Arithmetic(d, context, concurrency, c, layers, kv, wk, wv);
  }

  /** The closing arithmetic, on accepted geometry. */
  method Arithmetic(d: Directory, context: nat, concurrency: nat, c: Codec, layers: nat, kv: nat, wk: nat, wv: nat)
    returns (r: Result<nat, Refusal>)
    requires Words(d) && DenseLlama(d) && context > 0 && concurrency > 0
    requires layers == Layers(d) && kv == KvHeads(d) && wk == KeyWidth(d) && wv == ValueWidth(d)
    ensures r.Ok? <==> WholeRows(d, c) && Payload(d, context, concurrency, c) < TWO_64
    ensures r.Ok? ==> r.value == Payload(d, context, concurrency, c)
  {
    hide RowBytes, RoundUp, Layers, KeyWidth, ValueWidth, KvHeads, Hidden, Heads, Layout, Words, IsLlama, Features, HasMatrix;
    assert wk * kv < TWO_64 && wv * kv < TWO_64 by {
      assert HasLayer(d, 0);
      RowsFit(d, 0, KeyRole);
      RowsFit(d, 0, ValueRole);
    }
    if WholeRows(d, c) {
      PayloadBounds(d, context, concurrency, c);
    }
    RoundedContext(context);
    if context + 255 >= TWO_64 {
      return Err(PayloadOverflow);
    }
    var cells := (context + 255) / CELL * CELL;
    assert cells == RoundUp(context, CELL) by { CellsRound(context); }
    var k :- Row(wk, kv, c);
    var v :- Row(wv, kv, c);
    r := CheckedProduct(k + v, layers, cells, concurrency);
  }

  lemma {:induction false} CellsRound(context: nat)
    ensures (context + 255) / CELL * CELL == RoundUp(context, CELL)
  {}

  // ---- the payload in closed form ----

  /** The cells are the least multiple of 256 that holds the context. */
  lemma {:induction false} CellsAreLeast(context: nat)
    ensures var cells := RoundUp(context, CELL); cells % 256 == 0 && context <= cells < context + 256
  {
    hide RoundUp;
    RoundUpIsLeast(context, CELL);
  }

  lemma {:induction false} WholeRowBytes(width: nat, heads: nat, c: Codec)
    requires (width * heads) % Layout(c).0 == 0
    ensures RowBytes(width, heads, c) * Layout(c).0 == width * heads * Layout(c).1
  {
    var (block, size) := Layout(c);
    var n := width * heads;
    var q := n / block;
    assert n == q * block;
    assert (q * size) * block == (q * block) * size;
  }

  lemma {:induction false} Scaled(k: nat, v: nat, block: nat, layers: nat, cells: nat, concurrency: nat)
    ensures (k + v) * layers * cells * concurrency * block == (k * block + v * block) * layers * cells * concurrency
  {
    var x := k + v;
    calc {
      x * layers * cells * concurrency * block;
      (x * block) * layers * cells * concurrency;
      { assert x * block == k * block + v * block; }
      (k * block + v * block) * layers * cells * concurrency;
    }
  }

  /** The elements of the cache: a key and a value for every key-value head, layer, cell and sequence. */
  function Elements(d: Directory, cells: nat, concurrency: nat): nat {
    (KeyWidth(d) * KvHeads(d) + ValueWidth(d) * KvHeads(d)) * Layers(d) * cells * concurrency
  }

  lemma {:induction false} PayloadTimesBlock(d: Directory, context: nat, concurrency: nat, c: Codec)
    requires WholeRows(d, c)
    ensures Payload(d, context, concurrency, c) * Layout(c).0 == Elements(d, RoundUp(context, CELL), concurrency) * Layout(c).1
  {
    hide RowBytes, RoundUp, Layers, KeyWidth, ValueWidth, KvHeads, Layout;
    var (block, size) := Layout(c);
    var a, b := KeyWidth(d) * KvHeads(d), ValueWidth(d) * KvHeads(d);
    var k, v := RowBytes(KeyWidth(d), KvHeads(d), c), RowBytes(ValueWidth(d), KvHeads(d), c);
    WholeRowBytes(KeyWidth(d), KvHeads(d), c);
    WholeRowBytes(ValueWidth(d), KvHeads(d), c);
    Scaled(k, v, block, Layers(d), RoundUp(context, CELL), concurrency);
    Scaled(a, b, size, Layers(d), RoundUp(context, CELL), concurrency);
  }

  /** Two bytes an element as f16, 34 bytes for 32 elements as q8_0, and 18 for 32 as q4_0. */
  lemma {:induction false} PayloadIs(d: Directory, context: nat, concurrency: nat, c: Codec)
    requires WholeRows(d, c)
    ensures var p, n := Payload(d, context, concurrency, c), Elements(d, RoundUp(context, CELL), concurrency);
      match c
      case F16 => p == 2 * n
      case Q8_0 => 32 * p == 34 * n
      case Q4_0 => 32 * p == 18 * n
  {
    hide Payload, Elements, RoundUp, WholeRows;
    PayloadTimesBlock(d, context, concurrency, c);
  }

  /** A head width that is not stated divides the hidden size equally over the heads. */
  lemma {:induction false} DefaultWidths(d: Directory)
    requires Grouped(d)
    ensures Ascii("llama.attention.key_length") !in d.scalars ==> KeyWidth(d) * Heads(d) == Hidden(d)
    ensures Ascii("llama.attention.value_length") !in d.scalars ==> ValueWidth(d) * Heads(d) == Hidden(d)
  {
    hide Int;
    var q := Hidden(d) / Heads(d);
    assert Hidden(d) == q * Heads(d);
  }

  // ---- parsed directories ----

  lemma {:induction false} ShortNumber(b: Bytes)
    requires |b| <= 8
    ensures FromLittleEndian(b) < TWO_64
  {
    hide FromLittleEndian, LittleEndian, Pow256;
    Reencoded(b);
    PowersGrow(|b|, 8);
    Widths();
  }

  lemma {:induction false} PowersGrow(m: nat, n: nat)
    requires m <= n
    ensures Pow256(m) <= Pow256(n)
    decreases n - m
  {
    if m < n {
      PowersGrow(m + 1, n);
    }
  }

  lemma {:induction false} ScalarsAreWords(es: seq<Entry>)
    requires forall i :: 0 <= i < |es| ==> EntryOk(es[i])
    ensures forall key :: key in Scalars(es) && Scalars(es)[key].Integer? ==> Scalars(es)[key].n < TWO_64
  {
    hide Retained, TextOk, FromLittleEndian;
    if es != [] {
      var e := es[|es| - 1];
      ScalarsAreWords(es[..|es| - 1]);
      if e.value.Fixed? {
        ShortNumber(e.value.payload);
      }
    }
  }

  /** What the parser reports is always fit for the computation. */
  lemma {:induction false} ParsedAreWords(file: File, d: Directory)
    requires Parse(file) == Ok(d)
    ensures Words(d)
  {
    hide ReadDocument, PutDocument, Scalars, EntryOk, Misplaced;
    var head := file[..HeaderEnd(file)];
    var (doc, rest) := ReadDocument(head).value;
    DocumentRoundTrip(head, doc, rest);
    ScalarsAreWords(doc.entries);
    forall i | 0 <= i < |d.tensors| ensures DimensionsOk(d.tensors[i].dimensions, 0) {
      assert TensorOk(doc.tensors[i]);
    }
  }
}
