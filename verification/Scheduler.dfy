/** Device selection: which device a request goes to, and when having none means that every queue is full. */
module Scheduler {
  import opened Prelude

  const U32_MAX := 0xFFFF_FFFF

  type U32 = n: int | 0 <= n <= U32_MAX

  /** tps.max(1.0) raised to the configured weight. */
  type Factor = x: real | x > 0.0 witness 1.0

  datatype Thermal = Nominal | Fair | Serious | Critical

  /** A candidate as seen by one request: loaded and swappable say how it supports the requested model. */
  datatype Device = Device(nodeId: string, quarantined: bool, thermal: Thermal, throttle: U32, queueDepth: U32, isAvailable: bool,
                           loaded: bool, swappable: bool, effectiveContext: Option<U32>, onAcPower: Option<bool>, throughput: Factor)

  datatype Config = Config(maxQueueDepth: U32, swapPenalty: real)

  datatype Request = Request(exclude: seq<string>, minContext: Option<U32>, inFlight: map<string, U32>)

  datatype Eligibility = Loaded | Swappable | Quarantined | Throttled | QueueFull | Unavailable | Unsupported

  function InFlight(r: Request, d: Device): U32 { if d.nodeId in r.inFlight then r.inFlight[d.nodeId] else 0 }

  // ---- eligibility and score ----

  function EligibleFor(d: Device, cap: U32): Eligibility {
    if d.quarantined then Quarantined
    else if d.thermal == Critical then Throttled
    else if d.queueDepth >= cap then QueueFull
    else if !d.isAvailable then Unavailable
    else if d.loaded then Loaded
    else if d.swappable then Swappable
    else Unsupported
  }

  function Weight(t: Thermal): real {
    match t
    case Nominal => 1.0
    case Fair => 0.8
    case Serious => 0.3
    case Critical => 0.0
  }

  function RealMin(a: real, b: real): real { if a < b then a else b }

  function RealMax(a: real, b: real): real { if a < b then b else a }

  /** With a cap of 0 the quotient is infinite or not a number, and the minimum with 1.0 is 1.0 either way. */
  function QueueNorm(cfg: Config, queue: U32): real {
    if cfg.maxQueueDepth == 0 then 1.0 else RealMin(queue as real / cfg.maxQueueDepth as real, 1.0)
  }

  function Headroom(cfg: Config, queue: U32): real { RealMax(1.0 - QueueNorm(cfg, queue), 0.0) }

  function ThrottleFactor(d: Device): real { RealMin(d.throttle as real / 100.0, 1.0) }

  function LoadFactor(cfg: Config, loaded: bool): real { if loaded then 1.0 else cfg.swapPenalty }

  function ScoreWithQueue(cfg: Config, d: Device, loaded: bool, queue: U32): real {
    d.throughput * Headroom(cfg, queue) * ThrottleFactor(d) * Weight(d.thermal) * LoadFactor(cfg, loaded)
  }

  function Score(cfg: Config, r: Request, d: Device): real {
    ScoreWithQueue(cfg, d, d.loaded, Max(d.queueDepth, InFlight(r, d)))
  }

  // ---- what the two functions decide ----

  predicate PassesContext(r: Request, d: Device) {
    r.minContext.Some? && d.effectiveContext.Some? ==> d.effectiveContext.value >= r.minContext.value
  }

  /** Everything a device must meet apart from the caps on its queue. */
  predicate Open(cfg: Config, r: Request, d: Device) {
    && d.nodeId !in r.exclude
    && !d.quarantined && d.thermal != Critical && d.isAvailable && (d.loaded || d.swappable)
    && PassesContext(r, d)
    && d.onAcPower != Some(false)
    && ScoreWithQueue(cfg, d, d.loaded, 0) > 0.0
  }

  predicate AtCap(cfg: Config, r: Request, d: Device) {
    d.queueDepth >= cfg.maxQueueDepth || InFlight(r, d) >= cfg.maxQueueDepth
  }

  /** The devices that pick gathers. */
  predicate Viable(cfg: Config, r: Request, d: Device) {
    && d.nodeId !in r.exclude
    && (EligibleFor(d, cfg.maxQueueDepth) == Loaded || EligibleFor(d, cfg.maxQueueDepth) == Swappable)
    && PassesContext(r, d)
    && d.onAcPower != Some(false)
    && InFlight(r, d) < cfg.maxQueueDepth
    && Score(cfg, r, d) > 0.0
  }

  ghost predicate SomeViable(cfg: Config, r: Request, ds: seq<Device>) {
    exists i :: 0 <= i < |ds| && Viable(cfg, r, ds[i])
  }

  ghost predicate SomeOpen(cfg: Config, r: Request, ds: seq<Device>) {
    exists i :: 0 <= i < |ds| && Open(cfg, r, ds[i])
  }

  ghost predicate SomeOpenBelowMax(cfg: Config, r: Request, ds: seq<Device>) {
    exists i :: 0 <= i < |ds| && Open(cfg, r, ds[i]) && ds[i].queueDepth < U32_MAX
  }

  /** What saturated is documented to report: pick finds nothing, and queues are the only reason. */
  ghost predicate OnlyQueuesBlock(cfg: Config, r: Request, ds: seq<Device>) {
    !SomeViable(cfg, r, ds) && SomeOpen(cfg, r, ds)
  }

  /** What saturated reports. */
  ghost predicate ReportsSaturated(cfg: Config, r: Request, ds: seq<Device>) {
    && SomeOpenBelowMax(cfg, r, ds)
    && forall i :: 0 <= i < |ds| && Open(cfg, r, ds[i]) && ds[i].queueDepth < U32_MAX ==> AtCap(cfg, r, ds[i])
  }

  // ---- the score's sign ----

  lemma {:induction false} ProductSign(a: real, b: real)
    requires a >= 0.0
    ensures a * b > 0.0 <==> a > 0.0 && b > 0.0
    ensures b >= 0.0 ==> a * b >= 0.0
  {}

  lemma {:induction false} ScoreSign(cfg: Config, d: Device, loaded: bool, queue: U32)
    ensures ScoreWithQueue(cfg, d, loaded, queue) > 0.0
       <==> Headroom(cfg, queue) > 0.0 && ThrottleFactor(d) > 0.0 && Weight(d.thermal) > 0.0 && LoadFactor(cfg, loaded) > 0.0
  {
    hide Headroom, ThrottleFactor, Weight, LoadFactor;
    var h, t, w, l := Headroom(cfg, queue), ThrottleFactor(d), Weight(d.thermal), LoadFactor(cfg, loaded);
    assert h >= 0.0 && t >= 0.0 && w >= 0.0 by { FactorsNonNegative(cfg, d, queue); }
    ProductSign(d.throughput, h);
    ProductSign(d.throughput * h, t);
    ProductSign(d.throughput * h * t, w);
    ProductSign(d.throughput * h * t * w, l);
  }

  lemma {:induction false} ProductOrder(a: real, b: real, c: real)
    requires a <= b && c >= 0.0
    ensures a * c <= b * c
  {}

  lemma {:induction false} QuotientOrder(a: real, b: real, c: real)
    requires a <= b && c > 0.0
    ensures a / c <= b / c
  {
    var p, q := a / c, b / c;
    assert a == p * c && b == q * c;
    if p > q {
      ProductSign(c, p - q);
      assert false;
    }
  }

  lemma {:induction false} Rearranged(a: real, h: real, t: real, w: real, l: real, m: real)
    ensures (a * h * t * w * l) * (100.0 * m) == a * (h * m) * (t * 100.0) * w * l
  {
    calc {
      (a * h * t * w * l) * (100.0 * m);
      ((a * h * t) * (100.0 * m)) * w * l;
      (a * (h * m) * (t * 100.0)) * w * l;
    }
  }

  lemma {:induction false} QuotientTimes(a: real, m: real)
    requires m > 0.0
    ensures a / m * m == a
  {}

  lemma {:induction false} HeadroomIs(cfg: Config, queue: U32)
    requires cfg.maxQueueDepth > 0
    ensures Headroom(cfg, queue) * cfg.maxQueueDepth as real == (if queue < cfg.maxQueueDepth then cfg.maxQueueDepth - queue else 0) as real
  {
    var q, m := queue as real, cfg.maxQueueDepth as real;
    QuotientBelowOne(q, m);
    QuotientTimes(q, m);
    assert (1.0 - q / m) * m == m - q / m * m;
  }

  /**
   The score in lowest terms: throughput times the free part of the queue, times the throttle in percent (never more than 100),
   times 1, 0.8, 0.3 or 0 for the thermal state, times the swap penalty for a model that is not in memory.
   */
  lemma {:induction false} ScoreFormula(cfg: Config, d: Device, loaded: bool, queue: U32)
    requires cfg.maxQueueDepth > 0
    ensures var free := if queue < cfg.maxQueueDepth then cfg.maxQueueDepth - queue else 0;
      var throttle := if d.throttle <= 100 then d.throttle else 100;
      var cool := match d.thermal case Nominal => 1.0 case Fair => 0.8 case Serious => 0.3 case Critical => 0.0;
      ScoreWithQueue(cfg, d, loaded, queue) * (100.0 * cfg.maxQueueDepth as real)
        == d.throughput * free as real * throttle as real * cool * (if loaded then 1.0 else cfg.swapPenalty)
  {
    hide Headroom;
    HeadroomIs(cfg, queue);
    var throttle := if d.throttle <= 100 then d.throttle else 100;
    assert ThrottleFactor(d) * 100.0 == throttle as real;
    Rearranged(d.throughput, Headroom(cfg, queue), ThrottleFactor(d), Weight(d.thermal), LoadFactor(cfg, loaded), cfg.maxQueueDepth as real);
  }

  /** A longer queue never raises a device's score. */
  lemma {:induction false} LongerQueueNoBetter(cfg: Config, d: Device, loaded: bool, queue: U32, longer: U32)
    requires queue <= longer && cfg.swapPenalty >= 0.0
    ensures ScoreWithQueue(cfg, d, loaded, longer) <= ScoreWithQueue(cfg, d, loaded, queue)
  {
    hide ThrottleFactor, Weight;
    if cfg.maxQueueDepth > 0 {
      QuotientOrder(queue as real, longer as real, cfg.maxQueueDepth as real);
    }
    var h, h', t, w, l := Headroom(cfg, queue), Headroom(cfg, longer), ThrottleFactor(d), Weight(d.thermal), LoadFactor(cfg, loaded);
    assert h' <= h;
    FactorsNonNegative(cfg, d, queue);
    ProductOrder(h', h, d.throughput);
    ProductOrder(d.throughput * h', d.throughput * h, t);
    ProductOrder(d.throughput * h' * t, d.throughput * h * t, w);
    ProductOrder(d.throughput * h' * t * w, d.throughput * h * t * w, l);
  }

  lemma {:induction false} FactorsNonNegative(cfg: Config, d: Device, queue: U32)
    ensures Headroom(cfg, queue) >= 0.0 && ThrottleFactor(d) >= 0.0 && Weight(d.thermal) >= 0.0
  {}

  lemma {:induction false} QuotientBelowOne(a: real, b: real)
    requires b > 0.0
    ensures a / b < 1.0 <==> a < b
  {
    var q := a / b;
    assert a == q * b;
    ProductSign(b, 1.0 - q);
    assert b * (1.0 - q) == b - a;
  }

  lemma {:induction false} HeadroomSign(cfg: Config, queue: U32)
    ensures Headroom(cfg, queue) > 0.0 <==> queue < cfg.maxQueueDepth
  {
    if cfg.maxQueueDepth > 0 {
      QuotientBelowOne(queue as real, cfg.maxQueueDepth as real);
    }
  }

  /** pick's filter is saturated's filter together with the two caps. */
  lemma {:induction false} ViableIsOpenBelowCap(cfg: Config, r: Request, d: Device)
    ensures Viable(cfg, r, d) <==> Open(cfg, r, d) && !AtCap(cfg, r, d)
  {
    hide ScoreWithQueue, Headroom, ThrottleFactor, Weight, LoadFactor, PassesContext;
    var queue: U32 := Max(d.queueDepth, InFlight(r, d));
    ScoreSign(cfg, d, d.loaded, 0);
    ScoreSign(cfg, d, d.loaded, queue);
    HeadroomSign(cfg, 0);
    HeadroomSign(cfg, queue);
  }

  /** A report of saturation is always right. */
  lemma {:induction false} SaturationIsReal(cfg: Config, r: Request, ds: seq<Device>)
    requires ReportsSaturated(cfg, r, ds)
    ensures OnlyQueuesBlock(cfg, r, ds)
  {
    hide Open, AtCap, Viable;
    forall i | 0 <= i < |ds| ensures !Viable(cfg, r, ds[i]) {
      ViableIsOpenBelowCap(cfg, r, ds[i]);
      assert Viable(cfg, r, ds[i]) ==> ds[i].queueDepth < U32_MAX by { ViableBelowMax(cfg, r, ds[i]); }
    }
  }

  lemma {:induction false} ViableBelowMax(cfg: Config, r: Request, d: Device)
    ensures Viable(cfg, r, d) ==> d.queueDepth < U32_MAX
  {
    hide Score, PassesContext;
  }

  /** pick and saturated agree exactly if open devices do not all report a queue as long as u32 can hold. */
  lemma {:induction false} PickAndSaturatedAgree(cfg: Config, r: Request, ds: seq<Device>)
    ensures (ReportsSaturated(cfg, r, ds) <==> OnlyQueuesBlock(cfg, r, ds))
       <==> (SomeOpen(cfg, r, ds) ==> SomeOpenBelowMax(cfg, r, ds))
  {
    hide Open, AtCap, Viable;
    forall i | 0 <= i < |ds| ensures Viable(cfg, r, ds[i]) <==> Open(cfg, r, ds[i]) && !AtCap(cfg, r, ds[i]) {
      ViableIsOpenBelowCap(cfg, r, ds[i]);
    }
    forall i | 0 <= i < |ds| ensures Viable(cfg, r, ds[i]) ==> ds[i].queueDepth < U32_MAX {
      ViableBelowMax(cfg, r, ds[i]);
    }
    if ReportsSaturated(cfg, r, ds) {
      SaturationIsReal(cfg, r, ds);
    }
  }

  /** One idle-but-for-its-queue device that reports the largest u32: pick finds nothing and saturated is silent. */
  lemma {:induction false} LongestQueueIsOverlooked()
    ensures exists cfg: Config, r, ds :: cfg.maxQueueDepth == 8 && OnlyQueuesBlock(cfg, r, ds) && !ReportsSaturated(cfg, r, ds)
  {
    var cfg, r := Config(8, 0.3), Request([], None, map[]);
    var d := Device("node", false, Nominal, 100, U32_MAX, true, true, false, None, None, 1.0);
    assert Open(cfg, r, d) by {
      ScoreSign(cfg, d, true, 0);
      HeadroomSign(cfg, 0);
    }
    ViableIsOpenBelowCap(cfg, r, d);
    assert [d][0] == d;
    assert OnlyQueuesBlock(cfg, r, [d]) && !ReportsSaturated(cfg, r, [d]);
  }

  method Saturated(cfg: Config, r: Request, ds: seq<Device>) returns (b: bool)
    ensures b <==> ReportsSaturated(cfg, r, ds)
  {
    hide ScoreWithQueue;
    var blocked := 0;
    for i := 0 to |ds|
      invariant blocked >= 0
      invariant blocked > 0 <==> exists j :: 0 <= j < i && Open(cfg, r, ds[j]) && ds[j].queueDepth < U32_MAX
      invariant forall j :: 0 <= j < i && Open(cfg, r, ds[j]) && ds[j].queueDepth < U32_MAX ==> AtCap(cfg, r, ds[j])
    {
      var d := ds[i];
      if d.nodeId in r.exclude {
        continue;
      }
      var eligibility := EligibleFor(d, U32_MAX);
      if eligibility != Loaded && eligibility != Swappable {
        continue;
      }
      if r.minContext.Some? && d.effectiveContext.Some? && d.effectiveContext.value < r.minContext.value {
        continue;
      }
      if d.onAcPower == Some(false) {
        continue;
      }
      if ScoreWithQueue(cfg, d, eligibility == Loaded, 0) <= 0.0 {
        continue;
      }
      if d.queueDepth >= cfg.maxQueueDepth || InFlight(r, d) >= cfg.maxQueueDepth {
        blocked := blocked + 1;
      } else {
        return false;
      }
    }
    return blocked > 0;
  }

  // ---- pick ----

  datatype Candidate = Candidate(inFlight: U32, loaded: bool, score: real, index: nat)

  function AsCandidate(cfg: Config, r: Request, ds: seq<Device>, i: nat): Candidate
    requires i < |ds|
  {
    Candidate(InFlight(r, ds[i]), ds[i].loaded, Score(cfg, r, ds[i]), i)
  }

  /** No viable device has fewer requests in flight. */
  ghost predicate LeastLoaded(cfg: Config, r: Request, ds: seq<Device>, i: nat)
    requires i < |ds|
  {
    && Viable(cfg, r, ds[i])
    && forall j :: 0 <= j < |ds| && Viable(cfg, r, ds[j]) ==> InFlight(r, ds[i]) <= InFlight(r, ds[j])
  }

  /** A least-loaded device, with the model in memory if any least-loaded device has it there. */
  ghost predicate Tied(cfg: Config, r: Request, ds: seq<Device>, i: nat)
    requires i < |ds|
  {
    && LeastLoaded(cfg, r, ds, i)
    && (ds[i].loaded || forall j :: 0 <= j < |ds| && LeastLoaded(cfg, r, ds, j) ==> !ds[j].loaded)
  }

  /** A tied device that scores at least 0.8 of every other one. */
  ghost predicate FastLane(cfg: Config, r: Request, ds: seq<Device>, i: nat)
    requires i < |ds|
  {
    && Tied(cfg, r, ds, i)
    && forall j :: 0 <= j < |ds| && Tied(cfg, r, ds, j) ==> Score(cfg, r, ds[i]) >= Score(cfg, r, ds[j]) * 0.8
  }

  /** Candidates of the device list, in its order. */
  ghost predicate Listing(cfg: Config, r: Request, ds: seq<Device>, cs: seq<Candidate>) {
    && (forall k :: 0 <= k < |cs| ==> cs[k].index < |ds| && cs[k] == AsCandidate(cfg, r, ds, cs[k].index))
    && (forall k, l :: 0 <= k < l < |cs| ==> cs[k].index < cs[l].index)
  }

  predicate Has(cs: seq<Candidate>, i: nat) {
    exists k :: 0 <= k < |cs| && cs[k].index == i
  }

  lemma {:induction false} HasSnoc(cs: seq<Candidate>, c: Candidate, i: nat)
    ensures Has(cs + [c], i) <==> Has(cs, i) || c.index == i
  {
    var more := cs + [c];
    if Has(cs, i) {
      var k :| 0 <= k < |cs| && cs[k].index == i;
      assert more[k].index == i;
    }
    if c.index == i {
      assert more[|cs|].index == i;
    }
  }

  /** The filter loop: every candidate that could take the request, with what the choice among them needs. */
  method Gather(cfg: Config, r: Request, ds: seq<Device>) returns (viable: seq<Candidate>)
    ensures Listing(cfg, r, ds, viable)
    ensures forall i: nat :: Has(viable, i) <==> i < |ds| && Viable(cfg, r, ds[i])
  {
    hide ScoreWithQueue, Has;
    viable := [];
    assert forall i :: !Has([], i) by { NoneInEmpty(); }
    for n := 0 to |ds|
      invariant Listing(cfg, r, ds, viable)
      invariant forall k :: 0 <= k < |viable| ==> viable[k].index < n
      invariant forall i: nat :: Has(viable, i) <==> i < n && Viable(cfg, r, ds[i])
    {
      var d := ds[n];
      if d.nodeId in r.exclude {
        continue;
      }
      var eligibility := EligibleFor(d, cfg.maxQueueDepth);
      if eligibility != Loaded && eligibility != Swappable {
        continue;
      }
      if r.minContext.Some? && d.effectiveContext.Some? && d.effectiveContext.value < r.minContext.value {
        continue;
      }
      if d.onAcPower == Some(false) {
        continue;
      }
      var inFlight := InFlight(r, d);
      if inFlight >= cfg.maxQueueDepth {
        continue;
      }
      var score := ScoreWithQueue(cfg, d, eligibility == Loaded, Max(d.queueDepth, inFlight));
      if score <= 0.0 {
        continue;
      }
      var c := Candidate(inFlight, eligibility == Loaded, score, n);
      forall i: nat ensures Has(viable + [c], i) <==> Has(viable, i) || n == i {
        HasSnoc(viable, c, i);
      }
      viable := viable + [c];
    }
  }

  lemma {:induction false} NoneInEmpty()
    ensures forall i :: !Has([], i)
  {}

  /** The members of a list one longer, and its order. */
  lemma {:induction false} Snoc(cs: seq<Candidate>, c: Candidate)
    ensures forall x :: x in cs + [c] <==> x in cs || x == c
  {
    assert (cs + [c])[|cs|] == c;
  }

  predicate InOrder(cs: seq<Candidate>) { forall k, l :: 0 <= k < l < |cs| ==> cs[k].index < cs[l].index }

  lemma {:induction false} SnocInOrder(kept: seq<Candidate>, cs: seq<Candidate>, n: nat)
    requires InOrder(kept) && InOrder(cs) && n < |cs| && forall c :: c in kept ==> c in cs[..n]
    ensures InOrder(kept + [cs[n]])
  {
    forall k | 0 <= k < |kept| ensures kept[k].index < cs[n].index {
      assert kept[k] in cs[..n];
    }
  }

  method KeepTied(cs: seq<Candidate>, least: U32, anyLoaded: bool) returns (kept: seq<Candidate>)
    requires InOrder(cs)
    ensures forall c :: c in kept <==> c in cs && c.inFlight == least && (!anyLoaded || c.loaded)
    ensures InOrder(kept)
  {
    hide InOrder;
    kept := [];
    assert InOrder([]) by { NothingInOrder(); }
    for n := 0 to |cs|
      invariant forall c :: c in kept <==> c in cs[..n] && c.inFlight == least && (!anyLoaded || c.loaded)
      invariant InOrder(kept)
    {
      assert cs[..n + 1] == cs[..n] + [cs[n]];
      Snoc(cs[..n], cs[n]);
      if cs[n].inFlight == least && (!anyLoaded || cs[n].loaded) {
        Snoc(kept, cs[n]);
        SnocInOrder(kept, cs, n);
        kept := kept + [cs[n]];
      }
    }
    assert cs[..|cs|] == cs;
  }

  method KeepFast(cs: seq<Candidate>, cutoff: real) returns (kept: seq<Candidate>)
    requires InOrder(cs)
    ensures forall c :: c in kept <==> c in cs && c.score >= cutoff
    ensures InOrder(kept)
  {
    hide InOrder;
    kept := [];
    assert InOrder([]) by { NothingInOrder(); }
    for n := 0 to |cs|
      invariant forall c :: c in kept <==> c in cs[..n] && c.score >= cutoff
      invariant InOrder(kept)
    {
      assert cs[..n + 1] == cs[..n] + [cs[n]];
      Snoc(cs[..n], cs[n]);
      if cs[n].score >= cutoff {
        Snoc(kept, cs[n]);
        SnocInOrder(kept, cs, n);
        kept := kept + [cs[n]];
      }
    }
    assert cs[..|cs|] == cs;
  }

  lemma {:induction false} NothingInOrder()
    ensures InOrder([])
  {}

  method LeastInFlight(cs: seq<Candidate>) returns (least: U32)
    requires cs != []
    ensures exists k :: 0 <= k < |cs| && cs[k].inFlight == least
    ensures forall k :: 0 <= k < |cs| ==> least <= cs[k].inFlight
  {
    least := cs[0].inFlight;
    for n := 1 to |cs|
      invariant exists k :: 0 <= k < n && cs[k].inFlight == least
      invariant forall k :: 0 <= k < n ==> least <= cs[k].inFlight
    {
      if cs[n].inFlight < least {
        least := cs[n].inFlight;
      }
    }
  }

  method AnyLoaded(cs: seq<Candidate>, least: U32) returns (b: bool)
    ensures b <==> exists k :: 0 <= k < |cs| && cs[k].inFlight == least && cs[k].loaded
  {
    for n := 0 to |cs|
      invariant forall k :: 0 <= k < n ==> !(cs[k].inFlight == least && cs[k].loaded)
    {
      if cs[n].inFlight == least && cs[n].loaded {
        return true;
      }
    }
    return false;
  }

  method BestScore(cs: seq<Candidate>) returns (best: real)
    ensures best >= 0.0
    ensures best == 0.0 || exists k :: 0 <= k < |cs| && cs[k].score == best
    ensures forall k :: 0 <= k < |cs| ==> cs[k].score <= best
  {
    best := 0.0;
    for n := 0 to |cs|
      invariant best >= 0.0
      invariant best == 0.0 || exists k :: 0 <= k < n && cs[k].score == best
      invariant forall k :: 0 <= k < n ==> cs[k].score <= best
    {
      if best < cs[n].score {
        best := cs[n].score;
      }
    }
  }

  lemma {:induction false} Indexed(cfg: Config, r: Request, ds: seq<Device>, cs: seq<Candidate>, i: nat)
    requires Listing(cfg, r, ds, cs)
    ensures Has(cs, i) <==> i < |ds| && AsCandidate(cfg, r, ds, i) in cs
  {
    hide AsCandidate;
    if Has(cs, i) {
      var k :| 0 <= k < |cs| && cs[k].index == i;
    }
    if i < |ds| && AsCandidate(cfg, r, ds, i) in cs {
      var k :| 0 <= k < |cs| && cs[k] == AsCandidate(cfg, r, ds, i);
      assert cs[k].index == i by { IndexOf(cfg, r, ds, i); }
    }
  }

  lemma {:induction false} IndexOf(cfg: Config, r: Request, ds: seq<Device>, i: nat)
    requires i < |ds|
    ensures AsCandidate(cfg, r, ds, i).index == i
  {
    hide Score, InFlight;
  }

  lemma {:induction false} ListingOfSome(cfg: Config, r: Request, ds: seq<Device>, cs: seq<Candidate>, kept: seq<Candidate>)
    requires Listing(cfg, r, ds, cs)
    requires forall k :: 0 <= k < |kept| ==> kept[k] in cs
    requires forall k, l :: 0 <= k < l < |kept| ==> kept[k].index < kept[l].index
    ensures Listing(cfg, r, ds, kept)
  {
    hide AsCandidate;
  }

  lemma {:induction false} LeastIsLeastLoaded(cfg: Config, r: Request, ds: seq<Device>, viable: seq<Candidate>, least: U32, i: nat)
    requires Listing(cfg, r, ds, viable)
    requires forall j: nat :: Has(viable, j) <==> j < |ds| && Viable(cfg, r, ds[j])
    requires exists k :: 0 <= k < |viable| && viable[k].inFlight == least
    requires forall k :: 0 <= k < |viable| ==> least <= viable[k].inFlight
    requires i < |ds|
    ensures LeastLoaded(cfg, r, ds, i) <==> AsCandidate(cfg, r, ds, i) in viable && InFlight(r, ds[i]) == least
  {
    hide Viable, Has, InFlight, Score;
    var k :| 0 <= k < |viable| && viable[k].inFlight == least;
    Indexed(cfg, r, ds, viable, viable[k].index);
    Indexed(cfg, r, ds, viable, i);
    forall j | 0 <= j < |ds| && Viable(cfg, r, ds[j]) ensures least <= InFlight(r, ds[j]) {
      Indexed(cfg, r, ds, viable, j);
    }
  }

  lemma {:induction false} TiedAreKept(cfg: Config, r: Request, ds: seq<Device>, viable: seq<Candidate>, least: U32, anyLoaded: bool, tied: seq<Candidate>)
    requires Listing(cfg, r, ds, viable)
    requires forall i: nat :: Has(viable, i) <==> i < |ds| && Viable(cfg, r, ds[i])
    requires exists k :: 0 <= k < |viable| && viable[k].inFlight == least
    requires forall k :: 0 <= k < |viable| ==> least <= viable[k].inFlight
    requires anyLoaded <==> exists k :: 0 <= k < |viable| && viable[k].inFlight == least && viable[k].loaded
    requires forall c :: c in tied <==> c in viable && c.inFlight == least && (!anyLoaded || c.loaded)
    requires forall k, l :: 0 <= k < l < |tied| ==> tied[k].index < tied[l].index
    ensures Listing(cfg, r, ds, tied) && tied != []
    ensures forall i: nat :: Has(tied, i) <==> i < |ds| && Tied(cfg, r, ds, i)
  {
    hide Viable, Has, InFlight, Score, LeastLoaded;
    ListingOfSome(cfg, r, ds, viable, tied);
    forall i: nat | i < |ds| ensures LeastLoaded(cfg, r, ds, i) <==> AsCandidate(cfg, r, ds, i) in viable && InFlight(r, ds[i]) == least {
      LeastIsLeastLoaded(cfg, r, ds, viable, least, i);
    }
    assert anyLoaded <==> exists j: nat :: j < |ds| && LeastLoaded(cfg, r, ds, j) && ds[j].loaded by {
      if j: nat :| j < |ds| && LeastLoaded(cfg, r, ds, j) && ds[j].loaded {
        var k :| 0 <= k < |viable| && viable[k] == AsCandidate(cfg, r, ds, j);
      }
      if anyLoaded {
        var k :| 0 <= k < |viable| && viable[k].inFlight == least && viable[k].loaded;
        assert LeastLoaded(cfg, r, ds, viable[k].index);
      }
    }
    forall i: nat ensures Has(tied, i) <==> i < |ds| && Tied(cfg, r, ds, i) {
      Indexed(cfg, r, ds, tied, i);
    }
    var k :| 0 <= k < |viable| && viable[k].inFlight == least && (anyLoaded ==> viable[k].loaded);
    assert viable[k] in tied;
  }

  lemma {:induction false} TiedScores(cfg: Config, r: Request, ds: seq<Device>, tied: seq<Candidate>, k: nat)
    requires Listing(cfg, r, ds, tied) && k < |tied|
    requires forall i: nat :: Has(tied, i) <==> i < |ds| && Tied(cfg, r, ds, i)
    ensures tied[k].score == Score(cfg, r, ds[tied[k].index]) > 0.0
  {
    hide Score, InFlight;
    assert Has(tied, tied[k].index);
  }

  lemma {:induction false} OnlyTied(cfg: Config, r: Request, ds: seq<Device>, tied: seq<Candidate>)
    requires Listing(cfg, r, ds, tied) && |tied| == 1
    requires forall i: nat :: Has(tied, i) <==> i < |ds| && Tied(cfg, r, ds, i)
    ensures forall i: nat :: Has(tied, i) <==> i < |ds| && FastLane(cfg, r, ds, i)
  {
    hide Tied, Score;
    TiedScores(cfg, r, ds, tied, 0);
    forall i: nat | i < |ds| && Tied(cfg, r, ds, i) ensures FastLane(cfg, r, ds, i) {
      assert Has(tied, i);
      forall j: nat | j < |ds| && Tied(cfg, r, ds, j) ensures Score(cfg, r, ds[i]) >= Score(cfg, r, ds[j]) * 0.8 {
        assert Has(tied, j);
      }
    }
  }

  lemma {:induction false} FastAreKept(cfg: Config, r: Request, ds: seq<Device>, tied: seq<Candidate>, best: real, lane: seq<Candidate>)
    requires Listing(cfg, r, ds, tied) && tied != []
    requires forall i: nat :: Has(tied, i) <==> i < |ds| && Tied(cfg, r, ds, i)
    requires best >= 0.0 && (best == 0.0 || exists k :: 0 <= k < |tied| && tied[k].score == best)
    requires forall k :: 0 <= k < |tied| ==> tied[k].score <= best
    requires forall c :: c in lane <==> c in tied && c.score >= best * 0.8
    requires forall k, l :: 0 <= k < l < |lane| ==> lane[k].index < lane[l].index
    ensures Listing(cfg, r, ds, lane) && lane != []
    ensures forall i: nat :: Has(lane, i) <==> i < |ds| && FastLane(cfg, r, ds, i)
  {
    hide Tied, Score, InFlight, Has;
    ListingOfSome(cfg, r, ds, tied, lane);
    TiedScores(cfg, r, ds, tied, 0);
    var b :| 0 <= b < |tied| && tied[b].score == best;
    assert tied[b] in lane;
    forall i: nat ensures Has(lane, i) <==> i < |ds| && FastLane(cfg, r, ds, i) {
      Indexed(cfg, r, ds, lane, i);
      Indexed(cfg, r, ds, tied, i);
      Indexed(cfg, r, ds, tied, tied[b].index);
      if i < |ds| && Has(tied, i) {
        forall j: nat | j < |ds| && Tied(cfg, r, ds, j) ensures Score(cfg, r, ds[j]) <= best {
          Indexed(cfg, r, ds, tied, j);
        }
      }
    }
  }

  /** The devices among which the final choice is made. */
  method Lane(cfg: Config, r: Request, ds: seq<Device>) returns (lane: seq<Candidate>)
    ensures Listing(cfg, r, ds, lane)
    ensures lane == [] <==> !SomeViable(cfg, r, ds)
    ensures forall i: nat :: Has(lane, i) <==> i < |ds| && FastLane(cfg, r, ds, i)
  {
    hide Viable, Score, InFlight;
    var viable := Gather(cfg, r, ds);
    if viable == [] {
      lane := [];
      forall i | 0 <= i < |ds| ensures !Viable(cfg, r, ds[i]) {
        assert !Has(viable, i);
      }
      return;
    }
    assert SomeViable(cfg, r, ds) by { assert Has(viable, viable[0].index); }
    var least := LeastInFlight(viable);
    var anyLoaded := AnyLoaded(viable, least);
    var tied := KeepTied(viable, least, anyLoaded);
    TiedAreKept(cfg, r, ds, viable, least, anyLoaded, tied);
    if |tied| == 1 {
      lane := tied;
      OnlyTied(cfg, r, ds, tied);
      return;
    }
    var best := BestScore(tied);
    lane := KeepFast(tied, best * 0.8);
    FastAreKept(cfg, r, ds, tied, best, lane);
  }

  /** The device for a request, or none; the random number decides only within the fast lane. */
  method Pick(cfg: Config, r: Request, ds: seq<Device>, random: nat) returns (picked: Option<nat>, ghost lane: seq<nat>)
    ensures picked.None? <==> !SomeViable(cfg, r, ds)
    ensures forall i :: i in lane <==> 0 <= i < |ds| && FastLane(cfg, r, ds, i)
    ensures forall k, l :: 0 <= k < l < |lane| ==> lane[k] < lane[l]
    ensures picked.Some? ==> lane != [] && picked.value == lane[random % |lane|]
  {
    var cs := Lane(cfg, r, ds);
    lane := seq(|cs|, k requires 0 <= k < |cs| => cs[k].index);
    forall i: nat ensures i in lane <==> Has(cs, i) {
      if Has(cs, i) {
        var k :| 0 <= k < |cs| && cs[k].index == i;
        assert lane[k] == i;
      }
    }
    if cs == [] {
      return None, lane;
    }
    var k := random % |cs|;
    assert lane[k] == cs[k].index;
    return Some(cs[k].index), lane;
  }
}
