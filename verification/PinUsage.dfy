/** Usage reports counted exactly once, however often and in whatever order they are delivered. */
module PinUsage {
  import opened Prelude

  datatype UsageEntry = UsageEntry(day: string, consumer: string, model: string, requests: int, tokensIn: int, tokensOut: int)

  /** The primary key of a usage row. */
  datatype Key = Key(pin: string, day: string, provider: string, consumer: string, model: string)

  datatype Counts = Counts(requests: int, tokensIn: int, tokensOut: int)

  /** The primary key of an applied batch. */
  datatype BatchKey = BatchKey(pin: string, provider: string, batch: string)

  datatype State = State(usage: map<Key, Counts>, batches: set<BatchKey>)

  datatype Error = UnknownPin | NegativeCount

  datatype Report = Report(id: BatchKey, entries: seq<UsageEntry>)

  function Plus(a: Counts, b: Counts): Counts {
    Counts(a.requests + b.requests, a.tokensIn + b.tokensIn, a.tokensOut + b.tokensOut)
  }

  const NONE := Counts(0, 0, 0)

  function KeyOf(id: BatchKey, e: UsageEntry): Key { Key(id.pin, e.day, id.provider, e.consumer, e.model) }

  function CountsOf(e: UsageEntry): Counts { Counts(e.requests, e.tokensIn, e.tokensOut) }

  predicate NonNegative(e: UsageEntry) { e.requests >= 0 && e.tokensIn >= 0 && e.tokensOut >= 0 }

  predicate Acceptable(pins: set<string>, r: Report) {
    r.id.pin in pins && forall i :: 0 <= i < |r.entries| ==> NonNegative(r.entries[i])
  }

  function Count(usage: map<Key, Counts>, k: Key): Counts { if k in usage then usage[k] else NONE }

  function Upsert(usage: map<Key, Counts>, k: Key, c: Counts): map<Key, Counts> {
    usage[k := Plus(Count(usage, k), c)]
  }

  function AddEntries(usage: map<Key, Counts>, id: BatchKey, entries: seq<UsageEntry>): map<Key, Counts>
    decreases |entries|
  {
    if entries == [] then usage else AddEntries(Upsert(usage, KeyOf(id, entries[0]), CountsOf(entries[0])), id, entries[1..])
  }

  /** Ok(false) for a batch that was applied before; a bad batch is rolled back whole. */
  function Record(s: State, pins: set<string>, r: Report): (State, Result<bool, Error>) {
    if r.id in s.batches then (s, Ok(false))
    else if r.id.pin !in pins then (s, Err(UnknownPin))
    else if !Acceptable(pins, r) then (s, Err(NegativeCount))
    else (State(AddEntries(s.usage, r.id, r.entries), s.batches + {r.id}), Ok(true))
  }

  class Store {
    var usage: map<Key, Counts>
    var batches: set<BatchKey>

    ghost function Tables(): State
      reads this
    {
      State(usage, batches)
    }

    constructor ()
      ensures Tables() == State(map[], {})
    {
      usage, batches := map[], {};
    }

    method RecordUsageBatch(pins: set<string>, r: Report) returns (applied: Result<bool, Error>)
      modifies this
      ensures (Tables(), applied) == Record(old(Tables()), pins, r)
    {
      if r.id in batches {
        return Ok(false);
      }
      if r.id.pin !in pins {
        return Err(UnknownPin);
      }
      var savedUsage, savedBatches := usage, batches;
      batches := batches + {r.id};
      for i := 0 to |r.entries|
        modifies this
        invariant batches == old(batches) + {r.id}
        invariant forall j :: 0 <= j < i ==> NonNegative(r.entries[j])
        invariant AddEntries(usage, r.id, r.entries[i..]) == AddEntries(old(usage), r.id, r.entries)
      {
        var e := r.entries[i];
        assert r.entries[i..][0] == e && r.entries[i..][1..] == r.entries[i + 1..];
        if !(e.requests >= 0 && e.tokensIn >= 0 && e.tokensOut >= 0) {
          usage, batches := savedUsage, savedBatches;
          return Err(NegativeCount);
        }
        usage := Upsert(usage, KeyOf(r.id, e), CountsOf(e));
      }
      return Ok(true);
    }
  }

  // ---- what a batch adds ----

  function Contribution(id: BatchKey, entries: seq<UsageEntry>, k: Key): Counts
    decreases |entries|
  {
    if entries == [] then Counts(0, 0, 0)
    else
      var e, rest := entries[0], Contribution(id, entries[1..], k);
      if About(id, e, k) then Counts(e.requests + rest.requests, e.tokensIn + rest.tokensIn, e.tokensOut + rest.tokensOut)
      else rest
  }

  /** The entry of a provider's batch is about the row's network, day, provider, consumer and model. */
  predicate About(id: BatchKey, e: UsageEntry, k: Key) {
    k.pin == id.pin && k.provider == id.provider && k.day == e.day && k.consumer == e.consumer && k.model == e.model
  }

  predicate Mentions(id: BatchKey, entries: seq<UsageEntry>, k: Key) {
    exists i :: 0 <= i < |entries| && About(id, entries[i], k)
  }

  lemma {:induction false} AboutIsKey(id: BatchKey, e: UsageEntry, k: Key, rest: Counts)
    ensures About(id, e, k) <==> KeyOf(id, e) == k
    ensures Plus(CountsOf(e), rest) == Counts(e.requests + rest.requests, e.tokensIn + rest.tokensIn, e.tokensOut + rest.tokensOut)
  {}

  lemma {:induction false} UpsertEffect(usage: map<Key, Counts>, first: Key, c: Counts, k: Key)
    ensures Count(Upsert(usage, first, c), k) == if first == k then Plus(Count(usage, k), c) else Count(usage, k)
  {
    hide Plus;
    if first != k {
      assert k in Upsert(usage, first, c) <==> k in usage;
    }
  }

  lemma {:induction false} PlusAssociates(a: Counts, b: Counts, c: Counts)
    ensures Plus(Plus(a, b), c) == Plus(a, Plus(b, c))
    ensures Plus(a, NONE) == a == Plus(NONE, a)
  {}

  lemma {:induction false} AddEntriesEffect(usage: map<Key, Counts>, id: BatchKey, entries: seq<UsageEntry>, k: Key)
    ensures Count(AddEntries(usage, id, entries), k) == Plus(Count(usage, k), Contribution(id, entries, k))
    decreases |entries|
  {
    hide KeyOf, CountsOf, Upsert, Count, Plus, About;
    if entries == [] {
      PlusAssociates(Count(usage, k), NONE, NONE);
    } else {
      var first, c, rest := KeyOf(id, entries[0]), CountsOf(entries[0]), Contribution(id, entries[1..], k);
      AboutIsKey(id, entries[0], k, rest);
      UpsertEffect(usage, first, c, k);
      AddEntriesEffect(Upsert(usage, first, c), id, entries[1..], k);
      PlusAssociates(Count(usage, k), c, rest);
      PlusAssociates(rest, NONE, NONE);
    }
  }

  lemma {:induction false} AddEntriesKeys(usage: map<Key, Counts>, id: BatchKey, entries: seq<UsageEntry>, k: Key)
    ensures k in AddEntries(usage, id, entries) <==> k in usage || Mentions(id, entries, k)
    decreases |entries|
  {
    hide KeyOf, CountsOf, Plus, About;
    if entries != [] {
      var first := KeyOf(id, entries[0]);
      AboutIsKey(id, entries[0], k, NONE);
      AddEntriesKeys(Upsert(usage, first, CountsOf(entries[0])), id, entries[1..], k);
      assert Mentions(id, entries, k) <==> first == k || Mentions(id, entries[1..], k) by {
        assert forall i :: 0 < i < |entries| ==> entries[i] == entries[1..][i - 1];
      }
    }
  }

  // ---- runs ----

  function Run(pins: set<string>, reports: seq<Report>): State {
    if reports == [] then State(map[], {})
    else Record(Run(pins, reports[..|reports| - 1]), pins, reports[|reports| - 1]).0
  }

  /** The contents with which each applied batch was first accepted. */
  function Applied(pins: set<string>, reports: seq<Report>): map<BatchKey, seq<UsageEntry>> {
    if reports == [] then map[]
    else
      var before, r := Applied(pins, reports[..|reports| - 1]), reports[|reports| - 1];
      if r.id in before || !Acceptable(pins, r) then before else before[r.id := r.entries]
  }

  function Requests(batches: map<BatchKey, seq<UsageEntry>>, k: Key): map<BatchKey, int> {
    map id | id in batches :: Contribution(id, batches[id], k).requests
  }

  function TokensIn(batches: map<BatchKey, seq<UsageEntry>>, k: Key): map<BatchKey, int> {
    map id | id in batches :: Contribution(id, batches[id], k).tokensIn
  }

  function TokensOut(batches: map<BatchKey, seq<UsageEntry>>, k: Key): map<BatchKey, int> {
    map id | id in batches :: Contribution(id, batches[id], k).tokensOut
  }

  ghost function Owed(batches: map<BatchKey, seq<UsageEntry>>, k: Key): Counts {
    Counts(Total(Requests(batches, k)), Total(TokensIn(batches, k)), Total(TokensOut(batches, k)))
  }

  lemma {:induction false} OwedGrows(batches: map<BatchKey, seq<UsageEntry>>, id: BatchKey, entries: seq<UsageEntry>, k: Key)
    requires id !in batches
    ensures Owed(batches[id := entries], k) == Plus(Owed(batches, k), Contribution(id, entries, k))
  {
    hide Total, Contribution;
    var more, c := batches[id := entries], Contribution(id, entries, k);
    assert Total(Requests(more, k)) == Total(Requests(batches, k)) + c.requests by {
      assert Requests(more, k) == Requests(batches, k)[id := c.requests];
      TotalUpdate(Requests(batches, k), id, c.requests);
    }
    assert Total(TokensIn(more, k)) == Total(TokensIn(batches, k)) + c.tokensIn by {
      assert TokensIn(more, k) == TokensIn(batches, k)[id := c.tokensIn];
      TotalUpdate(TokensIn(batches, k), id, c.tokensIn);
    }
    assert Total(TokensOut(more, k)) == Total(TokensOut(batches, k)) + c.tokensOut by {
      assert TokensOut(more, k) == TokensOut(batches, k)[id := c.tokensOut];
      TotalUpdate(TokensOut(batches, k), id, c.tokensOut);
    }
  }

  lemma {:induction false} NothingOwed(k: Key)
    ensures Owed(map[], k) == NONE
  {
    assert Requests(map[], k) == map[] && TokensIn(map[], k) == map[] && TokensOut(map[], k) == map[];
  }

  ghost predicate Mentioned(batches: map<BatchKey, seq<UsageEntry>>, k: Key) {
    exists id :: id in batches && Mentions(id, batches[id], k)
  }

  /** Each usage total is the sum over distinct accepted batches; a row exists exactly if one of them mentions it. */
  lemma {:induction false} CountedExactlyOnce(pins: set<string>, reports: seq<Report>, k: Key)
    ensures var s, batches := Run(pins, reports), Applied(pins, reports);
      && s.batches == batches.Keys
      && Count(s.usage, k) == Owed(batches, k)
      && (k in s.usage <==> Mentioned(batches, k))
  {
    hide Owed, Mentions, Mentioned, AddEntries, Count, Contribution;
    if reports == [] {
      NothingOwed(k);
      assert !Mentioned(map[], k) by { NothingMentioned(k); }
      assert Count(map[], k) == NONE by { NoRows(k); }
    } else {
      var init, r := reports[..|reports| - 1], reports[|reports| - 1];
      CountedExactlyOnce(pins, init, k);
      var s, before := Run(pins, init), Applied(pins, init);
      if r.id !in before && Acceptable(pins, r) {
        assert Run(pins, reports) == State(AddEntries(s.usage, r.id, r.entries), s.batches + {r.id});
        AddEntriesEffect(s.usage, r.id, r.entries, k);
        AddEntriesKeys(s.usage, r.id, r.entries, k);
        OwedGrows(before, r.id, r.entries, k);
        MentionedMore(before, r.id, r.entries, k);
      }
    }
  }

  lemma {:induction false} NothingMentioned(k: Key)
    ensures !Mentioned(map[], k)
  {}

  lemma {:induction false} NoRows(k: Key)
    ensures Count(map[], k) == NONE
  {}

  lemma {:induction false} MentionedMore(batches: map<BatchKey, seq<UsageEntry>>, id: BatchKey, entries: seq<UsageEntry>, k: Key)
    requires id !in batches
    ensures Mentioned(batches[id := entries], k) <==> Mentioned(batches, k) || Mentions(id, entries, k)
  {
    hide Mentions;
    var more := batches[id := entries];
    if Mentions(id, entries, k) {
      assert id in more && Mentions(id, more[id], k);
    }
    if j :| j in batches && Mentions(j, batches[j], k) {
      assert j in more && Mentions(j, more[j], k);
    }
  }

  // ---- delivery order ----

  /** Every report with an id carries the same contents. */
  ghost predicate FixedContents(reports: seq<Report>) {
    forall i, j :: 0 <= i < |reports| && 0 <= j < |reports| && reports[i].id == reports[j].id ==> reports[i] == reports[j]
  }

  lemma {:induction false} AppliedIsAcceptable(pins: set<string>, reports: seq<Report>)
    requires FixedContents(reports)
    ensures forall id :: id in Applied(pins, reports) <==> exists i :: 0 <= i < |reports| && reports[i].id == id && Acceptable(pins, reports[i])
    ensures forall i :: 0 <= i < |reports| && reports[i].id in Applied(pins, reports) ==> Applied(pins, reports)[reports[i].id] == reports[i].entries
  {
    hide Acceptable;
    if reports != [] {
      var n := |reports| - 1;
      var init := reports[..n];
      AppliedIsAcceptable(pins, init);
      forall id ensures id in Applied(pins, reports) <==> exists i :: 0 <= i < |reports| && reports[i].id == id && Acceptable(pins, reports[i]) {
        if id in Applied(pins, init) {
          var i :| 0 <= i < |init| && init[i].id == id && Acceptable(pins, init[i]);
          assert reports[i].id == id && Acceptable(pins, reports[i]);
        }
        if i :| 0 <= i < |reports| && reports[i].id == id && Acceptable(pins, reports[i]) {
          assert i < n ==> init[i].id == id && Acceptable(pins, init[i]);
        }
      }
    }
  }

  /** With fixed contents, the tables depend only on which reports were delivered, not on order or repetition. */
  lemma {:induction false} OrderDoesNotMatter(pins: set<string>, a: seq<Report>, b: seq<Report>)
    requires FixedContents(a) && FixedContents(b)
    requires forall r :: r in a <==> r in b
    ensures Run(pins, a) == Run(pins, b)
  {
    AppliedIsAcceptable(pins, a);
    AppliedIsAcceptable(pins, b);
    var x, y := Applied(pins, a), Applied(pins, b);
    AppliedIncluded(pins, a, b);
    AppliedIncluded(pins, b, a);
    assert x == y;
    forall k ensures k in Run(pins, a).usage <==> k in Run(pins, b).usage
             ensures Count(Run(pins, a).usage, k) == Count(Run(pins, b).usage, k)
    {
      CountedExactlyOnce(pins, a, k);
      CountedExactlyOnce(pins, b, k);
    }
    assert Run(pins, a).usage == Run(pins, b).usage;
    CountedExactlyOnce(pins, a, Key("", "", "", "", ""));
    CountedExactlyOnce(pins, b, Key("", "", "", "", ""));
  }

  lemma {:induction false} AppliedIncluded(pins: set<string>, a: seq<Report>, b: seq<Report>)
    requires FixedContents(a) && FixedContents(b)
    requires forall r :: r in a ==> r in b
    ensures forall id :: id in Applied(pins, a) ==> id in Applied(pins, b) && Applied(pins, b)[id] == Applied(pins, a)[id]
  {
    hide Acceptable;
    AppliedIsAcceptable(pins, a);
    AppliedIsAcceptable(pins, b);
    forall id | id in Applied(pins, a) ensures id in Applied(pins, b) && Applied(pins, b)[id] == Applied(pins, a)[id] {
      var i :| 0 <= i < |a| && a[i].id == id && Acceptable(pins, a[i]);
      assert a[i] in b;
      var j :| 0 <= j < |b| && b[j] == a[i];
    }
  }
}
