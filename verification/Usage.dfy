/** Spend tracking: the usage tracker, the budget check before a paid call, and the price
    cache whose refresh runs beside price updates. */
module Usage {
  import opened Options

  // ----- The tracker -----

  datatype Record = Record(promptTokens: int, completionTokens: int, totalTokens: int, cost: real, latency: int)

  const ZERO := Record(0, 0, 0, 0.0, 0)

  function Plus(a: Record, b: Record): Record {
    Record(a.promptTokens + b.promptTokens, a.completionTokens + b.completionTokens, a.totalTokens + b.totalTokens,
           a.cost + b.cost, a.latency + b.latency)
  }

  function Total(calls: seq<Record>): Record {
    if calls == [] then ZERO else Plus(Total(calls[..|calls| - 1]), calls[|calls| - 1])
  }

  /** What AdmitBudget lets through: anything without a budget, else whatever comes before
      the recorded costs have reached it. */
  predicate Admits(calls: seq<Record>, budget: real) {
    budget <= 0.0 || Total(calls).cost < budget
  }

  class UsageTracker {
    var calls: seq<Record>
    var totals: Record

    ghost predicate Valid()
      reads this
    {
      totals == Total(calls)
    }

    constructor ()
      ensures Valid() && calls == []
    {
      calls, totals := [], ZERO;
    }

    method Add(u: Record)
      requires Valid()
      modifies this
      ensures Valid() && calls == old(calls) + [u]
      ensures totals.promptTokens == old(totals.promptTokens) + u.promptTokens
      ensures totals.completionTokens == old(totals.completionTokens) + u.completionTokens
      ensures totals.totalTokens == old(totals.totalTokens) + u.totalTokens
      ensures totals.cost == old(totals.cost) + u.cost && totals.latency == old(totals.latency) + u.latency
    {
      assert (calls + [u])[..|calls|] == calls;
      calls := calls + [u];
      totals := Plus(totals, u);
    }

    /** The budget check: it compares what has been recorded, not what is in flight. */
    method AdmitBudget(budget: real) returns (admitted: bool)
      requires Valid()
      ensures admitted <==> Admits(calls, budget)
    {
      admitted := budget <= 0.0 || !(totals.cost >= budget);
    }
  }

  // ----- What a total is -----

  /** One more call adds its own numbers to the total, field by field. */
  lemma TotalGrows(calls: seq<Record>, u: Record)
    ensures var before, after := Total(calls), Total(calls + [u]);
            && after.promptTokens == before.promptTokens + u.promptTokens
            && after.completionTokens == before.completionTokens + u.completionTokens
            && after.totalTokens == before.totalTokens + u.totalTokens
            && after.cost == before.cost + u.cost && after.latency == before.latency + u.latency
    ensures Total([]) == Record(0, 0, 0, 0.0, 0)
  {
    assert (calls + [u])[..|calls|] == calls;
  }

  lemma {:induction false} TotalJoin(a: seq<Record>, b: seq<Record>)
    ensures Total(a + b) == Plus(Total(a), Total(b))
  {
    if b == [] {
      assert a + b == a;
    } else {
      assert (a + b)[..|a + b| - 1] == a + b[..|b| - 1];
      TotalJoin(a, b[..|b| - 1]);
    }
  }

  lemma CutOne(calls: seq<Record>, k: nat)
    requires k < |calls|
    ensures calls == calls[..k] + ([calls[k]] + calls[k + 1..])
    ensures multiset(calls) == multiset(calls[..k] + calls[k + 1..]) + multiset{calls[k]}
  {
    assert calls == calls[..k] + ([calls[k]] + calls[k + 1..]);
  }

  lemma PlusAround(f: Record, u: Record, b: Record)
    ensures Plus(f, Plus(u, b)) == Plus(Plus(f, b), u)
  {
  }

  lemma TotalOfOne(u: Record)
    ensures Total([u]) == u
  {
    assert [u][..0] == [];
  }

  lemma TotalAround(front: seq<Record>, u: Record, back: seq<Record>)
    ensures Total(front + ([u] + back)) == Plus(Total(front + back), u)
  {
    TotalJoin(front, [u] + back);
    TotalJoin([u], back);
    TotalJoin(front, back);
    TotalOfOne(u);
    PlusAround(Total(front), u, Total(back));
  }

  lemma TotalWithout(calls: seq<Record>, k: nat)
    requires k < |calls|
    ensures Total(calls) == Plus(Total(calls[..k] + calls[k + 1..]), calls[k])
  {
    CutOne(calls, k);
    TotalAround(calls[..k], calls[k], calls[k + 1..]);
  }

  lemma CancelOne(a: multiset<Record>, b: multiset<Record>, x: Record)
    requires a + multiset{x} == b + multiset{x}
    ensures a == b
  {
    assert a == (a + multiset{x}) - multiset{x};
    assert b == (b + multiset{x}) - multiset{x};
  }

  /** The order in which calls are recorded does not matter. */
  lemma {:induction false} TotalPermutes(a: seq<Record>, b: seq<Record>)
    requires multiset(a) == multiset(b)
    ensures Total(a) == Total(b)
    decreases |a|
  {
    if a == [] {
      assert |multiset(b)| == |b|;
    } else {
      var n := |a| - 1;
      assert a[n] in multiset(b);
      var k :| 0 <= k < |b| && b[k] == a[n];
      TotalWithout(b, k);
      CutOne(a, n);
      CutOne(b, k);
      assert a[..n] + a[n + 1..] == a[..n];
      CancelOne(multiset(a[..n]), multiset(b[..k] + b[k + 1..]), a[n]);
      TotalPermutes(a[..n], b[..k] + b[k + 1..]);
    }
  }

  // ----- Calls in flight -----

  /** A paid call passes AdmitBudget and starts, or ends and records its cost. */
  datatype Event = Begin | End(cost: real)

  datatype Ledger = Ledger(spend: real, inFlight: nat)

  /** At most `slots` calls are in flight, and each costs between nothing and `most`. */
  predicate Possible(l: Ledger, e: Event, budget: real, slots: nat, most: real) {
    match e
    case Begin => l.inFlight < slots && (budget <= 0.0 || l.spend < budget)
    case End(cost) => 0 < l.inFlight && 0.0 <= cost <= most
  }

  function Next(l: Ledger, e: Event): Ledger
    requires e.End? ==> 0 < l.inFlight
  {
    match e
    case Begin => l.(inFlight := l.inFlight + 1)
    case End(cost) => Ledger(l.spend + cost, l.inFlight - 1)
  }

  ghost predicate Runs(l: Ledger, events: seq<Event>, m: Ledger, budget: real, slots: nat, most: real)
    decreases |events|
  {
    if events == [] then l == m
    else Possible(l, events[0], budget, slots, most) && Runs(Next(l, events[0]), events[1..], m, budget, slots, most)
  }

  lemma FewerCost(k: nat, slots: nat, most: real)
    requires k <= slots && 0.0 <= most
    ensures k as real * most <= slots as real * most
  {
    assert slots as real * most - k as real * most == (slots - k) as real * most;
  }

  lemma OneMoreTimes(k: nat, m: nat, most: real)
    requires m == k + 1
    ensures m as real * most == k as real * most + most
  {
    assert m as real == k as real + 1.0;
  }

  /** What is spent, plus the most that can still come in. */
  ghost predicate Below(l: Ledger, budget: real, slots: nat, most: real) {
    l.spend + l.inFlight as real * most < budget + slots as real * most
  }

  lemma BeginStaysBelow(l: Ledger, budget: real, slots: nat, most: real)
    requires Possible(l, Begin, budget, slots, most) && 0.0 < budget && 0.0 <= most
    ensures Below(Next(l, Begin), budget, slots, most)
  {
    FewerCost(l.inFlight + 1, slots, most);
  }

  lemma EndStaysBelow(l: Ledger, cost: real, budget: real, slots: nat, most: real)
    requires Possible(l, End(cost), budget, slots, most) && Below(l, budget, slots, most)
    ensures Below(Next(l, End(cost)), budget, slots, most)
  {
    OneMoreTimes(l.inFlight - 1, l.inFlight, most);
  }

  lemma {:induction false} SpendBoundFrom(l: Ledger, events: seq<Event>, m: Ledger, budget: real, slots: nat,
                                          most: real)
    requires Runs(l, events, m, budget, slots, most) && 0.0 < budget && 0.0 <= most && Below(l, budget, slots, most)
    ensures Below(m, budget, slots, most)
    decreases |events|
  {
    if events != [] {
      match events[0] {
        case Begin => BeginStaysBelow(l, budget, slots, most);
        case End(cost) => EndStaysBelow(l, cost, budget, slots, most);
      }
      SpendBoundFrom(Next(l, events[0]), events[1..], m, budget, slots, most);
    }
  }

  /** With a positive budget, at most `slots` calls in flight and at most `most` per call,
      the total never reaches `budget + slots * most`. */
  lemma SpendBound(events: seq<Event>, m: Ledger, budget: real, slots: nat, most: real)
    requires Runs(Ledger(0.0, 0), events, m, budget, slots, most) && 0.0 < budget && 0.0 <= most
    ensures m.spend < budget + slots as real * most
  {
    assert 0.0 <= slots as real * most;
    SpendBoundFrom(Ledger(0.0, 0), events, m, budget, slots, most);
    assert 0.0 <= m.inFlight as real * most;
  }

  lemma {:induction false} EndAll(l: Ledger, m: Ledger, budget: real, slots: nat, most: real)
    returns (events: seq<Event>)
    requires 0.0 <= most && m.inFlight == 0 && m.spend == l.spend + l.inFlight as real * most
    ensures Runs(l, events, m, budget, slots, most)
    decreases l.inFlight
  {
    events := [];
    if l.inFlight == 0 {
      assert 0 as real * most == 0.0;
    } else {
      var rest := EndAll(Next(l, End(most)), m, budget, slots, most);
      events := [End(most)] + rest;
      assert events[1..] == rest;
    }
  }

  lemma {:induction false} BeginAll(l: Ledger, m: Ledger, budget: real, slots: nat, most: real)
    returns (events: seq<Event>)
    requires l.spend < budget && l.inFlight <= slots && 0.0 <= most
    requires m.inFlight == 0 && m.spend == l.spend + slots as real * most
    ensures Runs(l, events, m, budget, slots, most)
    decreases slots - l.inFlight
  {
    if l.inFlight == slots {
      events := EndAll(l, m, budget, slots, most);
    } else {
      var rest := BeginAll(Next(l, Begin), m, budget, slots, most);
      events := [Begin] + rest;
      assert events[1..] == rest;
    }
  }

  /** The bound cannot be improved: from any spend below the budget with nothing in flight,
      as many calls as there are slots pass AdmitBudget together and each spends its most. */
  lemma SpendBoundIsTight(spend: real, budget: real, slots: nat, most: real) returns (events: seq<Event>)
    requires 0.0 <= spend < budget && 0.0 <= most
    ensures Runs(Ledger(spend, 0), events, Ledger(spend + slots as real * most, 0), budget, slots, most)
  {
    events := BeginAll(Ledger(spend, 0), Ledger(spend + slots as real * most, 0), budget, slots, most);
  }

  // ----- The tracker is such a ledger -----

  /** The recorded calls, and how many more have passed AdmitBudget. */
  datatype Tracked = Tracked(calls: seq<Record>, inFlight: nat)

  datatype TrackerEvent = Admitted | Added(u: Record)

  /** `Admitted` is what AdmitBudget lets through, with a slot free. */
  predicate TrackerCan(t: Tracked, e: TrackerEvent, budget: real, slots: nat, most: real) {
    match e
    case Admitted => t.inFlight < slots && Admits(t.calls, budget)
    case Added(u) => 0 < t.inFlight && 0.0 <= u.cost <= most
  }

  function TrackerNext(t: Tracked, e: TrackerEvent): Tracked
    requires e.Added? ==> 0 < t.inFlight
  {
    match e
    case Admitted => t.(inFlight := t.inFlight + 1)
    case Added(u) => Tracked(t.calls + [u], t.inFlight - 1)
  }

  ghost predicate TrackerRuns(t: Tracked, events: seq<TrackerEvent>, v: Tracked, budget: real, slots: nat, most: real)
    decreases |events|
  {
    if events == [] then t == v
    else
      TrackerCan(t, events[0], budget, slots, most)
      && TrackerRuns(TrackerNext(t, events[0]), events[1..], v, budget, slots, most)
  }

  /** What is spent is the sum of the recorded costs. */
  function Spending(t: Tracked): Ledger {
    Ledger(Total(t.calls).cost, t.inFlight)
  }

  lemma {:induction false} TrackerIsALedger(t: Tracked, events: seq<TrackerEvent>, v: Tracked,
                                            budget: real, slots: nat, most: real)
    returns (spending: seq<Event>)
    requires TrackerRuns(t, events, v, budget, slots, most)
    ensures Runs(Spending(t), spending, Spending(v), budget, slots, most)
    decreases |events|
  {
    spending := [];
    if events != [] {
      var next := TrackerNext(t, events[0]);
      var rest := TrackerIsALedger(next, events[1..], v, budget, slots, most);
      var first := match events[0] case Admitted => Begin case Added(u) => End(u.cost);
      if events[0].Added? {
        TotalGrows(t.calls, events[0].u);
      }
      assert Next(Spending(t), first) == Spending(next);
      spending := [first] + rest;
      assert spending[1..] == rest;
    }
  }

  /** So the recorded costs of any interleaving of admissions and records stay below the
      budget and one call for every slot. */
  lemma TrackedSpendBound(events: seq<TrackerEvent>, v: Tracked, budget: real, slots: nat, most: real)
    requires TrackerRuns(Tracked([], 0), events, v, budget, slots, most) && 0.0 < budget && 0.0 <= most
    ensures Total(v.calls).cost < budget + slots as real * most
  {
    var spending := TrackerIsALedger(Tracked([], 0), events, v, budget, slots, most);
    SpendBound(spending, Spending(v), budget, slots, most);
  }

  // ----- Exactly when the budget can be overspent -----

  lemma {:induction false} RunsJoin(l: Ledger, first: seq<Event>, m: Ledger, second: seq<Event>, n: Ledger,
                                    budget: real, slots: nat, most: real)
    requires Runs(l, first, m, budget, slots, most) && Runs(m, second, n, budget, slots, most)
    ensures Runs(l, first + second, n, budget, slots, most)
    decreases |first|
  {
    if first == [] {
      assert first + second == second;
    } else {
      RunsJoin(Next(l, first[0]), first[1..], m, second, n, budget, slots, most);
      assert (first + second)[1..] == first[1..] + second;
    }
  }

  /** One call after the other. */
  lemma OneCall(spend: real, cost: real, budget: real, slots: nat, most: real)
    requires spend < budget && 0.0 <= cost <= most && 0 < slots
    ensures Runs(Ledger(spend, 0), [Begin, End(cost)], Ledger(spend + cost, 0), budget, slots, most)
  {
    var l := Ledger(spend, 1);
    assert [Begin, End(cost)][1..] == [End(cost)] && [End(cost)][1..] == [];
    assert Runs(l, [End(cost)], Ledger(spend + cost, 0), budget, slots, most);
  }

  /** Any spend below the budget is reached by calls that do not even overlap. */
  lemma {:induction false} ReachSpend(spend: real, n: nat, budget: real, slots: nat, most: real)
    returns (events: seq<Event>)
    requires 0.0 <= spend < budget && 0 < slots && 0.0 < most && spend <= n as real * most
    ensures Runs(Ledger(0.0, 0), events, Ledger(spend, 0), budget, slots, most)
    decreases n
  {
    if n == 0 {
      events := [];
    } else {
      OneMoreTimes(n - 1, n, most);
      var before := if spend < most then 0.0 else spend - most;
      events := ReachSpend(before, n - 1, budget, slots, most);
      OneCall(before, spend - before, budget, slots, most);
      RunsJoin(Ledger(0.0, 0), events, Ledger(before, 0), [Begin, End(spend - before)], Ledger(spend, 0),
               budget, slots, most);
      events := events + [Begin, End(spend - before)];
    }
  }

  lemma Scales(x: real, y: real, k: real)
    requires x <= y && 0.0 <= k
    ensures x * k <= y * k
  {
  }

  lemma EnoughCalls(spend: real, most: real) returns (n: nat)
    requires 0.0 <= spend && 0.0 < most
    ensures spend <= n as real * most
  {
    var q := spend / most;
    assert q * most == spend;
    assert 0.0 <= q;
    n := q.Floor + 1;
    assert q <= n as real;
    Scales(q, n as real, most);
  }

  /** Whatever is spent below the budget, all slots together can add their most to it. */
  lemma ReachTheBound(spend: real, budget: real, slots: nat, most: real) returns (events: seq<Event>)
    requires 0.0 <= spend < budget && 0 < slots && 0.0 < most
    ensures Runs(Ledger(0.0, 0), events, Ledger(spend + slots as real * most, 0), budget, slots, most)
  {
    var n := EnoughCalls(spend, most);
    var first := ReachSpend(spend, n, budget, slots, most);
    var second := SpendBoundIsTight(spend, budget, slots, most);
    RunsJoin(Ledger(0.0, 0), first, Ledger(spend, 0), second, Ledger(spend + slots as real * most, 0),
             budget, slots, most);
    events := first + second;
  }

  /** Without slots nothing starts, and calls that cost nothing spend nothing. */
  lemma {:induction false} NothingSpent(l: Ledger, events: seq<Event>, m: Ledger, budget: real, slots: nat, most: real)
    requires Runs(l, events, m, budget, slots, most) && (most <= 0.0 || (slots == 0 && l.inFlight == 0))
    ensures m.spend <= l.spend
    decreases |events|
  {
    if events != [] {
      NothingSpent(Next(l, events[0]), events[1..], m, budget, slots, most);
    }
  }

  lemma AllSlotsOverspend(spend: real, budget: real, slots: nat, most: real)
    requires 0 < slots && 0.0 < most && spend + most > budget
    ensures spend + slots as real * most > budget
  {
    var all := slots as real * most;
    Scales(1.0, slots as real, most);
    assert most <= all;
  }

  ghost predicate Overspends(events: seq<Event>, m: Ledger, budget: real, slots: nat, most: real) {
    Runs(Ledger(0.0, 0), events, m, budget, slots, most) && m.spend > budget
  }

  /** A positive budget can be overspent exactly when a call can be made and can cost
      anything at all. */
  lemma OverspendIff(budget: real, slots: nat, most: real)
    requires 0.0 < budget
    ensures (exists events, m :: Overspends(events, m, budget, slots, most)) <==> 0 < slots && 0.0 < most
  {
    if 0 < slots && 0.0 < most {
      var spend := if budget < most then 0.0 else budget - most / 2.0;
      var events := ReachTheBound(spend, budget, slots, most);
      AllSlotsOverspend(spend, budget, slots, most);
      assert Overspends(events, Ledger(spend + slots as real * most, 0), budget, slots, most);
    } else if events, m :| Overspends(events, m, budget, slots, most) {
      NothingSpent(Ledger(0.0, 0), events, m, budget, slots, most);
    }
  }

  // ----- Prices -----

  datatype Price = Price(prompt: real, completion: real)

  type Prices = map<string, Price>

  datatype Cache = Cache(prices: Prices, dynamic: Prices)

  /** A price is set, or a refresh commits prices that it gathered at some earlier time. */
  datatype PriceEvent = SetPrice(model: string, price: Price) | Commit(gathered: Prices)

  function Priced(c: Cache, e: PriceEvent): Cache {
    match e
    case SetPrice(model, price) => Cache(c.prices[model := price], c.dynamic[model := price])
    case Commit(gathered) => c.(prices := gathered + c.dynamic)
  }

  class PriceCache {
    var prices: Prices
    var dynamicPrices: Prices
    const custom: Prices

    ghost function View(): Cache
      reads this
    {
      Cache(prices, dynamicPrices)
    }

    constructor (builtin: Prices, custom: Prices)
      ensures View() == Cache(builtin + custom, map[]) && this.custom == custom
    {
      prices, dynamicPrices, this.custom := builtin + custom, map[], custom;
    }

    method SetPricing(model: string, pricing: Price)
      modifies this
      ensures View() == Priced(old(View()), SetPrice(model, pricing))
      ensures prices == old(prices)[model := pricing] && dynamicPrices == old(dynamicPrices)[model := pricing]
    {
      prices := prices[model := pricing];
      dynamicPrices := dynamicPrices[model := pricing];
    }

    /** The end of a refresh: builtins, then live prices, then custom ones, and under the
        lock whatever was set meanwhile. */
    method CommitFetch(builtin: Prices, live: Prices)
      modifies this
      ensures View() == Priced(old(View()), Commit(builtin + live + custom))
      ensures dynamicPrices == old(dynamicPrices)
      ensures prices.Keys == builtin.Keys + live.Keys + custom.Keys + dynamicPrices.Keys
      ensures forall model | model in prices ::
                prices[model] == if model in dynamicPrices then dynamicPrices[model]
                                 else if model in custom then custom[model]
                                 else if model in live then live[model]
                                 else builtin[model]
    {
      var newPrices := builtin + live + custom;
      prices := newPrices + dynamicPrices;
    }
  }

  function PricedAll(c: Cache, events: seq<PriceEvent>): Cache {
    if events == [] then c else Priced(PricedAll(c, events[..|events| - 1]), events[|events| - 1])
  }

  function LastSet(events: seq<PriceEvent>, model: string): Option<Price> {
    if events == [] then None
    else
      var e := events[|events| - 1];
      if e.SetPrice? && e.model == model then Some(e.price) else LastSet(events[..|events| - 1], model)
  }

  /** A price that was set is never lost to a refresh, however they interleave: the cache
      answers with the last one set. */
  lemma {:induction false} SetPriceSurvives(c: Cache, events: seq<PriceEvent>, model: string)
    requires LastSet(events, model).Some?
    ensures var after := PricedAll(c, events);
            && model in after.prices && after.prices[model] == LastSet(events, model).value
            && model in after.dynamic && after.dynamic[model] == LastSet(events, model).value
  {
    var n := |events| - 1;
    var e := events[n];
    if !(e.SetPrice? && e.model == model) {
      SetPriceSurvives(c, events[..n], model);
    }
  }

  function LastCommit(events: seq<PriceEvent>): Option<Prices> {
    if events == [] then None
    else
      var e := events[|events| - 1];
      if e.Commit? then Some(e.gathered) else LastCommit(events[..|events| - 1])
  }

  /** A price that was never set is what the last refresh gathered, and is gone if that
      refresh did not gather it. */
  lemma {:induction false} UnsetPriceIsGathered(c: Cache, events: seq<PriceEvent>, model: string)
    requires LastSet(events, model).None? && model !in c.dynamic
    ensures var after := PricedAll(c, events);
            var gathered := if LastCommit(events).Some? then LastCommit(events).value else c.prices;
            && model !in after.dynamic
            && (model in after.prices <==> model in gathered)
            && (model in gathered ==> after.prices[model] == gathered[model])
  {
    if events != [] {
      UnsetPriceIsGathered(c, events[..|events| - 1], model);
    }
  }
}
