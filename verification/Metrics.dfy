/** The metrics cache (base/metrics.cpp): Prometheus counters found through cached pointers, by threads
    whose calls interleave at the mutex and at the increments outside it. */
module Metrics {
  import opened MetricCalls

  // ---------- Prometheus ----------

  /** The label set of a counter: service and result, or service and device. */
  type Labels = Call

  class Counter {
    const labels: Labels
    var value: nat

    constructor (labels: Labels)
      ensures this.labels == labels && value == 0
    {
      this.labels, value := labels, 0;
    }

    method Increment()
      modifies this
      ensures value == old(value) + 1
    {
      value := value + 1;
    }
  }

  /** A family keeps one counter per label set: Add returns the existing one for known labels. */
  class Family {
    var children: map<Labels, Counter>

    ghost predicate Valid()
      reads this
    {
      forall l :: l in children ==> children[l].labels == l
    }

    constructor ()
      ensures Valid() && children == map[]
    {
      children := map[];
    }

    method Add(labels: Labels) returns (c: Counter)
      requires Valid()
      modifies this
      ensures Valid()
      ensures if labels in old(children) then children == old(children) && c == children[labels]
              else fresh(c) && c.value == 0 && children == old(children)[labels := c]
    {
      if labels in children {
        return children[labels];
      }
      c := new Counter(labels);
      children := children[labels := c];
    }
  }

  // ---------- cache keys ----------

  function DeviceKey(service: string, device: string): string {
    service + "|" + device
  }

  function KeyOf(l: Labels): string {
    if l.DeviceUpdate? then DeviceKey(l.service, l.device) else ""
  }

  predicate BarFree(s: string) {
    forall i :: 0 <= i < |s| ==> s[i] != '|'
  }

  /** No service continues another one with a bar. */
  predicate Separated(services: set<string>) {
    forall s, t :: s in services && t in services && s != t ==> !(s + "|" <= t)
  }

  lemma KeyPrefix(s: string, d: string, t: string, e: string)
    requires DeviceKey(s, d) == DeviceKey(t, e)
    ensures (s == t && d == e) || (s != t && (s + "|" <= t || t + "|" <= s))
  {
    var k := DeviceKey(s, d);
    assert k[..|s|] == s && k[|s|] == '|' && k[|s| + 1..] == d;
    assert k[..|t|] == t && k[|t|] == '|' && k[|t| + 1..] == e;
    if |s| < |t| {
      assert t[..|s| + 1] == s + "|";
    } else if |t| < |s| {
      assert s[..|t| + 1] == t + "|";
    }
  }

  /** Device keys identify (service, device) pairs for all devices exactly when the services in use are
      separated. */
  lemma KeysInjective(services: set<string>)
    ensures Separated(services) <==>
            (forall s, d, t, e ::
               s in services && t in services && DeviceKey(s, d) == DeviceKey(t, e) ==> s == t && d == e)
  {
    if Separated(services) {
      forall s, d, t, e | s in services && t in services && DeviceKey(s, d) == DeviceKey(t, e)
        ensures s == t && d == e
      {
        KeyPrefix(s, d, t, e);
      }
    } else {
      var s, t :| s in services && t in services && s != t && s + "|" <= t;
      var rest := t[|s| + 1..];
      assert DeviceKey(s, rest + "|" + "") == DeviceKey(t, "");
    }
  }

  /** Services without a bar are separated. */
  lemma BarFreeSeparated(services: set<string>)
    requires forall s :: s in services ==> BarFree(s)
    ensures Separated(services)
  {
    forall s, t | s in services && t in services && s != t
      ensures !(s + "|" <= t)
    {
      assert (s + "|")[|s|] == '|';
    }
  }

  // ---------- what the counters show ----------

  /** The effect of a log of calls on the exported counters: per query label set, the calls; per device
      key, the labels that used the key first and all calls with that key. */
  datatype Tally = Tally(queries: map<Labels, nat>, owners: map<string, Labels>, keyed: map<string, nat>)

  function Get<K>(m: map<K, nat>, k: K): nat {
    if k in m then m[k] else 0
  }

  function Tallied(t: Tally, c: Call): Tally {
    match c
    case QueryResult(_, _) => t.(queries := t.queries[c := Get(t.queries, c) + 1])
    case DeviceUpdate(s, d) =>
      var k := DeviceKey(s, d);
      t.(owners := if k in t.owners then t.owners else t.owners[k := c],
         keyed := t.keyed[k := Get(t.keyed, k) + 1])
  }

  function TallyOf(calls: seq<Call>): Tally {
    if calls == [] then Tally(map[], map[], map[])
    else Tallied(TallyOf(calls[..|calls| - 1]), calls[|calls| - 1])
  }

  lemma TallyAppend(calls: seq<Call>, c: Call)
    ensures TallyOf(calls + [c]) == Tallied(TallyOf(calls), c)
  {
    assert (calls + [c])[..|calls|] == calls;
  }

  /** What the exported device counter shows: all calls with the same key are counted under the labels
      that used the key first. */
  function Exported(t: Tally, s: string, d: string): nat {
    var k := DeviceKey(s, d);
    if k in t.owners && t.owners[k] == DeviceUpdate(s, d) then Get(t.keyed, k) else 0
  }

  function DeviceShown(calls: seq<Call>, s: string, d: string): nat {
    Exported(TallyOf(calls), s, d)
  }

  predicate Uses(calls: seq<Call>, services: set<string>) {
    forall i :: 0 <= i < |calls| && calls[i].DeviceUpdate? ==> calls[i].service in services
  }

  lemma {:induction false} CountAppend(calls: seq<Call>, last: Call, c: Call)
    ensures Count(calls + [last], c) == Count(calls, c) + if last == c then 1 else 0
  {
    CountConcat(calls, [last], c);
    assert [last][1..] == [];
  }

  /** Query counters show the number of calls, for all services. */
  lemma {:induction false} QueryTally(calls: seq<Call>, s: string, ok: bool)
    ensures Get(TallyOf(calls).queries, QueryResult(s, ok)) == Count(calls, QueryResult(s, ok))
  {
    if calls != [] {
      var init, last := calls[..|calls| - 1], calls[|calls| - 1];
      assert init + [last] == calls;
      QueryTally(init, s, ok);
      CountAppend(init, last, QueryResult(s, ok));
    }
  }

  lemma {:induction false} SeparatedShown(calls: seq<Call>, services: set<string>, s: string, d: string)
    requires Separated(services) && Uses(calls, services) && s in services
    ensures var t, k, n := TallyOf(calls), DeviceKey(s, d), Count(calls, DeviceUpdate(s, d));
            && Get(t.keyed, k) == n
            && (k in t.owners <==> n > 0)
            && (k in t.owners ==> t.owners[k] == DeviceUpdate(s, d))
  {
    if calls != [] {
      var init, last := calls[..|calls| - 1], calls[|calls| - 1];
      assert init + [last] == calls;
      SeparatedShown(init, services, s, d);
      CountAppend(init, last, DeviceUpdate(s, d));
      if last.DeviceUpdate? && DeviceKey(last.service, last.device) == DeviceKey(s, d) {
        KeyPrefix(s, d, last.service, last.device);
      }
    }
  }

  /** Two services, one continuing the other with a bar, and two devices that share a cache key: the
      second pair's counter is never created. */
  lemma CollidingServices(s: string, t: string)
    requires s != t && s + "|" <= t
    ensures var calls := [DeviceUpdate(s, t[|s| + 1..] + "|"), DeviceUpdate(t, "")];
            DeviceShown(calls, t, "") == 0 && Count(calls, DeviceUpdate(t, "")) == 1
  {
    var d := t[|s| + 1..] + "|";
    var first, second := DeviceUpdate(s, d), DeviceUpdate(t, "");
    assert DeviceKey(s, d) == DeviceKey(t, "");
    assert [first] + [second] == [first, second] && [] + [first] == [first];
    TallyAppend([], first);
    TallyAppend([first], second);
    CountAppend([], first, second);
    CountAppend([first], second, second);
  }

  /** Every device counter shows the number of calls for its own labels, whatever the devices, exactly
      when the services in use are separated. */
  lemma DeviceCountersExact(services: set<string>)
    ensures Separated(services) <==>
            (forall calls, s, d :: Uses(calls, services) && s in services ==>
                                     DeviceShown(calls, s, d) == Count(calls, DeviceUpdate(s, d)))
  {
    if Separated(services) {
      forall calls, s, d | Uses(calls, services) && s in services
        ensures DeviceShown(calls, s, d) == Count(calls, DeviceUpdate(s, d))
      {
        SeparatedShown(calls, services, s, d);
      }
    } else {
      var s, t :| s in services && t in services && s != t && s + "|" <= t;
      CollidingServices(s, t);
      var calls := [DeviceUpdate(s, t[|s| + 1..] + "|"), DeviceUpdate(t, "")];
      assert Uses(calls, services);
      assert DeviceShown(calls, t, "") != Count(calls, DeviceUpdate(t, ""));
    }
  }

  // ---------- the metrics object ----------

  datatype QueryChildren = QueryChildren(okCounter: Counter, errorCounter: Counter)

  /** Each cached device counter is the family's counter of the labels that used its key first, and the
      family has no others. */
  ghost predicate CacheAgrees(cache: map<string, Counter>, children: map<Labels, Counter>,
                              owners: map<string, Labels>)
  {
    && cache.Keys == owners.Keys
    && (forall k :: k in owners ==>
                      owners[k] in children && cache[k] == children[owners[k]] && KeyOf(owners[k]) == k)
    && (forall l :: l in children ==> KeyOf(l) in owners && owners[KeyOf(l)] == l)
  }

  lemma CacheNext(cache: map<string, Counter>, children: map<Labels, Counter>, owners: map<string, Labels>,
                  l: Labels, c: Counter)
    requires CacheAgrees(cache, children, owners) && KeyOf(l) !in owners
    ensures l !in children
    ensures CacheAgrees(cache[KeyOf(l) := c], children[l := c], owners[KeyOf(l) := l])
  {
  }

  ghost function Shown(family: Family, l: Labels): nat
    reads family, family.children.Values
  {
    if l in family.children then family.children[l].value else 0
  }

  class WastlernetMetrics {
    const queries: Family
    const devices: Family
    var byService: map<string, QueryChildren>
    var deviceCounters: map<string, Counter>
    /** The completed calls, and their tally. */
    ghost var calls: seq<Call>
    ghost var tally: Tally

    constructor ()
      ensures Valid() && calls == []
      ensures fresh(queries) && fresh(devices) && queries.children == map[] && devices.children == map[]
    {
      queries := new Family();
      devices := new Family();
      byService, deviceCounters := map[], map[];
      calls, tally := [], Tally(map[], map[], map[]);
    }

    ghost function Counters(): set<Counter>
      reads this, queries, devices
    {
      queries.children.Values + devices.children.Values
    }

    /** Counters carry their own labels, so no two label sets share one. */
    ghost predicate FamiliesValid()
      reads this, queries, devices
    {
      && queries != devices && queries.Valid() && devices.Valid()
      && (forall l :: l in queries.children ==> l.QueryResult?)
      && (forall l :: l in devices.children ==> l.DeviceUpdate?)
    }

    /** These are the family's own counters for the service. */
    ghost predicate Registered(s: string, c: QueryChildren)
      reads this, queries
    {
      && QueryResult(s, true) in queries.children && c.okCounter == queries.children[QueryResult(s, true)]
      && QueryResult(s, false) in queries.children && c.errorCounter == queries.children[QueryResult(s, false)]
    }

    ghost predicate QueryCacheAgrees()
      reads this, queries
    {
      forall s :: s in byService ==> Registered(s, byService[s])
    }

    ghost predicate DeviceCacheAgrees(owners: map<string, Labels>)
      reads this, devices
    {
      CacheAgrees(deviceCounters, devices.children, owners)
    }

    /** Every counter has the value that the tally gives it. */
    ghost predicate CountersAgree(t: Tally)
      reads this, queries, devices, Counters()
    {
      && (forall l :: l in queries.children ==> queries.children[l].value == Get(t.queries, l))
      && t.queries.Keys <= queries.children.Keys
      && (forall l :: l in devices.children ==> devices.children[l].value == Get(t.keyed, KeyOf(l)))
      && t.keyed.Keys <= t.owners.Keys
    }

    ghost predicate Valid()
      reads this, queries, devices, Counters()
    {
      && tally == TallyOf(calls)
      && FamiliesValid() && QueryCacheAgrees() && DeviceCacheAgrees(tally.owners) && CountersAgree(tally)
    }

    /** The exported counters, zero where there is none, show exactly what the log says. */
    lemma CountersShown()
      requires Valid()
      ensures forall s, ok :: Shown(queries, QueryResult(s, ok)) == Count(calls, QueryResult(s, ok))
      ensures forall s, d :: Shown(devices, DeviceUpdate(s, d)) == DeviceShown(calls, s, d)
    {
      forall s, ok
        ensures Shown(queries, QueryResult(s, ok)) == Count(calls, QueryResult(s, ok))
      {
        QueryTally(calls, s, ok);
      }
    }

    /** queries_total_family_->Add. */
    method AddQuery(service: string, ok: bool) returns (c: Counter)
      requires Valid()
      modifies queries
      ensures Valid()
      ensures QueryResult(service, ok) in queries.children && c == queries.children[QueryResult(service, ok)]
      ensures forall l :: l in old(queries.children) ==>
                            l in queries.children && queries.children[l] == old(queries.children)[l]
      ensures fresh(queries.children.Values - old(queries.children.Values))
    {
      c := queries.Add(QueryResult(service, ok));
    }

    /** The region under the mutex of every query-result call. */
    method GetOrCreateChildren(service: string) returns (c: QueryChildren)
      requires Valid()
      modifies this`byService, queries
      ensures Valid() && Registered(service, c)
      ensures forall l :: l in old(queries.children) ==>
                            l in queries.children && queries.children[l] == old(queries.children)[l]
      ensures fresh(queries.children.Values - old(queries.children.Values))
      ensures fresh(Counters() - old(Counters()))
    {
      if service in byService {
        return byService[service];
      }
      var ok := AddQuery(service, true);
      var error := AddQuery(service, false);
      c := QueryChildren(ok, error);
      byService := byService[service := c];
    }

    ghost method Log(c: Call)
      requires tally == TallyOf(calls)
      modifies this`calls, this`tally
      ensures calls == old(calls) + [c]
      ensures tally == TallyOf(calls) == Tallied(old(tally), c)
    {
      TallyAppend(calls, c);
      calls, tally := calls + [c], Tallied(tally, c);
    }

    /** The increment outside the mutex completes the call. */
    method Complete(service: string, ok: bool, c: QueryChildren)
      requires Valid() && Registered(service, c)
      modifies this`calls, this`tally, c.okCounter, c.errorCounter
      ensures Valid() && calls == old(calls) + [QueryResult(service, ok)]
      ensures queries.children == old(queries.children) && devices.children == old(devices.children)
    {
      if ok {
        c.okCounter.Increment();
      } else {
        c.errorCounter.Increment();
      }
      Log(QueryResult(service, ok));
    }

    method RecordQueryResult(service: string, ok: bool)
      requires Valid()
      modifies this`byService, this`calls, this`tally, queries, Counters()
      ensures Valid() && calls == old(calls) + [QueryResult(service, ok)]
      ensures fresh(Counters() - old(Counters()))
    {
      var c := GetOrCreateChildren(service);
      Complete(service, ok, c);
    }

    /** Valid but for the update of this device, whose counter is cached and not yet incremented. */
    ghost predicate Cached(service: string, device: string, ctr: Counter)
      reads this, queries, devices, Counters()
    {
      && tally == TallyOf(calls) && FamiliesValid() && QueryCacheAgrees() && CountersAgree(tally)
      && DeviceCacheAgrees(Tallied(tally, DeviceUpdate(service, device)).owners)
      && DeviceKey(service, device) in deviceCounters && ctr == deviceCounters[DeviceKey(service, device)]
    }

    /** Find the cached counter of a key, or add and cache it. */
    method FindDeviceCounter(service: string, device: string) returns (ctr: Counter)
      requires Valid()
      modifies this`deviceCounters, devices
      ensures Cached(service, device, ctr) && ctr in Counters()
      ensures queries.children == old(queries.children) && fresh(Counters() - old(Counters()))
    {
      var key := DeviceKey(service, device);
      if key in deviceCounters {
        return deviceCounters[key];
      }
      ctr := AddDeviceCounter(service, device, key);
    }

    method AddDeviceCounter(service: string, device: string, key: string) returns (ctr: Counter)
      requires Valid() && key == DeviceKey(service, device) && key !in deviceCounters
      modifies this`deviceCounters, devices
      ensures Cached(service, device, ctr) && ctr in Counters()
      ensures queries.children == old(queries.children) && fresh(Counters() - old(Counters()))
    {
      ctr := devices.Add(DeviceUpdate(service, device));
      CacheNext(deviceCounters, old(devices.children), tally.owners, DeviceUpdate(service, device), ctr);
      deviceCounters := deviceCounters[key := ctr];
    }

    /** This counter is registered for the key, for no other, and for no query. */
    ghost predicate SoleCounter(key: string, ctr: Counter)
      reads this, queries, devices
    {
      && (forall l :: l in devices.children ==> (devices.children[l] == ctr <==> KeyOf(l) == key))
      && (forall l :: l in queries.children ==> queries.children[l] != ctr)
    }

    method IncrementDevice(service: string, device: string, ctr: Counter)
      requires Cached(service, device, ctr)
      modifies this`calls, this`tally, ctr
      ensures Valid() && calls == old(calls) + [DeviceUpdate(service, device)]
      ensures queries.children == old(queries.children) && devices.children == old(devices.children)
    {
      assert SoleCounter(KeyOf(DeviceUpdate(service, device)), ctr);
      ctr.Increment();
      Log(DeviceUpdate(service, device));
    }

    /** Runs entirely under the mutex. */
    method RecordDeviceUpdate(service: string, device: string)
      requires Valid()
      modifies this`deviceCounters, this`calls, this`tally, devices, Counters()
      ensures Valid() && calls == old(calls) + [DeviceUpdate(service, device)]
      ensures queries.children == old(queries.children)
      ensures fresh(Counters() - old(Counters()))
    {
      var ctr := FindDeviceCounter(service, device);
      IncrementDevice(service, device, ctr);
    }

    method Record(c: Call)
      requires Valid()
      modifies this`byService, this`deviceCounters, this`calls, this`tally, queries, devices, Counters()
      ensures Valid() && calls == old(calls) + [c]
      ensures fresh(Counters() - old(Counters()))
    {
      match c {
        case QueryResult(service, ok) => RecordQueryResult(service, ok);
        case DeviceUpdate(service, device) => RecordDeviceUpdate(service, device);
      }
    }
  }

  /** Makes calls one after another. */
  method RecordAll(mx: WastlernetMetrics, cs: seq<Call>)
    requires mx.Valid()
    modifies mx, mx.queries, mx.devices, mx.Counters()
    ensures mx.Valid() && mx.calls == old(mx.calls) + cs
    decreases cs
  {
    if cs != [] {
      assert mx.calls + cs == (mx.calls + [cs[0]]) + cs[1..];
      mx.Record(cs[0]);
      RecordAll(mx, cs[1..]);
    }
  }
}
