/** What whole runs of the Shelly message handler conserve. */
module ShellyRuns {
  import opened Wrappers
  import opened Json
  import opened Topics
  import opened ShellyMessages
  import opened Timescale
  import opened MetricCalls
  import opened ShellyModule
  import Metrics

  // ---------- one message ----------

  function Device(r: Row): string {
    r.device
  }

  predicate SameTable(r: Row, s: Row) {
    || (r.TemperatureRow? && s.TemperatureRow?) || (r.LightRow? && s.LightRow?)
    || (r.EnergyRow? && s.EnergyRow?) || (r.MotionRow? && s.MotionRow?)
  }

  /** How many of the four sections a payload reports. */
  function Sections(payload: Json): nat
    requires !Malformed(payload)
  {
    var params, blu := StatusParams(payload).value, ServiceData(payload);
    (if HasField(params, "temperature:0") || HasField(params, "humidity:0") then 1 else 0)
    + (if HasField(params, "illuminance:0") || HasField(blu, "illuminance") then 1 else 0)
    + (if HasEnergy(payload) then 1 else 0)
    + (if HasField(blu, "motion") then 1 else 0)
  }

  lemma SectionRows(m: Message)
    requires HasData(m)
    ensures var data, params, blu := Sample(m), StatusParams(m.payload.value).value, ServiceData(m.payload.value);
            && |TemperatureRows(data)| ==
               (if HasField(params, "temperature:0") || HasField(params, "humidity:0") then 1 else 0)
            && |LightRows(data)| == (if HasField(params, "illuminance:0") || HasField(blu, "illuminance") then 1 else 0)
            && |EnergyRows(data)| == (if HasEnergy(m.payload.value) then 1 else 0)
            && |MotionRows(data)| == (if HasField(blu, "motion") then 1 else 0)
  {
  }

  lemma RowsApart(data: ShellyData)
    ensures var rows := RowsOf(data);
            && (forall i :: 0 <= i < |rows| ==> Device(rows[i]) == data.deviceName)
            && (forall i, j :: 0 <= i < j < |rows| ==> !SameTable(rows[i], rows[j]))
  {
  }

  /** A message with data stands for one row per reported section, all for the device of its topic and
      no two in the same table. */
  lemma OneRowPerSection(m: Message)
    requires HasData(m)
    ensures var rows := RowsOf(Sample(m));
            && 1 <= |rows| == Sections(m.payload.value) <= 4
            && (forall i :: 0 <= i < |rows| ==> Device(rows[i]) == DeviceName(m.topic))
            && (forall i, j :: 0 <= i < j < |rows| ==> !SameTable(rows[i], rows[j]))
  {
    SectionRows(m);
    RowsApart(Sample(m));
  }

  predicate AllPrepared(rows: seq<Row>, prepared: nat) {
    forall i :: 0 <= i < |rows| ==> Position(rows[i]) < prepared
  }

  /** The statements that can be used while a message is handled. */
  function Usable(m: Message, conn: Connection): nat
    requires m.env.alive ==> conn.Connected?
  {
    if m.env.alive then conn.prepared else m.env.prepares
  }

  /** With a working database -- alive, or reconnected with all its statements -- a message is counted ok
      exactly when it is readable, reports data, has a topic and needs only prepared statements, of which a
      full set leaves none out; it is ignored exactly when it is readable and reports nothing. */
  lemma WorkingDatabaseVerdict(m: Message, conn: Connection)
    requires if m.env.alive then conn.Connected? else m.env.connects && m.env.prepares >= 8
    requires m.env.begins && m.env.failsAt.None? && m.env.commit == Commits
    ensures var v := VerdictOf(m, conn);
            && (v == CountedOk <==> HasData(m) && m.topic != "" && AllPrepared(RowsOf(Sample(m)), Usable(m, conn)))
            && (v == Ignored <==> Readable(m) && !HasData(m))
    ensures VerdictOf(m, conn) == CountedOk ==> Added(m, conn) == RowsOf(Sample(m))
    ensures After(m, conn) == if HasData(m) && !m.env.alive then Connected(m.env.prepares) else conn
    ensures Usable(m, conn) >= 8 && HasData(m) ==> AllPrepared(RowsOf(Sample(m)), Usable(m, conn))
  {
    EmptyDeviceName(m.topic);
  }

  /** Against any database, a message is counted ok exactly when its data is committed: the connection is
      alive or replaced with all its statements, the transaction opens, the topic names a device, each row's
      statement is prepared and accepted, and the commit succeeds. */
  lemma VerdictExact(m: Message, conn: Connection)
    requires HasData(m) ==> conn.Connected?
    ensures VerdictOf(m, conn) == CountedOk <==>
              && HasData(m) && m.topic != ""
              && (m.env.alive || (m.env.connects && m.env.prepares >= 8))
              && m.env.begins && m.env.commit == Commits
              && forall i :: 0 <= i < |RowsOf(Sample(m))| ==>
                   && m.env.failsAt != Some(i)
                   && Position(RowsOf(Sample(m))[i]) < if m.env.alive then conn.prepared else m.env.prepares
  {
    EmptyDeviceName(m.topic);
    if HasData(m) {
      AllAccepted(RowsOf(Sample(m)), Usable(m, conn), m.env.failsAt);
    }
  }

  /** Whatever the database does, a message leaves all its rows or none; an unreadable or empty one
      leaves none; a counted one leaves all; and a failed one leaves some only when its commit was in
      doubt. */
  lemma AllRowsOrNone(m: Message, conn: Connection)
    ensures Added(m, conn) == [] || (HasData(m) && Added(m, conn) == RowsOf(Sample(m)))
    ensures !HasData(m) ==> Added(m, conn) == []
    ensures VerdictOf(m, conn) == CountedOk ==> HasData(m) && Added(m, conn) == RowsOf(Sample(m))
    ensures VerdictOf(m, conn) != CountedOk && Added(m, conn) != [] ==> m.env.commit == InDoubt(true)
  {
  }

  // ---------- runs ----------

  function CountVerdict(vs: seq<Verdict>, v: Verdict): nat {
    if vs == [] then 0 else (if vs[0] == v then 1 else 0) + CountVerdict(vs[1..], v)
  }

  lemma CallsCounted(m: Message, conn: Connection)
    ensures var v := VerdictOf(m, conn);
            && Count(CallsFor(m, conn), QueryResult(SHELLY, true)) == (if v == CountedOk then 1 else 0)
            && Count(CallsFor(m, conn), QueryResult(SHELLY, false)) == (if v == CountedError then 1 else 0)
    ensures forall d :: Count(CallsFor(m, conn), DeviceUpdate(SHELLY, d)) ==
                          if HasData(m) && DeviceName(m.topic) == d then 1 else 0
  {
    var tail := match VerdictOf(m, conn)
                case CountedOk => [QueryResult(SHELLY, true)]
                case CountedError => [QueryResult(SHELLY, false)]
                case Ignored => [];
    var head := if HasData(m) then [DeviceUpdate(SHELLY, DeviceName(m.topic))] else [];
    assert CallsFor(m, conn) == head + tail;
    forall c
      ensures Count(CallsFor(m, conn), c) == Count(head, c) + Count(tail, c)
    {
      CountConcat(head, tail, c);
    }
    assert head == [] || head[1..] == [];
    assert tail == [] || tail[1..] == [];
  }

  /** The messages handled are those counted ok, those counted as errors, and those ignored. */
  lemma {:induction false} MessagesConserved(ms: seq<Message>, conn: Connection)
    ensures |ms| == Count(Log(ms, conn), QueryResult(SHELLY, true))
                    + Count(Log(ms, conn), QueryResult(SHELLY, false))
                    + CountVerdict(Verdicts(ms, conn), Ignored)
    ensures Count(Log(ms, conn), QueryResult(SHELLY, true)) == CountVerdict(Verdicts(ms, conn), CountedOk)
    ensures Count(Log(ms, conn), QueryResult(SHELLY, false)) == CountVerdict(Verdicts(ms, conn), CountedError)
  {
    if ms != [] {
      var m, rest, next := ms[0], ms[1..], After(ms[0], conn);
      MessagesConserved(rest, next);
      CountConcat(CallsFor(m, conn), Log(rest, next), QueryResult(SHELLY, true));
      CountConcat(CallsFor(m, conn), Log(rest, next), QueryResult(SHELLY, false));
      CallsCounted(m, conn);
      assert Verdicts(ms, conn)[1..] == Verdicts(rest, next);
    }
  }

  function CountDevice(ms: seq<Message>, d: string): nat {
    if ms == [] then 0
    else (if HasData(ms[0]) && DeviceName(ms[0].topic) == d then 1 else 0) + CountDevice(ms[1..], d)
  }

  /** A device's update counter is called once per message with data from that device, stored or not. */
  lemma {:induction false} DeviceUpdatesConserved(ms: seq<Message>, conn: Connection, d: string)
    ensures Count(Log(ms, conn), DeviceUpdate(SHELLY, d)) == CountDevice(ms, d)
  {
    if ms != [] {
      var next := After(ms[0], conn);
      DeviceUpdatesConserved(ms[1..], next, d);
      CountConcat(CallsFor(ms[0], conn), Log(ms[1..], next), DeviceUpdate(SHELLY, d));
      CallsCounted(ms[0], conn);
    }
  }

  /** The rows of the messages that were counted ok, in order. */
  function RowsCountedOk(ms: seq<Message>, vs: seq<Verdict>): seq<Row>
    requires |ms| == |vs|
    requires forall i :: 0 <= i < |ms| && vs[i] == CountedOk ==> HasData(ms[i])
  {
    if ms == [] then []
    else (if vs[0] == CountedOk then RowsOf(Sample(ms[0])) else []) + RowsCountedOk(ms[1..], vs[1..])
  }

  /** The message's rows are stored by a commit whose answer was lost, so that it counts as an error. */
  predicate StoredInDoubt(m: Message, conn: Connection) {
    HasData(m) && ReachesCommit(conn, Sample(m), m.env) && m.env.commit == InDoubt(true)
  }

  predicate NoneStoredInDoubt(ms: seq<Message>, conn: Connection) {
    ms == [] || (!StoredInDoubt(ms[0], conn) && NoneStoredInDoubt(ms[1..], After(ms[0], conn)))
  }

  lemma {:induction false} OkHasData(ms: seq<Message>, conn: Connection)
    ensures forall i :: 0 <= i < |ms| && Verdicts(ms, conn)[i] == CountedOk ==> HasData(ms[i])
  {
    if ms != [] {
      OkHasData(ms[1..], After(ms[0], conn));
      var vs := Verdicts(ms, conn);
      forall i | 0 <= i < |ms| && vs[i] == CountedOk
        ensures HasData(ms[i])
      {
        if i > 0 {
          assert vs[i] == Verdicts(ms[1..], After(ms[0], conn))[i - 1] && ms[i] == ms[1..][i - 1];
        }
      }
    }
  }

  lemma DifferentTails(p: seq<Row>, a: seq<Row>, b: seq<Row>)
    ensures p + a == p + b <==> a == b
  {
    assert (p + a)[|p|..] == a && (p + b)[|p|..] == b;
  }

  /** The tables hold exactly the rows of the messages counted ok, in order, if and only if no commit in
      doubt was applied; otherwise they hold more. */
  lemma {:induction false} TablesAreCountedRows(ms: seq<Message>, conn: Connection)
    ensures forall i :: 0 <= i < |ms| && Verdicts(ms, conn)[i] == CountedOk ==> HasData(ms[i])
    ensures Tables(ms, conn) == RowsCountedOk(ms, Verdicts(ms, conn)) <==> NoneStoredInDoubt(ms, conn)
    ensures |Tables(ms, conn)| >= |RowsCountedOk(ms, Verdicts(ms, conn))|
  {
    OkHasData(ms, conn);
    if ms != [] {
      var m, next := ms[0], After(ms[0], conn);
      TablesAreCountedRows(ms[1..], next);
      AllRowsOrNone(m, conn);
      assert Verdicts(ms, conn)[1..] == Verdicts(ms[1..], next);
      if StoredInDoubt(m, conn) {
        OneRowPerSection(m);
      } else {
        DifferentTails(Added(m, conn), Tables(ms[1..], next), RowsCountedOk(ms[1..], Verdicts(ms[1..], next)));
      }
    }
  }

  lemma {:induction false} CacheUntouched(ms: seq<Message>, cache: map<string, ShellyData>)
    requires forall j :: 0 <= j < |ms| ==> !HasData(ms[j])
    ensures CacheAfter(ms, cache) == cache
  {
    if ms != [] {
      CacheUntouched(ms[1..], cache);
    }
  }

  /** The cache shows the last message with data, whatever the database did with it. */
  lemma {:induction false} CacheShowsLastSample(ms: seq<Message>, cache: map<string, ShellyData>, i: nat)
    requires i < |ms| && HasData(ms[i])
    requires forall j :: i < j < |ms| ==> !HasData(ms[j])
    ensures CacheAfter(ms, cache) == cache[SHELLY := Sample(ms[i])]
  {
    var next := Cached(ms[0], cache);
    if i > 0 {
      CacheShowsLastSample(ms[1..], next, i - 1);
    } else {
      CacheUntouched(ms[1..], next);
    }
  }

  // ---------- runs and the exported metrics ----------

  lemma {:induction false} OnlyShelly(ms: seq<Message>, conn: Connection)
    ensures Metrics.Uses(Log(ms, conn), {SHELLY})
  {
    if ms != [] {
      OnlyShelly(ms[1..], After(ms[0], conn));
    }
  }

  /** With the metrics cache behind the log, the exported counters of a run are exact: a device's counter
      shows its messages with data, and the ok and error counters the messages with that verdict. */
  lemma ExportedCounters(ms: seq<Message>, conn: Connection, d: string)
    ensures Metrics.DeviceShown(Log(ms, conn), SHELLY, d) == CountDevice(ms, d)
    ensures Metrics.Get(Metrics.TallyOf(Log(ms, conn)).queries, QueryResult(SHELLY, true))
            == CountVerdict(Verdicts(ms, conn), CountedOk)
    ensures Metrics.Get(Metrics.TallyOf(Log(ms, conn)).queries, QueryResult(SHELLY, false))
            == CountVerdict(Verdicts(ms, conn), CountedError)
  {
    OnlyShelly(ms, conn);
    Metrics.DeviceCountersExact({SHELLY});
    DeviceUpdatesConserved(ms, conn, d);
    Metrics.QueryTally(Log(ms, conn), SHELLY, true);
    Metrics.QueryTally(Log(ms, conn), SHELLY, false);
    MessagesConserved(ms, conn);
  }

  /** A metrics object that gets the calls of a run exports its exact counts: for each device its messages
      with data, and for each result the messages with that verdict. */
  method ExportRun(ms: seq<Message>, conn: Connection) returns (mx: Metrics.WastlernetMetrics)
    ensures fresh(mx)
    ensures forall d :: Metrics.Shown(mx.devices, DeviceUpdate(SHELLY, d)) == CountDevice(ms, d)
    ensures Metrics.Shown(mx.queries, QueryResult(SHELLY, true)) == CountVerdict(Verdicts(ms, conn), CountedOk)
    ensures Metrics.Shown(mx.queries, QueryResult(SHELLY, false)) == CountVerdict(Verdicts(ms, conn), CountedError)
  {
    mx := new Metrics.WastlernetMetrics();
    Metrics.RecordAll(mx, Log(ms, conn));
    mx.CountersShown();
    assert mx.calls == Log(ms, conn);
    MessagesConserved(ms, conn);
    forall d
      ensures Metrics.DeviceShown(Log(ms, conn), SHELLY, d) == CountDevice(ms, d)
    {
      ExportedCounters(ms, conn, d);
    }
  }
}
