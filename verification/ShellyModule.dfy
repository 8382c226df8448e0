/** The MQTT message handler of the Shelly module (shelly/shelly_module.cpp) with its state cache,
    database connection and metrics, and what whole runs of messages leave behind. */
module ShellyModule {
  import opened Wrappers
  import opened Json
  import opened Topics
  import opened ShellyMessages
  import opened Timescale
  import opened MetricCalls

  const SHELLY := "shelly"

  /** One delivered MQTT message; None is a payload that is not JSON. `env` is what the database does
      while it is handled. */
  datatype Message = Message(topic: string, payload: Option<Json>, env: Env)

  // ---------- one message ----------

  datatype Verdict = CountedOk | CountedError | Ignored

  predicate Readable(m: Message) {
    m.payload.Some? && !Malformed(m.payload.value)
  }

  predicate HasData(m: Message) {
    Readable(m) && Reports(m.payload.value)
  }

  function Sample(m: Message): ShellyData
    requires HasData(m)
  {
    Reported(m.topic, m.payload.value)
  }

  function VerdictOf(m: Message, conn: Connection): Verdict {
    if !Readable(m) then CountedError
    else if !HasData(m) then Ignored
    else if ReachesCommit(conn, Sample(m), m.env) && m.env.commit == Commits then CountedOk
    else CountedError
  }

  function CallsFor(m: Message, conn: Connection): seq<Call> {
    (if HasData(m) then [DeviceUpdate(SHELLY, DeviceName(m.topic))] else []) +
    match VerdictOf(m, conn)
    case CountedOk => [QueryResult(SHELLY, true)]
    case CountedError => [QueryResult(SHELLY, false)]
    case Ignored => []
  }

  function Added(m: Message, conn: Connection): seq<Row> {
    if HasData(m) then Stored(conn, Sample(m), m.env) else []
  }

  function After(m: Message, conn: Connection): Connection {
    if HasData(m) then Reconnected(conn, m.env) else conn
  }

  function Cached(m: Message, cache: map<string, ShellyData>): map<string, ShellyData> {
    if HasData(m) then cache[SHELLY := Sample(m)] else cache
  }

  // ---------- runs ----------

  /** Every message with data finds a connection object: what the source dereferences is not null. */
  predicate Survives(ms: seq<Message>, conn: Connection) {
    ms == [] || ((HasData(ms[0]) ==> conn.Connected?) && Survives(ms[1..], After(ms[0], conn)))
  }

  /** The message leaves a connection object behind. */
  predicate KeepsConnection(m: Message) {
    m.env.alive || m.env.connects
  }

  /** Without a connection object a run survives exactly if it has no data. */
  lemma {:induction false} LostConnection(ms: seq<Message>)
    ensures Survives(ms, NoConnection) <==> forall j :: 0 <= j < |ms| ==> !HasData(ms[j])
  {
    if ms != [] {
      LostConnection(ms[1..]);
      assert forall j :: 0 <= j < |ms| - 1 ==> ms[1..][j] == ms[j + 1];
      assert forall j :: 0 < j < |ms| ==> ms[j] == ms[1..][j - 1];
    }
  }

  lemma Shifted(ms: seq<Message>)
    requires ms != []
    ensures (forall i, j :: 0 <= i < j < |ms| && HasData(ms[i]) && HasData(ms[j]) ==> KeepsConnection(ms[i])) <==>
              && (forall j :: 0 <= j < |ms[1..]| && HasData(ms[0]) && HasData(ms[1..][j]) ==> KeepsConnection(ms[0]))
              && (forall i, j :: 0 <= i < j < |ms[1..]| && HasData(ms[1..][i]) && HasData(ms[1..][j]) ==>
                    KeepsConnection(ms[1..][i]))
  {
    var rest := ms[1..];
    assert forall j :: 0 <= j < |rest| ==> rest[j] == ms[j + 1];
    assert forall j :: 0 < j < |ms| ==> ms[j] == rest[j - 1];
  }

  /** From an existing connection, a run survives exactly if each message with data that another one
      follows keeps a connection object. */
  lemma {:induction false} SurvivalIsKeepingConnections(ms: seq<Message>, conn: Connection)
    requires conn.Connected?
    ensures Survives(ms, conn) <==>
              forall i, j :: 0 <= i < j < |ms| && HasData(ms[i]) && HasData(ms[j]) ==> KeepsConnection(ms[i])
  {
    if ms != [] {
      var next := After(ms[0], conn);
      if next.Connected? {
        SurvivalIsKeepingConnections(ms[1..], next);
      } else {
        LostConnection(ms[1..]);
      }
      Shifted(ms);
    }
  }

  function Final(ms: seq<Message>, conn: Connection): Connection {
    if ms == [] then conn else Final(ms[1..], After(ms[0], conn))
  }

  function CacheAfter(ms: seq<Message>, cache: map<string, ShellyData>): map<string, ShellyData> {
    if ms == [] then cache else CacheAfter(ms[1..], Cached(ms[0], cache))
  }

  function Log(ms: seq<Message>, conn: Connection): seq<Call> {
    if ms == [] then [] else CallsFor(ms[0], conn) + Log(ms[1..], After(ms[0], conn))
  }

  function Tables(ms: seq<Message>, conn: Connection): seq<Row> {
    if ms == [] then [] else Added(ms[0], conn) + Tables(ms[1..], After(ms[0], conn))
  }

  function Verdicts(ms: seq<Message>, conn: Connection): (vs: seq<Verdict>)
    ensures |vs| == |ms|
  {
    if ms == [] then [] else [VerdictOf(ms[0], conn)] + Verdicts(ms[1..], After(ms[0], conn))
  }

  // ---------- the module ----------

  lemma RunStep(ms: seq<Message>, i: nat, conn: Connection, cache: map<string, ShellyData>)
    requires i < |ms|
    ensures Survives(ms[i..], conn) <==>
              (HasData(ms[i]) ==> conn.Connected?) && Survives(ms[i + 1..], After(ms[i], conn))
    ensures CacheAfter(ms[i..], cache) == CacheAfter(ms[i + 1..], Cached(ms[i], cache))
    ensures Log(ms[i..], conn) == CallsFor(ms[i], conn) + Log(ms[i + 1..], After(ms[i], conn))
    ensures Tables(ms[i..], conn) == Added(ms[i], conn) + Tables(ms[i + 1..], After(ms[i], conn))
    ensures Final(ms[i..], conn) == Final(ms[i + 1..], After(ms[i], conn))
  {
    assert ms[i..][0] == ms[i] && ms[i..][1..] == ms[i + 1..];
  }

  lemma Associate<T>(a: seq<T>, b: seq<T>, c: seq<T>)
    ensures (a + b) + c == a + (b + c)
  {
  }

  class Module {
    const db: TimescaleConnection
    /** The shared cache of the latest sample, by module name. */
    var stateCache: map<string, ShellyData>
    /** The calls made on the metrics object so far. */
    var calls: seq<Call>

    constructor (db: TimescaleConnection)
      ensures this.db == db && stateCache == map[] && calls == []
    {
      this.db := db;
      stateCache, calls := map[], [];
    }

    /** Module::Update. */
    method Update(data: ShellyData, env: Env) returns (st: Outcome)
      requires db.conn.Connected?
      modifies this`stateCache, db
      ensures stateCache == old(stateCache)[SHELLY := data]
      ensures db.conn == Reconnected(old(db.conn), env)
      ensures db.table == old(db.table) + Stored(old(db.conn), data, env)
      ensures st == Ok <==> ReachesCommit(old(db.conn), data, env) && env.commit == Commits
    {
      stateCache := stateCache[SHELLY := data];
      st := db.Update(data, env);
    }

    method HandleMqttMessage(topic: string, payload: Json, env: Env) returns (st: Outcome)
      requires HasData(Message(topic, Some(payload), env)) ==> db.conn.Connected?
      modifies this, db
      ensures var m := Message(topic, Some(payload), env);
              && calls == old(calls) + CallsFor(m, old(db.conn))
              && db.table == old(db.table) + Added(m, old(db.conn))
              && db.conn == After(m, old(db.conn))
              && stateCache == Cached(m, old(stateCache))
              && (st == Ok <==> VerdictOf(m, old(db.conn)) != CountedError)
    {
      var read := ReadPayload(topic, payload);
      if read.Failure? {
        calls := calls + [QueryResult(SHELLY, false)];
        return Error;
      }
      var hasData, data := read.value.0, read.value.1;
      if hasData {
        calls := calls + [DeviceUpdate(SHELLY, data.deviceName)];
        st := Update(data, env);
        calls := calls + [QueryResult(SHELLY, st == Ok)];
        // A database exception is caught by the handler, which counts the error and reports it.
        return if st == Threw then Error else st;
      }
      return Ok;
    }

    /** OnMessage: parse, then handle. */
    method OnMessage(m: Message)
      requires HasData(m) ==> db.conn.Connected?
      modifies this, db
      ensures calls == old(calls) + CallsFor(m, old(db.conn))
      ensures db.table == old(db.table) + Added(m, old(db.conn))
      ensures db.conn == After(m, old(db.conn))
      ensures stateCache == Cached(m, old(stateCache))
    {
      if m.payload.None? {
        calls := calls + [QueryResult(SHELLY, false)];
        return;
      }
      var _ := HandleMqttMessage(m.topic, m.payload.value, m.env);
    }

    /** The network thread delivers messages one after another. */
    method Serve(ms: seq<Message>)
      requires Survives(ms, db.conn)
      modifies this, db
      ensures calls == old(calls) + Log(ms, old(db.conn))
      ensures db.table == old(db.table) + Tables(ms, old(db.conn))
      ensures db.conn == Final(ms, old(db.conn))
      ensures stateCache == CacheAfter(ms, old(stateCache))
    {
      var i := 0;
      ghost var calls0, table0, conn0, cache0 := calls, db.table, db.conn, stateCache;
      while i < |ms|
        invariant i <= |ms| && Survives(ms[i..], db.conn)
        invariant calls + Log(ms[i..], db.conn) == calls0 + Log(ms, conn0)
        invariant db.table + Tables(ms[i..], db.conn) == table0 + Tables(ms, conn0)
        invariant Final(ms[i..], db.conn) == Final(ms, conn0)
        invariant CacheAfter(ms[i..], stateCache) == CacheAfter(ms, cache0)
      {
        RunStep(ms, i, db.conn, stateCache);
        ghost var before, rows, conn := calls, db.table, db.conn;
        OnMessage(ms[i]);
        Associate(before, CallsFor(ms[i], conn), Log(ms[i + 1..], db.conn));
        Associate(rows, Added(ms[i], conn), Tables(ms[i + 1..], db.conn));
        i := i + 1;
      }
      assert ms[i..] == [];
    }
  }
}
