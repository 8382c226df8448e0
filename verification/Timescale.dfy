/** Writing one Shelly message to TimescaleDB: the prepared statements and their dispatch
    (shelly/shelly_timescaledb.cpp), and the transaction around them (timescaledb/timescaledb-client.h). */
module Timescale {
  import opened Wrappers
  import opened ShellyMessages

  /** A row of one of the four tables; None is SQL NULL. */
  datatype Row =
    | TemperatureRow(device: string, temperature: Option<real>, humidity: Option<real>)
    | LightRow(device: string, lux: Option<int>, illumination: Option<string>)
    | EnergyRow(device: string, power: real, voltage: real, current: real, frequency: real)
    | MotionRow(device: string, motion: bool)

  /** The prepared statements with their parameters, in the order $1, $2, ... */
  datatype Statement =
    | InsertTemperatureBoth(p1: string, r2: real, r3: real)
    | InsertTemperatureTempOnly(p1: string, r2: real)
    | InsertTemperatureHumOnly(p1: string, r2: real)
    | InsertLightBoth(p1: string, i2: int, s3: string)
    | InsertLightLuxOnly(p1: string, i2: int)
    | InsertLightIllumOnly(p1: string, s2: string)
    | InsertEnergyAll(p1: string, r2: real, r3: real, r4: real, r5: real)
    | InsertMotion(p1: string, b2: bool)

  /** The SQL text of each statement: which column gets which parameter. */
  function Inserted(s: Statement): Row {
    match s
    case InsertTemperatureBoth(d, t, h) => TemperatureRow(d, Some(t), Some(h))
    case InsertTemperatureTempOnly(d, t) => TemperatureRow(d, Some(t), None)
    case InsertTemperatureHumOnly(d, h) => TemperatureRow(d, None, Some(h))
    case InsertLightBoth(d, l, i) => LightRow(d, Some(l), Some(i))
    case InsertLightLuxOnly(d, l) => LightRow(d, Some(l), None)
    case InsertLightIllumOnly(d, i) => LightRow(d, None, Some(i))
    case InsertEnergyAll(d, p, v, c, f) => EnergyRow(d, p, v, c, f)
    case InsertMotion(d, m) => MotionRow(d, m)
  }

  const STATEMENTS := 8

  /** The place in `prepare` of the statement that inserts such a row. */
  function Position(r: Row): (n: nat)
    ensures n < STATEMENTS
  {
    match r
    case TemperatureRow(_, Some(_), Some(_)) => 0
    case TemperatureRow(_, Some(_), None) => 1
    case TemperatureRow(_, None, _) => 2
    case LightRow(_, Some(_), Some(_)) => 3
    case LightRow(_, Some(_), None) => 4
    case LightRow(_, None, _) => 5
    case EnergyRow(_, _, _, _, _) => 6
    case MotionRow(_, _) => 7
  }

  lemma PreparationOrder(d: string, t: real, h: real, lux: int, text: string, on: bool)
    ensures Position(TemperatureRow(d, Some(t), Some(h))) == 0
    ensures Position(TemperatureRow(d, Some(t), None)) == 1
    ensures Position(TemperatureRow(d, None, Some(h))) == 2
    ensures Position(LightRow(d, Some(lux), Some(text))) == 3
    ensures Position(LightRow(d, Some(lux), None)) == 4
    ensures Position(LightRow(d, None, Some(text))) == 5
    ensures Position(EnergyRow(d, t, t, t, t)) == 6 && Position(MotionRow(d, on)) == 7
  {
  }

  // ---------- the rows of a message ----------

  function TemperatureRows(data: ShellyData): seq<Row> {
    match data.temperature
    case Some(t) =>
      if t == TemperatureData(None, None) then [] else [TemperatureRow(data.deviceName, t.temperature, t.humidity)]
    case None => []
  }

  function LightRows(data: ShellyData): seq<Row> {
    match data.light
    case Some(l) => if l == LightData(None, None) then [] else [LightRow(data.deviceName, l.lux, l.illumination)]
    case None => []
  }

  function EnergyRows(data: ShellyData): seq<Row> {
    match data.energy
    case Some(e) => [EnergyRow(data.deviceName, e.power, e.voltage, e.current, e.frequency)]
    case None => []
  }

  function MotionRows(data: ShellyData): seq<Row> {
    match data.motion
    case Some(MotionData(Some(m))) => [MotionRow(data.deviceName, m)]
    case _ => []
  }

  /** One row per section that holds a value, each with that section's values and NULL for the rest. */
  function RowsOf(data: ShellyData): seq<Row> {
    TemperatureRows(data) + LightRows(data) + EnergyRows(data) + MotionRows(data)
  }

  /** Which rows a record stands for, column by column. */
  lemma RowsExact(data: ShellyData, d: string, t: Option<real>, h: Option<real>, lux: Option<int>, text: Option<string>,
                  p: real, u: real, i: real, f: real, b: bool)
    ensures TemperatureRow(d, t, h) in RowsOf(data) <==>
              && d == data.deviceName && data.temperature.Some? && (t.Some? || h.Some?)
              && t == data.temperature.value.temperature && h == data.temperature.value.humidity
    ensures LightRow(d, lux, text) in RowsOf(data) <==>
              && d == data.deviceName && data.light.Some? && (lux.Some? || text.Some?)
              && lux == data.light.value.lux && text == data.light.value.illumination
    ensures EnergyRow(d, p, u, i, f) in RowsOf(data) <==>
              && d == data.deviceName && data.energy.Some?
              && p == data.energy.value.power && u == data.energy.value.voltage
              && i == data.energy.value.current && f == data.energy.value.frequency
    ensures MotionRow(d, b) in RowsOf(data) <==>
              d == data.deviceName && data.motion.Some? && data.motion.value.motion == Some(b)
  {
    var rows := RowsOf(data);
    assert forall r :: r in rows <==>
             r in TemperatureRows(data) || r in LightRows(data) || r in EnergyRows(data) || r in MotionRows(data);
  }

  // ---------- transactions ----------

  /** How a call ended: OK, an error status, or an exception. */
  datatype Outcome = Ok | Error | Threw

  /** What the server does with COMMIT. In doubt: the connection broke before the answer. */
  datatype CommitResult = Commits | Rejects | InDoubt(applied: bool)

  /** Everything outside the program's control during one Update. */
  datatype Env = Env(
    alive: bool,           // conn_->is_open()
    connects: bool,        // a new pqxx::connection can be constructed
    prepares: nat,         // how many of its statements are prepared before one fails, if any does
    begins: bool,          // the transaction can be opened
    failsAt: Option<nat>,  // the statement that the server rejects, if any
    commit: CommitResult)

  /** A connection object with the number of statements prepared on it: fewer than all after an
      initialisation that failed half-way. */
  datatype Connection = NoConnection | Connected(prepared: nat)

  /** The n-th insert of a transaction throws. */
  predicate Refused(r: Row, n: nat, prepared: nat, failsAt: Option<nat>) {
    Position(r) >= prepared || failsAt == Some(n)
  }

  /** A pqxx::work: rows inserted so far, visible to nobody before the commit. */
  class Work {
    const prepared: nat
    const failsAt: Option<nat>
    var rows: seq<Row>

    constructor (prepared: nat, failsAt: Option<nat>)
      ensures this.prepared == prepared && this.failsAt == failsAt && rows == []
    {
      this.prepared, this.failsAt := prepared, failsAt;
      rows := [];
    }

    method Exec(s: Statement) returns (r: Result<()>)
      modifies this
      ensures r.Failure? <==> Refused(Inserted(s), |old(rows)|, prepared, failsAt)
      ensures rows == if r.Success? then old(rows) + [Inserted(s)] else old(rows)
    {
      if Refused(Inserted(s), |rows|, prepared, failsAt) {
        return Failure;
      }
      rows := rows + [Inserted(s)];
      return Success(());
    }
  }

  predicate ExecThrows(prepared: nat, failsAt: Option<nat>, rows: seq<Row>) {
    exists i :: 0 <= i < |rows| && Refused(rows[i], i, prepared, failsAt)
  }

  /** One section's insert: `rows` is empty or that section's row. */
  ghost predicate Inserts(tx: Work, r: Result<()>, before: seq<Row>, rows: seq<Row>)
    reads tx
  {
    && |rows| <= 1
    && (r.Failure? <==> |rows| > 0 && Refused(rows[0], |before|, tx.prepared, tx.failsAt))
    && (r.Success? ==> tx.rows == before + rows)
  }

  method WriteTemperature(tx: Work, data: ShellyData) returns (r: Result<()>)
    modifies tx
    ensures Inserts(tx, r, old(tx.rows), TemperatureRows(data))
  {
    r := Success(());
    if data.temperature.Some? {
      var t := data.temperature.value;
      var ht, hh := t.temperature.Some?, t.humidity.Some?;
      if ht && hh {
        r := tx.Exec(InsertTemperatureBoth(data.deviceName, t.temperature.value, t.humidity.value));
      } else if ht && !hh {
        r := tx.Exec(InsertTemperatureTempOnly(data.deviceName, t.temperature.value));
      } else if !ht && hh {
        r := tx.Exec(InsertTemperatureHumOnly(data.deviceName, t.humidity.value));
      }
    }
  }

  method WriteLight(tx: Work, data: ShellyData) returns (r: Result<()>)
    modifies tx
    ensures Inserts(tx, r, old(tx.rows), LightRows(data))
  {
    r := Success(());
    if data.light.Some? {
      var l := data.light.value;
      var hlx, hil := l.lux.Some?, l.illumination.Some?;
      if hlx && hil {
        r := tx.Exec(InsertLightBoth(data.deviceName, l.lux.value, l.illumination.value));
      } else if hlx && !hil {
        r := tx.Exec(InsertLightLuxOnly(data.deviceName, l.lux.value));
      } else if !hlx && hil {
        r := tx.Exec(InsertLightIllumOnly(data.deviceName, l.illumination.value));
      }
    }
  }

  method WriteEnergy(tx: Work, data: ShellyData) returns (r: Result<()>)
    modifies tx
    ensures Inserts(tx, r, old(tx.rows), EnergyRows(data))
  {
    r := Success(());
    if data.energy.Some? {
      var e := data.energy.value;
      r := tx.Exec(InsertEnergyAll(data.deviceName, e.power, e.voltage, e.current, e.frequency));
    }
  }

  method WriteMotion(tx: Work, data: ShellyData) returns (r: Result<()>)
    modifies tx
    ensures Inserts(tx, r, old(tx.rows), MotionRows(data))
  {
    r := Success(());
    if data.motion.Some? {
      var m := data.motion.value;
      if m.motion.Some? {
        r := tx.Exec(InsertMotion(data.deviceName, m.motion.value));
      }
    }
  }

  /** A section's insert throws if it is refused behind the rows already inserted. */
  lemma ThrowsNext(prepared: nat, failsAt: Option<nat>, rows: seq<Row>, section: seq<Row>)
    requires |section| <= 1
    ensures ExecThrows(prepared, failsAt, rows + section) <==>
              ExecThrows(prepared, failsAt, rows) || (section != [] && Refused(section[0], |rows|, prepared, failsAt))
  {
    if ExecThrows(prepared, failsAt, rows) {
      var i :| 0 <= i < |rows| && Refused(rows[i], i, prepared, failsAt);
      assert (rows + section)[i] == rows[i];
    }
    if section != [] && Refused(section[0], |rows|, prepared, failsAt) {
      assert (rows + section)[|rows|] == section[0];
    }
  }

  /** The inserts of four sections throw exactly if one of them is refused in its place. */
  lemma SectionThrows(prepared: nat, failsAt: Option<nat>, a: seq<Row>, b: seq<Row>, c: seq<Row>, d: seq<Row>)
    requires |a| <= 1 && |b| <= 1 && |c| <= 1 && |d| <= 1
    ensures ExecThrows(prepared, failsAt, a + b + c + d) <==>
              || (a != [] && Refused(a[0], 0, prepared, failsAt))
              || (b != [] && Refused(b[0], |a|, prepared, failsAt))
              || (c != [] && Refused(c[0], |a + b|, prepared, failsAt))
              || (d != [] && Refused(d[0], |a + b + c|, prepared, failsAt))
  {
    assert [] + a == a;
    ThrowsNext(prepared, failsAt, [], a);
    ThrowsNext(prepared, failsAt, a, b);
    ThrowsNext(prepared, failsAt, a + b, c);
    ThrowsNext(prepared, failsAt, a + b + c, d);
  }

  /** With every statement prepared and none rejected, no insert throws. */
  lemma NothingThrows(prepared: nat, rows: seq<Row>)
    requires prepared >= 8
    ensures !ExecThrows(prepared, None, rows)
  {
  }

  /** No insert throws exactly if each row's statement is prepared and accepted. */
  lemma AllAccepted(rows: seq<Row>, prepared: nat, failsAt: Option<nat>)
    ensures !ExecThrows(prepared, failsAt, rows) <==>
              forall i :: 0 <= i < |rows| ==> failsAt != Some(i) && Position(rows[i]) < prepared
  {
    if !ExecThrows(prepared, failsAt, rows) {
      forall i | 0 <= i < |rows|
        ensures failsAt != Some(i) && Position(rows[i]) < prepared
      {
        assert !Refused(rows[i], i, prepared, failsAt);
      }
    }
  }

  /** ShellyWriter::write. Success(false) is the InvalidArgument status, Failure an exception. */
  method Write(tx: Work, data: ShellyData) returns (r: Result<bool>)
    requires tx.rows == []
    modifies tx
    ensures r == Success(false) <==> data.deviceName == ""
    ensures data.deviceName == "" ==> tx.rows == []
    ensures data.deviceName != "" ==> (r.Failure? <==> ExecThrows(tx.prepared, tx.failsAt, RowsOf(data)))
    ensures r == Success(true) ==> tx.rows == RowsOf(data)
  {
    if data.deviceName == "" {
      return Success(false);
    }
    SectionThrows(tx.prepared, tx.failsAt,
                  TemperatureRows(data), LightRows(data), EnergyRows(data), MotionRows(data));
    var _ :- WriteTemperature(tx, data);
    var _ :- WriteLight(tx, data);
    var _ :- WriteEnergy(tx, data);
    var _ :- WriteMotion(tx, data);
    return Success(true);
  }

  // ---------- the connection ----------

  /** Every statement is prepared on a new connection. */
  predicate PreparesAll(env: Env) {
    env.prepares >= STATEMENTS
  }

  /** The connection after Reconnect. */
  function Reconnected(conn: Connection, env: Env): Connection {
    if env.alive then conn else if env.connects then Connected(env.prepares) else NoConnection
  }

  /** The transaction reaches its commit: the connection is usable and every insert is accepted. */
  predicate ReachesCommit(conn: Connection, data: ShellyData, env: Env) {
    && (env.alive || (env.connects && PreparesAll(env)))
    && env.begins
    && data.deviceName != ""
    && Reconnected(conn, env).Connected?
    && !ExecThrows(Reconnected(conn, env).prepared, env.failsAt, RowsOf(data))
  }

  /** The rows that one Update leaves in the database: all of them or none. */
  function Stored(conn: Connection, data: ShellyData, env: Env): seq<Row> {
    if ReachesCommit(conn, data, env) && (env.commit == Commits || env.commit == InDoubt(true)) then RowsOf(data)
    else []
  }

  class TimescaleConnection {
    var conn: Connection
    /** The contents of the database tables. */
    var table: seq<Row>

    /** There is no connection object before Init. */
    constructor ()
      ensures conn == NoConnection && table == []
    {
      conn, table := NoConnection, [];
    }

    method Init(env: Env) returns (st: Outcome)
      modifies this`conn
      ensures st == if env.connects && PreparesAll(env) then Ok else Error
      ensures conn == if env.connects then Connected(env.prepares) else old(conn)
    {
      if !env.connects {
        return Error;
      }
      conn := Connected(env.prepares);
      return if PreparesAll(env) then Ok else Error;
    }

    method Reconnect(env: Env) returns (st: Outcome)
      requires conn.Connected?
      modifies this`conn
      ensures st == if env.alive || (env.connects && PreparesAll(env)) then Ok else Error
      ensures conn == Reconnected(old(conn), env)
      ensures conn == if env.alive then old(conn) else if env.connects then Connected(env.prepares) else NoConnection
    {
      var alive := env.alive;
      if !alive {
        conn := NoConnection;
        st := Init(env);
        return st;
      }
      return Ok;
    }

    /** The caller must hold a connection object: after a reconnect that could not construct one the
        source dereferences a null pointer. */
    method Update(data: ShellyData, env: Env) returns (st: Outcome)
      requires conn.Connected?
      modifies this
      ensures conn == Reconnected(old(conn), env)
      ensures table == old(table) + Stored(old(conn), data, env)
      ensures st == Ok <==> ReachesCommit(old(conn), data, env) && env.commit == Commits
      // The same in terms of what happens: the connection is alive or replaced with all its statements, the
      // transaction opens, the device is named, each row's statement is prepared and accepted, and the
      // commit succeeds.
      ensures st == Ok <==>
                && (env.alive || (env.connects && env.prepares >= 8))
                && env.begins && data.deviceName != "" && env.commit == Commits
                && forall i :: 0 <= i < |RowsOf(data)| ==>
                     && env.failsAt != Some(i)
                     && Position(RowsOf(data)[i]) < if env.alive then old(conn).prepared else env.prepares
      ensures st == Ok ==> table == old(table) + RowsOf(data)
      ensures table == old(table) || (table == old(table) + RowsOf(data) && (st == Ok || env.commit == InDoubt(true)))
      ensures st == Error <==>
                (!env.alive && !(env.connects && env.prepares >= 8)) || (env.begins && data.deviceName == "")
    {
      AllAccepted(RowsOf(data), if env.alive then conn.prepared else env.prepares, env.failsAt);
      var rst := Reconnect(env);
      if rst != Ok {
        return rst;
      }
      if !env.begins {
        return Threw;
      }
      var tx := new Work(conn.prepared, env.failsAt);
      var written := Write(tx, data);
      if written.Failure? {
        return Threw;
      }
      if written.value {
        match env.commit {
          case Commits =>
            table := table + tx.rows;
            return Ok;
          case Rejects =>
            return Threw;
          case InDoubt(applied) =>
            if applied {
              table := table + tx.rows;
            }
            return Threw;
        }
      }
      return Error;
    }
  }
}
