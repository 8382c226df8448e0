/** From radio bytes to database rows: the scan callback of shelly/blu-to-mqtt.js publishes a decoded
    advertisement, and the Shelly module stores it. */
module EndToEnd {
  import opened Bits
  import opened Wrappers
  import opened BTHome
  import opened BTHomePacket
  import opened Grouping
  import opened Json
  import opened Topics
  import opened ShellyMessages
  import opened Timescale
  import opened ShellyModule

  const TOPIC := "shelly" + "/" + ("relais" + "/" + ("flur_werkstatt" + "/" + "motion_sensor"))
  const DEVICE := "relais" + "-" + "flur_werkstatt"

  /** One BLE event; None is a property that the event does not have. */
  datatype Scan = Scan(
    isResult: bool,
    addr: Option<string>,
    rssi: Option<real>,
    localName: Option<string>,
    serviceData: Option<seq<byte>>)

  function ToJson(v: Value): Json {
    match v
    case Flag(b) => Bool(b)
    case Num(x) => Number(x)
    case List(xs) => Array(seq(|xs|, i requires 0 <= i < |xs| => Number(xs[i])))
  }

  lemma TopicText()
    ensures TOPIC == "shelly/relais/flur_werkstatt/motion_sensor"
  {
  }

  /** The decoder's result as it is published: the same properties, each Boolean, number or array of numbers
      as such. */
  lemma ServiceJsonExact(m: Fields, n: string)
    ensures ServiceJson(None) == Null && ServiceJson(Some(m)).Object?
    ensures n in ServiceJson(Some(m)).fields <==> n in m
    ensures n in m ==> match m[n]
                       case Flag(b) => ServiceJson(Some(m)).fields[n] == Bool(b)
                       case Num(x) => ServiceJson(Some(m)).fields[n] == Number(x)
                       case List(xs) =>
                         var j := ServiceJson(Some(m)).fields[n];
                         j.Array? && |j.items| == |xs| && forall i :: 0 <= i < |xs| ==> j.items[i] == Number(xs[i])
  {
  }

  function ServiceJson(data: Option<Fields>): Json {
    match data
    case None => Null
    case Some(m) => Object(map n | n in m :: ToJson(m[n]))
  }

  function PostMessage(addr: string, rssi: Option<real>, localName: string, data: Option<Fields>): Json {
    var fields := map["addr" := String(addr), "local_name" := String(localName), "service_data" := ServiceJson(data)];
    Object(if rssi.Some? then fields["rssi" := Number(rssi.value)] else fields)
  }

  /** `deviceIds` is None until the list of devices has arrived; looking a device up then throws, and the
      callback catches it. */
  predicate Publishes(scan: Scan, deviceIds: Option<seq<string>>, connected: bool) {
    && scan.isResult && scan.serviceData.Some? && scan.addr.Some?
    && deviceIds.Some? && scan.addr.value in deviceIds.value && connected
  }

  function Published(scan: Scan): Json
    requires scan.serviceData.Some? && scan.addr.Some?
  {
    PostMessage(scan.addr.value, scan.rssi, if scan.localName.Some? then scan.localName.value else "",
                Decode(scan.serviceData.value))
  }

  method HasDevice(deviceIds: seq<string>, addr: string) returns (b: bool)
    ensures b <==> addr in deviceIds
  {
    for i := 0 to |deviceIds|
      invariant addr !in deviceIds[..i]
    {
      if addr == deviceIds[i] {
        return true;
      }
    }
    return false;
  }

  /** The scan callback; None means that nothing is published. */
  method ScanCB(scan: Scan, deviceIds: Option<seq<string>>, connected: bool) returns (message: Option<(string, Json)>)
    ensures message == if Publishes(scan, deviceIds, connected) then Some((TOPIC, Published(scan))) else None
    ensures message.Some? <==>
              && scan.isResult && scan.serviceData.Some? && scan.addr.Some?
              && deviceIds.Some? && scan.addr.value in deviceIds.value && connected
    ensures message.Some? ==>
              && message.value.0 == "shelly/relais/flur_werkstatt/motion_sensor"
              && message.value.1.Object?
              && message.value.1.fields ==
                 map["addr" := String(scan.addr.value),
                     "local_name" := String(if scan.localName.Some? then scan.localName.value else ""),
                     "service_data" := ServiceJson(Decode(scan.serviceData.value))]
                 + if scan.rssi.Some? then map["rssi" := Number(scan.rssi.value)] else map[]
  {
    TopicText();
    if !scan.isResult {
      return None;
    }
    if scan.serviceData.None? {
      return None;
    }
    if scan.addr.None? {
      return None;
    }
    var decodeData := Unpack(scan.serviceData.value);
    var postMessage := PostMessage(scan.addr.value, scan.rssi,
                                   if scan.localName.Some? then scan.localName.value else "", decodeData);
    if deviceIds.None? {
      return None;
    }
    var known := HasDevice(deviceIds.value, scan.addr.value);
    if known && connected {
      return Some((TOPIC, postMessage));
    }
    return None;
  }

  // ---------- readings of one object id ----------

  /** The readings of a packet; none when it is encrypted or of another version. */
  function Readings(data: seq<byte>): seq<Reading> {
    if data != [] && Plain(data[0]) then Parse(data[1..]) else []
  }

  /** The raw values of one object id, in order of arrival. */
  function RawsOf(rs: seq<Reading>, id: byte): seq<int> {
    if rs == [] then []
    else RawsOf(rs[..|rs| - 1], id) + if rs[|rs| - 1].id == id then [rs[|rs| - 1].raw] else []
  }

  lemma OnlyId(r: Reading)
    requires Valid(r)
    ensures ToItem(r).n == ILLUMINANCE <==> r.id == 0x05
    ensures ToItem(r).n == MOTION <==> r.id == 0x21
    ensures r.id == 0x05 ==> r.raw >= 0 && ToItem(r).x == r.raw as real * 0.01
    ensures r.id == 0x21 ==> r.raw >= 0 && ToItem(r).x == r.raw as real
  {
  }

  lemma {:induction false} LuxAreRaws(rs: seq<Reading>)
    requires AllValid(rs)
    ensures var xs, raws := ValuesOf(Items(rs), ILLUMINANCE), RawsOf(rs, 0x05);
            |xs| == |raws| && forall i :: 0 <= i < |xs| ==> raws[i] >= 0 && xs[i] == raws[i] as real * 0.01
  {
    if rs != [] {
      var init, last := rs[..|rs| - 1], rs[|rs| - 1];
      LuxAreRaws(init);
      OnlyId(last);
      assert Items(rs)[..|rs| - 1] == Items(init);
    }
  }

  lemma {:induction false} MotionsAreRaws(rs: seq<Reading>)
    requires AllValid(rs)
    ensures var xs, raws := ValuesOf(Items(rs), MOTION), RawsOf(rs, 0x21);
            |xs| == |raws| && forall i :: 0 <= i < |xs| ==> xs[i] == raws[i] as real
  {
    if rs != [] {
      var init, last := rs[..|rs| - 1], rs[|rs| - 1];
      MotionsAreRaws(init);
      OnlyId(last);
      assert Items(rs)[..|rs| - 1] == Items(init);
    }
  }

  lemma TruncatedHundredths(raw: int)
    requires raw >= 0
    ensures Truncate(raw as real * 0.01) == raw / 100
  {
    var q, r := raw / 100, raw % 100;
    assert raw as real * 0.01 == q as real + r as real * 0.01;
  }

  // ---------- the stored rows ----------

  /** The field of the published service data under a name that the header does not use. */
  function ServiceField(data: seq<byte>, name: string): Option<Json> {
    var service := ServiceJson(Decode(data));
    if HasField(service, name) then Some(service.fields[name]) else None
  }

  lemma ServiceFieldShape(data: seq<byte>, name: string)
    requires name !in Header()
    ensures AllValid(Readings(data))
    ensures var xs := ValuesOf(Items(Readings(data)), name);
            ServiceField(data, name) ==
              if xs == [] then None
              else if |xs| == 1 then Some(Number(xs[0]))
              else Some(ToJson(List(xs)))
  {
    if data != [] && Plain(data[0]) {
      var rs := Parse(data[1..]);
      ParsedAreValid(data[1..]);
      GroupFields(rs, name);
      LookupGrouped(Items(rs), name);
      assert Decode(data) == Some(Group(rs));
    }
  }

  lemma PublishedShape(scan: Scan)
    requires scan.serviceData.Some? && scan.addr.Some?
    ensures !HasField(Published(scan), "method") && !HasEnergy(Published(scan))
    ensures ServiceData(Published(scan)) == ServiceJson(Decode(scan.serviceData.value))
  {
    var keys := {"addr", "local_name", "service_data", "rssi"};
    assert "method" !in keys && "apower" !in keys;
    assert Published(scan).fields.Keys <= keys;
  }

  lemma DeviceOfFour(a: string, b: string, c: string, d: string)
    requires NoSlash(a) && NoSlash(b) && NoSlash(c)
    ensures DeviceName(a + "/" + (b + "/" + (c + "/" + d))) == b + "-" + c
  {
    SplitFirst(a, b + "/" + (c + "/" + d));
    SplitFirst(b, c + "/" + d);
    SplitFirst(c, d);
  }

  lemma TopicDevice()
    ensures DeviceName(TOPIC) == DEVICE
  {
    DeviceOfFour("shelly", "relais", "flur_werkstatt", "motion_sensor");
  }

  /** How the module reads one forwarded field: absent without values, the only value as an integer,
      an exception for more. */
  ghost predicate ReadsOnce(blu: Json, name: string, values: seq<int>) {
    && (HasField(blu, name) <==> values != [])
    && (|values| == 1 ==> Integer(At(blu, name)) == Success(values[0]))
    && (|values| > 1 ==> Integer(At(blu, name)).Failure?)
  }

  function Truncated(xs: seq<real>): seq<int> {
    seq(|xs|, i requires 0 <= i < |xs| => Truncate(xs[i]))
  }

  lemma IntegerField(data: seq<byte>, name: string)
    requires name !in Header()
    ensures AllValid(Readings(data))
    ensures ReadsOnce(ServiceJson(Decode(data)), name, Truncated(ValuesOf(Items(Readings(data)), name)))
  {
    ServiceFieldShape(data, name);
  }

  function Hundredths(raws: seq<int>): seq<int> {
    seq(|raws|, i requires 0 <= i < |raws| => raws[i] / 100)
  }

  lemma TruncatedLux(xs: seq<real>, raws: seq<int>)
    requires |xs| == |raws| && forall i :: 0 <= i < |xs| ==> raws[i] >= 0 && xs[i] == raws[i] as real * 0.01
    ensures Truncated(xs) == Hundredths(raws)
  {
    forall i | 0 <= i < |raws|
      ensures Truncated(xs)[i] == raws[i] / 100
    {
      TruncatedHundredths(raws[i]);
    }
  }

  lemma TruncatedWhole(xs: seq<real>, raws: seq<int>)
    requires |xs| == |raws| && forall i :: 0 <= i < |xs| ==> xs[i] == raws[i] as real
    ensures Truncated(xs) == raws
  {
  }

  lemma TruncatedRaws(rs: seq<Reading>)
    requires AllValid(rs)
    ensures Truncated(ValuesOf(Items(rs), ILLUMINANCE)) == Hundredths(RawsOf(rs, 0x05))
    ensures Truncated(ValuesOf(Items(rs), MOTION)) == RawsOf(rs, 0x21)
  {
    LuxAreRaws(rs);
    TruncatedLux(ValuesOf(Items(rs), ILLUMINANCE), RawsOf(rs, 0x05));
    MotionsAreRaws(rs);
    TruncatedWhole(ValuesOf(Items(rs), MOTION), RawsOf(rs, 0x21));
  }

  lemma BluetoothFields(data: seq<byte>)
    ensures ReadsOnce(ServiceJson(Decode(data)), ILLUMINANCE, Hundredths(RawsOf(Readings(data), 0x05)))
    ensures ReadsOnce(ServiceJson(Decode(data)), MOTION, RawsOf(Readings(data), 0x21))
  {
    IntegerField(data, ILLUMINANCE);
    IntegerField(data, MOTION);
    TruncatedRaws(Readings(data));
  }

  /** The rows that an advertisement stands for. */
  function RadioRows(data: seq<byte>): seq<Row> {
    var lux, motion := RawsOf(Readings(data), 0x05), RawsOf(Readings(data), 0x21);
    if |lux| > 1 || |motion| > 1 then []
    else (if |lux| == 1 then [LightRow(DEVICE, Some(lux[0] / 100), None)] else [])
         + if |motion| == 1 then [MotionRow(DEVICE, motion[0] == 1)] else []
  }

  /** The record of a published message: only what the sensor's two readings fill. */
  lemma StoredFields(scan: Scan, env: Env)
    requires scan.serviceData.Some? && scan.addr.Some?
    requires HasData(Message(TOPIC, Some(Published(scan)), env))
    ensures var data, sample := scan.serviceData.value, Sample(Message(TOPIC, Some(Published(scan)), env));
            var lux, motion := RawsOf(Readings(data), 0x05), RawsOf(Readings(data), 0x21);
            && |lux| <= 1 && |motion| <= 1
            && sample.deviceName == DeviceName(TOPIC) && sample.temperature.None? && sample.energy.None?
            && sample.light == (if lux == [] then None else Some(LightData(Some(lux[0] / 100), None)))
            && sample.motion == (if motion == [] then None else Some(MotionData(Some(motion[0] == 1))))
  {
    PublishedShape(scan);
    BluetoothFields(scan.serviceData.value);
    assert StatusParams(Published(scan)) == Success(Null);
  }

  lemma SensorRecord(sample: ShellyData, lux: seq<int>, motion: seq<int>)
    requires |lux| <= 1 && |motion| <= 1 && sample.temperature.None? && sample.energy.None?
    requires sample.light == (if lux == [] then None else Some(LightData(Some(lux[0] / 100), None)))
    requires sample.motion == (if motion == [] then None else Some(MotionData(Some(motion[0] == 1))))
    ensures RowsOf(sample) ==
            (if |lux| == 1 then [LightRow(sample.deviceName, Some(lux[0] / 100), None)] else [])
            + if |motion| == 1 then [MotionRow(sample.deviceName, motion[0] == 1)] else []
  {
  }

  lemma StoredSections(scan: Scan, env: Env)
    requires scan.serviceData.Some? && scan.addr.Some?
    requires HasData(Message(TOPIC, Some(Published(scan)), env))
    ensures RowsOf(Sample(Message(TOPIC, Some(Published(scan)), env))) == RadioRows(scan.serviceData.value)
  {
    StoredFields(scan, env);
    TopicDevice();
    var data := scan.serviceData.value;
    SensorRecord(Sample(Message(TOPIC, Some(Published(scan)), env)),
                 RawsOf(Readings(data), 0x05), RawsOf(Readings(data), 0x21));
  }

  /** End to end: an advertisement reaches the database as a light row exactly when illuminance was
      read exactly once and as a motion row exactly when motion was, with no row at all if either
      repeats, the packet is encrypted or the version is wrong -- in which cases there is nothing to
      read. Repeats make the message malformed; other packets without the two readings are ignored. */
  lemma RadioToRows(scan: Scan, env: Env)
    requires scan.serviceData.Some? && scan.addr.Some?
    ensures var data, m := scan.serviceData.value, Message(TOPIC, Some(Published(scan)), env);
            var lux, motion := RawsOf(Readings(data), 0x05), RawsOf(Readings(data), 0x21);
            && (Readable(m) <==> |lux| <= 1 && |motion| <= 1)
            && (HasData(m) <==> RadioRows(data) != [])
            && (HasData(m) ==> RowsOf(Sample(m)) == RadioRows(data))
  {
    var data, payload := scan.serviceData.value, Published(scan);
    PublishedShape(scan);
    BluetoothFields(data);
    assert StatusParams(payload) == Success(Null);
    if HasData(Message(TOPIC, Some(payload), env)) {
      StoredSections(scan, env);
    }
  }

  predicate Working(env: Env) {
    (env.alive || (env.connects && env.prepares >= 8)) && env.begins && env.failsAt.None? && env.commit == Commits
  }

  /** A connection with all its statements. */
  predicate Complete(conn: Connection) {
    conn.Connected? && conn.prepared >= 8
  }

  lemma WorkingAdds(m: Message, conn: Connection)
    requires Working(m.env) && Complete(conn) && DeviceName(m.topic) != ""
    ensures Added(m, conn) == if HasData(m) then RowsOf(Sample(m)) else []
    ensures Complete(After(m, conn))
  {
    if HasData(m) {
      NothingThrows(if m.env.alive then conn.prepared else m.env.prepares, RowsOf(Sample(m)));
    }
  }

  /** The same with a working database, alive or reconnected: exactly these rows are added. */
  lemma RadioToTables(scan: Scan, env: Env, conn: Connection)
    requires scan.serviceData.Some? && scan.addr.Some?
    requires Working(env) && Complete(conn)
    ensures var m := Message(TOPIC, Some(Published(scan)), env);
            && Added(m, conn) == RadioRows(scan.serviceData.value)
            && Complete(After(m, conn))
  {
    RadioToRows(scan, env);
    TopicDevice();
    WorkingAdds(Message(TOPIC, Some(Published(scan)), env), conn);
  }

  // ---------- runs of advertisements ----------

  /** One BLE event with the state of the script when it arrives, and what the database does with the
      message it may become. */
  datatype Advertisement = Advertisement(scan: Scan, deviceIds: Option<seq<string>>, connected: bool, env: Env)

  predicate Heard(ad: Advertisement) {
    Publishes(ad.scan, ad.deviceIds, ad.connected)
  }

  /** The message that an event becomes, if it is published. */
  function MessagesOf(ad: Advertisement): (ms: seq<Message>)
    ensures |ms| <= 1
  {
    if Heard(ad) then [Message(TOPIC, Some(Published(ad.scan)), ad.env)] else []
  }

  /** The messages that a run of events becomes. */
  function Forwarded(ads: seq<Advertisement>): seq<Message> {
    if ads == [] then [] else MessagesOf(ads[0]) + Forwarded(ads[1..])
  }

  /** The rows of the advertisements that are published, in order. */
  function RunRows(ads: seq<Advertisement>): seq<Row> {
    if ads == [] then []
    else (if Heard(ads[0]) then RadioRows(ads[0].scan.serviceData.value) else []) + RunRows(ads[1..])
  }

  lemma OneMessage(m: Message, conn: Connection)
    ensures Final([m], conn) == After(m, conn)
    ensures Log([m], conn) == CallsFor(m, conn)
    ensures Tables([m], conn) == Added(m, conn)
    ensures Survives([m], conn) <==> (HasData(m) ==> conn.Connected?)
  {
    assert [m][1..] == [];
  }

  lemma FirstMessage(m: Message, rest: seq<Message>, conn: Connection)
    ensures Final([m] + rest, conn) == Final(rest, After(m, conn))
    ensures Log([m] + rest, conn) == CallsFor(m, conn) + Log(rest, After(m, conn))
    ensures Tables([m] + rest, conn) == Added(m, conn) + Tables(rest, After(m, conn))
    ensures Survives([m] + rest, conn) <==> (HasData(m) ==> conn.Connected?) && Survives(rest, After(m, conn))
  {
    assert ([m] + rest)[1..] == rest;
  }

  /** What a run that begins with at most one message leaves, in two parts. */
  lemma RunOfParts(first: seq<Message>, rest: seq<Message>, conn: Connection)
    requires |first| <= 1
    ensures var next := Final(first, conn);
            && Final(first + rest, conn) == Final(rest, next)
            && Log(first + rest, conn) == Log(first, conn) + Log(rest, next)
            && Tables(first + rest, conn) == Tables(first, conn) + Tables(rest, next)
            && (Survives(first + rest, conn) <==> Survives(first, conn) && Survives(rest, next))
  {
    if first == [] {
      assert first + rest == rest;
    } else {
      var m := first[0];
      assert first == [m];
      OneMessage(m, conn);
      FirstMessage(m, rest, conn);
    }
  }

  /** For every run of events, with a working database: the tables hold exactly the rows of the published
      advertisements, and the run survives. */
  lemma {:induction false} RadioRunToTables(ads: seq<Advertisement>, conn: Connection)
    requires Complete(conn) && forall i :: 0 <= i < |ads| ==> Working(ads[i].env)
    ensures Tables(Forwarded(ads), conn) == RunRows(ads)
    ensures Survives(Forwarded(ads), conn)
  {
    if ads != [] {
      var next := Final(MessagesOf(ads[0]), conn);
      RunOfParts(MessagesOf(ads[0]), Forwarded(ads[1..]), conn);
      if Heard(ads[0]) {
        RadioToTables(ads[0].scan, ads[0].env, conn);
        OneMessage(MessagesOf(ads[0])[0], conn);
      }
      RadioRunToTables(ads[1..], next);
    }
  }

  /** The script's callback and the module's handler on one event. */
  method RelayOne(ad: Advertisement, shelly: Module)
    requires Survives(MessagesOf(ad), shelly.db.conn)
    modifies shelly, shelly.db
    ensures shelly.calls == old(shelly.calls) + Log(MessagesOf(ad), old(shelly.db.conn))
    ensures shelly.db.table == old(shelly.db.table) + Tables(MessagesOf(ad), old(shelly.db.conn))
    ensures shelly.db.conn == Final(MessagesOf(ad), old(shelly.db.conn))
  {
    var message := ScanCB(ad.scan, ad.deviceIds, ad.connected);
    if message.Some? {
      var m := Message(message.value.0, Some(message.value.1), ad.env);
      OneMessage(m, shelly.db.conn);
      shelly.OnMessage(m);
    }
  }

  /** A run of events. */
  method Relay(ads: seq<Advertisement>, shelly: Module)
    requires Survives(Forwarded(ads), shelly.db.conn)
    modifies shelly, shelly.db
    ensures shelly.calls == old(shelly.calls) + Log(Forwarded(ads), old(shelly.db.conn))
    ensures shelly.db.table == old(shelly.db.table) + Tables(Forwarded(ads), old(shelly.db.conn))
    ensures shelly.db.conn == Final(Forwarded(ads), old(shelly.db.conn))
    decreases ads
  {
    if ads != [] {
      ghost var first, rest, next := MessagesOf(ads[0]), Forwarded(ads[1..]), Final(MessagesOf(ads[0]), shelly.db.conn);
      RunOfParts(first, rest, shelly.db.conn);
      Associate(shelly.calls, Log(first, shelly.db.conn), Log(rest, next));
      Associate(shelly.db.table, Tables(first, shelly.db.conn), Tables(rest, next));
      RelayOne(ads[0], shelly);
      Relay(ads[1..], shelly);
    }
  }

  /** From radio to database through the program: with a working database, the tables gain exactly the
      rows of the published advertisements. */
  method RelayToWorkingDatabase(ads: seq<Advertisement>, shelly: Module)
    requires Complete(shelly.db.conn)
    requires forall i :: 0 <= i < |ads| ==> Working(ads[i].env)
    modifies shelly, shelly.db
    ensures shelly.db.table == old(shelly.db.table) + RunRows(ads)
  {
    RadioRunToTables(ads, shelly.db.conn);
    Relay(ads, shelly);
  }

  lemma LastReading(id: byte, b: byte)
    requires SizeOf(id) == 1
    ensures Parse([id, b]) == [Reading(id, b)]
  {
    var body: seq<byte> := [id, b];
    assert body[2..] == [];
    FirstObject(body);
    FirstNumber(body);
    assert Parse(body) == [Parse(body)[0]] + Parse(body)[1..];
  }

  lemma SensorReadings(b0: byte, b1: byte, b2: byte, motion: byte)
    ensures Parse([0x05, b0, b1, b2, 0x21, motion]) ==
            [Reading(0x05, b0 as int + 256 * b1 as int + 65536 * b2 as int), Reading(0x21, motion)]
  {
    var body: seq<byte> := [0x05, b0, b1, b2, 0x21, motion];
    assert body[4..] == [0x21, motion];
    FirstObject(body);
    FirstNumber(body);
    LastReading(0x21, motion);
    assert Parse(body) == [Parse(body)[0]] + Parse(body)[1..];
  }

  lemma RawsOfTwo(lux: int, motion: int)
    ensures var rs := [Reading(0x05, lux), Reading(0x21, motion)];
            RawsOf(rs, 0x05) == [lux] && RawsOf(rs, 0x21) == [motion]
  {
    var r, s := Reading(0x05, lux), Reading(0x21, motion);
    assert [r, s][..1] == [r] && [r][..0] == [];
    assert RawsOf([r], 0x05) == [lux] && RawsOf([r], 0x21) == [];
  }

  lemma DeviceText()
    ensures DEVICE == "relais-flur_werkstatt"
  {
  }

  lemma SensorRows(header: byte, b0: byte, b1: byte, b2: byte, motion: byte)
    requires 64 <= header < 96 && header % 2 == 0
    ensures RadioRows([header, 0x05, b0, b1, b2, 0x21, motion]) ==
            [LightRow("relais-flur_werkstatt", Some((b0 as int + 256 * b1 as int + 65536 * b2 as int) / 100), None),
             MotionRow("relais-flur_werkstatt", motion == 1)]
  {
    var data: seq<byte> := [header, 0x05, b0, b1, b2, 0x21, motion];
    assert data[1..] == [0x05, b0, b1, b2, 0x21, motion];
    SensorReadings(b0, b1, b2, motion);
    assert Readings(data) == Parse(data[1..]);
    RawsOfTwo(b0 as int + 256 * b1 as int + 65536 * b2 as int, motion);
    DeviceText();
  }

  /** One sensor packet, byte by byte: an unencrypted version-2 header, illuminance and motion. Its message is
      stored as one light row with whole lux and one motion row. */
  lemma SensorPacket(scan: Scan, env: Env, header: byte, b0: byte, b1: byte, b2: byte, motion: byte)
    requires 64 <= header < 96 && header % 2 == 0 && scan.addr.Some?
    requires scan.serviceData == Some([header, 0x05, b0, b1, b2, 0x21, motion])
    ensures var m := Message(TOPIC, Some(Published(scan)), env);
            && HasData(m)
            && RowsOf(Sample(m)) ==
               [LightRow("relais-flur_werkstatt", Some((b0 as int + 256 * b1 as int + 65536 * b2 as int) / 100), None),
                MotionRow("relais-flur_werkstatt", motion == 1)]
  {
    SensorRows(header, b0, b1, b2, motion);
    RadioToRows(scan, env);
  }
}
