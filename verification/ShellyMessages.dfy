/** The Shelly protobuf message (shelly/shelly.proto) and how an MQTT payload fills it
    (shelly/shelly_module.cpp, HandleMqttMessage). */
module ShellyMessages {
  import opened Wrappers
  import opened Json
  import opened Topics

  datatype TemperatureData = TemperatureData(temperature: Option<real>, humidity: Option<real>)
  datatype LightData = LightData(lux: Option<int>, illumination: Option<string>)
  datatype MotionData = MotionData(motion: Option<bool>)
  datatype EnergyData = EnergyData(power: real, voltage: real, current: real, frequency: real)

  datatype ShellyData = ShellyData(
    deviceName: string,
    temperature: Option<TemperatureData>,
    motion: Option<MotionData>,
    light: Option<LightData>,
    energy: Option<EnergyData>)
  {
    function MutableTemperature(): TemperatureData {
      if temperature.Some? then temperature.value else TemperatureData(None, None)
    }

    function MutableLight(): LightData {
      if light.Some? then light.value else LightData(None, None)
    }
  }

  predicate CheckFields(j: Json, keys: seq<string>) {
    forall i :: 0 <= i < |keys| ==> HasField(j, keys[i])
  }

  lemma CheckFieldsListed(j: Json, keys: seq<string>)
    ensures |keys| == 1 ==> (CheckFields(j, keys) <==> HasField(j, keys[0]))
    ensures |keys| == 2 ==> (CheckFields(j, keys) <==> HasField(j, keys[0]) && HasField(j, keys[1]))
    ensures |keys| == 4 ==>
              (CheckFields(j, keys) <==>
                 HasField(j, keys[0]) && HasField(j, keys[1]) && HasField(j, keys[2]) && HasField(j, keys[3]))
  {
  }

  // ---------- what a payload reports ----------

  /** A value that may be absent, present, or present and unreadable (the accessor throws). */
  function Inner(j: Json, section: string, key: string): Result<Json> {
    var inner :- At(j, section);
    At(inner, key)
  }

  function Double(r: Result<Json>): Result<real> {
    var j :- r;
    AsDouble(j)
  }

  function Integer(r: Result<Json>): Result<int> {
    var j :- r;
    AsInteger(j)
  }

  function Text(r: Result<Json>): Result<string> {
    var j :- r;
    AsString(j)
  }

  /** The params object of a status notification; Null when the payload is none. Failure: the method
      is not a string. */
  function StatusParams(payload: Json): Result<Json> {
    if HasField(payload, "method") && HasField(payload, "params") then
      var method_ :- AsString(payload.fields["method"]);
      Success(if method_ == "NotifyFullStatus" || method_ == "NotifyStatus" then payload.fields["params"] else Null)
    else Success(Null)
  }

  function ServiceData(payload: Json): Json {
    if HasField(payload, "service_data") then payload.fields["service_data"] else Null
  }

  predicate HasEnergy(payload: Json) {
    && HasField(payload, "apower") && HasField(payload, "current")
    && HasField(payload, "voltage") && HasField(payload, "freq")
  }

  predicate StatusMalformed(payload: Json) {
    var params := StatusParams(payload);
    || params.Failure?
    || (HasField(params.value, "temperature:0") && Double(Inner(params.value, "temperature:0", "tC")).Failure?)
    || (HasField(params.value, "humidity:0") && Double(Inner(params.value, "humidity:0", "rh")).Failure?)
    || (HasField(params.value, "illuminance:0")
        && (|| Integer(Inner(params.value, "illuminance:0", "lux")).Failure?
            || Text(Inner(params.value, "illuminance:0", "illumination")).Failure?))
  }

  predicate EnergyMalformed(payload: Json) {
    && HasEnergy(payload)
    && (|| Double(At(payload, "apower")).Failure? || Double(At(payload, "current")).Failure?
        || Double(At(payload, "voltage")).Failure? || Double(At(payload, "freq")).Failure?)
  }

  predicate BluetoothMalformed(blu: Json) {
    || (HasField(blu, "illuminance") && Integer(At(blu, "illuminance")).Failure?)
    || (HasField(blu, "motion") && Integer(At(blu, "motion")).Failure?)
  }

  /** Some section that is present cannot be read. */
  predicate Malformed(payload: Json) {
    StatusMalformed(payload) || EnergyMalformed(payload) || BluetoothMalformed(ServiceData(payload))
  }

  predicate ReportsStatus(params: Json) {
    HasField(params, "temperature:0") || HasField(params, "humidity:0") || HasField(params, "illuminance:0")
  }

  /** Some section is present. */
  predicate Reports(payload: Json)
    requires !Malformed(payload)
  {
    var params, blu := StatusParams(payload).value, ServiceData(payload);
    || ReportsStatus(params) || HasEnergy(payload)
    || HasField(blu, "illuminance") || HasField(blu, "motion")
  }

  function TemperatureOf(params: Json): Option<TemperatureData> {
    var t, h := Double(Inner(params, "temperature:0", "tC")), Double(Inner(params, "humidity:0", "rh"));
    if t.Failure? && h.Failure? then None
    else Some(TemperatureData(if t.Success? then Some(t.value) else None, if h.Success? then Some(h.value) else None))
  }

  /** The lux forwarded from a Bluetooth sensor wins over the relay's own. */
  function LightOf(params: Json, blu: Json): Option<LightData> {
    var own, forwarded := Integer(Inner(params, "illuminance:0", "lux")), Integer(At(blu, "illuminance"));
    var text := Text(Inner(params, "illuminance:0", "illumination"));
    if own.Failure? && forwarded.Failure? then None
    else Some(LightData(Some(if forwarded.Success? then forwarded.value else own.value),
                        if text.Success? then Some(text.value) else None))
  }

  function EnergyOf(payload: Json): Option<EnergyData> {
    var p, v, c, f := Double(At(payload, "apower")), Double(At(payload, "voltage")),
                      Double(At(payload, "current")), Double(At(payload, "freq"));
    if p.Failure? || v.Failure? || c.Failure? || f.Failure? then None
    else Some(EnergyData(p.value, v.value, c.value, f.value))
  }

  function MotionOf(blu: Json): Option<MotionData> {
    var m := Integer(At(blu, "motion"));
    if m.Failure? then None else Some(MotionData(Some(m.value == 1)))
  }

  /** The message that a readable payload stands for, field by field. */
  function Reported(topic: string, payload: Json): ShellyData
    requires !Malformed(payload)
  {
    var params, blu := StatusParams(payload).value, ServiceData(payload);
    ShellyData(DeviceName(topic), TemperatureOf(params), MotionOf(blu), LightOf(params, blu), EnergyOf(payload))
  }

  // ---------- the handler's reading steps ----------

  /** The first part of HandleMqttMessage: fill `data` section by section, remembering whether any was
      present. Failure is an exception on the way. */
  method ReadPayload(topic: string, payload: Json) returns (r: Result<(bool, ShellyData)>)
    ensures r.Failure? <==> Malformed(payload)
    ensures r.Success? ==> r.value == (Reports(payload), Reported(topic, payload))
  {
    var data := ShellyData("", None, None, None, None);
    var dsts := Split(topic);
    if |dsts| > 2 {
      data := data.(deviceName := dsts[1] + "-" + dsts[2]);
    } else {
      data := data.(deviceName := topic);
    }
    var hasStatus, hasEnergy, hasBluetooth;
    var s :- ReadStatus(payload, data);
    hasStatus, data := s.0, s.1;
    var e :- ReadEnergy(payload, data);
    hasEnergy, data := e.0, e.1;
    var b :- ReadBluetooth(payload, data);
    hasBluetooth, data := b.0, b.1;
    return Success((hasStatus || hasEnergy || hasBluetooth, data));
  }

  /** The thermometer sections of a status notification. */
  method ReadStatus(payload: Json, blank: ShellyData) returns (r: Result<(bool, ShellyData)>)
    requires blank.temperature.None? && blank.light.None?
    ensures r.Failure? <==> StatusMalformed(payload)
    ensures r.Success? ==>
              var params := StatusParams(payload).value;
              && r.value.0 == ReportsStatus(params)
              && r.value.1 == blank.(temperature := TemperatureOf(params), light := LightOf(params, Null))
  {
    var data, hasData, isStatus := blank, false, false;
    CheckFieldsListed(payload, ["method", "params"]);
    if CheckFields(payload, ["method", "params"]) {
      var m :- AsString(payload.fields["method"]);
      isStatus := m == "NotifyFullStatus" || m == "NotifyStatus";
    }
    if isStatus {
      var params := payload.fields["params"];
      if HasField(params, "temperature:0") {
        var section := params.fields["temperature:0"];
        var j :- At(section, "tC");
        var x :- AsDouble(j);
        data := data.(temperature := Some(data.MutableTemperature().(temperature := Some(x))));
        hasData := true;
      }
      if HasField(params, "humidity:0") {
        var section := params.fields["humidity:0"];
        var j :- At(section, "rh");
        var x :- AsDouble(j);
        data := data.(temperature := Some(data.MutableTemperature().(humidity := Some(x))));
        hasData := true;
      }
      if HasField(params, "illuminance:0") {
        var section := params.fields["illuminance:0"];
        var j :- At(section, "lux");
        var n :- AsInteger(j);
        data := data.(light := Some(data.MutableLight().(lux := Some(n))));
        var k :- At(section, "illumination");
        var s :- AsString(k);
        data := data.(light := Some(data.MutableLight().(illumination := Some(s))));
        hasData := true;
      }
    }
    return Success((hasData, data));
  }

  /** Relays and switches. */
  method ReadEnergy(payload: Json, before: ShellyData) returns (r: Result<(bool, ShellyData)>)
    requires before.energy.None?
    ensures r.Failure? <==> EnergyMalformed(payload)
    ensures r.Success? ==> r.value == (HasEnergy(payload), before.(energy := EnergyOf(payload)))
  {
    var keys := ["apower", "current", "voltage", "freq"];
    CheckFieldsListed(payload, keys);
    if CheckFields(payload, keys) {
      var power :- AsDouble(payload.fields["apower"]);
      var current :- AsDouble(payload.fields["current"]);
      var voltage :- AsDouble(payload.fields["voltage"]);
      var frequency :- AsDouble(payload.fields["freq"]);
      return Success((true, before.(energy := Some(EnergyData(power, voltage, current, frequency)))));
    }
    return Success((false, before));
  }

  /** Data that a relay forwards from a Bluetooth sensor. */
  method ReadBluetooth(payload: Json, before: ShellyData) returns (r: Result<(bool, ShellyData)>)
    requires before.motion.None?
    ensures var blu := ServiceData(payload);
            && (r.Failure? <==> BluetoothMalformed(blu))
            && (r.Success? ==>
                  && r.value.0 == (HasField(blu, "illuminance") || HasField(blu, "motion"))
                  && r.value.1 == before.(light := Overridden(before.light, blu), motion := MotionOf(blu)))
  {
    var data, hasData := before, false;
    CheckFieldsListed(payload, ["service_data"]);
    if CheckFields(payload, ["service_data"]) {
      var serviceData := payload.fields["service_data"];
      CheckFieldsListed(serviceData, ["illuminance"]);
      if CheckFields(serviceData, ["illuminance"]) {
        var j := serviceData.fields["illuminance"];
        var n :- AsInteger(j);
        data := data.(light := Some(data.MutableLight().(lux := Some(n))));
        hasData := true;
      }
      CheckFieldsListed(serviceData, ["motion"]);
      if CheckFields(serviceData, ["motion"]) {
        var j := serviceData.fields["motion"];
        var n :- AsInteger(j);
        data := data.(motion := Some(MotionData(Some(n == 1))));
        hasData := true;
      }
    }
    return Success((hasData, data));
  }

  function Overridden(own: Option<LightData>, blu: Json): Option<LightData> {
    var forwarded := Integer(At(blu, "illuminance"));
    if forwarded.Failure? then own
    else Some((if own.Some? then own.value else LightData(None, None)).(lux := Some(forwarded.value)))
  }
}
