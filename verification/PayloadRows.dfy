/** From the fields of an MQTT payload to database rows: which payloads are readable, which report data, and
    for each table exactly which row a payload stands for. */
module PayloadRows {
  import opened Wrappers
  import opened Json
  import opened Topics
  import opened Timescale
  import opened ShellyModule

  /** j.key is v. */
  predicate Is(j: Json, key: string, v: Json) {
    j.Object? && key in j.fields && j.fields[key] == v
  }

  predicate Has(j: Json, key: string) {
    j.Object? && key in j.fields
  }

  /** j.section.key is a number. */
  predicate HasNumber(j: Json, section: string, key: string) {
    Has(j, section) && Has(j.fields[section], key) && j.fields[section].fields[key].Number?
  }

  /** A status notification. */
  predicate Notifies(j: Json) {
    Has(j, "params") && (Is(j, "method", String("NotifyStatus")) || Is(j, "method", String("NotifyFullStatus")))
  }

  /** A message is readable exactly if its payload is JSON and every section that is present has its fields:
      the method is a text, temperature and humidity are numbers, the relay's own light has a number and a
      text, the four electrical values are numbers if all are there, and forwarded values are numbers. */
  lemma ReadableExact(m: Message)
    requires m.payload.Some?
    ensures var j := m.payload.value;
            Readable(m) <==>
              && (Has(j, "method") && Has(j, "params") ==> j.fields["method"].String?)
              && (Notifies(j) ==>
                    var ps := j.fields["params"];
                    && (Has(ps, "temperature:0") ==> HasNumber(ps, "temperature:0", "tC"))
                    && (Has(ps, "humidity:0") ==> HasNumber(ps, "humidity:0", "rh"))
                    && (Has(ps, "illuminance:0") ==>
                          && HasNumber(ps, "illuminance:0", "lux")
                          && Has(ps.fields["illuminance:0"], "illumination")
                          && ps.fields["illuminance:0"].fields["illumination"].String?))
              && (Has(j, "apower") && Has(j, "current") && Has(j, "voltage") && Has(j, "freq") ==>
                    && j.fields["apower"].Number? && j.fields["current"].Number?
                    && j.fields["voltage"].Number? && j.fields["freq"].Number?)
              && (Has(j, "service_data") ==>
                    var blu := j.fields["service_data"];
                    && (Has(blu, "illuminance") ==> blu.fields["illuminance"].Number?)
                    && (Has(blu, "motion") ==> blu.fields["motion"].Number?))
  {
  }

  /** A readable message has data exactly if one of the sections is present. */
  lemma HasDataExact(m: Message)
    requires Readable(m)
    ensures var j := m.payload.value;
            HasData(m) <==>
              || (Notifies(j) && (|| Has(j.fields["params"], "temperature:0")
                                  || Has(j.fields["params"], "humidity:0")
                                  || Has(j.fields["params"], "illuminance:0")))
              || (Has(j, "apower") && Has(j, "current") && Has(j, "voltage") && Has(j, "freq"))
              || (Has(j, "service_data") && (|| Has(j.fields["service_data"], "illuminance")
                                             || Has(j.fields["service_data"], "motion")))
  {
  }

  /** The rows of a message; none if it has no data. */
  function RowsOfMessage(m: Message): seq<Row> {
    if HasData(m) then RowsOf(Sample(m)) else []
  }

  /** The energy row: each electrical value in its own column, and no row unless all four are there. */
  lemma EnergyRowExact(m: Message, d: string, power: real, voltage: real, current: real, frequency: real)
    requires Readable(m)
    ensures var j := m.payload.value;
            EnergyRow(d, power, voltage, current, frequency) in RowsOfMessage(m) <==>
              && d == DeviceName(m.topic)
              && Is(j, "apower", Number(power)) && Is(j, "voltage", Number(voltage))
              && Is(j, "current", Number(current)) && Is(j, "freq", Number(frequency))
  {
    if HasData(m) {
      RowsExact(Sample(m), d, None, None, None, None, power, voltage, current, frequency, false);
    }
  }

  /** The temperature row: what a status notification says about temperature and humidity, NULL for what it
      does not say, and no row if it says neither. */
  lemma TemperatureRowExact(m: Message, d: string, t: Option<real>, h: Option<real>)
    requires Readable(m)
    ensures var j := m.payload.value;
            TemperatureRow(d, t, h) in RowsOfMessage(m) <==>
              && d == DeviceName(m.topic) && Notifies(j) && (t.Some? || h.Some?)
              && (var ps := j.fields["params"];
                  && (if t.None? then !Has(ps, "temperature:0")
                      else Has(ps, "temperature:0") && Is(ps.fields["temperature:0"], "tC", Number(t.value)))
                  && (if h.None? then !Has(ps, "humidity:0")
                      else Has(ps, "humidity:0") && Is(ps.fields["humidity:0"], "rh", Number(h.value))))
  {
    if HasData(m) {
      RowsExact(Sample(m), d, t, h, None, None, 0.0, 0.0, 0.0, 0.0, false);
    }
  }

  /** n is x without its fraction. */
  lemma TruncateExact(x: real, n: int)
    ensures n == Truncate(x) <==>
              if x >= 0.0 then n as real <= x < n as real + 1.0 else n as real - 1.0 < x <= n as real
  {
  }

  predicate OwnLight(j: Json) {
    Notifies(j) && Has(j.fields["params"], "illuminance:0")
  }

  predicate ForwardedLight(j: Json) {
    Has(j, "service_data") && Has(j.fields["service_data"], "illuminance")
  }

  /** The light row: the illumination text of the relay's own sensor, and a lux value, which is forwarded from
      a Bluetooth sensor if there is one and the relay's own otherwise. */
  lemma LightRowExact(m: Message, d: string, lux: Option<int>, text: Option<string>)
    requires Readable(m)
    ensures var j := m.payload.value;
            LightRow(d, lux, text) in RowsOfMessage(m) <==>
              && d == DeviceName(m.topic) && (OwnLight(j) || ForwardedLight(j))
              && lux.Some?
              && (if ForwardedLight(j) then
                    var x := j.fields["service_data"].fields["illuminance"];
                    x.Number? && lux.value == Truncate(x.x)
                  else
                    var own := j.fields["params"].fields["illuminance:0"];
                    Has(own, "lux") && own.fields["lux"].Number? && lux.value == Truncate(own.fields["lux"].x))
              && (if OwnLight(j) then
                    text.Some? && Is(j.fields["params"].fields["illuminance:0"], "illumination", String(text.value))
                  else text.None?)
  {
    if HasData(m) {
      RowsExact(Sample(m), d, None, None, lux, text, 0.0, 0.0, 0.0, 0.0, false);
    }
  }

  /** The motion row: true exactly for a forwarded number whose integer part is 1. */
  lemma MotionRowExact(m: Message, d: string, b: bool)
    requires Readable(m)
    ensures var j := m.payload.value;
            MotionRow(d, b) in RowsOfMessage(m) <==>
              && d == DeviceName(m.topic)
              && Has(j, "service_data") && Has(j.fields["service_data"], "motion")
              && (var x := j.fields["service_data"].fields["motion"];
                  x.Number? && (b <==> 1.0 <= x.x < 2.0))
  {
    if HasData(m) {
      RowsExact(Sample(m), d, None, None, None, None, 0.0, 0.0, 0.0, 0.0, b);
    }
  }
}
