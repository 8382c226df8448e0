/** Combining the Fronius readings (fronius/fronius_module.cpp), over exact reals. */
module Fronius {
  import opened Wrappers

  datatype Status = Ok | Error(code: nat)

  /** The status of a caught exception. */
  const INTERNAL: nat := 13

  /** What a client query yields: a reading, or an error status; an exception is one with INTERNAL. */
  datatype Reading<+T> = Read(value: T) | Failed(code: nat) {
    predicate IsFailure() {
      Failed?
    }

    function PropagateFailure<U>(): Reading<U>
      requires Failed?
    {
      Failed(code)
    }

    function Extract(): T
      requires Read?
    {
      value
    }
  }

  datatype Leistung = Leistung(hausverbrauch: real, pvLeistung: real, netzLeistung: real, batterieLeistung: real)
  datatype Quellen = Quellen(einspeisung: real, bezug: real, laden: real, entladen: real)
  datatype Batterie = Batterie(temperatur: real, soc: real, spannung: real, leistung: real)
  datatype FroniusData = FroniusData(leistung: Leistung, quellen: Quellen, batterie: Batterie)

  /** A signed flow split into its two directions, of which one is idle. */
  predicate Splits(flow: real, positive: real, negative: real) {
    positive - negative == flow && positive >= 0.0 && negative >= 0.0 && (positive == 0.0 || negative == 0.0)
  }

  /** What the stored sample says about the readings it is made from: energy in equals energy out, and
      battery and grid flows are split by direction. */
  predicate Balanced(pf: Leistung, slave: Leistung, battery: Batterie, data: FroniusData) {
    var l, q := data.leistung, data.quellen;
    && l.pvLeistung == pf.pvLeistung + slave.pvLeistung
    && l.netzLeistung == pf.netzLeistung && l.batterieLeistung == pf.batterieLeistung
    && Splits(pf.batterieLeistung, q.entladen, q.laden)
    && Splits(pf.netzLeistung, q.bezug, q.einspeisung)
    && l.hausverbrauch + q.laden + q.einspeisung == pf.pvLeistung + slave.pvLeistung + q.entladen + q.bezug
    && data.batterie == battery
  }

  /** The error of the first query that failed; the later ones are not made. */
  function FirstError(pf: Reading<Leistung>, slave: Reading<Leistung>, meter: Reading<real>, battery: Reading<Batterie>)
    : Option<nat>
  {
    match (pf, slave, meter, battery)
    case (Failed(c), _, _, _) => Some(c)
    case (_, Failed(c), _, _) => Some(c)
    case (_, _, Failed(c), _) => Some(c)
    case (_, _, _, Failed(c)) => Some(c)
    case _ => None
  }

  /** The sample made of the four readings. */
  method Combine(pf: Reading<Leistung>, slave: Reading<Leistung>, meter: Reading<real>, battery: Reading<Batterie>)
    returns (r: Reading<FroniusData>)
    ensures match FirstError(pf, slave, meter, battery)
            case Some(c) => r == Failed(c)
            case None => r.Read? && Balanced(pf.value, slave.value, battery.value, r.value)
  {
    var leistung :- pf;
    var l :- slave;
    leistung := leistung.(pvLeistung := leistung.pvLeistung + l.pvLeistung);
    var consumption :- meter;
    leistung := leistung.(hausverbrauch := consumption);
    var batterie :- battery;

    leistung := leistung.(hausverbrauch := leistung.pvLeistung + leistung.batterieLeistung + leistung.netzLeistung);

    var quellen := Quellen(0.0, 0.0, 0.0, 0.0);
    if leistung.batterieLeistung > 0.0 {
      quellen := quellen.(laden := 0.0, entladen := leistung.batterieLeistung);
    } else {
      quellen := quellen.(laden := -leistung.batterieLeistung, entladen := 0.0);
    }
    if leistung.netzLeistung < 0.0 {
      quellen := quellen.(einspeisung := -leistung.netzLeistung, bezug := 0.0);
    } else {
      quellen := quellen.(einspeisung := 0.0, bezug := leistung.netzLeistung);
    }
    return Read(FroniusData(leistung, quellen, batterie));
  }

  /** Query: if all four readings are there, the handler is called once, on the balanced sample, and its
      status returned -- or INTERNAL if it throws (None); otherwise it is not called, and the status is
      that of the first query that failed. `handed` is what the handler was called on. */
  method Query(pf: Reading<Leistung>, slave: Reading<Leistung>, meter: Reading<real>, battery: Reading<Batterie>,
               handler: FroniusData -> Option<Status>)
    returns (st: Status, handed: Option<FroniusData>)
    ensures handed.Some? <==> pf.Read? && slave.Read? && meter.Read? && battery.Read?
    ensures handed.Some? ==> Balanced(pf.value, slave.value, battery.value, handed.value)
    ensures handed.Some? ==>
              var l, q := handed.value.leistung, handed.value.quellen;
              && l.hausverbrauch + q.laden + q.einspeisung == pf.value.pvLeistung + slave.value.pvLeistung
                                                              + q.entladen + q.bezug
              && q.entladen == (if pf.value.batterieLeistung > 0.0 then pf.value.batterieLeistung else 0.0)
              && q.laden == (if pf.value.batterieLeistung < 0.0 then -pf.value.batterieLeistung else 0.0)
              && q.bezug == (if pf.value.netzLeistung > 0.0 then pf.value.netzLeistung else 0.0)
              && q.einspeisung == (if pf.value.netzLeistung < 0.0 then -pf.value.netzLeistung else 0.0)
              && l.netzLeistung == pf.value.netzLeistung && l.batterieLeistung == pf.value.batterieLeistung
              && l.pvLeistung == pf.value.pvLeistung + slave.value.pvLeistung && handed.value.batterie == battery.value
    ensures pf.Failed? ==> st == Error(pf.code)
    ensures pf.Read? && slave.Failed? ==> st == Error(slave.code)
    ensures pf.Read? && slave.Read? && meter.Failed? ==> st == Error(meter.code)
    ensures pf.Read? && slave.Read? && meter.Read? && battery.Failed? ==> st == Error(battery.code)
    ensures match FirstError(pf, slave, meter, battery)
            case Some(c) => st == Error(c)
            case None => st == if handler(handed.value).Some? then handler(handed.value).value else Error(INTERNAL)
  {
    var r := Combine(pf, slave, meter, battery);
    if r.Failed? {
      return Error(r.code), None;
    }
    var result := handler(r.value);
    st := if result.Some? then result.value else Error(INTERNAL);
    return st, Some(r.value);
  }

  /** The balance leaves no freedom: the sample is determined by the power flow, the second inverter and
      the battery, so the meter's consumption -- which is read and may fail the query -- has no influence
      on it. */
  lemma MeterHasNoInfluence(pf: Leistung, slave: Leistung, battery: Batterie, a: FroniusData, b: FroniusData)
    requires Balanced(pf, slave, battery, a) && Balanced(pf, slave, battery, b)
    ensures a == b
  {
    assert a.quellen == b.quellen;
    assert a.leistung == b.leistung;
  }
}
