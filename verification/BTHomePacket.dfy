/** Whole BTHome packets (shelly/blu-to-mqtt.js).

    `Unpack` is the script's loop. `Parse` and `Group` say what it computes: the sequence of readings
    in the packet, and that sequence grouped by property name. */
module BTHomePacket {
  import opened Bits
  import opened Wrappers
  import opened BTHome
  import opened Grouping

  datatype Reading = Reading(id: byte, raw: int)

  predicate Valid(r: Reading) {
    Table(r.id).Some? && InRange(Table(r.id).value.t, r.raw)
  }

  function Name(r: Reading): string
    requires Table(r.id).Some?
  {
    Table(r.id).value.n
  }

  function Scaled(r: Reading): real
    requires Table(r.id).Some?
  {
    ScaledBy(Table(r.id).value.f, r.raw)
  }

  function ScaledBy(f: Option<real>, raw: int): real {
    if f.None? then raw as real else raw as real * f.value
  }

  // ---------- readings in a packet body ----------

  function EncodeReading(r: Reading): seq<byte>
    requires Valid(r)
  {
    [r.id] + EncodeRaw(Table(r.id).value.t, r.raw)
  }

  predicate AllValid(rs: seq<Reading>) {
    forall i :: 0 <= i < |rs| ==> Valid(rs[i])
  }

  function Encode(rs: seq<Reading>): seq<byte>
    requires AllValid(rs)
  {
    if rs == [] then [] else EncodeReading(rs[0]) + Encode(rs[1..])
  }

  /** Nothing more can be read: the body is used up, the id is unknown, or its value is cut short. */
  predicate Stuck(body: seq<byte>) {
    body == [] || Table(body[0]).None? || |body| < 1 + ByteSize(Table(body[0]).value.t)
  }

  function First(body: seq<byte>): Reading
    requires !Stuck(body)
  {
    var t := Table(body[0]).value.t;
    Reading(body[0], RawValue(t, body[1..][..ByteSize(t)]))
  }

  function Rest(body: seq<byte>): (rest: seq<byte>)
    requires !Stuck(body)
    ensures |rest| + 1 + ByteSize(Table(body[0]).value.t) == |body|
  {
    body[1..][ByteSize(Table(body[0]).value.t)..]
  }

  function Parse(body: seq<byte>): seq<Reading> {
    if Stuck(body) then [] else [First(body)] + Parse(Rest(body))
  }

  lemma FirstOfEncoded(r: Reading, tail: seq<byte>)
    requires Valid(r)
    ensures !Stuck(EncodeReading(r) + tail)
    ensures First(EncodeReading(r) + tail) == r
    ensures Rest(EncodeReading(r) + tail) == tail
  {
    var t := Table(r.id).value.t;
    var body := EncodeReading(r) + tail;
    RawRoundTrip(t, r.raw);
    assert body[1..][..ByteSize(t)] == EncodeRaw(t, r.raw);
  }

  lemma EncodedFirst(body: seq<byte>)
    requires !Stuck(body)
    ensures Valid(First(body))
    ensures EncodeReading(First(body)) + Rest(body) == body
  {
    var t := Table(body[0]).value.t;
    BytesRoundTrip(t, body[1..][..ByteSize(t)]);
  }

  lemma EncodeCons(r: Reading, rs: seq<Reading>, tail: seq<byte>)
    requires Valid(r) && AllValid(rs)
    ensures AllValid([r] + rs)
    ensures Encode([r] + rs) + tail == EncodeReading(r) + (Encode(rs) + tail)
  {
    assert ([r] + rs)[1..] == rs;
  }

  lemma {:induction false} EncodedSize(rs: seq<Reading>)
    requires AllValid(rs)
    ensures |Encode(rs)| == Size(rs)
  {
    if rs != [] {
      EncodedSize(rs[1..]);
    }
  }

  lemma {:induction false} Unread(body: seq<byte>) returns (tail: seq<byte>)
    ensures AllValid(Parse(body))
    ensures Stuck(tail) && Encode(Parse(body)) + tail == body
    ensures |body| == Size(Parse(body)) + |tail|
  {
    if Stuck(body) {
      tail := body;
    } else {
      var r, rest := First(body), Rest(body);
      EncodedFirst(body);
      tail := Unread(rest);
      EncodeCons(r, Parse(rest), tail);
    }
    EncodedSize(Parse(body));
  }

  /** Every body is the encoding of the readings found in it, followed by a tail that stops the
      decoder; its length drops by 1 + size per reading. */
  lemma ParseIsComplete(body: seq<byte>)
    ensures AllValid(Parse(body))
    ensures exists tail :: Stuck(tail) && Encode(Parse(body)) + tail == body && |body| == Size(Parse(body)) + |tail|
  {
    var tail := Unread(body);
  }

  function Size(rs: seq<Reading>): nat
    requires AllValid(rs)
  {
    if rs == [] then 0 else 1 + ByteSize(Table(rs[0].id).value.t) + Size(rs[1..])
  }

  /** The readings of an encoded list are that list, whatever stopping tail follows. */
  lemma {:induction false} ParseEncoded(rs: seq<Reading>, tail: seq<byte>)
    requires AllValid(rs) && Stuck(tail)
    ensures Parse(Encode(rs) + tail) == rs
  {
    if rs == [] {
      assert Encode(rs) + tail == tail;
    } else {
      var more := Encode(rs[1..]) + tail;
      assert [rs[0]] + rs[1..] == rs;
      EncodeCons(rs[0], rs[1..], tail);
      FirstOfEncoded(rs[0], more);
      ParseEncoded(rs[1..], tail);
    }
  }

  /** Parsing inverts encoding on all byte strings: `rs` are the readings of `body` exactly when they
      are valid and `body` is their encoding followed by a tail that stops the decoder. */
  lemma ParseExact(body: seq<byte>, rs: seq<Reading>)
    ensures Parse(body) == rs <==> AllValid(rs) && exists tail :: Stuck(tail) && body == Encode(rs) + tail
  {
    ParseIsComplete(body);
    if AllValid(rs) && exists t :: Stuck(t) && body == Encode(rs) + t {
      var t :| Stuck(t) && body == Encode(rs) + t;
      ParseEncoded(rs, t);
    }
  }

  /** Cutting a body anywhere cuts its list of readings, and changes none that remains. */
  lemma {:induction false} ParsePrefix(body: seq<byte>, k: nat)
    requires k <= |body|
    ensures Parse(body[..k]) <= Parse(body)
  {
    if !Stuck(body[..k]) {
      var size := ByteSize(Table(body[0]).value.t);
      assert body[..k][1..][..size] == body[1..][..size];
      assert Rest(body[..k]) == Rest(body)[..k - 1 - size];
      ParsePrefix(Rest(body), k - 1 - size);
    }
  }

  // ---------- the result object ----------

  function ToItem(r: Reading): Item
    requires Valid(r)
  {
    Item(Name(r), Scaled(r))
  }

  function Items(rs: seq<Reading>): (items: seq<Item>)
    requires AllValid(rs)
    ensures |items| == |rs| && forall i :: 0 <= i < |rs| ==> items[i] == ToItem(rs[i])
  {
    seq(|rs|, i requires 0 <= i < |rs| => ToItem(rs[i]))
  }

  function Header(): Fields {
    map[ENCRYPTION := Flag(false), VERSION := Num(2.0)]
  }

  /** The result object for a list of readings: the two header fields, and every reported name with
      exactly its values. */
  function Group(rs: seq<Reading>): Fields
    requires AllValid(rs)
  {
    Header() + Grouped(Items(rs))
  }

  lemma NamesAvoidHeader(r: Reading)
    requires Valid(r)
    ensures ToItem(r).n !in Header()
  {
  }

  lemma ItemsAvoidHeader(rs: seq<Reading>)
    requires AllValid(rs)
    ensures Names(Items(rs)) !! Header().Keys
  {
    forall i | 0 <= i < |rs|
      ensures Items(rs)[i].n !in Header()
    {
      NamesAvoidHeader(rs[i]);
    }
  }

  lemma ItemsAppend(rs: seq<Reading>, r: Reading)
    requires AllValid(rs) && Valid(r)
    ensures AllValid(rs + [r])
    ensures Items(rs + [r]) == Items(rs) + [ToItem(r)]
  {
  }

  lemma OverlayUpdate(h: Fields, g: Fields, it: Item, v: Value)
    requires it.n !in h
    ensures Lookup(h + g, it.n) == Lookup(g, it.n)
    ensures h + g[it.n := v] == (h + g)[it.n := v]
  {
  }

  lemma GroupAppend(rs: seq<Reading>, r: Reading)
    requires AllValid(rs) && Valid(r)
    ensures AllValid(rs + [r])
    ensures var it := ToItem(r);
            && Group(rs + [r]) == Group(rs)[it.n := Promote(Lookup(Group(rs), it.n), it.x)]
            && (it.n in Group(rs) ==> !Group(rs)[it.n].Flag?)
  {
    ItemsAppend(rs, r);
    GroupedAppend(Items(rs), ToItem(r));
    NamesAvoidHeader(r);
    OverlayUpdate(Header(), Grouped(Items(rs)), ToItem(r),
                  Promote(Lookup(Grouped(Items(rs)), ToItem(r).n), ToItem(r).x));
  }

  // ---------- unpack ----------

  lemma ParsedAreValid(body: seq<byte>)
    ensures AllValid(Parse(body))
  {
    ParseIsComplete(body);
  }

  /** What a whole service-data string decodes to; None is the script's null. */
  function Decode(buffer: seq<byte>): Option<Fields> {
    if buffer == [] || buffer[0] / 32 != 2 then None
    else if buffer[0] % 2 == 1 then Some(map[ENCRYPTION := Flag(true), VERSION := Num(2.0)])
    else
      ParsedAreValid(buffer[1..]);
      Some(Group(Parse(buffer[1..])))
  }

  /** The top three bits of the first byte are the version, its lowest bit says whether the rest is
      encrypted. */
  lemma HeaderByte(data: seq<byte>)
    ensures var r := Decode(data);
            && (r.Some? <==> |data| > 0 && 64 <= data[0] < 96)
            && (r.Some? && data[0] % 2 == 1 ==>
                  r.value == map["encryption" := Flag(true), "BTHome_version" := Num(2.0)])
            && (r.Some? && data[0] % 2 == 0 ==>
                  && "encryption" in r.value && r.value["encryption"] == Flag(false)
                  && "BTHome_version" in r.value && r.value["BTHome_version"] == Num(2.0))
  {
    if data != [] && 64 <= data[0] < 96 && data[0] % 2 == 0 {
      ParsedAreValid(data[1..]);
      ItemsAvoidHeader(Parse(data[1..]));
    }
  }

  lemma EvenIsAnd(dib: int)
    requires 0 <= dib < 256
    ensures JsAnd(dib, 0x1) == dib % 2
  {
    ToInt32Small(dib);
    ToInt32Small(1);
    AndMaskIsMod(dib, 1);
    ToInt32Small(dib % 2);
  }

  method Unpack(data: seq<byte>) returns (r: Option<Fields>)
    ensures r == Decode(data)
  {
    if |data| == 0 {
      return None;
    }
    var buffer := data;
    var dib: int := buffer[0];
    var result: Fields := map[];
    EvenIsAnd(dib);
    result := result[ENCRYPTION := Flag(JsAnd(dib, 0x1) != 0)];
    var version := dib / 32;  // dib >> 5
    result := result[VERSION := Num(version as real)];
    if version != 2 {
      return None;
    }
    if result[ENCRYPTION].b {
      return Some(result);
    }
    buffer := buffer[1..];
    ParsedAreValid(buffer);
    result := UnpackBody(result, buffer);
    return Some(result);
  }

  lemma ReadingAt(body: seq<byte>, e: Entry, raw: Option<int>) returns (r: Reading)
    requires body != [] && Table(body[0]) == Some(e)
    requires raw == if |body[1..]| < ByteSize(e.t) then None else Some(RawValue(e.t, body[1..][..ByteSize(e.t)]))
    ensures raw.None? ==> Parse(body) == []
    ensures raw.Some? ==>
              && Valid(r)
              && Parse(body) == [r] + Parse(body[1..][ByteSize(e.t)..])
              && ToItem(r) == Item(e.n, ScaledBy(e.f, raw.value))
  {
    if Stuck(body) {
      r := Reading(0, 0);
    } else {
      r := First(body);
      EncodedFirst(body);
    }
  }

  lemma ParseAppend(done: seq<Reading>, r: Reading, rest: seq<Reading>)
    ensures done + ([r] + rest) == (done + [r]) + rest
  {
  }

  /** The object loop of `unpack`. */
  method UnpackBody(header: Fields, body: seq<byte>) returns (result: Fields)
    requires header == Header() && AllValid(Parse(body))
    ensures result == Group(Parse(body))
  {
    result := header;
    var buffer := body;
    ghost var done: seq<Reading> := [];
    while |buffer| > 0
      invariant AllValid(done) && result == Group(done)
      invariant Parse(body) == done + Parse(buffer)
    {
      var bth := Table(buffer[0]);
      if bth.None? {
        assert done + Parse(buffer) == done;
        return;
      }
      ghost var unread := buffer;
      buffer := buffer[1..];
      var raw := GetBufValue(bth.value.t, buffer);
      ghost var r := ReadingAt(unread, bth.value, raw);
      if raw.None? {
        assert done + [] == done;
        return;
      }
      var value := ScaledBy(bth.value.f, raw.value);
      var n := bth.value.n;

      GroupAppend(done, r);
      ghost var before := result;
      ParseAppend(done, r, Parse(buffer[ByteSize(bth.value.t)..]));
      done := done + [r];
      if n !in result {
        result := result[n := Num(value)];
      } else if result[n].List? {
        result := result[n := List(result[n].xs + [value])];
      } else {
        result := result[n := List([result[n].x, value])];
      }
      assert result == before[n := Promote(Lookup(before, n), value)];

      buffer := buffer[ByteSize(bth.value.t)..];
    }
    assert done + Parse(buffer) == done;
  }

  // ---------- theorems on whole packets ----------

  predicate Plain(header: byte) {
    header / 32 == 2 && header % 2 == 0
  }

  lemma GroupFields(rs: seq<Reading>, name: string)
    requires AllValid(rs)
    ensures Group(rs).Keys == Header().Keys + Names(Items(rs))
    ensures name in Header() ==> Group(rs)[name] == Header()[name]
    ensures name !in Header() ==> Lookup(Group(rs), name) == Lookup(Grouped(Items(rs)), name)
    ensures name !in Header() ==> ListOf(Group(rs), name) == ValuesOf(Items(rs), name)
  {
    ItemsAvoidHeader(rs);
    GroupedLists(Items(rs), name);
  }

  /** Round trip: decoding the encoding of any readings, under any unencrypted version-2 header and
      before any stopping tail, gives each name exactly its scaled values in order of arrival -- a
      scalar for one, an array for more, ids that share a name merged -- and leaves the header fields
      alone. */
  lemma RoundTrip(data: seq<byte>, header: byte, rs: seq<Reading>, tail: seq<byte>, name: string)
    requires Plain(header) && AllValid(rs) && Stuck(tail)
    requires data == [header] + (Encode(rs) + tail)
    ensures Decode(data).Some?
    ensures Lookup(Decode(data).value, name) ==
            if name == "encryption" then Some(Flag(false))
            else if name == "BTHome_version" then Some(Num(2.0))
            else
              var vs := ValuesOf(Items(rs), name);
              if vs == [] then None else Some(if |vs| == 1 then Num(vs[0]) else List(vs))
  {
    assert data[1..] == Encode(rs) + tail;
    ParseEncoded(rs, tail);
    GroupFields(rs, name);
    LookupGrouped(Items(rs), name);
  }

  lemma GroupPrefix(cut: seq<Reading>, whole: seq<Reading>, name: string)
    requires AllValid(whole) && cut <= whole
    ensures AllValid(cut)
    ensures name in Header() ==> Lookup(Group(cut), name) == Lookup(Group(whole), name)
    ensures ListOf(Group(cut), name) <= ListOf(Group(whole), name)
  {
    assert forall i :: 0 <= i < |cut| ==> cut[i] == whole[i];
    GroupFields(whole, name);
    GroupFields(cut, name);
    if name !in Header() {
      assert Items(cut) <= Items(whole);
      ValuesPrefix(Items(cut), Items(whole), name);
    }
  }

  lemma PlainTruncation(body: seq<byte>, k: nat, name: string)
    requires k <= |body|
    ensures AllValid(Parse(body)) && AllValid(Parse(body[..k]))
    ensures name in Header() ==> Lookup(Group(Parse(body[..k])), name) == Lookup(Group(Parse(body)), name)
    ensures ListOf(Group(Parse(body[..k])), name) <= ListOf(Group(Parse(body)), name)
  {
    ParsePrefix(body, k);
    ParsedAreValid(body);
    GroupPrefix(Parse(body[..k]), Parse(body), name);
  }

  /** Truncation: cutting a packet anywhere after its header byte keeps the header fields, and each
      name's values become a prefix of its values in the whole packet. */
  lemma TruncationIsMonotone(data: seq<byte>, k: nat, name: string)
    requires 1 <= k <= |data|
    ensures Decode(data[..k]).Some? <==> Decode(data).Some?
    ensures Decode(data).Some? && name in Header() ==>
              Lookup(Decode(data[..k]).value, name) == Lookup(Decode(data).value, name)
    ensures Decode(data).Some? ==> ListOf(Decode(data[..k]).value, name) <= ListOf(Decode(data).value, name)
  {
    assert data[..k][1..] == data[1..][..k - 1];
    if Decode(data).Some? && data[0] % 2 == 0 {
      PlainTruncation(data[1..], k - 1, name);
    }
  }

  // ---------- the objects of the script's table ----------

  lemma ReadsFirst(body: seq<byte>)
    requires !Stuck(body)
    ensures Parse(body) != [] && Parse(body)[0] == First(body)
    ensures Parse(body)[1..] == Parse(body[1 + ByteSize(Table(body[0]).value.t)..])
  {
    var rest := body[1 + ByteSize(Table(body[0]).value.t)..];
    assert Rest(body) == rest;
    assert ([First(body)] + Parse(rest))[1..] == Parse(rest);
  }

  lemma FirstValue(body: seq<byte>)
    requires !Stuck(body)
    ensures var v := First(body).raw;
            match Table(body[0]).value.t
            case UInt8 => v == body[1]
            case UInt16 => v == body[1] as int + 256 * body[2] as int
            case Int16 => v == body[1] as int + 256 * body[2] as int - if body[2] < 128 then 0 else 65536
            case UInt24 => v == body[1] as int + 256 * body[2] as int + 65536 * body[3] as int
            case _ => true
  {
    var t := Table(body[0]).value.t;
    var bytes := body[1..][..ByteSize(t)];
    RawValueExact(t, bytes, First(body).raw);
    assert forall i :: 0 <= i < |bytes| ==> bytes[i] == body[i + 1];
  }

  /** The bytes behind each known id; 0 for an unknown one. */
  function SizeOf(id: byte): (n: nat)
    ensures n == match id
                 case 0x00 | 0x01 | 0x21 | 0x2c | 0x2d | 0x2e => 1
                 case 0x02 | 0x03 | 0x3a | 0x3f | 0x40 | 0x45 => 2
                 case 0x05 => 3
                 case _ => 0
  {
    if Table(id).None? then 0 else ByteSize(Table(id).value.t)
  }

  /** The first object of a body: it is read exactly if its id is known and all its bytes are there; the
      rest of the body is read in the same way. */
  lemma FirstObject(body: seq<byte>)
    requires body != []
    ensures SizeOf(body[0]) == 0 || |body| < 1 + SizeOf(body[0]) ==> Parse(body) == []
    ensures |body| >= 1 + SizeOf(body[0]) > 1 ==>
              && Parse(body) != []
              && Parse(body)[0].id == body[0]
              && Parse(body)[1..] == Parse(body[1 + SizeOf(body[0])..])
  {
    if !Stuck(body) {
      ReadsFirst(body);
    }
  }

  /** The number that it holds, byte by byte. */
  lemma FirstNumber(body: seq<byte>)
    requires Parse(body) != []
    ensures |body| >= 2 && (body[0] !in {0x00, 0x01, 0x21, 0x2c, 0x2d, 0x2e} ==> |body| >= 3)
    ensures body[0] == 0x05 ==> |body| >= 4
    ensures Parse(body)[0].raw ==
            match body[0]
            case 0x05 => body[1] as int + 256 * body[2] as int + 65536 * body[3] as int
            case 0x03 | 0x3a | 0x40 => body[1] as int + 256 * body[2] as int
            case 0x02 | 0x3f | 0x45 => body[1] as int + 256 * body[2] as int - if body[2] < 128 then 0 else 65536
            case _ => body[1]
  {
    ReadsFirst(body);
    FirstValue(body);
  }

  /** The name under which each object is reported and the scale of its value. */
  lemma ReportedAs(r: Reading)
    requires Valid(r)
    ensures ToItem(r) == match r.id
                         case 0x00 => Item("pid", r.raw as real)
                         case 0x01 => Item("battery", r.raw as real)
                         case 0x02 => Item("temperature", r.raw as real / 100.0)
                         case 0x03 => Item("humidity", r.raw as real / 100.0)
                         case 0x05 => Item("illuminance", r.raw as real / 100.0)
                         case 0x21 => Item("motion", r.raw as real)
                         case 0x2c => Item("vibration", r.raw as real)
                         case 0x2d => Item("window", r.raw as real)
                         case 0x2e => Item("humidity", r.raw as real)
                         case 0x3a => Item("button", r.raw as real)
                         case 0x3f => Item("rotation", r.raw as real / 10.0)
                         case 0x40 => Item("distance_mm", r.raw as real)
                         case _ => Item("temperature", r.raw as real / 10.0)
    ensures r.id in {0x00, 0x01, 0x02, 0x03, 0x05, 0x21, 0x2c, 0x2d, 0x2e, 0x3a, 0x3f, 0x40, 0x45}
  {
  }

  lemma OneReading(data: seq<byte>, r: Reading)
    requires data != [] && Plain(data[0]) && Parse(data[1..]) == [r]
    ensures Valid(r)
    ensures Decode(data) == Some(map["encryption" := Flag(false), "BTHome_version" := Num(2.0),
                                     ToItem(r).n := Num(ToItem(r).x)])
  {
    ParsedAreValid(data[1..]);
    assert [r][0] == r;
    NamesAvoidHeader(r);
    assert [] + [r] == [r];
    GroupAppend([], r);
    assert Group([]) == Header();
  }

  /** Signed objects on the radio: a packet with one temperature or rotation decodes to its value in
      hundredths or tenths, below zero exactly if the top bit of the second byte is set. */
  lemma SignedObjects(header: byte, id: byte, b0: byte, b1: byte)
    requires 64 <= header < 96 && header % 2 == 0 && id in {0x02, 0x3f, 0x45}
    ensures var raw := if b1 < 128 then b0 as int + 256 * b1 as int else b0 as int + 256 * b1 as int - 65536;
            var x := raw as real / if id == 0x02 then 100.0 else 10.0;
            && Decode([header, id, b0, b1]) ==
               Some(map["encryption" := Flag(false), "BTHome_version" := Num(2.0),
                        (if id == 0x3f then "rotation" else "temperature") := Num(x)])
            && (x < 0.0 <==> b1 >= 128)
  {
    var data := [header, id, b0, b1];
    var body := data[1..];
    assert body == [id, b0, b1] && body[3..] == [];
    FirstObject(body);
    FirstNumber(body);
    var r := Parse(body)[0];
    assert Parse(body) == [r] + Parse(body)[1..];
    OneReading(data, r);
    ReportedAs(r);
  }
}
