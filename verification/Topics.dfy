/** Splitting MQTT topics at their slashes (shelly/shelly_module.cpp). */
module Topics {

  /** absl::StrSplit(topic, '/'). */
  function Split(topic: string): (parts: seq<string>)
    ensures |parts| >= 1
  {
    if topic == "" then [""]
    else
      var rest := Split(topic[1..]);
      if topic[0] == '/' then [""] + rest
      else [[topic[0]] + rest[0]] + rest[1..]
  }

  function Join(parts: seq<string>): string
    requires |parts| >= 1
  {
    if |parts| == 1 then parts[0] else parts[0] + "/" + Join(parts[1..])
  }

  predicate NoSlash(s: string) {
    forall i :: 0 <= i < |s| ==> s[i] != '/'
  }

  lemma {:induction false} SplitWord(w: string)
    requires NoSlash(w)
    ensures Split(w) == [w]
  {
    if w != "" {
      SplitWord(w[1..]);
      assert [w[0]] + w[1..] == w;
    }
  }

  lemma {:induction false} SplitFirst(w: string, rest: string)
    requires NoSlash(w)
    ensures Split(w + "/" + rest) == [w] + Split(rest)
  {
    var t := w + "/" + rest;
    if w == "" {
      assert t[1..] == rest;
    } else {
      assert t[1..] == w[1..] + "/" + rest;
      SplitFirst(w[1..], rest);
      assert [w[0]] + w[1..] == w;
    }
  }

  /** Splitting is the inverse of joining slash-free parts. */
  lemma {:induction false} SplitJoin(parts: seq<string>)
    requires |parts| >= 1 && forall i :: 0 <= i < |parts| ==> NoSlash(parts[i])
    ensures Split(Join(parts)) == parts
  {
    if |parts| == 1 {
      SplitWord(parts[0]);
    } else {
      SplitJoin(parts[1..]);
      SplitFirst(parts[0], Join(parts[1..]));
    }
  }

  /** The device name the module derives from a topic. */
  function DeviceName(topic: string): string {
    var dsts := Split(topic);
    if |dsts| > 2 then dsts[1] + "-" + dsts[2] else topic
  }

  lemma EmptyDeviceName(topic: string)
    ensures DeviceName(topic) == "" <==> topic == ""
  {
  }

  /** The derived name is the second and third part of the topic, or the whole topic if it has fewer. */
  lemma DeviceNameOfParts(a: string, b: string, c: string, rest: string)
    requires NoSlash(a) && NoSlash(b) && NoSlash(c)
    ensures DeviceName(a) == a
    ensures DeviceName(a + "/" + b) == a + "/" + b
    ensures DeviceName(a + "/" + (b + "/" + c)) == b + "-" + c
    ensures DeviceName(a + "/" + (b + "/" + (c + "/" + rest))) == b + "-" + c
  {
    SplitWord(a);
    SplitFirst(a, b);
    SplitWord(b);
    SplitFirst(a, b + "/" + c);
    SplitFirst(b, c);
    SplitWord(c);
    SplitFirst(a, b + "/" + (c + "/" + rest));
    SplitFirst(b, c + "/" + rest);
    SplitFirst(c, rest);
  }
}
