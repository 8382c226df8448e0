/** The calls that the program makes on its metrics object. */
module MetricCalls {

  datatype Call =
    | QueryResult(service: string, ok: bool)
    | DeviceUpdate(service: string, device: string)

  function Count(calls: seq<Call>, c: Call): nat {
    if calls == [] then 0 else (if calls[0] == c then 1 else 0) + Count(calls[1..], c)
  }

  lemma {:induction false} CountConcat(xs: seq<Call>, ys: seq<Call>, c: Call)
    ensures Count(xs + ys, c) == Count(xs, c) + Count(ys, c)
  {
    if xs == [] {
      assert xs + ys == ys;
    } else {
      assert (xs + ys)[1..] == xs[1..] + ys;
      CountConcat(xs[1..], ys, c);
    }
  }

  /** It is the number of places at which the call stands in the log. */
  lemma {:induction false} CountIsMultiplicity(calls: seq<Call>, c: Call)
    ensures Count(calls, c) == multiset(calls)[c]
  {
    if calls != [] {
      CountIsMultiplicity(calls[1..], c);
      assert calls == [calls[0]] + calls[1..];
    }
  }
}
