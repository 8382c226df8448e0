/** Retrying with exponential backoff (base/utility.cpp). */
module Retry {
  import opened Bits

  /** 100 ms * 2^retries. */
  function Delay(retries: nat): nat {
    100 * Pow2(retries)
  }

  function Sum(xs: seq<int>): int {
    if xs == [] then 0 else Sum(xs[..|xs| - 1]) + xs[|xs| - 1]
  }

  ghost predicate Succeeds(outcome: nat -> bool, times: int) {
    exists i: nat :: i < times && outcome(i)
  }

  /** `outcome(i)` is whether call number i of the method returns OK. Returns the last status, the
      number of calls, and the delays slept, in milliseconds. The status is OK before the first call. */
  method RetryWithBackoff(outcome: nat -> bool, times: int) returns (ok: bool, calls: nat, slept: seq<int>)
    ensures ok <==> times <= 0 || Succeeds(outcome, times)
    ensures ok ==> if times <= 0 then calls == 0 else 0 < calls <= times && outcome(calls - 1)
    ensures !ok ==> calls == times
    ensures forall i: nat :: i < calls - (if ok then 1 else 0) ==> !outcome(i)
    ensures |slept| == calls - (if ok && calls > 0 then 1 else 0)
    ensures forall i :: 0 <= i < |slept| ==> slept[i] == Delay(i) == 100 * Pow2(i)
    ensures Sum(slept) == 100 * (Pow2(|slept|) - 1)
  {
    ok, calls, slept := true, 0, [];
    var retries := 0;
    while retries < times
      invariant 0 <= retries && (times >= 0 ==> retries <= times) && (times < 0 ==> retries == 0)
      invariant calls == retries == |slept|
      invariant ok <==> retries == 0
      invariant forall i: nat :: i < retries ==> !outcome(i)
      invariant forall i :: 0 <= i < |slept| ==> slept[i] == Delay(i)
      invariant Sum(slept) == 100 * (Pow2(|slept|) - 1)
    {
      ok := outcome(retries);
      calls := calls + 1;
      if ok {
        return;
      }
      var longer := slept + [Delay(retries)];
      assert longer[..|slept|] == slept;
      slept := longer;
      retries := retries + 1;
    }
  }

  /** The delay arithmetic stays within a 32-bit int exactly up to 25 failures. */
  lemma DelaysFit(failures: nat)
    ensures (forall i: nat :: i < failures ==> Delay(i) < 0x8000_0000) <==> failures <= 25
  {
    Pow2Values();
    if failures <= 25 {
      forall i: nat | i < failures
        ensures Delay(i) < 0x8000_0000
      {
        Pow2Mono(i, 24);
      }
    } else {
      assert Pow2(25) == 2 * Pow2(24);
      assert Delay(25) >= 0x8000_0000;
    }
  }
}
