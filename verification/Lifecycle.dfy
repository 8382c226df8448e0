/** Starting and stopping the Shelly MQTT client (shelly/shelly_module.cpp, Start and Abort). */
module Lifecycle {

  /** A mosquitto client. */
  class Mosquitto {
    constructor () {}
  }

  /** What the library answers during one Start. */
  datatype Answers = Answers(creates: bool, connects: bool, starts: bool)

  /** The module's state at a call boundary, with counts of what the library was asked to do:
      clients created and destroyed, initialisations and cleanups. */
  datatype State = State(running: bool, client: bool, created: nat, destroyed: nat, inits: nat, cleanups: nat)

  const INITIAL := State(false, false, 0, 0, 0, 0)

  function Started(s: State, a: Answers): State {
    if s.running then s
    else if !a.creates then s.(inits := s.inits + 1)
    else if !a.connects || !a.starts then
      s.(created := s.created + 1, destroyed := s.destroyed + 1, inits := s.inits + 1, cleanups := s.cleanups + 1)
    else s.(running := true, client := true, created := s.created + 1, inits := s.inits + 1)
  }

  function Aborted(s: State): State {
    if !s.running then s
    else s.(running := false, client := false,
            destroyed := s.destroyed + if s.client then 1 else 0, cleanups := s.cleanups + 1)
  }

  class ShellyClient {
    var running: bool
    var mqtt: Mosquitto?
    ghost var created: nat
    ghost var destroyed: nat
    ghost var inits: nat
    ghost var cleanups: nat

    ghost function Abs(): State
      reads this
    {
      State(running, mqtt != null, created, destroyed, inits, cleanups)
    }

    ghost predicate Valid()
      reads this
    {
      mqtt != null <==> running
    }

    constructor ()
      ensures Valid() && Abs() == INITIAL
    {
      running, mqtt := false, null;
      created, destroyed, inits, cleanups := 0, 0, 0, 0;
    }

    method Destroy()
      requires mqtt != null
      modifies this`mqtt, this`destroyed
      ensures mqtt == null && destroyed == old(destroyed) + 1
    {
      destroyed := destroyed + 1;
      mqtt := null;
    }

    method Start(a: Answers)
      requires Valid()
      modifies this
      ensures Valid() && Abs() == Started(old(Abs()), a)
      ensures running <==> old(running) || (a.creates && a.connects && a.starts)
      ensures old(running) ==> mqtt == old(mqtt) && created == old(created) && inits == old(inits)
      ensures !old(running) ==> inits == old(inits) + 1 && created == old(created) + if a.creates then 1 else 0
      ensures destroyed - old(destroyed) == if !old(running) && a.creates && !(a.connects && a.starts) then 1 else 0
      ensures cleanups - old(cleanups) == destroyed - old(destroyed)
    {
      var was := running;
      running := true;
      if was {
        return;
      }
      inits := inits + 1;
      if !a.creates {
        running := false;
        return;
      }
      mqtt := new Mosquitto();
      created := created + 1;
      if !a.connects {
        Destroy();
        running := false;
        cleanups := cleanups + 1;
        return;
      }
      if !a.starts {
        Destroy();
        running := false;
        cleanups := cleanups + 1;
        return;
      }
    }

    method Abort()
      requires Valid()
      modifies this
      ensures Valid() && Abs() == Aborted(old(Abs()))
      ensures !running && mqtt == null && created == old(created) && inits == old(inits)
      ensures destroyed == old(destroyed) + if old(running) then 1 else 0
      ensures cleanups == old(cleanups) + if old(running) then 1 else 0
    {
      var was := running;
      running := false;
      if !was {
        return;
      }
      if mqtt != null {
        Destroy();
      }
      cleanups := cleanups + 1;
    }
  }

  // ---------- runs ----------

  datatype Op = StartOp(a: Answers) | AbortOp

  function Step(s: State, op: Op): State {
    match op
    case StartOp(a) => Started(s, a)
    case AbortOp => Aborted(s)
  }

  function Run(ops: seq<Op>): State {
    if ops == [] then INITIAL else Step(Run(ops[..|ops| - 1]), ops[|ops| - 1])
  }

  /** The Start calls that found the module stopped and could not create a client. */
  function FailedCreations(ops: seq<Op>): nat {
    if ops == [] then 0
    else
      var earlier, last := ops[..|ops| - 1], ops[|ops| - 1];
      FailedCreations(earlier) + if last.StartOp? && !Run(earlier).running && !last.a.creates then 1 else 0
  }

  function One(b: bool): nat {
    if b then 1 else 0
  }

  /** Over every run, whatever fails: there is a client exactly while the module runs, it is the only
      one not destroyed, and the library initialisations not cleaned up are one for it and one for each
      failed creation, which the source never cleans up. */
  lemma {:induction false} ClientsConserved(ops: seq<Op>)
    ensures var s := Run(ops);
            && (s.client <==> s.running)
            && s.created - s.destroyed == One(s.running)
            && s.inits - s.cleanups == One(s.running) + FailedCreations(ops)
  {
    if ops != [] {
      ClientsConserved(ops[..|ops| - 1]);
    }
  }

  /** After Abort nothing is left but the initialisations of failed creations, and calling it again
      changes nothing. */
  lemma AbortReleases(ops: seq<Op>)
    ensures var s := Run(ops + [AbortOp]);
            && !s.running && !s.client && s.created == s.destroyed
            && s.inits - s.cleanups == FailedCreations(ops)
            && Aborted(s) == s
  {
    ClientsConserved(ops);
    assert (ops + [AbortOp])[..|ops|] == ops;
  }

  lemma {:induction false} NeverCreated(n: nat, a: Answers)
    requires !a.creates
    ensures var ops := seq(n, i => StartOp(a));
            !Run(ops).running && FailedCreations(ops) == n
  {
    if n > 0 {
      NeverCreated(n - 1, a);
      assert seq(n, i => StartOp(a))[..n - 1] == seq(n - 1, i => StartOp(a));
    }
  }

  /** Each Start that cannot create a client leaves one more initialisation behind, which no Abort cleans
      up. */
  lemma FailedCreationsAddUp(n: nat, a: Answers)
    requires !a.creates
    ensures var ops := seq(n, i => StartOp(a)) + [AbortOp];
            Run(ops).inits - Run(ops).cleanups == n == FailedCreations(ops)
  {
    var starts := seq(n, i => StartOp(a));
    NeverCreated(n, a);
    AbortReleases(starts);
    assert (starts + [AbortOp])[..n] == starts;
  }
}
