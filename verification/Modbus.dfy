/** The Modbus connection of base/modbus_connection.cpp: libmodbus contexts are allocated, connected,
    probed, freed and replaced. */
module Modbus {
  import opened Wrappers
  import opened Retry

  const CONNECT_TRIES := 5

  // ---------- libmodbus ----------

  /** A modbus_t: `connected` while its socket is open. */
  class Context {
    var connected: bool

    constructor ()
      ensures !connected
    {
      connected := false;
    }
  }

  /** The library with an account of the contexts it handed out. Its functions accept null, and
      otherwise demand a context that has not been freed. */
  class Library {
    ghost var live: set<Context>
    ghost var created: nat
    ghost var freed: nat

    ghost predicate Valid()
      reads this
    {
      created == freed + |live|
    }

    constructor ()
      ensures Valid() && created == 0 && freed == 0 && live == {}
    {
      live, created, freed := {}, 0, 0;
    }

    method NewTcp(allocates: bool) returns (c: Context?)
      requires Valid()
      modifies this
      ensures Valid() && freed == old(freed)
      ensures if allocates then c != null && fresh(c) && !c.connected && live == old(live) + {c}
              else c == null && live == old(live)
      ensures created == old(created) + if allocates then 1 else 0
    {
      if !allocates {
        return null;
      }
      var n := new Context();
      created, live := created + 1, live + {n};
      return n;
    }

    /** One or more attempts at modbus_connect, of which the last one returned `ok`. */
    method Connected(c: Context, ok: bool)
      requires c in live
      modifies c
      ensures c.connected == ok
    {
      c.connected := ok;
    }

    /** modbus_read_registers: -1 without an open socket. */
    method ReadRegisters(c: Context?, answers: bool) returns (rc: int)
      requires c == null || c in live
      ensures rc == -1 <==> c == null || !c.connected || !answers
    {
      rc := if c == null || !c.connected || !answers then -1 else 1;
    }

    method Close(c: Context?)
      requires c == null || c in live
      modifies c
    {
      if c != null {
        c.connected := false;
      }
    }

    method Free(c: Context?)
      requires Valid() && (c == null || c in live)
      modifies this
      ensures Valid() && created == old(created)
      ensures live == old(live) - {c} && freed == old(freed) + if c != null then 1 else 0
    {
      if c != null {
        live, freed := live - {c}, freed + 1;
      }
    }
  }

  // ---------- the connection as a state machine ----------

  datatype Held = Nothing | Unconnected | Open

  datatype State = State(ctx: Held, initialized: bool, created: nat, freed: nat)

  /** What one (re-)initialisation meets: whether a context can be allocated, and which of the
      connection attempts succeed. */
  datatype Network = Network(allocates: bool, connect: nat -> bool)

  ghost predicate Establishes(n: Network) {
    n.allocates && Succeeds(n.connect, CONNECT_TRIES)
  }

  datatype Status = OkStatus | AllocationFailed | ConnectionFailed | NotInitialized

  ghost function InitStatus(n: Network): Status {
    if !n.allocates then AllocationFailed else if Establishes(n) then OkStatus else ConnectionFailed
  }

  /** The context that Init leaves held. */
  ghost function InitHeld(n: Network): Held {
    if !n.allocates then Nothing else if Establishes(n) then Open else Unconnected
  }

  /** Init overwrites the held context, whatever it was. */
  ghost function AfterInit(s: State, n: Network): State {
    State(InitHeld(n),
          s.initialized || Establishes(n),
          s.created + if n.allocates then 1 else 0,
          s.freed)
  }

  predicate ProbeSucceeds(s: State, answers: bool) {
    s.ctx == Open && answers
  }

  /** Reinit frees the held context only when a probe is configured and fails. */
  ghost function AfterReinit(s: State, probed: bool, answers: bool, n: Network): State {
    if !probed || ProbeSucceeds(s, answers) then s
    else AfterInit(s.(freed := s.freed + if s.ctx == Nothing then 0 else 1), n)
  }

  /** Execute runs its callback. */
  ghost predicate CallbackRuns(s: State, probed: bool, answers: bool, n: Network) {
    if probed then ProbeSucceeds(s, answers) || Establishes(n) else s.initialized
  }

  class ModbusConnection {
    const lib: Library
    const initAddr: int
    var initialized: bool
    var ctx: Context?

    ghost predicate Valid()
      reads this, lib, ctx
    {
      && lib.Valid()
      && (ctx != null ==> ctx in lib.live)
      && (ctx != null && ctx.connected ==> initialized)
    }

    function Holds(): Held
      reads this, ctx
    {
      if ctx == null then Nothing else if ctx.connected then Open else Unconnected
    }

    ghost function Abs(): State
      reads this, lib, ctx
    {
      State(Holds(), initialized, lib.created, lib.freed)
    }

    constructor (lib: Library, initAddr: int)
      requires lib.Valid()
      ensures Valid() && this.lib == lib && this.initAddr == initAddr
      ensures Abs() == State(Nothing, false, lib.created, lib.freed)
    {
      this.lib, this.initAddr := lib, initAddr;
      initialized, ctx := false, null;
    }

    /** Whatever ctx_ holds -- after Reinit's free, a dangling pointer -- is not used, only overwritten. */
    method Init(n: Network) returns (st: Status)
      requires lib.Valid()
      modifies this, lib
      ensures Valid() && (ctx == null || fresh(ctx))
      ensures st == InitStatus(n)
      ensures !n.allocates ==> st == AllocationFailed && ctx == null
      ensures n.allocates ==>
                && ctx != null
                && (ctx.connected <==> exists i: nat :: i < 5 && n.connect(i))
                && st == if ctx.connected then OkStatus else ConnectionFailed
      ensures initialized <==> old(initialized) || st == OkStatus
      ensures Abs() == AfterInit(old(State(Nothing, initialized, lib.created, lib.freed)), n)
      ensures lib.live == old(lib.live) + if ctx == null then {} else {ctx}
    {
      ctx := lib.NewTcp(n.allocates);
      if ctx == null {
        return AllocationFailed;
      }
      var ok, _, _ := RetryWithBackoff(n.connect, CONNECT_TRIES);
      lib.Connected(ctx, ok);
      if ok {
        initialized := true;
        return OkStatus;
      }
      return ConnectionFailed;
    }

    method Reinit(answers: bool, n: Network) returns (st: Status)
      requires Valid()
      modifies this, lib, ctx
      ensures Valid() && (ctx == old(ctx) || ctx == null || fresh(ctx))
      ensures Abs() == old(AfterReinit(Abs(), initAddr >= 0, answers, n))
      ensures st == if initAddr < 0 || old(ProbeSucceeds(Abs(), answers)) then OkStatus else InitStatus(n)
      ensures initAddr < 0 || (old(ctx) != null && old(ctx.connected) && answers) ==>
                st == OkStatus && ctx == old(ctx) && initialized == old(initialized) && lib.created == old(lib.created)
      ensures initAddr >= 0 ==> (st == OkStatus <==> Abs().ctx == Open)
      ensures initAddr < 0 || old(ProbeSucceeds(Abs(), answers)) ==> ctx == old(ctx) && lib.live == old(lib.live)
    {
      if initAddr >= 0 {
        var rc := lib.ReadRegisters(ctx, answers);
        if rc == -1 {
          lib.Close(ctx);
          lib.Free(ctx);
          st := Init(n);
          return;
        }
      }
      return OkStatus;
    }

    /** `ran` tells whether the callback was run, on the context that is held afterwards; its own
        status is then the result, given as `callback`. */
    method Execute(answers: bool, n: Network, callback: Status) returns (st: Status, ran: bool)
      requires Valid()
      modifies this, lib, ctx
      ensures Valid() && (ctx == old(ctx) || ctx == null || fresh(ctx))
      ensures Abs() == old(AfterReinit(Abs(), initAddr >= 0, answers, n))
      ensures ran <==> old(CallbackRuns(Abs(), initAddr >= 0, answers, n))
      ensures initAddr < 0 ==> (ran <==> old(initialized))
      ensures initAddr >= 0 ==>
                (ran <==> || (old(ctx) != null && old(ctx.connected) && answers)
                          || (n.allocates && exists i: nat :: i < 5 && n.connect(i)))
      ensures ran && initAddr >= 0 ==> ctx != null && ctx in lib.live && ctx.connected
      ensures initAddr < 0 || old(ProbeSucceeds(Abs(), answers)) ==> ctx == old(ctx) && lib.live == old(lib.live)
      ensures ran ==> st == callback
      ensures !ran ==> st == if !initialized then NotInitialized else InitStatus(n)
      ensures !ran ==> st != OkStatus
    {
      var reinit := Reinit(answers, n);
      if !initialized {
        return NotInitialized, false;
      }
      if reinit != OkStatus {
        return reinit, false;
      }
      return callback, true;
    }

    /** The destructor. */
    method Destroy()
      requires Valid()
      modifies this, lib, ctx
      ensures lib.Valid() && ctx == null
      ensures lib.created == old(lib.created)
      ensures lib.freed == old(lib.freed + if ctx == null then 0 else 1)
    {
      lib.Close(ctx);
      lib.Free(ctx);
      ctx := null;
    }
  }

  // ---------- runs ----------

  /** A client call. */
  datatype Op = InitOp(n: Network) | ExecuteOp(answers: bool, n: Network)

  const START := State(Nothing, false, 0, 0)

  ghost function Step(s: State, probed: bool, op: Op): State {
    match op
    case InitOp(n) => AfterInit(s, n)
    case ExecuteOp(answers, n) => AfterReinit(s, probed, answers, n)
  }

  ghost function Run(s: State, probed: bool, ops: seq<Op>): State
    decreases ops
  {
    if ops == [] then s else Run(Step(s, probed, ops[0]), probed, ops[1..])
  }

  /** How often a client called Init while a context was held. */
  ghost function Overwritten(s: State, probed: bool, ops: seq<Op>): nat
    decreases ops
  {
    if ops == [] then 0
    else (if ops[0].InitOp? && s.ctx != Nothing then 1 else 0) + Overwritten(Step(s, probed, ops[0]), probed, ops[1..])
  }

  function Holding(s: State): nat {
    if s.ctx == Nothing then 0 else 1
  }

  /** Context accounting on every run: the contexts not yet freed are the held one and one for each
      Init that overwrote a held context. */
  lemma {:induction false} ContextsConserved(s: State, probed: bool, ops: seq<Op>)
    ensures var t := Run(s, probed, ops);
            t.created - t.freed == s.created - s.freed + Holding(t) - Holding(s) + Overwritten(s, probed, ops)
    decreases ops
  {
    if ops != [] {
      ContextsConserved(Step(s, probed, ops[0]), probed, ops[1..]);
    }
  }

  predicate NoInit(ops: seq<Op>) {
    forall i :: 0 <= i < |ops| ==> !ops[i].InitOp?
  }

  lemma {:induction false} NoInitNoLeak(s: State, probed: bool, ops: seq<Op>)
    requires NoInit(ops)
    ensures Overwritten(s, probed, ops) == 0
    decreases ops
  {
    if ops != [] {
      NoInitNoLeak(Step(s, probed, ops[0]), probed, ops[1..]);
    }
  }

  /** No leak exactly when no client Init finds a context held; so when the only Init, if any, is the
      first call. The header's claim that later Init calls do nothing does not hold. */
  lemma LeakFreeRuns(probed: bool, ops: seq<Op>)
    ensures var t := Run(START, probed, ops);
            t.created - t.freed == Holding(t) <==> Overwritten(START, probed, ops) == 0
    ensures NoInit(if ops == [] then [] else ops[1..]) ==>
              Run(START, probed, ops).created - Run(START, probed, ops).freed == Holding(Run(START, probed, ops))
  {
    ContextsConserved(START, probed, ops);
    if ops != [] && NoInit(ops[1..]) {
      NoInitNoLeak(Step(START, probed, ops[0]), probed, ops[1..]);
    }
  }

  lemma RunOfTwo(probed: bool, a: Op, b: Op)
    ensures Run(START, probed, [a, b]) == Step(Step(START, probed, a), probed, b)
  {
    var s := Step(START, probed, a);
    assert [a, b][1..] == [b];
    assert Run(s, probed, [b]) == Run(Step(s, probed, b), probed, []);
  }

  lemma SecondInitLeaks(probed: bool, n: Network)
    requires n.allocates
    ensures var t := Run(START, probed, [InitOp(n), InitOp(n)]);
            t.created - t.freed == Holding(t) + 1
  {
    RunOfTwo(probed, InitOp(n), InitOp(n));
  }

  /** In every reachable state an open context has been initialised. */
  lemma {:induction false} OpenIsInitialized(s: State, probed: bool, ops: seq<Op>)
    requires s.ctx == Open ==> s.initialized
    ensures Run(s, probed, ops).ctx == Open ==> Run(s, probed, ops).initialized
    decreases ops
  {
    if ops != [] {
      OpenIsInitialized(Step(s, probed, ops[0]), probed, ops[1..]);
    }
  }

  // ---------- the contexts that callbacks are given ----------

  /** The context handed to the callback of one call, if it runs one. */
  ghost function HandedBy(s: State, probed: bool, op: Op): seq<Held> {
    if op.ExecuteOp? && CallbackRuns(s, probed, op.answers, op.n) then [Step(s, probed, op).ctx] else []
  }

  /** The contexts handed to the callbacks of a run. */
  ghost function Handed(s: State, probed: bool, ops: seq<Op>): seq<Held>
    decreases ops
  {
    if ops == [] then []
    else HandedBy(s, probed, ops[0]) + Handed(Step(s, probed, ops[0]), probed, ops[1..])
  }

  predicate AllOpen(hs: seq<Held>) {
    forall i :: 0 <= i < |hs| ==> hs[i] == Open
  }

  /** With a probe every callback of every run is given an open context. */
  lemma {:induction false} ProbedCallbacksSafe(s: State, ops: seq<Op>)
    ensures AllOpen(Handed(s, true, ops))
    decreases ops
  {
    if ops != [] {
      ProbedCallbacksSafe(Step(s, true, ops[0]), ops[1..]);
    }
  }

  /** The network of the last Init of a run. */
  ghost function LastInit(ops: seq<Op>): Option<Network> {
    if ops == [] then None
    else if LastInit(ops[1..]).Some? || !ops[0].InitOp? then LastInit(ops[1..])
    else Some(ops[0].n)
  }

  /** Some Init of the run established the connection. */
  ghost predicate EverEstablished(ops: seq<Op>) {
    exists i :: 0 <= i < |ops| && ops[i].InitOp? && Establishes(ops[i].n)
  }

  /** If any Init of the run established the connection, the last one did. */
  ghost predicate LastInitHolds(ops: seq<Op>) {
    EverEstablished(ops) ==> LastInit(ops).Some? && Establishes(LastInit(ops).value)
  }

  lemma EstablishedStep(ops: seq<Op>)
    requires ops != []
    ensures EverEstablished(ops) <==> (ops[0].InitOp? && Establishes(ops[0].n)) || EverEstablished(ops[1..])
  {
    assert forall i :: 0 < i < |ops| ==> ops[i] == ops[1..][i - 1];
    assert forall i :: 0 <= i < |ops| - 1 ==> ops[1..][i] == ops[i + 1];
  }

  /** Without a probe the flag remembers whether any Init established the connection, but the context is
      what the last Init left. */
  lemma {:induction false} UnprobedRun(s: State, ops: seq<Op>)
    ensures var t := Run(s, false, ops);
            && (t.initialized <==> s.initialized || EverEstablished(ops))
            && t.ctx == if LastInit(ops).Some? then InitHeld(LastInit(ops).value) else s.ctx
    decreases ops
  {
    if ops != [] {
      UnprobedRun(Step(s, false, ops[0]), ops[1..]);
      EstablishedStep(ops);
    }
  }

  /** Without a probe, a connection that counts as initialised is open exactly if the last Init
      established it, once any has. */
  lemma UnprobedSafety(ops: seq<Op>)
    ensures var t := Run(START, false, ops);
            (t.initialized ==> t.ctx == Open) <==> LastInitHolds(ops)
  {
    UnprobedRun(START, ops);
  }

  lemma AllOpenConcat(a: seq<Held>, b: seq<Held>)
    ensures AllOpen(a + b) <==> AllOpen(a) && AllOpen(b)
  {
    assert forall i :: 0 <= i < |b| ==> (a + b)[|a| + i] == b[i];
    assert forall i :: 0 <= i < |a| ==> (a + b)[i] == a[i];
  }

  /** A run's callbacks are given open contexts exactly if that holds at each of its Execute calls. */
  lemma {:induction false} HandedAtEach(s: State, probed: bool, ops: seq<Op>)
    ensures AllOpen(Handed(s, probed, ops)) <==> forall k :: 0 <= k < |ops| ==> SafeAt(s, probed, ops, k)
    decreases ops
  {
    if ops != [] {
      var t, rest := Step(s, probed, ops[0]), ops[1..];
      HandedAtEach(t, probed, rest);
      AllOpenConcat(HandedBy(s, probed, ops[0]), Handed(t, probed, rest));
      forall k: nat | k < |rest|
        ensures SafeAt(t, probed, rest, k) <==> SafeAt(s, probed, ops, k + 1)
      {
        assert ops[..k + 1][1..] == rest[..k] && ops[..k + 1][0] == ops[0];
      }
      assert ops[..0] == [] && SafeAt(s, probed, ops, 0) == AllOpen(HandedBy(s, probed, ops[0]));
      assert forall k :: 0 < k < |ops| ==> (SafeAt(s, probed, ops, k) <==> SafeAt(t, probed, rest, k - 1));
    }
  }

  /** If call k runs a callback, it gives it an open context. */
  ghost predicate SafeAt(s: State, probed: bool, ops: seq<Op>, k: nat)
    requires k < |ops|
  {
    AllOpen(HandedBy(Run(s, probed, ops[..k]), probed, ops[k]))
  }

  /** Without a probe all callbacks of a run are given open contexts if and only if at each Execute the
      last Init established the connection, once any has. */
  lemma UnprobedCallbacksSafe(ops: seq<Op>)
    ensures AllOpen(Handed(START, false, ops)) <==>
              forall k :: 0 <= k < |ops| && ops[k].ExecuteOp? ==> LastInitHolds(ops[..k])
  {
    HandedAtEach(START, false, ops);
    forall k | 0 <= k < |ops| && ops[k].ExecuteOp?
      ensures SafeAt(START, false, ops, k) <==> LastInitHolds(ops[..k])
    {
      UnprobedSafety(ops[..k]);
      var hs := HandedBy(Run(START, false, ops[..k]), false, ops[k]);
      assert hs == [] || hs[0] == Run(START, false, ops[..k]).ctx;
    }
  }

  /** After a second Init that fails, callbacks still run, on no context or on one without a connection. */
  lemma UnprobedSecondInit(n: Network, failing: Network, answers: bool)
    requires Establishes(n) && !Establishes(failing)
    ensures Handed(START, false, [InitOp(n), InitOp(failing), ExecuteOp(answers, failing)])
            == [if failing.allocates then Unconnected else Nothing]
  {
    var ops := [InitOp(n), InitOp(failing), ExecuteOp(answers, failing)];
    var s := Step(START, false, ops[0]);
    var t := Step(s, false, ops[1]);
    assert ops[1..][1..] == [ops[2]];
    assert Handed(t, false, [ops[2]]) == [t.ctx] + Handed(t, false, []);
    assert Handed(s, false, ops[1..]) == [] + Handed(t, false, ops[1..][1..]);
  }

  /** With a probe, one Execute re-establishes the connection from any reachable state -- never
      initialised, lost or failed -- when one of five connection attempts succeeds. */
  lemma Reestablishes(s: State, answers: bool, n: Network)
    requires s.ctx == Open ==> s.initialized
    ensures var t := AfterReinit(s, true, answers, n);
            && (t.ctx == Open <==> ProbeSucceeds(s, answers) || Establishes(n))
            && (t.ctx == Open ==> t.initialized)
            && (s.ctx != Open && Establishes(n) ==> t.ctx == Open && t.created == s.created + 1)
  {
  }

  // ---------- connections through their whole life ----------

  /** Makes one client call; `handed` is the context that a callback was given, if one ran. */
  method Call(c: ModbusConnection, op: Op) returns (handed: seq<Held>)
    requires c.Valid()
    modifies c, c.lib, c.ctx
    ensures c.Valid() && (c.ctx == old(c.ctx) || c.ctx == null || fresh(c.ctx))
    ensures c.Abs() == old(Step(c.Abs(), c.initAddr >= 0, op))
    ensures handed == old(HandedBy(c.Abs(), c.initAddr >= 0, op))
  {
    match op {
      case InitOp(n) =>
        var _ := c.Init(n);
        return [];
      case ExecuteOp(answers, n) =>
        var _, ran := c.Execute(answers, n, OkStatus);
        return if ran then [c.Holds()] else [];
    }
  }

  /** Makes the client calls one after another; `handed` are the contexts that callbacks were given. */
  method Drive(c: ModbusConnection, ops: seq<Op>) returns (handed: seq<Held>)
    requires c.Valid()
    modifies c, c.lib, c.ctx
    ensures c.Valid() && (c.ctx == old(c.ctx) || c.ctx == null || fresh(c.ctx))
    ensures c.Abs() == old(Run(c.Abs(), c.initAddr >= 0, ops))
    ensures handed == old(Handed(c.Abs(), c.initAddr >= 0, ops))
    decreases ops
  {
    if ops == [] {
      return [];
    }
    var first := Call(c, ops[0]);
    var rest := Drive(c, ops[1..]);
    return first + rest;
  }

  /** From construction to destruction: what is left unfreed are the overwritten contexts; nothing, if
      the only client Init is the first call. */
  method WholeLife(initAddr: int, ops: seq<Op>) returns (lib: Library)
    ensures fresh(lib) && lib.Valid()
    ensures |lib.live| == lib.created - lib.freed == Overwritten(START, initAddr >= 0, ops)
    ensures NoInit(if ops == [] then [] else ops[1..]) ==> lib.live == {}
  {
    lib := new Library();
    var c := new ModbusConnection(lib, initAddr);
    var _ := Drive(c, ops);
    c.Destroy();
    ContextsConserved(START, initAddr >= 0, ops);
    if NoInit(if ops == [] then [] else ops[1..]) {
      LeakFreeRuns(initAddr >= 0, ops);
    }
  }
}
