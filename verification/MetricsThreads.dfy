/** Any interleaving of threads that record metrics. A query-result call is two steps -- the region
    under the mutex, then the increment through the returned pointer -- and a device update is one. */
module MetricsThreads {
  import opened MetricCalls
  import opened Metrics

  /** One atomic step of a thread: enter a query-result call, complete the call entered, or make a
      device update. */
  datatype Event =
    | Begin(thread: nat, service: string, ok: bool)
    | Finish(thread: nat)
    | Device(thread: nat, service: string, device: string)

  /** The calls that threads are inside of after a step. A step that a thread cannot make -- beginning a
      call inside a call, finishing one it has not begun -- does not happen. */
  function After(inside: map<nat, Call>, e: Event): map<nat, Call> {
    match e
    case Begin(t, s, ok) => if t in inside then inside else inside[t := QueryResult(s, ok)]
    case Finish(t) => inside - {t}
    case Device(_, _, _) => inside
  }

  /** The call, if any, that a step completes. */
  function Completes(inside: map<nat, Call>, e: Event): seq<Call> {
    match e
    case Begin(_, _, _) => []
    case Finish(t) => if t in inside then [inside[t]] else []
    case Device(t, s, d) => if t in inside then [] else [DeviceUpdate(s, d)]
  }

  function Completed(schedule: seq<Event>, inside: map<nat, Call>): seq<Call>
    decreases schedule
  {
    if schedule == [] then []
    else Completes(inside, schedule[0]) + Completed(schedule[1..], After(inside, schedule[0]))
  }

  /** Every thread inside a call holds the pointers of the call's service. */
  ghost predicate HoldsCounters(mx: WastlernetMetrics, inside: map<nat, Call>, held: map<nat, QueryChildren>)
    reads mx, mx.queries
  {
    && held.Keys == inside.Keys
    && forall t :: t in held ==> inside[t].QueryResult? && mx.Registered(inside[t].service, held[t])
  }

  lemma HoldsOneMore(mx: WastlernetMetrics, inside: map<nat, Call>, held: map<nat, QueryChildren>,
                     t: nat, s: string, ok: bool, c: QueryChildren)
    requires HoldsCounters(mx, inside, held) && mx.Registered(s, c)
    ensures HoldsCounters(mx, inside[t := QueryResult(s, ok)], held[t := c])
  {
  }

  method Enter(mx: WastlernetMetrics, t: nat, s: string, ok: bool,
               inside: map<nat, Call>, held: map<nat, QueryChildren>)
    returns (held': map<nat, QueryChildren>)
    requires mx.Valid() && HoldsCounters(mx, inside, held)
    modifies mx`byService, mx.queries
    ensures mx.Valid() && HoldsCounters(mx, inside[t := QueryResult(s, ok)], held')
    ensures fresh(mx.Counters() - old(mx.Counters()))
  {
    var c := mx.GetOrCreateChildren(s);
    assert HoldsCounters(mx, inside, held);
    held' := held[t := c];
    HoldsOneMore(mx, inside, held, t, s, ok, c);
  }

  method Leave(mx: WastlernetMetrics, t: nat, inside: map<nat, Call>, held: map<nat, QueryChildren>)
    requires mx.Valid() && HoldsCounters(mx, inside, held) && t in inside
    modifies mx`calls, mx`tally, mx.Counters()
    ensures mx.Valid() && HoldsCounters(mx, inside - {t}, held - {t})
    ensures mx.calls == old(mx.calls) + [inside[t]]
    ensures mx.Counters() == old(mx.Counters())
  {
    mx.Complete(inside[t].service, inside[t].ok, held[t]);
  }

  method RunStep(mx: WastlernetMetrics, e: Event, inside: map<nat, Call>, held: map<nat, QueryChildren>)
    returns (inside': map<nat, Call>, held': map<nat, QueryChildren>)
    requires mx.Valid() && HoldsCounters(mx, inside, held)
    modifies mx, mx.queries, mx.devices, mx.Counters()
    ensures mx.Valid() && HoldsCounters(mx, inside', held')
    ensures inside' == After(inside, e)
    ensures mx.calls == old(mx.calls) + Completes(inside, e)
    ensures fresh(mx.Counters() - old(mx.Counters()))
  {
    inside', held' := inside, held;
    match e {
      case Begin(t, s, ok) =>
        if t !in inside {
          held' := Enter(mx, t, s, ok, inside, held);
          inside' := inside[t := QueryResult(s, ok)];
        }
      case Finish(t) =>
        if t in inside {
          Leave(mx, t, inside, held);
          inside', held' := inside - {t}, held - {t};
        }
      case Device(t, s, d) =>
        if t !in inside {
          mx.RecordDeviceUpdate(s, d);
        }
    }
  }

  lemma CompletedFirst(schedule: seq<Event>, inside: map<nat, Call>, before: seq<Call>)
    requires schedule != []
    ensures (before + Completes(inside, schedule[0])) + Completed(schedule[1..], After(inside, schedule[0]))
            == before + Completed(schedule, inside)
  {
  }

  /** Whatever the schedule, the log gains exactly the completed calls and every counter agrees with
      the log: no increment is lost or goes to a stale counter. */
  method RunThreads(mx: WastlernetMetrics, schedule: seq<Event>, inside: map<nat, Call>, held: map<nat, QueryChildren>)
    requires mx.Valid() && HoldsCounters(mx, inside, held)
    modifies mx, mx.queries, mx.devices, mx.Counters()
    ensures mx.Valid()
    ensures mx.calls == old(mx.calls) + Completed(schedule, inside)
    decreases schedule
  {
    if schedule != [] {
      CompletedFirst(schedule, inside, mx.calls);
      var inside', held' := RunStep(mx, schedule[0], inside, held);
      RunThreads(mx, schedule[1..], inside', held');
    }
  }

  /** After any schedule from a fresh object: each query counter equals the number of completed calls
      for its service and result; and if the services of device updates are separated, in particular
      if none contains a bar, each device counter equals the number of completed updates for its
      service and device. */
  method RunFromStart(schedule: seq<Event>, services: set<string>) returns (mx: WastlernetMetrics)
    requires Uses(Completed(schedule, map[]), services)
    ensures fresh(mx)
    ensures forall s, ok ::
              Shown(mx.queries, QueryResult(s, ok)) == Count(Completed(schedule, map[]), QueryResult(s, ok))
    ensures Separated(services) ==>
              forall s, d :: s in services ==>
                Shown(mx.devices, DeviceUpdate(s, d)) == Count(Completed(schedule, map[]), DeviceUpdate(s, d))
  {
    mx := new WastlernetMetrics();
    RunThreads(mx, schedule, map[], map[]);
    mx.CountersShown();
    assert mx.calls == Completed(schedule, map[]);
    if Separated(services) {
      DeviceCountersExact(services);
    }
  }

  // ---------- programs ----------

  /** The steps of a thread that makes these calls one after another. */
  function StepsOf(thread: nat, program: seq<Call>): seq<Event> {
    if program == [] then []
    else
      (match program[0]
       case QueryResult(s, ok) => [Begin(thread, s, ok), Finish(thread)]
       case DeviceUpdate(s, d) => [Device(thread, s, d)])
      + StepsOf(thread, program[1..])
  }

  /** The steps of one thread in a schedule. */
  function Projection(schedule: seq<Event>, thread: nat): seq<Event> {
    if schedule == [] then []
    else (if schedule[0].thread == thread then [schedule[0]] else []) + Projection(schedule[1..], thread)
  }

  /** The schedule interleaves the programs of threads 0, 1, ...: it has no other steps, and those of each
      thread in the order of its program. */
  ghost predicate Interleaves(schedule: seq<Event>, programs: seq<seq<Call>>) {
    && (forall i :: 0 <= i < |schedule| ==> schedule[i].thread < |programs|)
    && forall t: nat :: t < |programs| ==> Projection(schedule, t) == StepsOf(t, programs[t])
  }

  function SumBelow(n: nat, f: nat -> nat): nat {
    if n == 0 then 0 else SumBelow(n - 1, f) + f(n - 1)
  }

  lemma {:induction false} SumsEqual(n: nat, f: nat -> nat, g: nat -> nat)
    requires forall t: nat :: t < n ==> f(t) == g(t)
    ensures SumBelow(n, f) == SumBelow(n, g)
  {
    if n > 0 {
      SumsEqual(n - 1, f, g);
    }
  }

  /** How often a call stands in the programs. */
  function InPrograms(programs: seq<seq<Call>>, c: Call): nat {
    SumBelow(|programs|, (t: nat) => if t < |programs| then multiset(programs[t])[c] else 0)
  }

  /** The completed calls that one thread made. */
  function CompletedBy(schedule: seq<Event>, inside: map<nat, Call>, thread: nat): seq<Call>
    decreases schedule
  {
    if schedule == [] then []
    else (if schedule[0].thread == thread then Completes(inside, schedule[0]) else [])
         + CompletedBy(schedule[1..], After(inside, schedule[0]), thread)
  }

  lemma ProjectionTail(schedule: seq<Event>, thread: nat)
    requires schedule != [] && schedule[0].thread == thread
    ensures Projection(schedule, thread) != [] && Projection(schedule, thread)[0] == schedule[0]
    ensures Projection(schedule, thread)[1..] == Projection(schedule[1..], thread)
  {
  }

  lemma StepsTail(thread: nat, program: seq<Call>)
    ensures StepsOf(thread, program) != [] <==> program != []
    ensures program != [] ==>
              var first, tail := StepsOf(thread, program)[0], StepsOf(thread, program)[1..];
              match program[0]
              case QueryResult(s, ok) =>
                first == Begin(thread, s, ok) && tail == [Finish(thread)] + StepsOf(thread, program[1..])
              case DeviceUpdate(s, d) => first == Device(thread, s, d) && tail == StepsOf(thread, program[1..])
  {
  }

  /** What is left of a thread's schedule are the steps of the calls it has yet to complete, the first of
      which it may be inside of. */
  predicate OnTrack(schedule: seq<Event>, inside: map<nat, Call>, thread: nat, program: seq<Call>) {
    if thread in inside then
      && program != [] && inside[thread] == program[0]
      && Projection(schedule, thread) == [Finish(thread)] + StepsOf(thread, program[1..])
    else Projection(schedule, thread) == StepsOf(thread, program)
  }

  lemma OwnStep(schedule: seq<Event>, inside: map<nat, Call>, thread: nat, program: seq<Call>)
    returns (left: seq<Call>)
    requires schedule != [] && schedule[0].thread == thread && OnTrack(schedule, inside, thread, program)
    ensures OnTrack(schedule[1..], After(inside, schedule[0]), thread, left)
    ensures program == Completes(inside, schedule[0]) + left
  {
    ProjectionTail(schedule, thread);
    if thread in inside {
      left := program[1..];
      assert ([Finish(thread)] + StepsOf(thread, left))[1..] == StepsOf(thread, left);
    } else {
      StepsTail(thread, program);
      left := if schedule[0].Begin? then program else program[1..];
    }
  }

  lemma OthersStep(schedule: seq<Event>, inside: map<nat, Call>, thread: nat, program: seq<Call>)
    requires schedule != [] && schedule[0].thread != thread && OnTrack(schedule, inside, thread, program)
    ensures OnTrack(schedule[1..], After(inside, schedule[0]), thread, program)
  {
    assert Projection(schedule, thread) == Projection(schedule[1..], thread);
  }

  /** A thread that follows a program completes exactly its calls, whatever the others do. */
  lemma {:induction false} CompletesProgram(schedule: seq<Event>, inside: map<nat, Call>, thread: nat,
                                            program: seq<Call>)
    requires OnTrack(schedule, inside, thread, program)
    ensures CompletedBy(schedule, inside, thread) == program
    decreases schedule
  {
    if schedule == [] {
      StepsTail(thread, program);
    } else if schedule[0].thread == thread {
      var left := OwnStep(schedule, inside, thread, program);
      CompletesProgram(schedule[1..], After(inside, schedule[0]), thread, left);
    } else {
      OthersStep(schedule, inside, thread, program);
      CompletesProgram(schedule[1..], After(inside, schedule[0]), thread, program);
    }
  }

  /** How many of the completed calls each thread made. */
  function CountBy(schedule: seq<Event>, inside: map<nat, Call>, c: Call): nat -> nat {
    (t: nat) => Count(CompletedBy(schedule, inside, t), c)
  }

  lemma CountByStep(schedule: seq<Event>, inside: map<nat, Call>, c: Call, t: nat)
    requires schedule != []
    ensures CountBy(schedule, inside, c)(t) ==
            CountBy(schedule[1..], After(inside, schedule[0]), c)(t)
            + if schedule[0].thread == t then Count(Completes(inside, schedule[0]), c) else 0
  {
    var own := if schedule[0].thread == t then Completes(inside, schedule[0]) else [];
    CountConcat(own, CompletedBy(schedule[1..], After(inside, schedule[0]), t), c);
  }

  /** Two counts that differ in one thread. */
  lemma {:induction false} SumsDiffer(n: nat, f: nat -> nat, g: nat -> nat, thread: nat, more: nat)
    requires forall t: nat :: t < n ==> f(t) == g(t) + if t == thread then more else 0
    ensures SumBelow(n, f) == SumBelow(n, g) + if thread < n then more else 0
  {
    if n > 0 {
      SumsDiffer(n - 1, f, g, thread, more);
    }
  }

  lemma {:induction false} SumOfNone(n: nat, f: nat -> nat)
    requires forall t: nat :: t < n ==> f(t) == 0
    ensures SumBelow(n, f) == 0
  {
    if n > 0 {
      SumOfNone(n - 1, f);
    }
  }

  /** Every completed call was made by one thread. */
  lemma {:induction false} CountByThread(schedule: seq<Event>, inside: map<nat, Call>, n: nat, c: Call)
    requires forall i :: 0 <= i < |schedule| ==> schedule[i].thread < n
    ensures Count(Completed(schedule, inside), c) == SumBelow(n, CountBy(schedule, inside, c))
    decreases schedule
  {
    if schedule == [] {
      SumOfNone(n, CountBy(schedule, inside, c));
    } else {
      var e, rest, next := schedule[0], schedule[1..], After(inside, schedule[0]);
      CountByThread(rest, next, n, c);
      forall t: nat
        ensures CountBy(schedule, inside, c)(t) ==
                CountBy(rest, next, c)(t) + if t == e.thread then Count(Completes(inside, e), c) else 0
      {
        CountByStep(schedule, inside, c, t);
      }
      SumsDiffer(n, CountBy(schedule, inside, c), CountBy(rest, next, c), e.thread, Count(Completes(inside, e), c));
      CountConcat(Completes(inside, e), Completed(rest, next), c);
    }
  }

  lemma CountOfThread(schedule: seq<Event>, programs: seq<seq<Call>>, t: nat, c: Call)
    requires Interleaves(schedule, programs) && t < |programs|
    ensures CountBy(schedule, map[], c)(t) == multiset(programs[t])[c]
  {
    assert OnTrack(schedule, map[], t, programs[t]);
    CompletesProgram(schedule, map[], t, programs[t]);
    CountIsMultiplicity(programs[t], c);
  }

  /** Whatever the interleaving, the completed calls are those of the programs. */
  lemma CompletedArePrograms(schedule: seq<Event>, programs: seq<seq<Call>>, c: Call)
    requires Interleaves(schedule, programs)
    ensures Count(Completed(schedule, map[]), c) == InPrograms(programs, c)
  {
    CountByThread(schedule, map[], |programs|, c);
    forall t: nat | t < |programs|
      ensures CountBy(schedule, map[], c)(t) == multiset(programs[t])[c]
    {
      CountOfThread(schedule, programs, t, c);
    }
    SumsEqual(|programs|, CountBy(schedule, map[], c),
              (t: nat) => if t < |programs| then multiset(programs[t])[c] else 0);
  }

  lemma {:induction false} CompletedServices(schedule: seq<Event>, inside: map<nat, Call>, services: set<string>)
    requires forall i :: 0 <= i < |schedule| && schedule[i].Device? ==> schedule[i].service in services
    requires forall t :: t in inside ==> inside[t].QueryResult?
    ensures Uses(Completed(schedule, inside), services)
    decreases schedule
  {
    if schedule != [] {
      CompletedServices(schedule[1..], After(inside, schedule[0]), services);
    }
  }

  /** For every interleaving of the threads' programs, each exported query counter equals the number of times
      the programs make that call, and so does each device counter if the services in use are separated. */
  method RunPrograms(schedule: seq<Event>, programs: seq<seq<Call>>, services: set<string>)
    returns (mx: WastlernetMetrics)
    requires Interleaves(schedule, programs)
    requires forall i :: 0 <= i < |schedule| && schedule[i].Device? ==> schedule[i].service in services
    ensures fresh(mx)
    ensures forall s, ok :: Shown(mx.queries, QueryResult(s, ok)) == InPrograms(programs, QueryResult(s, ok))
    ensures Separated(services) ==>
              forall s, d :: s in services ==>
                Shown(mx.devices, DeviceUpdate(s, d)) == InPrograms(programs, DeviceUpdate(s, d))
  {
    CompletedServices(schedule, map[], services);
    mx := RunFromStart(schedule, services);
    forall c
      ensures Count(Completed(schedule, map[]), c) == InPrograms(programs, c)
    {
      CompletedArePrograms(schedule, programs, c);
    }
  }
}
