/** The select loop of hafnertec/hafnertec_modbus_debug.cpp: one listening socket and the connections it
    accepts, kept in a descriptor set with its maximum. */
module SelectServer {
  import opened Wrappers

  /** What happens to one reported descriptor: accept (None: it failed) or receive with its result. */
  datatype Event =
    | Accepted(newfd: Option<nat>)
    | Received(fd: nat, rc: int)

  /** What accept returns while a given set of descriptors is registered, and what receive returns on
      each descriptor. */
  datatype Traffic = Traffic(accept: set<nat> -> Option<nat>, receive: nat -> int)

  /** accept never returns a descriptor that is open. */
  ghost predicate Fresh(traffic: Traffic) {
    forall open: set<nat> :: traffic.accept(open).Some? ==> traffic.accept(open).value !in open
  }

  /** One return from select: a failure ends the program; otherwise some registered descriptors are
      ready. */
  datatype Select = Fails | Reports(ready: set<nat>, traffic: Traffic)

  // ---------- the events of a pass ----------

  /** The registered descriptors after an event. */
  function AfterEvent(registered: set<nat>, e: Event): set<nat> {
    match e
    case Accepted(None) => registered
    case Accepted(Some(n)) => registered + {n}
    case Received(fd, rc) => if rc == -1 then registered - {fd} else registered
  }

  function AfterEvents(registered: set<nat>, es: seq<Event>): set<nat> {
    if es == [] then registered else AfterEvent(AfterEvents(registered, es[..|es| - 1]), es[|es| - 1])
  }

  function Handle(registered: set<nat>, fd: nat, server: nat, traffic: Traffic): Event {
    if fd == server then Accepted(traffic.accept(registered)) else Received(fd, traffic.receive(fd))
  }

  /** One event for each reported descriptor below `hi`, in ascending order. */
  function Events(registered: set<nat>, reported: set<nat>, hi: nat, server: nat, traffic: Traffic): seq<Event> {
    if hi == 0 then []
    else
      var earlier := Events(registered, reported, hi - 1, server, traffic);
      if hi - 1 !in reported then earlier
      else earlier + [Handle(AfterEvents(registered, earlier), hi - 1, server, traffic)]
  }

  function FdOf(e: Event, server: nat): nat {
    if e.Accepted? then server else e.fd
  }

  function FdsOf(es: seq<Event>, server: nat): set<nat> {
    set i | 0 <= i < |es| :: FdOf(es[i], server)
  }

  lemma FdsAppend(es: seq<Event>, e: Event, server: nat)
    ensures FdsOf(es + [e], server) == FdsOf(es, server) + {FdOf(e, server)}
  {
    var longer := es + [e];
    assert forall i :: 0 <= i < |es| ==> longer[i] == es[i];
    forall x | x in FdsOf(es, server) + {FdOf(e, server)}
      ensures x in FdsOf(longer, server)
    {
      if x in FdsOf(es, server) {
        var i :| 0 <= i < |es| && FdOf(es[i], server) == x;
        assert longer[i] == es[i];
      } else {
        assert longer[|es|] == e;
      }
    }
  }

  /** Every reported descriptor is handled exactly once: the events' descriptors ascend, and are those
      reported. */
  lemma {:induction false} HandledOnce(registered: set<nat>, reported: set<nat>, hi: nat, server: nat, traffic: Traffic)
    ensures var es := Events(registered, reported, hi, server, traffic);
            && (forall i, j :: 0 <= i < j < |es| ==> FdOf(es[i], server) < FdOf(es[j], server))
            && FdsOf(es, server) == set x | x in reported && x < hi
  {
    if hi > 0 {
      HandledOnce(registered, reported, hi - 1, server, traffic);
      var earlier := Events(registered, reported, hi - 1, server, traffic);
      if hi - 1 in reported {
        var e := Handle(AfterEvents(registered, earlier), hi - 1, server, traffic);
        FdsAppend(earlier, e, server);
        assert forall i :: 0 <= i < |earlier| ==> FdOf(earlier[i], server) in FdsOf(earlier, server);
      }
    }
  }

  /** A reported descriptor stays registered until its turn, and the server's always does. */
  lemma {:induction false} StaysRegistered(registered: set<nat>, reported: set<nat>,
                                           hi: nat, server: nat, traffic: Traffic, x: nat)
    requires x in registered && (x >= hi || x == server)
    ensures x in AfterEvents(registered, Events(registered, reported, hi, server, traffic))
  {
    if hi > 0 {
      StaysRegistered(registered, reported, hi - 1, server, traffic, x);
      var earlier := Events(registered, reported, hi - 1, server, traffic);
      var es := Events(registered, reported, hi, server, traffic);
      if hi - 1 in reported {
        assert es[..|es| - 1] == earlier;
      }
    }
  }

  /** The accept of a pass sees the descriptors registered when the server's turn comes. */
  lemma {:induction false} AcceptedWhere(registered: set<nat>, reported: set<nat>,
                                         hi: nat, server: nat, traffic: Traffic, i: nat)
    requires i < |Events(registered, reported, hi, server, traffic)|
    requires Events(registered, reported, hi, server, traffic)[i].Accepted?
    ensures server < hi
    ensures Events(registered, reported, hi, server, traffic)[i] ==
            Accepted(traffic.accept(AfterEvents(registered, Events(registered, reported, server, server, traffic))))
  {
    var earlier := Events(registered, reported, hi - 1, server, traffic);
    if i < |earlier| {
      AcceptedWhere(registered, reported, hi - 1, server, traffic, i);
    }
  }

  /** A connection accepted in a pass is not received on in the same pass. */
  lemma {:induction false} NoReceiveOnAccepted(registered: set<nat>, reported: set<nat>,
                                               hi: nat, server: nat, traffic: Traffic)
    requires reported <= registered && Fresh(traffic)
    ensures var es := Events(registered, reported, hi, server, traffic);
            forall i, j :: 0 <= i < j < |es| && es[i].Accepted? && es[j].Received? ==> es[i].newfd != Some(es[j].fd)
  {
    if hi > 0 {
      NoReceiveOnAccepted(registered, reported, hi - 1, server, traffic);
      var earlier := Events(registered, reported, hi - 1, server, traffic);
      var es := Events(registered, reported, hi, server, traffic);
      if hi - 1 in reported {
        assert es == earlier + [es[|es| - 1]];
        forall i | 0 <= i < |earlier| && earlier[i].Accepted? && es[|es| - 1].Received?
          ensures earlier[i].newfd != Some(hi - 1)
        {
          AcceptedWhere(registered, reported, hi - 1, server, traffic, i);
          StaysRegistered(registered, reported, server, server, traffic, hi - 1);
        }
      }
    }
  }

  lemma {:induction false} NothingReported(registered: set<nat>, reported: set<nat>,
                                           lo: nat, hi: nat, server: nat, traffic: Traffic)
    requires lo <= hi && forall x :: x in reported ==> x < lo || hi <= x
    ensures Events(registered, reported, lo, server, traffic) == Events(registered, reported, hi, server, traffic)
  {
    if lo < hi {
      NothingReported(registered, reported, lo, hi - 1, server, traffic);
    }
  }

  /** Every descriptor is handled at most once, in ascending order, and none is received on in the pass
      that accepted it. */
  ghost predicate Orderly(es: seq<Event>, server: nat) {
    && (forall i, j :: 0 <= i < j < |es| ==> FdOf(es[i], server) < FdOf(es[j], server))
    && (forall i, j :: 0 <= i < j < |es| && es[i].Accepted? && es[j].Received? ==> es[i].newfd != Some(es[j].fd))
  }

  /** Each event is what happens to its descriptor when its turn comes. */
  ghost predicate Follows(es: seq<Event>, registered: set<nat>, server: nat, traffic: Traffic) {
    forall i :: 0 <= i < |es| ==>
      es[i] == if FdOf(es[i], server) == server then Accepted(traffic.accept(AfterEvents(registered, es[..i])))
               else Received(FdOf(es[i], server), traffic.receive(FdOf(es[i], server)))
  }

  /** The pass that answers one return from select: the registered descriptors that it reported, and no
      others, are handled in order, each with its own outcome. */
  ghost predicate Answers(es: seq<Event>, registered: set<nat>, s: Select, server: nat) {
    && s.Reports?
    && FdsOf(es, server) == registered * s.ready
    && Orderly(es, server)
    && Follows(es, registered, server, s.traffic)
  }

  lemma {:induction false} EventsFollow(registered: set<nat>, reported: set<nat>,
                                        hi: nat, server: nat, traffic: Traffic)
    ensures Follows(Events(registered, reported, hi, server, traffic), registered, server, traffic)
  {
    if hi > 0 {
      EventsFollow(registered, reported, hi - 1, server, traffic);
      var earlier := Events(registered, reported, hi - 1, server, traffic);
      var es := Events(registered, reported, hi, server, traffic);
      forall i | 0 <= i < |es|
        ensures es[i] == Handle(AfterEvents(registered, es[..i]), FdOf(es[i], server), server, traffic)
      {
        assert es[..i] == earlier[..i];
      }
    }
  }

  lemma EventsAnswer(registered: set<nat>, s: Select, hi: nat, server: nat)
    requires s.Reports? && Fresh(s.traffic)
    requires forall x :: x in registered ==> x < hi
    ensures Answers(Events(registered, registered * s.ready, hi, server, s.traffic), registered, s, server)
  {
    var reported := registered * s.ready;
    HandledOnce(registered, reported, hi, server, s.traffic);
    NoReceiveOnAccepted(registered, reported, hi, server, s.traffic);
    EventsFollow(registered, reported, hi, server, s.traffic);
  }

  /** Ascending sequences with the same descriptors have them at the same places. */
  lemma {:induction false} SameFds(a: seq<Event>, b: seq<Event>, server: nat, i: nat)
    requires Orderly(a, server) && Orderly(b, server) && FdsOf(a, server) == FdsOf(b, server)
    requires i < |a|
    ensures i < |b| && FdOf(a[i], server) == FdOf(b[i], server)
  {
    var x := FdOf(a[i], server);
    assert x in FdsOf(a, server);
    var j :| 0 <= j < |b| && FdOf(b[j], server) == x;
    if j < i {
      SameFds(a, b, server, j);
    } else if j > i {
      var y := FdOf(b[i], server);
      assert y in FdsOf(b, server);
      var k :| 0 <= k < |a| && FdOf(a[k], server) == y;
      assert y < x;
      assert k < i;
      SameFds(a, b, server, k);
    }
  }

  lemma SameEvent(a: seq<Event>, b: seq<Event>, registered: set<nat>, s: Select, server: nat, i: nat)
    requires Answers(a, registered, s, server) && Answers(b, registered, s, server)
    requires i < |a| && i < |b| && FdOf(a[i], server) == FdOf(b[i], server) && a[..i] == b[..i]
    ensures a[i] == b[i]
  {
  }

  lemma PrefixStep(es: seq<Event>, n: nat)
    requires 0 < n <= |es|
    ensures es[..n] == es[..n - 1] + [es[n - 1]]
  {
  }

  lemma {:induction false} SamePrefix(a: seq<Event>, b: seq<Event>, registered: set<nat>,
                                      s: Select, server: nat, n: nat)
    requires Answers(a, registered, s, server) && Answers(b, registered, s, server)
    requires n <= |a| && n <= |b| && forall i :: 0 <= i < n ==> FdOf(a[i], server) == FdOf(b[i], server)
    ensures a[..n] == b[..n]
  {
    if n > 0 {
      SamePrefix(a, b, registered, s, server, n - 1);
      SameEvent(a, b, registered, s, server, n - 1);
      PrefixStep(a, n);
      PrefixStep(b, n);
    }
  }

  /** The answer to a return from select is unique: the rules leave the pass no freedom. */
  lemma AnswerIsUnique(a: seq<Event>, b: seq<Event>, registered: set<nat>, s: Select, server: nat)
    requires Answers(a, registered, s, server) && Answers(b, registered, s, server)
    ensures a == b
  {
    if |a| > |b| {
      SameFds(a, b, server, |b|);
    } else if |b| > |a| {
      SameFds(b, a, server, |a|);
    }
    forall i | 0 <= i < |a|
      ensures FdOf(a[i], server) == FdOf(b[i], server)
    {
      SameFds(a, b, server, i);
    }
    SamePrefix(a, b, registered, s, server, |a|);
    assert a == a[..|a|] && b == b[..|b|];
  }

  function AfterPasses(registered: set<nat>, passes: seq<seq<Event>>): set<nat> {
    if passes == [] then registered
    else AfterEvents(AfterPasses(registered, passes[..|passes| - 1]), passes[|passes| - 1])
  }

  /** Every pass answers its return from select. */
  ghost predicate AllAnswer(passes: seq<seq<Event>>, registered: set<nat>, selects: seq<Select>, server: nat) {
    && |passes| <= |selects|
    && forall k :: 0 <= k < |passes| ==> Answers(passes[k], AfterPasses(registered, passes[..k]), selects[k], server)
  }

  lemma AnswerNext(passes: seq<seq<Event>>, es: seq<Event>, registered: set<nat>, selects: seq<Select>, server: nat)
    requires AllAnswer(passes, registered, selects, server) && |passes| < |selects|
    requires Answers(es, AfterPasses(registered, passes), selects[|passes|], server)
    ensures AllAnswer(passes + [es], registered, selects, server)
    ensures AfterPasses(registered, passes + [es]) == AfterEvents(AfterPasses(registered, passes), es)
  {
    var longer := passes + [es];
    assert longer[..|passes|] == passes;
    forall k | 0 <= k < |longer|
      ensures Answers(longer[k], AfterPasses(registered, longer[..k]), selects[k], server)
    {
      if k < |passes| {
        assert longer[..k] == passes[..k];
      }
    }
  }

  // ---------- who is registered after a pass ----------

  /** The descriptors that are left when the server's turn comes: clients before it whose receive failed
      have been closed. */
  function Standing(before: set<nat>, reported: set<nat>, server: nat, traffic: Traffic): set<nat> {
    set x | x in before && !(x in reported && x < server && traffic.receive(x) == -1)
  }

  /** A descriptor is registered after a pass exactly if it was accepted in it -- when the server was
      reported, among the descriptors left by then -- or was registered before and is no reported client
      whose receive failed. */
  ghost predicate Moves(before: set<nat>, after: set<nat>, reported: set<nat>, server: nat, traffic: Traffic) {
    forall fd: nat ::
      fd in after <==>
        || (server in reported && traffic.accept(Standing(before, reported, server, traffic)) == Some(fd))
        || (fd in before && !(fd in reported && fd != server && traffic.receive(fd) == -1))
  }

  /** The same when the descriptors below hi have had their turn. */
  ghost predicate MovesBelow(before: set<nat>, after: set<nat>, reported: set<nat>,
                             hi: nat, server: nat, traffic: Traffic)
  {
    forall fd: nat ::
      fd in after <==>
        || (server in reported && server < hi
            && traffic.accept(Standing(before, reported, server, traffic)) == Some(fd))
        || (fd in before && !(fd in reported && fd < hi && fd != server && traffic.receive(fd) == -1))
  }

  lemma OneMoves(before: set<nat>, now: set<nat>, reported: set<nat>, fd: nat, server: nat, traffic: Traffic)
    requires reported <= before && Fresh(traffic) && fd in reported
    requires MovesBelow(before, now, reported, fd, server, traffic)
    ensures MovesBelow(before, AfterEvent(now, Handle(now, fd, server, traffic)), reported, fd + 1, server, traffic)
  {
    var standing := Standing(before, reported, server, traffic);
    if fd == server {
      assert now == standing;
    } else if traffic.receive(fd) == -1 && server < fd {
      assert fd in standing;
    }
  }

  lemma {:induction false} EventsMove(before: set<nat>, reported: set<nat>, hi: nat, server: nat, traffic: Traffic)
    requires reported <= before && Fresh(traffic)
    ensures MovesBelow(before, AfterEvents(before, Events(before, reported, hi, server, traffic)),
                       reported, hi, server, traffic)
  {
    if hi > 0 {
      EventsMove(before, reported, hi - 1, server, traffic);
      if hi - 1 in reported {
        var earlier := Events(before, reported, hi - 1, server, traffic);
        var e := Handle(AfterEvents(before, earlier), hi - 1, server, traffic);
        assert (earlier + [e])[..|earlier|] == earlier;
        OneMoves(before, AfterEvents(before, earlier), reported, hi - 1, server, traffic);
      }
    }
  }

  lemma PassMoves(before: set<nat>, reported: set<nat>, hi: nat, server: nat, traffic: Traffic)
    requires reported <= before && Fresh(traffic) && server in before && forall x :: x in before ==> x < hi
    ensures Moves(before, AfterEvents(before, Events(before, reported, hi, server, traffic)), reported, server, traffic)
  {
    EventsMove(before, reported, hi, server, traffic);
  }

  /** The sets that select watches, from pass to pass. */
  ghost predicate AllMove(watched: seq<set<nat>>, selects: seq<Select>, server: nat) {
    && 1 <= |watched| <= |selects| + 1
    && forall k :: 0 <= k < |watched| - 1 ==>
         && selects[k].Reports?
         && Moves(watched[k], watched[k + 1], watched[k] * selects[k].ready, server, selects[k].traffic)
  }

  lemma MoveNext(watched: seq<set<nat>>, after: set<nat>, selects: seq<Select>, server: nat)
    requires AllMove(watched, selects, server) && |watched| <= |selects|
    requires selects[|watched| - 1].Reports?
    requires var last, s := watched[|watched| - 1], selects[|watched| - 1];
             Moves(last, after, last * s.ready, server, s.traffic)
    ensures AllMove(watched + [after], selects, server)
  {
  }

  lemma EventsStep(registered: set<nat>, reported: set<nat>, fd: nat, server: nat, traffic: Traffic)
    requires fd in reported
    ensures var es := Events(registered, reported, fd, server, traffic);
            var e := Handle(AfterEvents(registered, es), fd, server, traffic);
            && Events(registered, reported, fd + 1, server, traffic) == es + [e]
            && AfterEvents(registered, es + [e]) == AfterEvent(AfterEvents(registered, es), e)
  {
    var es := Events(registered, reported, fd, server, traffic);
    var e := Handle(AfterEvents(registered, es), fd, server, traffic);
    assert (es + [e])[..|es|] == es;
  }

  /** Whatever is reported and not handled yet is still registered; so when only lower descriptors are, all
      the reported ones have been handled. */
  lemma AllHandled(registered: set<nat>, reported: set<nat>, lo: nat, hi: nat, server: nat, traffic: Traffic)
    requires reported <= registered && forall x :: x in registered ==> x < hi
    requires forall x :: x in AfterEvents(registered, Events(registered, reported, lo, server, traffic)) ==> x < lo
    ensures Events(registered, reported, lo, server, traffic) == Events(registered, reported, hi, server, traffic)
  {
    forall x | x in reported
      ensures x < lo
    {
      if x >= lo {
        StaysRegistered(registered, reported, lo, server, traffic, x);
      }
    }
    if lo <= hi {
      NothingReported(registered, reported, lo, hi, server, traffic);
    } else {
      NothingReported(registered, reported, hi, lo, server, traffic);
    }
  }

  // ---------- the server ----------

  class Server {
    const serverSocket: nat
    var refset: set<nat>
    var fdmax: int

    ghost predicate Valid()
      reads this
    {
      serverSocket in refset && forall fd :: fd in refset ==> fd <= fdmax
    }

    constructor (serverSocket: nat)
      ensures Valid() && this.serverSocket == serverSocket && refset == {serverSocket}
    {
      this.serverSocket := serverSocket;
      refset, fdmax := {serverSocket}, serverSocket;
    }

    /** One pass over the descriptors that select reported. */
    method Pass(rdset: set<nat>, traffic: Traffic) returns (events: seq<Event>)
      requires Valid() && rdset <= refset
      modifies this
      ensures Valid()
      ensures events == Events(old(refset), rdset, old(fdmax) + 1, serverSocket, traffic)
      ensures refset == AfterEvents(old(refset), events)
      ensures Fresh(traffic) ==> Moves(old(refset), refset, rdset, serverSocket, traffic)
    {
      events := [];
      ghost var refset0, fdmax0 := refset, fdmax;
      var masterSocket: nat := 0;
      while masterSocket <= fdmax
        invariant Valid()
        invariant events == Events(refset0, rdset, masterSocket, serverSocket, traffic)
        invariant refset == AfterEvents(refset0, events)
        invariant masterSocket <= fdmax + 1 || masterSocket == fdmax + 2
        decreases if masterSocket <= serverSocket then 1 else 0, fdmax - masterSocket + 1
      {
        if masterSocket in rdset {
          StaysRegistered(refset0, rdset, masterSocket, serverSocket, traffic, masterSocket);
          EventsStep(refset0, rdset, masterSocket, serverSocket, traffic);
          var e := Handle(refset, masterSocket, serverSocket, traffic);
          if masterSocket == serverSocket {
            var newfd := traffic.accept(refset);
            if newfd.Some? {
              refset := refset + {newfd.value};
              if newfd.value > fdmax {
                fdmax := newfd.value;
              }
            }
          } else {
            var rc := traffic.receive(masterSocket);
            if rc == -1 {
              refset := refset - {masterSocket};
              if masterSocket == fdmax {
                fdmax := fdmax - 1;
              }
            }
          }
          events := events + [e];
        }
        masterSocket := masterSocket + 1;
      }
      AllHandled(refset0, rdset, masterSocket, fdmax0 + 1, serverSocket, traffic);
      if Fresh(traffic) {
        PassMoves(refset0, rdset, fdmax0 + 1, serverSocket, traffic);
      }
    }

    /** The endless loop, for the returns from select that happen; the program exits when select fails.
        The invariant holds throughout, so that select always watches every registered descriptor;
        `watched` are these sets, one before each pass and one at the end. */
    method Serve(selects: seq<Select>) returns (passes: seq<seq<Event>>, watched: seq<set<nat>>)
      requires Valid() && forall i :: 0 <= i < |selects| && selects[i].Reports? ==> Fresh(selects[i].traffic)
      modifies this
      ensures Valid()
      ensures |passes| <= |selects| && (|passes| == |selects| || selects[|passes|].Fails?)
      ensures AllAnswer(passes, old(refset), selects, serverSocket)
      ensures refset == AfterPasses(old(refset), passes)
      ensures |watched| == |passes| + 1 && watched[0] == old(refset) && watched[|passes|] == refset
      ensures AllMove(watched, selects, serverSocket)
    {
      passes, watched := [], [refset];
      for i := 0 to |selects|
        invariant Valid() && |passes| == i
        invariant AllAnswer(passes, old(refset), selects, serverSocket)
        invariant refset == AfterPasses(old(refset), passes)
        invariant |watched| == i + 1 && watched[0] == old(refset) && watched[i] == refset
        invariant AllMove(watched, selects, serverSocket)
      {
        if selects[i].Fails? {
          return;
        }
        var rdset := refset * selects[i].ready;
        ghost var before, top := refset, fdmax;
        var events := Pass(rdset, selects[i].traffic);
        EventsAnswer(before, selects[i], top + 1, serverSocket);
        AnswerNext(passes, events, old(refset), selects, serverSocket);
        passes := passes + [events];
        MoveNext(watched, refset, selects, serverSocket);
        watched := watched + [refset];
      }
    }
  }
}
