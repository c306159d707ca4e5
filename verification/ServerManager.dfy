/** Starting and unwinding servers (wpr/servermanager.py): the hand-written unwinding loop against
    nested context managers. */
module ServerManager {
  import opened Basics

  type Exception = string

  datatype Outcome = Fine | Raises(e: Exception)
  datatype ExitOutcome = Passes | Suppresses | ExitRaises(e: Exception)

  /** What a server's initializer, `__enter__` and `__exit__` do; `__exit__` sees the exception in flight. */
  datatype Server = Server(init: Outcome, enter: Outcome, exit: Option<Exception> -> ExitOutcome)

  datatype Call = Init(server: nat) | Enter(server: nat) | Exit(server: nat, inFlight: Option<Exception>)

  /** The exception finally raised, if any, and the calls made. */
  datatype Finish = Finish(raised: Option<Exception>, calls: seq<Call>)

  function AfterExit(s: Server, inFlight: Option<Exception>): Option<Exception> {
    match s.exit(inFlight)
    case Passes => inFlight
    case Suppresses => None
    case ExitRaises(e) => Some(e)
  }

  // ---------------------------------------------------------------- nested context managers

  /** Servers from `i` on, one inside the other. The main loop inside all of them only ends by the
      exception `interrupt`. `__enter__` runs inside the guarded region. */
  function Nested(servers: seq<Server>, i: nat, interrupt: Exception): Finish
    requires i <= |servers|
    decreases |servers| - i
  {
    if i == |servers| then Finish(Some(interrupt), [])
    else if servers[i].init.Raises? then Finish(Some(servers[i].init.e), [Init(i)])
    else
      var body := if servers[i].enter.Raises? then Finish(Some(servers[i].enter.e), [])
                  else Nested(servers, i + 1, interrupt);
      Finish(AfterExit(servers[i], body.raised),
             [Init(i), Enter(i)] + body.calls + [Exit(i, body.raised)])
  }

  /** Python's own `with`: a failing `__enter__` leaves without `__exit__`. */
  function With(servers: seq<Server>, i: nat, interrupt: Exception): Finish
    requires i <= |servers|
    decreases |servers| - i
  {
    if i == |servers| then Finish(Some(interrupt), [])
    else if servers[i].init.Raises? then Finish(Some(servers[i].init.e), [Init(i)])
    else if servers[i].enter.Raises? then Finish(Some(servers[i].enter.e), [Init(i), Enter(i)])
    else
      var body := With(servers, i + 1, interrupt);
      Finish(AfterExit(servers[i], body.raised),
             [Init(i), Enter(i)] + body.calls + [Exit(i, body.raised)])
  }

  /** Some `__enter__` that is reached raises. */
  predicate EnterFails(servers: seq<Server>, i: nat)
    requires i <= |servers|
    decreases |servers| - i
  {
    i < |servers| && servers[i].init.Fine? && (servers[i].enter.Raises? || EnterFails(servers, i + 1))
  }

  /** The manager differs from nested `with` statements exactly when a reached `__enter__` raises: it
      then makes the one `__exit__` call that `with` leaves out. */
  lemma {:induction false} WithUnlessEnterFails(servers: seq<Server>, i: nat, interrupt: Exception)
    requires i <= |servers|
    ensures |Nested(servers, i, interrupt).calls|
            == |With(servers, i, interrupt).calls| + if EnterFails(servers, i) then 1 else 0
    ensures Nested(servers, i, interrupt) == With(servers, i, interrupt) <==> !EnterFails(servers, i)
    decreases |servers| - i
  {
    if i < |servers| && servers[i].init.Fine? && servers[i].enter.Fine? {
      WithUnlessEnterFails(servers, i + 1, interrupt);
    }
  }

  /** One server whose `__enter__` raises: the manager still calls its `__exit__`. */
  lemma FailedEnterIsExited(e: Exception, interrupt: Exception)
    ensures var server := Server(Fine, Raises(e), _ => Passes);
      && Nested([server], 0, interrupt).calls == [Init(0), Enter(0), Exit(0, Some(e))]
      && With([server], 0, interrupt).calls == [Init(0), Enter(0)]
  {
  }

  /** Servers whose initializer returned, in order of the calls. */
  function Initialised(servers: seq<Server>, calls: seq<Call>): seq<nat> {
    if calls == [] then []
    else
      var rest := Initialised(servers, calls[1..]);
      if calls[0].Init? && calls[0].server < |servers| && servers[calls[0].server].init.Fine?
      then [calls[0].server] + rest else rest
  }

  function Exited(calls: seq<Call>): seq<nat> {
    if calls == [] then []
    else if calls[0].Exit? then [calls[0].server] + Exited(calls[1..]) else Exited(calls[1..])
  }

  function Reversed(s: seq<nat>): seq<nat> {
    if s == [] then [] else Reversed(s[1..]) + [s[0]]
  }

  lemma {:induction false} InitialisedAppend(servers: seq<Server>, a: seq<Call>, b: seq<Call>)
    ensures Initialised(servers, a + b) == Initialised(servers, a) + Initialised(servers, b)
  {
    if a == [] {
      assert a + b == b;
    } else {
      InitialisedAppend(servers, a[1..], b);
      TailOfSum(a, b);
    }
  }

  lemma {:induction false} ExitedAppend(a: seq<Call>, b: seq<Call>)
    ensures Exited(a + b) == Exited(a) + Exited(b)
  {
    if a == [] {
      assert a + b == b;
    } else {
      ExitedAppend(a[1..], b);
      TailOfSum(a, b);
    }
  }

  /** Every successfully initialised server is exited exactly once, in reverse order, and no other is. */
  lemma {:induction false} ExitsReverseInits(servers: seq<Server>, i: nat, interrupt: Exception)
    requires i <= |servers|
    ensures var calls := Nested(servers, i, interrupt).calls;
      Exited(calls) == Reversed(Initialised(servers, calls))
    decreases |servers| - i
  {
    if i < |servers| {
      if servers[i].init.Raises? {
        assert [Init(i)][1..] == [];
      } else {
        var body := if servers[i].enter.Raises? then Finish(Some(servers[i].enter.e), [])
                    else Nested(servers, i + 1, interrupt);
        if servers[i].enter.Fine? {
          ExitsReverseInits(servers, i + 1, interrupt);
        }
        OwnCalls(servers, i, body);
      }
    }
  }

  lemma OwnCalls(servers: seq<Server>, i: nat, body: Finish)
    requires i < |servers| && servers[i].init.Fine?
    ensures var calls := [Init(i), Enter(i)] + body.calls + [Exit(i, body.raised)];
      && Initialised(servers, calls) == [i] + Initialised(servers, body.calls)
      && Exited(calls) == Exited(body.calls) + [i]
  {
    hide Initialised, Exited;
    var open, close := [Init(i), Enter(i)], [Exit(i, body.raised)];
    OpenAndClose(servers, i, body.raised);
    InitialisedAppend(servers, open + body.calls, close);
    InitialisedAppend(servers, open, body.calls);
    ExitedAppend(open + body.calls, close);
    ExitedAppend(open, body.calls);
  }

  lemma OpenAndClose(servers: seq<Server>, i: nat, inFlight: Option<Exception>)
    requires i < |servers| && servers[i].init.Fine?
    ensures Initialised(servers, [Init(i), Enter(i)]) == [i] && Exited([Init(i), Enter(i)]) == []
    ensures Initialised(servers, [Exit(i, inFlight)]) == [] && Exited([Exit(i, inFlight)]) == [i]
  {
    assert [Init(i), Enter(i)][1..] == [Enter(i)] && [Enter(i)][1..] == [];
    assert [Exit(i, inFlight)][1..] == [];
    assert Initialised(servers, [Enter(i)]) == [] && Exited([Enter(i)]) == [];
  }

  // ---------------------------------------------------------------- which exception is in flight

  /** What ends the starting of servers from `i` on: the first initializer or `__enter__` that raises, or
      else the interrupt of the main loop. */
  function FirstException(servers: seq<Server>, i: nat, interrupt: Exception): Exception
    requires i <= |servers|
    decreases |servers| - i
  {
    if i == |servers| then interrupt
    else match servers[i].init
      case Raises(e) => e
      case Fine => match servers[i].enter
        case Raises(e) => e
        case Fine => FirstException(servers, i + 1, interrupt)
  }

  /** `inFlight` is what the calls made so far leave in flight: what the last `__exit__` decided that did not
      let the exception pass, and `first` if there is none. */
  ghost predicate InFlightAfter(servers: seq<Server>, calls: seq<Call>, first: Exception, inFlight: Option<Exception>) {
    && (AllPass(servers, calls, 0) ==> inFlight == Some(first))
    && (forall q :: 0 <= q < |calls| && AllPass(servers, calls, q + 1) ==>
          && (Decides(servers, calls[q], Suppresses) ==> inFlight == None)
          && (forall e :: Decides(servers, calls[q], ExitRaises(e)) ==> inFlight == Some(e)))
  }

  /** The call is an `__exit__` with this outcome. */
  predicate Decides(servers: seq<Server>, call: Call, outcome: ExitOutcome) {
    call.Exit? && call.server < |servers| && servers[call.server].exit(call.inFlight) == outcome
  }

  ghost predicate AllPass(servers: seq<Server>, calls: seq<Call>, from: nat) {
    forall k :: from <= k < |calls| && calls[k].Exit? ==> Decides(servers, calls[k], Passes)
  }

  /** Every `__exit__` sees what the calls before it leave in flight. */
  ghost predicate ExitsSee(servers: seq<Server>, calls: seq<Call>, first: Exception) {
    forall p :: 0 <= p < |calls| && calls[p].Exit? ==> InFlightAfter(servers, calls[..p], first, calls[p].inFlight)
  }

  lemma NoExitNoChange(servers: seq<Server>, calls: seq<Call>, first: Exception)
    requires forall k :: 0 <= k < |calls| ==> !calls[k].Exit?
    ensures InFlightAfter(servers, calls, first, Some(first))
  {
  }

  /** Calls that are no exits change nothing, in front. */
  lemma InFrontOf(servers: seq<Server>, front: seq<Call>, calls: seq<Call>, first: Exception, inFlight: Option<Exception>)
    requires forall k :: 0 <= k < |front| ==> !front[k].Exit?
    requires InFlightAfter(servers, calls, first, inFlight)
    ensures InFlightAfter(servers, front + calls, first, inFlight)
  {
    var all, n := front + calls, |front|;
    assert forall k :: 0 <= k < |calls| ==> all[n + k] == calls[k];
    if AllPass(servers, all, 0) {
      assert AllPass(servers, calls, 0);
    }
    forall q | 0 <= q < |all| && all[q].Exit? && AllPass(servers, all, q + 1)
      ensures q >= n && all[q] == calls[q - n] && AllPass(servers, calls, q - n + 1)
    {
    }
  }

  /** One more exit: it decides, unless it lets pass what was in flight. */
  lemma OneMoreExit(servers: seq<Server>, calls: seq<Call>, first: Exception, exit: Call)
    requires exit.Exit? && exit.server < |servers| && InFlightAfter(servers, calls, first, exit.inFlight)
    ensures InFlightAfter(servers, calls + [exit], first, AfterExit(servers[exit.server], exit.inFlight))
  {
    var all := calls + [exit];
    var outcome := servers[exit.server].exit(exit.inFlight);
    assert all[|calls|] == exit && forall k :: 0 <= k < |calls| ==> all[k] == calls[k];
    forall q: nat | q <= |calls| && AllPass(servers, all, q)
      ensures outcome == Passes && AllPass(servers, calls, q)
    {
      assert Decides(servers, all[|calls|], Passes);
    }
  }

  /** In every run of the manager each `__exit__` sees, and the manager finally raises, what the last exit
      before decided that did not let the exception pass: nothing if it suppressed it, its own exception
      if it raised one. If all let it pass, that is the first exception, or the interrupt. */
  lemma {:induction false} LastExitDecides(servers: seq<Server>, i: nat, interrupt: Exception)
    requires i <= |servers|
    ensures var run := Nested(servers, i, interrupt);
      var first := FirstException(servers, i, interrupt);
      InFlightAfter(servers, run.calls, first, run.raised) && ExitsSee(servers, run.calls, first)
    decreases |servers| - i
  {
    var first := FirstException(servers, i, interrupt);
    if i == |servers| || servers[i].init.Raises? {
      NoExitNoChange(servers, Nested(servers, i, interrupt).calls, first);
    } else {
      var body := if servers[i].enter.Raises? then Finish(Some(servers[i].enter.e), [])
                  else Nested(servers, i + 1, interrupt);
      if servers[i].enter.Fine? {
        LastExitDecides(servers, i + 1, interrupt);
      } else {
        NoExitNoChange(servers, [], first);
      }
      AroundBody(servers, i, first, body);
    }
  }

  lemma AroundBody(servers: seq<Server>, i: nat, first: Exception, body: Finish)
    requires i < |servers| && InFlightAfter(servers, body.calls, first, body.raised) && ExitsSee(servers, body.calls, first)
    ensures var calls := [Init(i), Enter(i)] + body.calls + [Exit(i, body.raised)];
      InFlightAfter(servers, calls, first, AfterExit(servers[i], body.raised)) && ExitsSee(servers, calls, first)
  {
    var front, exit := [Init(i), Enter(i)], Exit(i, body.raised);
    InFrontOf(servers, front, body.calls, first, body.raised);
    OneMoreExit(servers, front + body.calls, first, exit);
    FrontSees(servers, front, body.calls, first);
    hide InFlightAfter;
    var calls := front + body.calls;
    forall p | 0 <= p < |calls + [exit]| && (calls + [exit])[p].Exit?
      ensures InFlightAfter(servers, (calls + [exit])[..p], first, (calls + [exit])[p].inFlight)
    {
      assert (calls + [exit])[..p] == calls[..p];
      if p == |calls| {
        assert calls[..p] == calls;
      }
    }
  }

  lemma FrontSees(servers: seq<Server>, front: seq<Call>, calls: seq<Call>, first: Exception)
    requires forall k :: 0 <= k < |front| ==> !front[k].Exit?
    requires ExitsSee(servers, calls, first)
    ensures ExitsSee(servers, front + calls, first)
  {
    hide InFlightAfter;
    var all, n := front + calls, |front|;
    forall p | 0 <= p < |all| && all[p].Exit? ensures InFlightAfter(servers, all[..p], first, all[p].inFlight) {
      assert all[p] == calls[p - n] && all[..p] == front + calls[..p - n];
      InFrontOf(servers, front, calls[..p - n], first, all[p].inFlight);
    }
  }

  /** When every exit lets it pass, the first exception, or the interrupt, is seen by all and raised again. */
  lemma AllPassing(servers: seq<Server>, interrupt: Exception)
    requires forall k, v :: 0 <= k < |servers| ==> servers[k].exit(v) == Passes
    ensures var run := Nested(servers, 0, interrupt);
      var first := Some(FirstException(servers, 0, interrupt));
      run.raised == first && forall p :: 0 <= p < |run.calls| && run.calls[p].Exit? ==> run.calls[p].inFlight == first
  {
    LastExitDecides(servers, 0, interrupt);
    ServersInRange(servers, 0, interrupt);
  }

  lemma {:induction false} ServersInRange(servers: seq<Server>, i: nat, interrupt: Exception)
    requires i <= |servers|
    ensures forall p :: 0 <= p < |Nested(servers, i, interrupt).calls| ==>
              i <= Nested(servers, i, interrupt).calls[p].server < |servers|
    decreases |servers| - i
  {
    if i < |servers| && servers[i].init.Fine? && servers[i].enter.Fine? {
      ServersInRange(servers, i + 1, interrupt);
    }
  }

  /** The servers whose initializers were called, in order of the calls. */
  function Started(calls: seq<Call>): seq<nat> {
    if calls == [] then []
    else if calls[0].Init? then [calls[0].server] + Started(calls[1..]) else Started(calls[1..])
  }

  lemma {:induction false} StartedAppend(a: seq<Call>, b: seq<Call>)
    ensures Started(a + b) == Started(a) + Started(b)
  {
    if a == [] {
      assert a + b == b;
    } else {
      StartedAppend(a[1..], b);
      TailOfSum(a, b);
    }
  }

  /** Servers are started in the order of appending, none left out. */
  lemma {:induction false} StartsInOrder(servers: seq<Server>, i: nat, interrupt: Exception)
    requires i <= |servers|
    ensures var started := Started(Nested(servers, i, interrupt).calls);
      && (i < |servers| ==> started != [])
      && forall k :: 0 <= k < |started| ==> started[k] == i + k
    decreases |servers| - i
  {
    if i < |servers| {
      if servers[i].init.Raises? {
        assert [Init(i)][1..] == [];
      } else {
        var body := if servers[i].enter.Raises? then Finish(Some(servers[i].enter.e), [])
                    else Nested(servers, i + 1, interrupt);
        if servers[i].enter.Fine? {
          StartsInOrder(servers, i + 1, interrupt);
        }
        StartedAppend([Init(i), Enter(i)] + body.calls, [Exit(i, body.raised)]);
        StartedAppend([Init(i), Enter(i)], body.calls);
        assert [Init(i), Enter(i)][1..] == [Enter(i)] && [Enter(i)][1..] == [] && [Exit(i, body.raised)][1..] == [];
        assert Started([Enter(i)]) == [];
      }
    }
  }

  // ---------------------------------------------------------------- the unwinding loop

  predicate InRange(exits: seq<nat>, n: nat) {
    forall k :: 0 <= k < |exits| ==> exits[k] < n
  }

  /** Calls the exits of the given servers in the given order, threading the exception. */
  function Unwind(servers: seq<Server>, exits: seq<nat>, inFlight: Option<Exception>): Finish
    requires InRange(exits, |servers|)
  {
    if exits == [] then Finish(inFlight, [])
    else
      var rest := Unwind(servers, exits[1..], AfterExit(servers[exits[0]], inFlight));
      Finish(rest.raised, [Exit(exits[0], inFlight)] + rest.calls)
  }

  /** Calls made so far, an inner block, and the exits still to come around it. */
  function Around(servers: seq<Server>, calls: seq<Call>, inner: Finish, exits: seq<nat>): Finish
    requires InRange(exits, |servers|)
  {
    var rest := Unwind(servers, exits, inner.raised);
    Finish(rest.raised, calls + inner.calls + rest.calls)
  }

  /** A started server moves from the nesting to the list of exits. */
  lemma EnterStep(servers: seq<Server>, calls: seq<Call>, i: nat, body: Finish, exits: seq<nat>)
    requires i < |servers| && InRange(exits, |servers|)
    ensures Around(servers, calls,
                   Finish(AfterExit(servers[i], body.raised),
                          [Init(i), Enter(i)] + body.calls + [Exit(i, body.raised)]), exits)
            == Around(servers, calls + [Init(i)] + [Enter(i)], body, [i] + exits)
  {
    assert ([i] + exits)[1..] == exits;
    var own, rest := [Init(i), Enter(i)], Unwind(servers, exits, AfterExit(servers[i], body.raised));
    assert calls + [Init(i)] + [Enter(i)] == calls + own;
    assert calls + (own + body.calls + [Exit(i, body.raised)]) + rest.calls
        == calls + own + body.calls + ([Exit(i, body.raised)] + rest.calls);
  }

  /** Calls of a finished inner block count as made. */
  lemma CallsMade(servers: seq<Server>, calls: seq<Call>, inner: Finish, exits: seq<nat>)
    requires InRange(exits, |servers|)
    ensures Around(servers, calls, inner, exits)
            == Around(servers, calls + inner.calls, Finish(inner.raised, []), exits)
    ensures Around(servers, [], inner, []) == inner
  {
    assert calls + inner.calls + [] == calls + inner.calls;
    assert [] + inner.calls + [] == inner.calls;
  }

  lemma ExitStep(servers: seq<Server>, calls: seq<Call>, exits: seq<nat>, inFlight: Option<Exception>)
    requires InRange(exits, |servers|) && exits != []
    ensures Around(servers, calls, Finish(inFlight, []), exits)
            == Around(servers, calls + [Exit(exits[0], inFlight)],
                      Finish(AfterExit(servers[exits[0]], inFlight), []), exits[1..])
  {
    var rest := Unwind(servers, exits[1..], AfterExit(servers[exits[0]], inFlight));
    assert calls + [] + ([Exit(exits[0], inFlight)] + rest.calls)
        == calls + [Exit(exits[0], inFlight)] + [] + rest.calls;
  }

  class ServerManager {
    var initializers: seq<Server>

    constructor ()
      ensures initializers == []
    {
      initializers := [];
    }

    method Append(server: Server)
      modifies `initializers
      ensures initializers == old(initializers) + [server]
    {
      initializers := initializers + [server];
    }

    /** Starts the servers in order, loops until an exception, and unwinds: the same calls with the same
        exceptions in flight, and the same exception in the end, as the nested definition. */
    method Run(interrupt: Exception) returns (raised: Option<Exception>, calls: seq<Call>)
      ensures Finish(raised, calls) == Nested(initializers, 0, interrupt)
    {
      hide Around, Unwind;
      var serverExits: seq<nat> := [];
      var exceptionInfo: Option<Exception> := None;
      calls := [];
      CallsMade(initializers, [], Nested(initializers, 0, interrupt), []);
      var i := 0;
      while i < |initializers| && exceptionInfo.None?
        invariant i <= |initializers| && InRange(serverExits, |initializers|)
        invariant Nested(initializers, 0, interrupt)
                  == Around(initializers, calls,
                            if exceptionInfo.Some? then Finish(exceptionInfo, []) else Nested(initializers, i, interrupt),
                            serverExits)
        decreases |initializers| - i, exceptionInfo.None?
      {
        var server := initializers[i];
        if server.init.Raises? {
          CallsMade(initializers, calls, Finish(Some(server.init.e), [Init(i)]), serverExits);
          calls, exceptionInfo := calls + [Init(i)], Some(server.init.e);
        } else {
          ghost var body := if server.enter.Raises? then Finish(Some(server.enter.e), [])
                            else Nested(initializers, i + 1, interrupt);
          EnterStep(initializers, calls, i, body, serverExits);
          calls := calls + [Init(i)];
          serverExits := [i] + serverExits;
          calls := calls + [Enter(i)];
          if server.enter.Raises? {
            exceptionInfo := Some(server.enter.e);
          } else {
            i := i + 1;
          }
        }
      }
      if exceptionInfo.None? {
        exceptionInfo := Some(interrupt);
      }
      for k := 0 to |serverExits|
        invariant InRange(serverExits, |initializers|)
        invariant Nested(initializers, 0, interrupt)
                  == Around(initializers, calls, Finish(exceptionInfo, []), serverExits[k..])
      {
        var server := initializers[serverExits[k]];
        assert serverExits[k..][1..] == serverExits[k + 1..];
        ExitStep(initializers, calls, serverExits[k..], exceptionInfo);
        calls := calls + [Exit(serverExits[k], exceptionInfo)];
        match server.exit(exceptionInfo) {
          case Passes =>
          case Suppresses => exceptionInfo := None;
          case ExitRaises(e) => exceptionInfo := Some(e);
        }
      }
      raised := exceptionInfo;
      assert serverExits[|serverExits|..] == [];
      CallsMade(initializers, [], Finish(raised, calls), []);
      CallsMade(initializers, calls, Finish(raised, []), []);
      assert [] + calls == calls && calls + [] == calls;
    }
  }
}
