/**
 The lock-step barrier (server/service.cc:318-466, server/protocol.cc:98-190, server/client.cc:60-310).
 The server waits until every device of a bus has reported, then sends all of them one round:
 the time to run until, or the order to finish. The trace of a bus lists what happened to it;
 the theorems are about every trace that some sequence of network events can produce.
 */
module LockStep {
  import opened SimTime

  datatype Message = Until(time: Time) | Finish

  datatype Entry =
    | Greeted(dev: nat)                 // HELLO
    | Reported(dev: nat, exits: bool)   // READY, or FINISH, end of file or an error
    | Assembled                         // the bus is initialized
    | Round(msg: Message)

  datatype Device = Device(ready: bool, exited: bool, inbox: seq<Message>)

  datatype Bus = Bus(devs: seq<Device>, finished: bool, open: bool, assembled: bool, time: Time, trace: seq<Entry>)

  // ----- what a lawful trace looks like

  /** The rounds of a trace, in order. */
  ghost function Rounds(trace: seq<Entry>): seq<Message>
  {
    if trace == [] then []
    else if trace[|trace| - 1].Round? then Rounds(trace[..|trace| - 1]) + [trace[|trace| - 1].msg]
    else Rounds(trace[..|trace| - 1])
  }

  ghost predicate Exits(trace: seq<Entry>)
  {
    exists k :: 0 <= k < |trace| && trace[k].Reported? && trace[k].exits
  }

  ghost predicate Finishes(trace: seq<Entry>)
  {
    exists k :: 0 <= k < |trace| && trace[k] == Round(Finish)
  }

  /** Device `d` has reported since the last round. */
  ghost predicate Heard(trace: seq<Entry>, d: nat)
  {
    trace != [] && !trace[|trace| - 1].Round? &&
    var last := trace[|trace| - 1];
    (last.Reported? && last.dev == d) || Heard(trace[..|trace| - 1], d)
  }

  ghost function Assemblies(trace: seq<Entry>): nat
  {
    if trace == [] then 0 else Assemblies(trace[..|trace| - 1]) + if trace[|trace| - 1].Assembled? then 1 else 0
  }

  /** Entry `e` may follow `trace` on a bus with `n` devices. */
  ghost predicate MayFollow(trace: seq<Entry>, e: Entry, n: nat)
  {
    match e
    case Greeted(d) => d < n
    case Reported(d, _) => d < n && !Finishes(trace)
    case Assembled => Assemblies(trace) == 0 && forall d: nat :: d < n ==> Heard(trace, d)
    case Round(msg) =>
      && Assemblies(trace) == 1 && !Finishes(trace)
      && (forall d: nat :: d < n ==> Heard(trace, d))
      && (msg == Finish <==> Exits(trace))
  }

  ghost predicate Lawful(trace: seq<Entry>, n: nat)
  {
    trace == [] || (Lawful(trace[..|trace| - 1], n) && MayFollow(trace[..|trace| - 1], trace[|trace| - 1], n))
  }

  // ----- what follows for every lawful trace

  lemma {:induction false} LawfulAt(trace: seq<Entry>, n: nat, k: nat)
    requires Lawful(trace, n) && k < |trace|
    ensures Lawful(trace[..k], n) && MayFollow(trace[..k], trace[k], n)
  {
    if k < |trace| - 1 {
      var before := trace[..|trace| - 1];
      LawfulAt(before, n, k);
      assert before[..k] == trace[..k];
    }
  }

  /** A bus is initialized exactly once before each of its rounds, when every device has reported. */
  lemma InitializedOnce(trace: seq<Entry>, n: nat, k: nat)
    requires Lawful(trace, n) && k < |trace| && trace[k].Round?
    ensures Assemblies(trace[..k]) == 1
  {
    LawfulAt(trace, n, k);
  }

  lemma {:induction false} HeardWhen(trace: seq<Entry>, d: nat)
    requires Heard(trace, d)
    ensures exists k :: 0 <= k < |trace| && trace[k].Reported? && trace[k].dev == d
                     && forall m :: k <= m < |trace| ==> !trace[m].Round?
  {
    var last := trace[|trace| - 1];
    if last.Reported? && last.dev == d {
      assert trace[|trace| - 1].Reported?;
    } else {
      var before := trace[..|trace| - 1];
      HeardWhen(before, d);
      var k :| 0 <= k < |before| && before[k].Reported? && before[k].dev == d && forall m :: k <= m < |before| ==> !before[m].Round?;
      assert trace[k].Reported? && trace[k].dev == d;
      forall m | k <= m < |trace| ensures !trace[m].Round? {
        if m < |before| {
          assert trace[m] == before[m];
        }
      }
    }
  }

  /** Between two rounds every device has reported. */
  lemma EveryoneReports(trace: seq<Entry>, n: nat, i: nat, j: nat, d: nat)
    requires Lawful(trace, n) && i < j < |trace| && trace[i].Round? && trace[j].Round? && d < n
    ensures exists k :: i < k < j && trace[k].Reported? && trace[k].dev == d
  {
    LawfulAt(trace, n, j);
    HeardWhen(trace[..j], d);
    var k :| 0 <= k < j && trace[..j][k].Reported? && trace[..j][k].dev == d && forall m :: k <= m < j ==> !trace[..j][m].Round?;
    assert trace[..j][i].Round?;
    assert trace[k].Reported? && trace[k].dev == d;
  }

  /** Once a device has exited, the next round tells everybody to finish, and no round follows that. */
  lemma ExitEndsRun(trace: seq<Entry>, n: nat, x: nat, i: nat)
    requires Lawful(trace, n) && x < i < |trace| && trace[x].Reported? && trace[x].exits && trace[i].Round?
    ensures trace[i] == Round(Finish)
    ensures forall j :: i < j < |trace| ==> !trace[j].Round?
  {
    LawfulAt(trace, n, i);
    assert trace[..i][x].Reported?;
    forall j | i < j < |trace| ensures !trace[j].Round? {
      LawfulAt(trace, n, j);
      assert trace[..j][i] == Round(Finish);
    }
  }

  /** No bus finishes before a device has exited. */
  lemma FinishNeedsExit(trace: seq<Entry>, n: nat, i: nat)
    requires Lawful(trace, n) && i < |trace| && trace[i] == Round(Finish)
    ensures Exits(trace[..i])
  {
    LawfulAt(trace, n, i);
  }

  // ----- the invariant of a bus

  /** All devices have received the same messages, the rounds of the trace; the ready ones have reported since. */
  ghost predicate Together(b: Bus)
  {
    var together := forall d :: 0 <= d < |b.devs| ==>
      b.devs[d].inbox == Rounds(b.trace) && (b.devs[d].ready ==> Heard(b.trace, d) && b.open);
    together
  }

  /** The exit flags say what the trace says. */
  ghost predicate ExitsMarked(b: Bus)
  {
    var marked :=
      && (b.open ==> forall d :: 0 <= d < |b.devs| && b.devs[d].exited ==> Exits(b.trace))
      && (b.open && Exits(b.trace) ==> exists d :: 0 <= d < |b.devs| && b.devs[d].exited)
      && (!b.open ==> forall d :: 0 <= d < |b.devs| ==> b.devs[d].exited)
      && (b.finished ==> Exits(b.trace));
    marked
  }

  ghost predicate Inv(b: Bus)
  {
    var inv :=
      && |b.devs| > 0 && Lawful(b.trace, |b.devs|) && Together(b) && ExitsMarked(b)
      && (b.open <==> !Finishes(b.trace))
      && b.assembled == (Assemblies(b.trace) == 1) && Assemblies(b.trace) <= 1 && (!b.assembled ==> b.open);
    inv
  }

  lemma Pushed(trace: seq<Entry>, e: Entry)
    ensures (trace + [e])[..|trace|] == trace
    ensures Exits(trace + [e]) <==> Exits(trace) || (e.Reported? && e.exits)
    ensures Finishes(trace + [e]) <==> Finishes(trace) || e == Round(Finish)
    ensures Assemblies(trace + [e]) == Assemblies(trace) + if e.Assembled? then 1 else 0
    ensures Rounds(trace + [e]) == Rounds(trace) + if e.Round? then [e.msg] else []
    ensures forall d: nat :: Heard(trace + [e], d) <==> !e.Round? && ((e.Reported? && e.dev == d) || Heard(trace, d))
  {
    var t := trace + [e];
    assert t[..|trace|] == trace;
    if Exits(trace) {
      var k :| 0 <= k < |trace| && trace[k].Reported? && trace[k].exits;
      assert t[k].Reported? && t[k].exits;
    }
    if e.Reported? && e.exits {
      assert t[|trace|].Reported? && t[|trace|].exits;
    }
    if Finishes(trace) {
      var k :| 0 <= k < |trace| && trace[k] == Round(Finish);
      assert t[k] == Round(Finish);
    }
    if e == Round(Finish) {
      assert t[|trace|] == Round(Finish);
    }
  }

  // ----- the steps of a bus

  datatype Kind = Hello | Ready | Exit

  /** A message from a device: HELLO, READY, or one of the ways to leave. */
  function Received(b: Bus, d: nat, kind: Kind): Bus
    requires d < |b.devs|
  {
    match kind
    case Hello => b.(devs := b.devs[d := b.devs[d].(ready := false)], trace := b.trace + [Greeted(d)])
    case Ready => b.(devs := b.devs[d := b.devs[d].(ready := true)], trace := b.trace + [Reported(d, false)])
    case Exit => b.(devs := b.devs[d := b.devs[d].(ready := true, exited := true)], trace := b.trace + [Reported(d, true)])
  }

  function EntryOf(d: nat, kind: Kind): Entry
  {
    match kind
    case Hello => Greeted(d)
    case Ready => Reported(d, false)
    case Exit => Reported(d, true)
  }

  lemma ReceivedTogether(b: Bus, d: nat, kind: Kind)
    requires Together(b) && d < |b.devs| && (kind == Hello || b.open)
    ensures Together(Received(b, d, kind))
  {
    hide Rounds, Heard;
    var e, b' := EntryOf(d, kind), Received(b, d, kind);
    assert b'.trace == b.trace + [e];
    forall k | 0 <= k < |b.devs|
      ensures b'.devs[k].inbox == Rounds(b'.trace) && (b'.devs[k].ready ==> Heard(b'.trace, k) && b'.open)
    {
      Pushed(b.trace, e);
    }
  }

  lemma ReceivedMarked(b: Bus, d: nat, kind: Kind)
    requires ExitsMarked(b) && d < |b.devs| && (kind == Hello || b.open)
    ensures ExitsMarked(Received(b, d, kind))
  {
    hide Exits, Finishes, Heard, Rounds, Assemblies;
    var e, b' := EntryOf(d, kind), Received(b, d, kind);
    Pushed(b.trace, e);
    assert b'.trace == b.trace + [e];
    if b.open && Exits(b.trace) {
      var k :| 0 <= k < |b.devs| && b.devs[k].exited;
      assert b'.devs[k].exited;
    }
    if kind == Exit {
      assert b'.devs[d].exited;
    }
  }

  lemma ReceivedInv(b: Bus, d: nat, kind: Kind)
    requires Inv(b) && d < |b.devs| && (kind == Hello || b.open)
    ensures Inv(Received(b, d, kind))
  {
    hide Rounds, Heard, Exits, Finishes, Assemblies, Together, ExitsMarked;
    var e, b' := EntryOf(d, kind), Received(b, d, kind);
    Pushed(b.trace, e);
    assert b'.trace == b.trace + [e];
    ReceivedTogether(b, d, kind);
    ReceivedMarked(b, d, kind);
  }

  predicate AllReady(b: Bus)
  {
    forall d :: 0 <= d < |b.devs| ==> b.devs[d].ready
  }

  predicate AnyExited(b: Bus)
  {
    exists d :: 0 <= d < |b.devs| && b.devs[d].exited
  }

  /** A scan may notice an exit; if everybody is ready it does. */
  ghost predicate Scanned(b: Bus, b': Bus)
  {
    && b' == b.(finished := b'.finished) && (b.finished ==> b'.finished)
    && (b'.finished ==> b.finished || AnyExited(b)) && (AllReady(b) && AnyExited(b) ==> b'.finished)
  }

  lemma ScannedInv(b: Bus, b': Bus)
    requires Inv(b) && Scanned(b, b')
    ensures Inv(b')
  {
    ExitedExits(b);
  }

  lemma ExitedExits(b: Bus)
    requires Inv(b)
    ensures AnyExited(b) && b.open ==> Exits(b.trace)
    ensures !b.open ==> Exits(b.trace)
  {
    if !b.open {
      var k :| 0 <= k < |b.trace| && b.trace[k] == Round(Finish);
      FinishNeedsExit(b.trace, |b.devs|, k);
      var x :| 0 <= x < |b.trace[..k]| && b.trace[..k][x].Reported? && b.trace[..k][x].exits;
      assert b.trace[x].Reported? && b.trace[x].exits;
    }
  }

  function Initialized(b: Bus): Bus
  {
    b.(assembled := true, trace := b.trace + [Assembled])
  }

  lemma InitializedInv(b: Bus)
    requires Inv(b) && !b.assembled && AllReady(b)
    ensures Inv(Initialized(b))
  {
    Pushed(b.trace, Assembled);
  }

  function Sent(b: Bus, msg: Message): seq<Device>
  {
    seq(|b.devs|, d requires 0 <= d < |b.devs| =>
      Device(false, b.devs[d].exited || msg == Finish, b.devs[d].inbox + [msg]))
  }

  /** bus_ready: clear the flags, run the protocol, send everybody the round. */
  function AfterRound(b: Bus, time: Time): Bus
  {
    var msg := if b.finished then Finish else Until(time);
    b.(devs := Sent(b, msg), time := time, open := b.open && !b.finished, trace := b.trace + [Round(msg)])
  }

  lemma RoundInv(b: Bus, time: Time)
    requires Inv(b) && b.assembled && AllReady(b) && (AnyExited(b) ==> b.finished)
    ensures b.open && Inv(AfterRound(b, time))
  {
    assert b.devs[0].ready;
    var msg := if b.finished then Finish else Until(time);
    Pushed(b.trace, Round(msg));
    assert AnyExited(b) <==> exists d :: 0 <= d < |b.devs| && b.devs[d].exited;
    assert msg == Finish <==> Exits(b.trace);
    assert MayFollow(b.trace, Round(msg), |b.devs|);
  }

  // ----- the server

  datatype Event = Event(bus: nat, dev: nat, kind: Kind)

  function NewBus(n: nat): Bus
  {
    Bus(seq(n, _ => Device(false, false, [])), false, true, false, Time(0, 0), [])
  }

  lemma NewBusInv(n: nat)
    requires n > 0
    ensures Inv(NewBus(n))
  {
  }

  /**
   Bus number `i` after the first `n` messages of a batch. A device that had exited when the
   server began to wait is not listened to, but somebody else may still greet in its name.
   */
  function Arrived(b: Bus, i: nat, batch: seq<Event>, n: nat): (b': Bus)
    requires n <= |batch|
    ensures |b'.devs| == |b.devs| && b'.open == b.open && b'.time == b.time && b.trace <= b'.trace
  {
    if n == 0 then b else
    var b1, e := Arrived(b, i, batch, n - 1), batch[n - 1];
    if e.bus == i && e.dev < |b.devs| && (e.kind == Hello || !b.devs[e.dev].exited) then Received(b1, e.dev, e.kind) else b1
  }

  /** A bus all of whose devices are there is initialized, once. */
  function Assembling(b: Bus): Bus
  {
    if !b.assembled && AllReady(b) then Initialized(b) else b
  }

  /**
   Bus number `i` after one turn: the messages take effect, and if every device is ready now the
   bus is initialized, unless it has been, and gets its round: the order to finish exactly if
   some device has exited. Only what a scan may already have noticed is not said.
   */
  function AfterTurn(b: Bus, i: nat, batch: seq<Event>, time: Time): Bus
  {
    var b1 := Arrived(b, i, batch, |batch|);
    if AllReady(b1) then AfterRound(Assembling(b1).(finished := AnyExited(b1)), time) else b1
  }

  /** What a turn adds to a trace. */
  function TurnTrace(b: Bus, i: nat, batch: seq<Event>, time: Time): seq<Entry>
  {
    var b1 := Arrived(b, i, batch, |batch|);
    b1.trace + (if !b1.assembled && AllReady(b1) then [Assembled] else [])
             + (if AllReady(b1) then [Round(if AnyExited(b1) then Finish else Until(time))] else [])
  }

  lemma TraceOfTurn(b: Bus, i: nat, batch: seq<Event>, time: Time)
    ensures AfterTurn(b, i, batch, time).trace == TurnTrace(b, i, batch, time)
  {
  }

  /** The same bus, whatever scans have noticed. */
  ghost predicate Alike(b: Bus, b': Bus)
  {
    b' == b.(finished := b'.finished)
  }

  lemma ArrivedAlike(b: Bus, b': Bus, i: nat, batch: seq<Event>, n: nat)
    requires Alike(b, b') && n <= |batch|
    ensures Alike(Arrived(b, i, batch, n), Arrived(b', i, batch, n))
  {
  }

  lemma TurnAlike(b: Bus, b': Bus, i: nat, batch: seq<Event>, time: Time)
    requires Alike(b, b')
    ensures Alike(AfterTurn(b, i, batch, time), AfterTurn(b', i, batch, time))
  {
    ArrivedAlike(b, b', i, batch, |batch|);
  }

  lemma SameTime(b: Bus, b': Bus)
    requires Alike(Assembling(b), b')
    ensures b'.time == b.time
  {
  }

  lemma AssembledAlike(b: Bus)
    requires b.assembled
    ensures Alike(Assembling(b), b)
  {
  }

  lemma AssemblyAlike(b: Bus, b': Bus)
    requires !b.assembled && Scanned(b, b')
    ensures Alike(Assembling(b), if AllReady(b) then Initialized(b') else b')
  {
  }

  lemma ScanAlike(b: Bus, b': Bus)
    requires b' == b.(finished := b'.finished)
    ensures Alike(b, b') && AllReady(b) == AllReady(b') && AnyExited(b) == AnyExited(b')
  {
  }

  /** No scan notices an exit that did not happen. */
  lemma FinishedExited(b: Bus)
    requires Inv(b) && b.finished
    ensures AnyExited(b)
  {
    if !b.open {
      assert b.devs[0].exited;
    }
  }

  /** The steps of a turn, put together: messages, initialization, the scan for ready buses, the round. */
  lemma TurnSteps(b: Bus, i: nat, batch: seq<Event>, time: Time, b2: Bus, b3: Bus, b4: Bus)
    requires Alike(Assembling(Arrived(b, i, batch, |batch|)), b2) && Alike(b2, b3) && Inv(b3)
    requires AllReady(b3) && b3.assembled && AnyExited(b3) ==> b3.finished
    requires b4 == if b3.assembled && AllReady(b3) then AfterRound(b3, time) else b3
    ensures Alike(AfterTurn(b, i, batch, time), b4)
    ensures b3.assembled && AllReady(b3) <==> AllReady(Arrived(b, i, batch, |batch|))
    ensures !AllReady(b4) && b4.trace == TurnTrace(b, i, batch, time)
  {
    hide Inv;
    var b1 := Arrived(b, i, batch, |batch|);
    Populated(b3);
    RoundKeeps(b3, time);
    TraceOfTurn(b, i, batch, time);
    ReadyAlike(b1, b3);
    if b3.finished {
      FinishedExited(b3);
    }
    assert AnyExited(b3) <==> AnyExited(b1);
  }

  /** Bus number `i` after a number of turns. */
  function AfterTurns(b: Bus, i: nat, batches: seq<seq<Event>>, times: seq<seq<Time>>): Bus
    requires |batches| == |times| && forall t :: 0 <= t < |times| ==> i < |times[t]|
    decreases |batches|
  {
    if batches == [] then b
    else
      var n := |batches| - 1;
      AfterTurn(AfterTurns(b, i, batches[..n], times[..n]), i, batches[n], times[n][i])
  }

  lemma NoTurns(b: Bus, i: nat)
    ensures Alike(AfterTurns(b, i, [], []), b)
  {
  }

  lemma InvMeans(b: Bus)
    requires Inv(b)
    ensures Lawful(b.trace, |b.devs|) && forall d :: 0 <= d < |b.devs| ==> b.devs[d].inbox == Rounds(b.trace)
  {
  }

  lemma TurnMore(b: Bus, now: Bus, i: nat, batches: seq<seq<Event>>, times: seq<seq<Time>>, t: nat, next: Bus)
    requires t < |batches| == |times| && forall k :: 0 <= k < |times| ==> i < |times[k]|
    requires Alike(AfterTurns(b, i, batches[..t], times[..t]), now)
    requires Alike(AfterTurn(now, i, batches[t], times[t][i]), next)
    ensures Alike(AfterTurns(b, i, batches[..t + 1], times[..t + 1]), next)
  {
    hide AfterTurn;
    assert batches[..t + 1][..t] == batches[..t] && times[..t + 1][..t] == times[..t];
    TurnAlike(AfterTurns(b, i, batches[..t], times[..t]), now, i, batches[t], times[t][i]);
  }

  // ----- what messages bring about, whatever else arrives

  lemma {:induction false} ArrivedInv(b: Bus, i: nat, batch: seq<Event>, n: nat)
    requires Inv(b) && n <= |batch|
    ensures Inv(Arrived(b, i, batch, n))
  {
    hide Inv, Received;
    if n > 0 {
      var b1, e := Arrived(b, i, batch, n - 1), batch[n - 1];
      ArrivedInv(b, i, batch, n - 1);
      if e.bus == i && e.dev < |b.devs| && (e.kind == Hello || !b.devs[e.dev].exited) {
        OpenUnlessExited(b, e.dev);
        ReceivedInv(b1, e.dev, e.kind);
      }
    }
  }

  lemma AfterTurnInv(b: Bus, i: nat, batch: seq<Event>, time: Time)
    requires Inv(b)
    ensures Inv(AfterTurn(b, i, batch, time)) && b.trace <= AfterTurn(b, i, batch, time).trace
  {
    hide Inv, Initialized, AfterRound, AllReady, AnyExited, Arrived;
    ArrivedInv(b, i, batch, |batch|);
    var b1 := Arrived(b, i, batch, |batch|);
    if AllReady(b1) {
      var b2 := Assembling(b1);
      if !b1.assembled {
        InitializedInv(b1);
      }
      InitializedKeeps(b1);
      ReadyAlike(b1, b2);
      var b3 := b2.(finished := AnyExited(b1));
      ExitedAlike(b1, b2);
      ScanFinds(b2, b3);
      ScannedInv(b2, b3);
      RoundInv(b3, time);
      Populated(b3);
      RoundKeeps(b3, time);
    }
  }

  lemma ExitedAlike(b: Bus, b': Bus)
    requires b'.devs == b.devs
    ensures AnyExited(b) <==> AnyExited(b')
  {
  }

  lemma ScanFinds(b: Bus, b': Bus)
    requires Inv(b) && b' == b.(finished := b'.finished) && (b'.finished <==> AnyExited(b))
    ensures Scanned(b, b') && AllReady(b') == AllReady(b) && AnyExited(b') == AnyExited(b)
  {
    if b.finished {
      FinishedExited(b);
    }
  }

  lemma {:induction false} AfterTurnsInv(b: Bus, i: nat, batches: seq<seq<Event>>, times: seq<seq<Time>>)
    requires Inv(b) && |batches| == |times| && forall k :: 0 <= k < |times| ==> i < |times[k]|
    ensures Inv(AfterTurns(b, i, batches, times)) && |AfterTurns(b, i, batches, times).devs| == |b.devs|
    decreases |batches|
  {
    hide Inv, AfterTurn;
    if batches != [] {
      var n := |batches| - 1;
      AfterTurnsInv(b, i, batches[..n], times[..n]);
      AfterTurnInv(AfterTurns(b, i, batches[..n], times[..n]), i, batches[n], times[n][i]);
      AfterTurnDevices(AfterTurns(b, i, batches[..n], times[..n]), i, batches[n], times[n][i]);
    }
  }

  lemma {:induction false} AfterTurnsGrow(b: Bus, i: nat, batches: seq<seq<Event>>, times: seq<seq<Time>>, t: nat)
    requires Inv(b) && t <= |batches| == |times| && forall k :: 0 <= k < |times| ==> i < |times[k]|
    ensures AfterTurns(b, i, batches[..t], times[..t]).trace <= AfterTurns(b, i, batches, times).trace
    decreases |batches|
  {
    hide Inv, AfterTurn;
    if t < |batches| {
      var n := |batches| - 1;
      assert batches[..n][..t] == batches[..t] && times[..n][..t] == times[..t];
      AfterTurnsGrow(b, i, batches[..n], times[..n], t);
      AfterTurnsInv(b, i, batches[..n], times[..n]);
      AfterTurnInv(AfterTurns(b, i, batches[..n], times[..n]), i, batches[n], times[n][i]);
    } else {
      assert batches[..t] == batches && times[..t] == times;
    }
  }

  lemma AfterTurnDevices(b: Bus, i: nat, batch: seq<Event>, time: Time)
    ensures |AfterTurn(b, i, batch, time).devs| == |b.devs|
  {
  }

  /** A device that leaves is on record, now or already. */
  lemma {:induction false} LeavingHeard(b: Bus, i: nat, batch: seq<Event>, n: nat, k: nat)
    requires Inv(b) && k < n <= |batch| && batch[k].bus == i && batch[k].dev < |b.devs| && batch[k].kind == Exit
    ensures Exits(Arrived(b, i, batch, n).trace)
  {
    hide Inv, Finishes, Assemblies, Rounds, Heard;
    var b1, e := Arrived(b, i, batch, n - 1), batch[n - 1];
    ArrivedInv(b, i, batch, n - 1);
    Pushed(b1.trace, EntryOf(e.dev, e.kind));
    if k < n - 1 {
      LeavingHeard(b, i, batch, n - 1, k);
    } else if b.devs[e.dev].exited {
      ExitedExits(b);
      assert AnyExited(b);
      ExitsStay(b.trace, b1.trace);
    }
  }

  /** Messages send no rounds. */
  lemma {:induction false} ArrivedQuiet(b: Bus, i: nat, batch: seq<Event>, n: nat)
    requires n <= |batch|
    ensures forall m :: |b.trace| <= m < |Arrived(b, i, batch, n).trace| ==> !Arrived(b, i, batch, n).trace[m].Round?
  {
    if n > 0 {
      ArrivedQuiet(b, i, batch, n - 1);
    }
  }

  lemma ExitsStay(trace: seq<Entry>, more: seq<Entry>)
    requires trace <= more && Exits(trace)
    ensures Exits(more)
  {
    var k :| 0 <= k < |trace| && trace[k].Reported? && trace[k].exits;
    assert more[k].Reported? && more[k].exits;
  }

  /**
   Whatever else arrives, before or after: from the turn in which any device of a bus leaves,
   the only round its devices can get is the order to finish, and they get no other after it.
   */
  lemma LeavingEndsRun(b: Bus, i: nat, batches: seq<seq<Event>>, times: seq<seq<Time>>, t: nat, k: nat, j: nat)
    requires Inv(b) && t < |batches| == |times| && forall m :: 0 <= m < |times| ==> i < |times[m]|
    requires k < |batches[t]| && batches[t][k].bus == i && batches[t][k].dev < |b.devs| && batches[t][k].kind == Exit
    requires |AfterTurns(b, i, batches[..t], times[..t]).trace| <= j < |AfterTurns(b, i, batches, times).trace|
    requires AfterTurns(b, i, batches, times).trace[j].Round?
    ensures AfterTurns(b, i, batches, times).trace[j] == Round(Finish)
    ensures forall m :: j < m < |AfterTurns(b, i, batches, times).trace| ==> !AfterTurns(b, i, batches, times).trace[m].Round?
  {
    hide Inv, AfterTurns, AfterTurn, Lawful, Arrived, Exits;
    var before, now := AfterTurns(b, i, batches[..t], times[..t]), AfterTurns(b, i, batches, times);
    AfterTurnsInv(b, i, batches[..t], times[..t]);
    AfterTurnsInv(b, i, batches, times);
    InvMeans(now);
    var b1 := Arrived(before, i, batches[t], |batches[t]|);
    LeavingHeard(before, i, batches[t], |batches[t]|, k);
    ArrivedQuiet(before, i, batches[t], |batches[t]|);
    TurnOnTrace(b, i, batches, times, t);
    ExitBefore(b1.trace, now.trace, j);
    var x :| 0 <= x < j && now.trace[x].Reported? && now.trace[x].exits;
    ExitEndsRun(now.trace, |now.devs|, x, j);
  }

  /** After the messages of turn `t` the trace is part of the final one. */
  lemma TurnOnTrace(b: Bus, i: nat, batches: seq<seq<Event>>, times: seq<seq<Time>>, t: nat)
    requires Inv(b) && t < |batches| == |times| && forall m :: 0 <= m < |times| ==> i < |times[m]|
    ensures var before := AfterTurns(b, i, batches[..t], times[..t]);
      Arrived(before, i, batches[t], |batches[t]|).trace <= AfterTurns(b, i, batches, times).trace
  {
    hide Inv, AfterTurn, Arrived;
    var before := AfterTurns(b, i, batches[..t], times[..t]);
    assert batches[..t + 1][..t] == batches[..t] && times[..t + 1][..t] == times[..t];
    TraceOfTurn(before, i, batches[t], times[t][i]);
    AfterTurnsGrow(b, i, batches, times, t + 1);
  }

  lemma ExitBefore(trace: seq<Entry>, now: seq<Entry>, j: nat)
    requires trace <= now && Exits(trace) && |trace| <= j < |now|
    ensures exists x :: 0 <= x < j && now[x].Reported? && now[x].exits
  {
    var x :| 0 <= x < |trace| && trace[x].Reported? && trace[x].exits;
    assert now[x].Reported? && now[x].exits;
  }

  /** From message `k` on nobody greets in the name of device `d`. */
  ghost predicate NoHello(i: nat, batch: seq<Event>, k: nat, d: nat)
  {
    forall m :: k <= m < |batch| ==> batch[m] != Event(i, d, Hello)
  }

  /** A message by which device `d` says it is done: READY, or one of the ways to leave. */
  predicate Done(e: Event, i: nat, d: nat)
  {
    e == Event(i, d, Ready) || e == Event(i, d, Exit)
  }

  /** Device `d` was ready and stays so, or reports or leaves in this batch. */
  ghost predicate Reports(b: Bus, i: nat, batch: seq<Event>, d: nat)
    requires d < |b.devs|
  {
    var reports :=
      || (b.devs[d].ready && NoHello(i, batch, 0, d))
      || (!b.devs[d].exited && exists k :: 0 <= k < |batch| && Done(batch[k], i, d) && NoHello(i, batch, k, d));
    reports
  }

  /** Device `d` is gone, or leaves in this batch. */
  ghost predicate Leaves(b: Bus, i: nat, batch: seq<Event>, d: nat)
    requires d < |b.devs|
  {
    var leaves := b.devs[d].exited || Event(i, d, Exit) in batch;
    leaves
  }

  /** The batch so far, and its last message. */
  lemma ReportsNext(b: Bus, i: nat, batch: seq<Event>, e: Event, d: nat)
    requires d < |b.devs|
    ensures Reports(b, i, batch + [e], d) <==>
      e != Event(i, d, Hello) && (Reports(b, i, batch, d) || (!b.devs[d].exited && Done(e, i, d)))
    ensures Leaves(b, i, batch + [e], d) <==> Leaves(b, i, batch, d) || e == Event(i, d, Exit)
  {
    var all, n := batch + [e], |batch|;
    assert all[n] == e && forall k :: 0 <= k < n ==> all[k] == batch[k];
    forall k | 0 <= k <= n ensures NoHello(i, all, k, d) <==> e != Event(i, d, Hello) && NoHello(i, batch, k, d) {
    }
    if Done(e, i, d) {
      assert Done(all[n], i, d);
    }
    if k :| 0 <= k < n && Done(batch[k], i, d) && NoHello(i, batch, k, d) {
      assert Done(all[k], i, d);
    }
  }

  lemma ReportsNone(b: Bus, i: nat, d: nat)
    requires d < |b.devs|
    ensures Reports(b, i, [], d) <==> b.devs[d].ready
    ensures Leaves(b, i, [], d) <==> b.devs[d].exited
  {
  }

  /** Who is ready and who has left after a batch, from the messages alone. */
  lemma {:induction false} ArrivedFlags(b: Bus, i: nat, batch: seq<Event>, n: nat, d: nat)
    requires n <= |batch| && d < |b.devs|
    ensures Arrived(b, i, batch, n).devs[d].ready <==> Reports(b, i, batch[..n], d)
    ensures Arrived(b, i, batch, n).devs[d].exited <==> Leaves(b, i, batch[..n], d)
  {
    hide Reports, Leaves;
    if n == 0 {
      assert batch[..0] == [];
      ReportsNone(b, i, d);
    } else {
      ArrivedFlags(b, i, batch, n - 1, d);
      assert batch[..n] == batch[..n - 1] + [batch[n - 1]];
      ReportsNext(b, i, batch[..n - 1], batch[n - 1], d);
      if b.devs[d].exited {
        ExitedLeaves(b, i, batch[..n - 1], d);
      }
    }
  }

  lemma ExitedLeaves(b: Bus, i: nat, batch: seq<Event>, d: nat)
    requires d < |b.devs| && b.devs[d].exited
    ensures Leaves(b, i, batch, d)
  {
  }

  /**
   A bus gets its round in the turn in which every device has reported or left, and only then;
   it is the order to finish exactly if one of them has left.
   */
  lemma RoundComes(b: Bus, i: nat, batch: seq<Event>, time: Time)
    ensures AllReady(Arrived(b, i, batch, |batch|)) <==> forall d :: 0 <= d < |b.devs| ==> Reports(b, i, batch, d)
    ensures var trace := AfterTurn(b, i, batch, time).trace;
      if forall d :: 0 <= d < |b.devs| ==> Reports(b, i, batch, d) then
        && trace != []
        && trace[|trace| - 1] == Round(if exists d :: 0 <= d < |b.devs| && Leaves(b, i, batch, d) then Finish else Until(time))
      else forall m :: |b.trace| <= m < |trace| ==> !trace[m].Round?
  {
    hide Arrived, Reports, Leaves;
    assert batch[..|batch|] == batch;
    forall d | 0 <= d < |b.devs|
      ensures Arrived(b, i, batch, |batch|).devs[d].ready <==> Reports(b, i, batch, d)
      ensures Arrived(b, i, batch, |batch|).devs[d].exited <==> Leaves(b, i, batch, d)
    {
      ArrivedFlags(b, i, batch, |batch|, d);
    }
    TraceOfTurn(b, i, batch, time);
    ArrivedQuiet(b, i, batch, |batch|);
  }

  /** The buses of a run list, earliest first. */
  ghost predicate InOrder(buses: seq<Bus>, run: seq<nat>)
  {
    && (forall k :: 0 <= k < |run| ==> run[k] < |buses|)
    && forall j, k :: 0 <= j < k < |run| ==> !Earlier(buses[run[k]].time, buses[run[j]].time)
  }

  /** The precision of the server's trace, as a power of ten. */
  const PRECISION := -10

  /** The times set in the trace before the rounds of one turn never go back. */
  lemma TraceTimesOrdered(buses: seq<Bus>, run: seq<nat>, j: nat, k: nat)
    requires InOrder(buses, run) && j < k < |run|
    ensures UnitsOf(buses[run[j]].time, PRECISION) <= UnitsOf(buses[run[k]].time, PRECISION)
  {
    hide UnitsOf, Earlier;
    UnitsMonotone(buses[run[j]].time, buses[run[k]].time, PRECISION);
  }

  /** All times fit in 64 bits in units of 10^u, so that comparing them is exact. */
  ghost predicate Comparable(buses: seq<Bus>, u: int)
  {
    forall i :: 0 <= i < |buses| ==> Valid(buses[i].time) && u <= buses[i].time.exp && Exact(buses[i].time, u) < WORD
  }

  lemma FinerFits(t: Time, u: int, m: int)
    requires u <= m <= t.exp && Exact(t, u) < WORD
    ensures Exact(t, m) < WORD
  {
    ExactFiner(t, m, u);
    var x, p := Exact(t, m), Pow10(m - u);
    assert x * p >= x;
  }

  /** `run` with bus `i` put after every bus that is not later. */
  lemma InsertedInOrder(buses: seq<Bus>, run: seq<nat>, p: nat, i: nat)
    requires InOrder(buses, run) && p <= |run| && i < |buses|
    requires forall k :: 0 <= k < p ==> !Earlier(buses[i].time, buses[run[k]].time)
    requires p < |run| ==> Earlier(buses[i].time, buses[run[p]].time)
    ensures InOrder(buses, run[..p] + [i] + run[p..])
  {
    hide Earlier;
    var run' := run[..p] + [i] + run[p..];
    forall j, k | 0 <= j < k < |run'| ensures !Earlier(buses[run'[k]].time, buses[run'[j]].time) {
      if j == p {
        assert run'[k] == run[k - 1];
        EarlierStrictWeak(buses[run[k - 1]].time, buses[run[p]].time, buses[i].time);
        EarlierStrictWeak(buses[i].time, buses[run[p]].time, buses[i].time);
        EarlierStrictWeak(buses[run[k - 1]].time, buses[i].time, buses[run[k - 1]].time);
        EarlierStrictWeak(buses[i].time, buses[run[p]].time, buses[run[k - 1]].time);
        EarlierStrictWeak(buses[run[k - 1]].time, buses[i].time, buses[run[p]].time);
      }
    }
  }

  /** The scan over the devices of a bus, which stops at the first that is not ready (service.cc:404-413 and 437-446). */
  method Scan(b: Bus) returns (flag: bool, b': Bus)
    ensures flag <==> AllReady(b)
    ensures Scanned(b, b')
  {
    flag, b' := true, b;
    var d := 0;
    while d < |b.devs|
      invariant 0 <= d <= |b.devs| && flag && b' == b.(finished := b'.finished)
      invariant forall k :: 0 <= k < d ==> b.devs[k].ready
      invariant b'.finished <==> b.finished || exists k :: 0 <= k < d && b.devs[k].exited
    {
      if !b.devs[d].ready {
        flag := false;
        break;
      }
      if b.devs[d].exited {
        b' := b'.(finished := true);
      }
      d := d + 1;
    }
  }

  /** bus_ready. */
  method SendRound(b: Bus, time: Time) returns (b': Bus)
    ensures b' == AfterRound(b, time)
  {
    var devs := b.devs;
    var d := 0;
    while d < |devs|
      invariant 0 <= d <= |devs| == |b.devs|
      invariant forall k :: 0 <= k < d ==> devs[k] == b.devs[k].(ready := false)
      invariant forall k :: d <= k < |devs| ==> devs[k] == b.devs[k]
    {
      devs := devs[d := devs[d].(ready := false)];
      d := d + 1;
    }
    var msg := if b.finished then Finish else Until(time);
    d := 0;
    while d < |devs|
      invariant 0 <= d <= |devs| == |b.devs|
      invariant forall k :: 0 <= k < d ==> devs[k] == Sent(b, msg)[k]
      invariant forall k :: d <= k < |devs| ==> devs[k] == b.devs[k].(ready := false)
    {
      devs := devs[d := devs[d].(inbox := devs[d].inbox + [msg], exited := devs[d].exited || b.finished)];
      d := d + 1;
    }
    assert devs == Sent(b, msg);
    b' := b.(devs := devs, time := time, open := b.open && !b.finished, trace := b.trace + [Round(msg)]);
  }

  lemma ScannedKeeps(b: Bus, b': Bus)
    requires Scanned(b, b')
    ensures b' == b.(finished := b'.finished) && (AllReady(b') <==> AllReady(b)) && (AnyExited(b') <==> AnyExited(b))
    ensures AllReady(b) && AnyExited(b) ==> b'.finished
  {
  }

  lemma InitializedKeeps(b: Bus)
    ensures var b' := Initialized(b); b.trace <= b'.trace && b'.devs == b.devs && b'.time == b.time && b'.assembled
  {
  }

  lemma RoundKeeps(b: Bus, time: Time)
    requires |b.devs| > 0
    ensures var b' := AfterRound(b, time);
      b.trace <= b'.trace && |b'.devs| == |b.devs| && b'.time == time && !AllReady(b')
  {
    assert !AfterRound(b, time).devs[0].ready;
  }

  lemma ReadyAlike(b: Bus, b': Bus)
    requires b'.devs == b.devs
    ensures AllReady(b) <==> AllReady(b')
  {
  }

  lemma Populated(b: Bus)
    requires Inv(b)
    ensures |b.devs| > 0
  {
  }

  lemma OpenUnlessExited(b: Bus, d: nat)
    requires Inv(b) && d < |b.devs|
    ensures !b.devs[d].exited ==> b.open
  {
  }

  lemma NoneInOrder(buses: seq<Bus>)
    ensures InOrder(buses, [])
  {
  }

  lemma SameTimesInOrder(was: seq<Bus>, now: seq<Bus>, run: seq<nat>)
    requires InOrder(was, run) && |was| == |now| && forall i :: 0 <= i < |was| ==> was[i].time == now[i].time
    ensures InOrder(now, run)
  {
  }

  lemma SameTimesComparable(was: seq<Bus>, now: seq<Bus>, u: int)
    requires Comparable(was, u) && |was| == |now| && forall i :: 0 <= i < |was| ==> was[i].time == now[i].time
    ensures Comparable(now, u)
  {
  }

  lemma ComparableAt(buses: seq<Bus>, u: int, i: nat, j: nat)
    requires Comparable(buses, u) && i < |buses| && j < |buses|
    ensures var m := Min(buses[i].time.exp, buses[j].time.exp);
      Exact(buses[i].time, m) < WORD && Exact(buses[j].time, m) < WORD
  {
    var m := Min(buses[i].time.exp, buses[j].time.exp);
    FinerFits(buses[i].time, u, m);
    FinerFits(buses[j].time, u, m);
  }

  class Server {
    const buses: array<Bus>
    ghost var ran: seq<nat>    // the buses that got a round, in the order of the rounds

    ghost predicate Valid()
      reads buses
    {
      forall i :: 0 <= i < buses.Length ==> Inv(buses[i])
    }

    /** Nothing that happened to a bus is forgotten, and no device is lost. */
    ghost predicate Extends(was: seq<Bus>)
      reads buses
    {
      |was| == buses.Length &&
      forall i :: 0 <= i < |was| ==> was[i].trace <= buses[i].trace && |was[i].devs| == |buses[i].devs|
    }

    constructor (sizes: seq<nat>)
      requires forall i :: 0 <= i < |sizes| ==> sizes[i] > 0
      ensures Valid() && fresh(buses) && buses.Length == |sizes|
      ensures ran == [] && forall i :: 0 <= i < |sizes| ==> buses[i] == NewBus(sizes[i])
    {
      hide Inv, NewBus;
      ran := [];
      buses := new Bus[|sizes|](i requires 0 <= i < |sizes| => NewBus(sizes[i]));
      forall i | 0 <= i < |sizes| ensures Inv(NewBus(sizes[i])) {
        NewBusInv(sizes[i]);
      }
    }

    /** The messages that arrived: only from devices that had not exited when the server began to wait. */
    method ReceiveAll(batch: seq<Event>)
      requires Valid()
      modifies buses
      ensures Valid() && Extends(old(buses[..]))
      ensures forall i :: 0 <= i < buses.Length ==> buses[i] == Arrived(old(buses[i]), i, batch, |batch|)
    {
      hide Inv, Received;
      ghost var was := buses[..];
      var waiting := buses[..];
      var k := 0;
      while k < |batch|
        invariant 0 <= k <= |batch| && Valid()
        invariant forall i :: 0 <= i < buses.Length ==> buses[i] == Arrived(was[i], i, batch, k)
      {
        var e := batch[k];
        if e.bus < buses.Length && e.dev < |buses[e.bus].devs| {
          if e.kind == Hello || !waiting[e.bus].devs[e.dev].exited {
            OpenUnlessExited(was[e.bus], e.dev);
            ReceivedInv(buses[e.bus], e.dev, e.kind);
            buses[e.bus] := Received(buses[e.bus], e.dev, e.kind);
          }
        }
        k := k + 1;
      }
    }

    /** Buses whose devices are all there are initialized (service.cc:397-420). */
    method InitializeBuses()
      requires Valid()
      modifies buses
      ensures Valid() && Extends(old(buses[..]))
      ensures forall i :: 0 <= i < buses.Length ==> Alike(Assembling(old(buses[i])), buses[i])
    {
      hide Inv, Initialized, Scanned, AllReady, Assembling, Alike;
      ghost var was := buses[..];
      var i := 0;
      while i < buses.Length
        invariant 0 <= i <= buses.Length && Valid() && Extends(was)
        invariant forall k :: 0 <= k < i ==> Alike(Assembling(was[k]), buses[k])
        invariant forall k :: i <= k < buses.Length ==> buses[k] == was[k]
      {
        if !buses[i].assembled {
          ghost var b := buses[i];
          var flag, b' := Scan(buses[i]);
          ScannedInv(b, b');
          ScannedKeeps(b, b');
          AssemblyAlike(b, b');
          if flag {
            InitializedInv(b');
            InitializedKeeps(b');
            b' := Initialized(b');
          }
          buses[i] := b';
        } else {
          AssembledAlike(buses[i]);
        }
        i := i + 1;
      }
    }

    /** Which buses run now (service.cc:428-449). */
    method ReadyBuses(ghost u: int) returns (run: seq<nat>)
      requires Valid() && forall i :: 0 <= i < buses.Length ==> SimTime.Valid(buses[i].time)
      modifies buses
      ensures Valid() && Extends(old(buses[..]))
      ensures forall i :: 0 <= i < buses.Length ==> buses[i] == old(buses[i]).(finished := buses[i].finished)
      ensures forall i :: i in run <==> 0 <= i < buses.Length && buses[i].assembled && AllReady(buses[i])
      ensures forall j, k :: 0 <= j < k < |run| ==> run[j] != run[k]
      ensures forall i :: 0 <= i < buses.Length && AllReady(buses[i]) && buses[i].assembled && AnyExited(buses[i]) ==> buses[i].finished
      ensures Comparable(old(buses[..]), u) ==> InOrder(buses[..], run)
    {
      hide Inv, Scanned, AllReady, AnyExited, InOrder, Comparable, Earlier;
      ghost var was := buses[..];
      run := [];
      var i := 0;
      assert InOrder(was, run) by { NoneInOrder(was); }
      while i < buses.Length
        invariant 0 <= i <= buses.Length && Valid()
        invariant forall k :: 0 <= k < buses.Length ==> buses[k] == was[k].(finished := buses[k].finished)
        invariant forall k :: k in run <==> 0 <= k < i && buses[k].assembled && AllReady(buses[k])
        invariant forall j, k :: 0 <= j < k < |run| ==> run[j] != run[k]
        invariant forall k :: 0 <= k < i && AllReady(buses[k]) && buses[k].assembled && AnyExited(buses[k]) ==> buses[k].finished
        invariant Comparable(was, u) ==> InOrder(was, run)
      {
        if buses[i].assembled {
          ghost var b := buses[i];
          var flag, b' := Scan(buses[i]);
          ScannedInv(b, b');
          ScannedKeeps(b, b');
          buses[i] := b';
          if flag {
            assert forall k :: 0 <= k < |run| ==> run[k] in run;
            run := Insert(run, i, u, was);
          }
        }
        i := i + 1;
      }
      if Comparable(was, u) {
        SameTimesInOrder(was, buses[..], run);
      }
    }

    /** A bus goes into the run list by its time. */
    method Insert(run: seq<nat>, i: nat, ghost u: int, ghost was: seq<Bus>) returns (run': seq<nat>)
      requires i < buses.Length == |was| && i !in run
      requires forall k :: 0 <= k < buses.Length ==> buses[k].time == was[k].time && SimTime.Valid(was[k].time)
      requires forall k :: 0 <= k < |run| ==> run[k] < buses.Length
      requires forall j, k :: 0 <= j < k < |run| ==> run[j] != run[k]
      requires Comparable(was, u) ==> InOrder(was, run)
      ensures forall k :: k in run' <==> k in run || k == i
      ensures forall j, k :: 0 <= j < k < |run'| ==> run'[j] != run'[k]
      ensures Comparable(was, u) ==> InOrder(was, run')
    {
      hide InOrder, Comparable, Earlier, Exact;
      var p := 0;
      while p < |run|
        invariant 0 <= p <= |run|
        invariant Comparable(was, u) ==> forall k :: 0 <= k < p ==> !Earlier(was[i].time, was[run[k]].time)
      {
        assert run[p] in run;
        var less := Less(buses[i].time, buses[run[p]].time);
        if Comparable(was, u) {
          ComparableAt(was, u, i, run[p]);
        }
        if less {
          break;
        }
        p := p + 1;
      }
      run' := run[..p] + [i] + run[p..];
      if Comparable(was, u) {
        InsertedInOrder(was, run, p, i);
      }
    }

    /**
     One turn of the server: `times` says how far each protocol would advance its clock.
     Every bus goes exactly as its messages say, so none is left waiting with all its devices
     ready; the rounds of the turn are sent earliest bus first.
     */
    method Turn(batch: seq<Event>, times: seq<Time>, ghost u: int)
      requires Valid() && |times| == buses.Length
      requires forall i :: 0 <= i < buses.Length ==> SimTime.Valid(buses[i].time) && SimTime.Valid(times[i])
      modifies `ran, buses
      ensures Valid() && Extends(old(buses[..])) && old(ran) <= ran
      ensures forall i :: 0 <= i < buses.Length ==> Alike(AfterTurn(old(buses[i]), i, batch, times[i]), buses[i])
      ensures forall i :: 0 <= i < buses.Length ==> buses[i].trace == TurnTrace(old(buses[i]), i, batch, times[i])
      ensures forall i :: i in ran[|old(ran)|..] <==> 0 <= i < buses.Length && AllReady(Arrived(old(buses[i]), i, batch, |batch|))
      ensures forall i :: i in ran[|old(ran)|..] <==>
        0 <= i < buses.Length && forall d :: 0 <= d < |old(buses[i]).devs| ==> Reports(old(buses[i]), i, batch, d)
      ensures forall j, k :: |old(ran)| <= j < k < |ran| ==> ran[j] != ran[k]
      ensures Comparable(old(buses[..]), u) ==> InOrder(old(buses[..]), ran[|old(ran)|..])
      ensures forall i :: 0 <= i < buses.Length ==> SimTime.Valid(buses[i].time) && !AllReady(buses[i])
    {
      hide Inv, AllReady, AnyExited, AfterRound, Alike, Assembling, AfterTurn, TurnTrace, Arrived, Comparable, InOrder, Reports;
      ghost var b0 := buses[..];
      ReceiveAll(batch);
      ghost var b1 := buses[..];
      InitializeBuses();
      ghost var b2 := buses[..];
      forall i | 0 <= i < buses.Length ensures b2[i].time == b0[i].time {
        SameTime(b1[i], b2[i]);
      }
      var run := ReadyBuses(u);
      ghost var b3 := buses[..];
      assert forall k :: 0 <= k < |run| ==> run[k] in run;
      RunAll(run, times);
      assert ran[|old(ran)|..] == run;
      forall i | 0 <= i < buses.Length
        ensures Alike(AfterTurn(b0[i], i, batch, times[i]), buses[i]) && buses[i].trace == TurnTrace(b0[i], i, batch, times[i])
        ensures (i in run <==> AllReady(b1[i])) && !AllReady(buses[i])
        ensures AllReady(b1[i]) <==> forall d :: 0 <= d < |b0[i].devs| ==> Reports(b0[i], i, batch, d)
      {
        ScanAlike(b2[i], b3[i]);
        TurnSteps(b0[i], i, batch, times[i], b2[i], b3[i], buses[i]);
        RoundComes(b0[i], i, batch, times[i]);
      }
      if Comparable(b0, u) {
        SameTimesComparable(b0, b2, u);
        SameTimesInOrder(b3, b0, run);
      }
    }

    method RunAll(run: seq<nat>, times: seq<Time>)
      requires Valid() && |times| == buses.Length
      requires forall k :: 0 <= k < |run| ==> run[k] < buses.Length && buses[run[k]].assembled && AllReady(buses[run[k]])
      requires forall k :: 0 <= k < |run| ==> AnyExited(buses[run[k]]) ==> buses[run[k]].finished
      requires forall j, k :: 0 <= j < k < |run| ==> run[j] != run[k]
      modifies `ran, buses
      ensures Valid() && Extends(old(buses[..])) && ran == old(ran) + run
      ensures forall i :: 0 <= i < buses.Length ==>
        buses[i] == if i in run then AfterRound(old(buses[i]), times[i]) else old(buses[i])
      ensures forall i :: 0 <= i < buses.Length && i in run ==> !AllReady(buses[i]) && buses[i].time == times[i]
    {
      hide Inv, AllReady, AnyExited, AfterRound;
      ghost var was := buses[..];
      var k := 0;
      while k < |run|
        invariant 0 <= k <= |run| && Valid() && Extends(was) && ran == old(ran) + run[..k]
        invariant forall i :: 0 <= i < buses.Length ==>
          buses[i] == if i in run[..k] then AfterRound(was[i], times[i]) else was[i]
        invariant forall i :: 0 <= i < buses.Length && i in run[..k] ==> !AllReady(buses[i]) && buses[i].time == times[i]
      {
        var i := run[k];
        assert run[..k + 1] == run[..k] + [i];
        RoundInv(buses[i], times[i]);
        Populated(buses[i]);
        RoundKeeps(buses[i], times[i]);
        var b' := SendRound(buses[i], times[i]);
        buses[i] := b';
        ran := ran + [i];
        k := k + 1;
      }
      assert run[..k] == run;
    }

    /**
     Any number of turns, with any messages: every bus is where its messages take it, its trace
     is lawful, and each of its devices has received exactly the rounds of that trace.
     */
    method Serve(batches: seq<seq<Event>>, times: seq<seq<Time>>, ghost u: int)
      requires Valid() && |times| == |batches|
      requires forall t :: 0 <= t < |times| ==> |times[t]| == buses.Length
      requires forall t, i :: 0 <= t < |times| && 0 <= i < buses.Length ==> SimTime.Valid(times[t][i])
      requires forall i :: 0 <= i < buses.Length ==> SimTime.Valid(buses[i].time)
      modifies `ran, buses
      ensures Extends(old(buses[..])) && old(ran) <= ran
      ensures forall i :: 0 <= i < buses.Length ==> Alike(AfterTurns(old(buses[i]), i, batches, times), buses[i])
      ensures forall i :: 0 <= i < buses.Length ==> Lawful(buses[i].trace, |buses[i].devs|)
      ensures forall i, d :: 0 <= i < buses.Length && 0 <= d < |buses[i].devs| ==>
        buses[i].devs[d].inbox == Rounds(buses[i].trace)
    {
      hide Inv, Alike, AfterTurn, AfterTurns, TurnTrace, Arrived, AllReady, Comparable, InOrder, Lawful, Rounds;
      ghost var was := buses[..];
      forall i | 0 <= i < buses.Length ensures Alike(AfterTurns(was[i], i, batches[..0], times[..0]), buses[i]) {
        NoTurns(was[i], i);
        assert batches[..0] == [] && times[..0] == [];
      }
      var t := 0;
      while t < |batches|
        invariant 0 <= t <= |batches| && Valid() && Extends(was) && old(ran) <= ran
        invariant forall i :: 0 <= i < buses.Length ==> SimTime.Valid(buses[i].time)
        invariant forall i :: 0 <= i < buses.Length ==> Alike(AfterTurns(was[i], i, batches[..t], times[..t]), buses[i])
      {
        ghost var b := buses[..];
        Turn(batches[t], times[t], u);
        forall i | 0 <= i < buses.Length
          ensures Alike(AfterTurns(was[i], i, batches[..t + 1], times[..t + 1]), buses[i])
        {
          TurnMore(was[i], b[i], i, batches, times, t, buses[i]);
        }
        t := t + 1;
      }
      assert batches[..t] == batches && times[..t] == times;
      forall i | 0 <= i < buses.Length
        ensures Lawful(buses[i].trace, |buses[i].devs|)
        ensures forall d :: 0 <= d < |buses[i].devs| ==> buses[i].devs[d].inbox == Rounds(buses[i].trace)
      {
        InvMeans(buses[i]);
      }
    }
  }
}
