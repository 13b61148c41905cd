/**
 The PCI arbiter (server/PciProtocol.cc:133-152, 283-290 and 325-479): requests are sampled on the
 rising clock edge (phase 0) and the grant moves one phase later. A device is an index into
 the device map; several devices may carry the same slot number.
 */
module PciArbiter {
  import Mersenne
  import opened Wires

  const SLOTS := 16
  const NOBODY := -1

  datatype Setup = Setup(ident: seq<nat>, parkLast: bool, linger: nat)

  ghost predicate ValidSetup(cfg: Setup)
  {
    cfg.linger > 0 && forall d :: 0 <= d < |cfg.ident| ==> cfg.ident[d] < SLOTS
  }

  /** A device that has never sent REQ# has no value for it. */
  datatype Pin = Silent | Drives(bit: Bit)

  /** What the devices drive. */
  datatype Pins = Pins(req: seq<Pin>, frame: seq<Bit>, irdy: seq<Bit>)

  /** The same, and the random number that is drawn if one is asked for. */
  datatype Inputs = Inputs(req: seq<Pin>, frame: seq<Bit>, irdy: seq<Bit>, rand: nat)

  ghost predicate ValidInputs(cfg: Setup, i: Inputs)
  {
    |i.req| == |i.frame| == |i.irdy| == |cfg.ident|
  }

  ghost function With(p: Pins, rand: nat): Inputs
  {
    Inputs(p.req, p.frame, p.irdy, rand)
  }

  datatype State = State(granted: int, master: int, req: seq<Bit>, gnt: seq<Bit>, phase: nat)

  // ----- one step, as a function

  function Start(cfg: Setup): State
  {
    State(NOBODY, NOBODY, seq(SLOTS, _ => High), seq(|cfg.ident|, _ => High), 0)
  }

  predicate Heard(p: Pin)
  {
    p.Drives? && p.bit != Z
  }

  /** The requests of the first `n` devices; of several on one slot the last one heard counts. */
  function Sampled(cfg: Setup, req: seq<Pin>, n: nat): (r: seq<Bit>)
    requires |req| == |cfg.ident| && n <= |req| && forall d :: 0 <= d < |cfg.ident| ==> cfg.ident[d] < SLOTS
    ensures |r| == SLOTS
  {
    if n == 0 then seq(SLOTS, _ => High)
    else if Heard(req[n - 1]) then Sampled(cfg, req, n - 1)[cfg.ident[n - 1] := req[n - 1].bit]
    else Sampled(cfg, req, n - 1)
  }

  predicate Holds(i: Inputs, d: int)
    requires 0 <= d < |i.frame| == |i.irdy|
  {
    i.frame[d] == Low || i.irdy[d] == Low
  }

  predicate Index(cfg: Setup, d: int)
  {
    0 <= d < |cfg.ident|
  }

  function NextMaster(cfg: Setup, granted: int, master: int, i: Inputs): int
    requires |i.frame| == |i.irdy| == |cfg.ident|
  {
    if !Index(cfg, master) then
      if Index(cfg, granted) && i.frame[granted] == Low then granted else NOBODY
    else if master == granted || Holds(i, master) then master
    else if Index(cfg, granted) then granted
    else NOBODY
  }

  predicate Requested(req: seq<Bit>)
  {
    exists s :: 0 <= s < |req| && req[s] == Low
  }

  /** How far the search goes from `at`, having gone `k` steps. */
  function Hops(req: seq<Bit>, at: nat, k: nat): (h: nat)
    requires |req| == SLOTS && 1 <= k <= SLOTS
    ensures k <= h <= SLOTS
    decreases SLOTS - k
  {
    if k == SLOTS || req[(at + k) % SLOTS] == Low then k else Hops(req, at, k + 1)
  }

  /** The first device of slot `s`, from device `d` on. */
  function DeviceAt(cfg: Setup, s: nat, d: nat): (r: int)
    requires d <= |cfg.ident|
    ensures r == NOBODY || (d <= r < |cfg.ident| && cfg.ident[r] == s)
    ensures r == NOBODY <==> forall e :: d <= e < |cfg.ident| ==> cfg.ident[e] != s
    decreases |cfg.ident| - d
  {
    if d == |cfg.ident| then NOBODY
    else if cfg.ident[d] == s then d
    else DeviceAt(cfg, s, d + 1)
  }

  function SearchFrom(cfg: Setup, granted: int, rand: nat): nat
  {
    if Index(cfg, granted) then cfg.ident[granted] else rand % SLOTS
  }

  function NewGrant(cfg: Setup, s: State, rand: nat): int
    requires |s.req| == SLOTS
  {
    var at := SearchFrom(cfg, s.granted, rand);
    DeviceAt(cfg, (at + Hops(s.req, at, 1)) % SLOTS, 0)
  }

  function Arbitrated(cfg: Setup, s: State, rand: nat): State
    requires cfg.linger > 0 && |s.req| == SLOTS && |s.gnt| == |cfg.ident|
    requires Index(cfg, s.granted) ==> cfg.ident[s.granted] < SLOTS
  {
    var held := Index(cfg, s.granted);
    if !Requested(s.req) then
      if Index(cfg, s.master) && held && !cfg.parkLast && rand % cfg.linger == 0
      then s.(gnt := s.gnt[s.granted := High], granted := NOBODY)
      else s
    else if held && s.req[cfg.ident[s.granted]] == Low then s
    else
      var d := NewGrant(cfg, s, rand);
      if !Index(cfg, d) then s
      else
        var gnt := s.gnt[d := Low];
        s.(gnt := if held then gnt[s.granted := High] else gnt, granted := d)
  }

  function Next(cfg: Setup, s: State, i: Inputs): State
    requires cfg.linger > 0 && |i.req| == |i.frame| == |i.irdy| == |cfg.ident| == |s.gnt|
    requires |s.req| == SLOTS && forall d :: 0 <= d < |cfg.ident| ==> cfg.ident[d] < SLOTS
  {
    var s' := s.(phase := (s.phase + 1) % 4);
    if s'.phase == 0 then
      s'.(req := Sampled(cfg, i.req, |i.req|), master := NextMaster(cfg, s.granted, s.master, i))
    else if s'.phase == 1 then Arbitrated(cfg, s', i.rand)
    else s'
  }

  // ----- safety in every reachable state

  /** GNT# is low for the granted device only, and only attached slots request. */
  ghost predicate Safe(cfg: Setup, s: State)
  {
    && s.phase < 4 && |s.req| == SLOTS && |s.gnt| == |cfg.ident|
    && (s.granted == NOBODY || Index(cfg, s.granted)) && (s.master == NOBODY || Index(cfg, s.master))
    && (forall d :: 0 <= d < |cfg.ident| ==> s.gnt[d] == if d == s.granted then Low else High)
    && (forall k :: 0 <= k < SLOTS && s.req[k] == Low ==> DeviceAt(cfg, k, 0) != NOBODY)
  }

  lemma {:induction false} SampledAttached(cfg: Setup, req: seq<Pin>, n: nat, k: nat)
    requires |req| == |cfg.ident| && n <= |req| && k < SLOTS && forall d :: 0 <= d < |cfg.ident| ==> cfg.ident[d] < SLOTS
    ensures Sampled(cfg, req, n)[k] == Low ==> DeviceAt(cfg, k, 0) != NOBODY
  {
    if n > 0 {
      SampledAttached(cfg, req, n - 1, k);
    }
  }

  /** The search stops at the first requesting slot after `at`, going round. */
  lemma {:induction false} HopsFind(req: seq<Bit>, at: nat, k: nat, goal: nat)
    requires |req| == SLOTS && at < SLOTS && 1 <= k <= goal <= SLOTS && req[(at + goal) % SLOTS] == Low
    ensures Hops(req, at, k) <= goal && req[(at + Hops(req, at, k)) % SLOTS] == Low
    decreases SLOTS - k
  {
    if k < goal && req[(at + k) % SLOTS] != Low {
      HopsFind(req, at, k + 1, goal);
    }
  }

  /** How many steps round from `at` to `s`, at least one. */
  function Ahead(at: nat, s: nat): (h: nat)
    requires at < SLOTS && s < SLOTS
    ensures 1 <= h <= SLOTS && (at + h) % SLOTS == s && (h == SLOTS <==> at == s)
  {
    if s > at then s - at else s + SLOTS - at
  }

  lemma Round(x: nat)
    requires x < 2 * SLOTS
    ensures x % SLOTS == if x < SLOTS then x else x - SLOTS
  {
  }

  lemma HopOn(req: seq<Bit>, at: nat, k: nat, goal: nat)
    requires |req| == SLOTS && at < SLOTS && goal < SLOTS && req[goal] == Low && 1 <= k <= Ahead(at, goal)
    requires req[(at + k) % SLOTS] != Low
    ensures k < Ahead(at, goal) && Hops(req, at, k + 1) == Hops(req, at, k)
    ensures ((at + k) % SLOTS + 1) % SLOTS == (at + (k + 1)) % SLOTS
  {
    Round(at + k);
    Round((at + k) % SLOTS + 1);
    if k < SLOTS {
      Round(at + k + 1);
    }
  }

  lemma HopDone(req: seq<Bit>, at: nat, k: nat)
    requires |req| == SLOTS && 1 <= k <= SLOTS && req[(at + k) % SLOTS] == Low
    ensures Hops(req, at, k) == k
  {
  }

  /** The new-device assertion never fails, and the grant never goes back to where it was. */
  lemma GrantFound(cfg: Setup, s: State, rand: nat)
    requires ValidSetup(cfg) && Safe(cfg, s) && Requested(s.req)
    requires Index(cfg, s.granted) ==> s.req[cfg.ident[s.granted]] != Low
    ensures Index(cfg, NewGrant(cfg, s, rand)) && NewGrant(cfg, s, rand) != s.granted
    ensures s.req[cfg.ident[NewGrant(cfg, s, rand)]] == Low
  {
    var at := SearchFrom(cfg, s.granted, rand);
    var k :| 0 <= k < SLOTS && s.req[k] == Low;
    HopsFind(s.req, at, 1, Ahead(at, k));
  }

  /**
   The new grant is the first requesting slot on from the old one, going round, or from the one
   the random number says if nobody was granted; of several devices there, the first gets it.
   */
  lemma NewGrantFirst(cfg: Setup, s: State, rand: nat)
    requires ValidSetup(cfg) && Safe(cfg, s) && Requested(s.req)
    requires Index(cfg, s.granted) ==> s.req[cfg.ident[s.granted]] != Low
    ensures Index(cfg, NewGrant(cfg, s, rand))
    ensures var at, d := if Index(cfg, s.granted) then cfg.ident[s.granted] else rand % 16, NewGrant(cfg, s, rand);
      && s.req[cfg.ident[d]] == Low && (forall k :: 0 <= k < 16 && s.req[k] == Low ==> Ahead(at, cfg.ident[d]) <= Ahead(at, k))
      && forall e :: 0 <= e < d ==> cfg.ident[e] != cfg.ident[d]
  {
    hide Hops, DeviceAt, Ahead;
    GrantFound(cfg, s, rand);
    hide Safe;
    var at := SearchFrom(cfg, s.granted, rand);
    SlotFirst(s.req, at);
    DeviceFirst(cfg, (at + Hops(s.req, at, 1)) % SLOTS, 0);
  }

  lemma SlotFirst(req: seq<Bit>, at: nat)
    requires |req| == SLOTS && at < SLOTS
    ensures forall k :: 0 <= k < 16 && req[k] == Low ==> Ahead(at, (at + Hops(req, at, 1)) % SLOTS) <= Ahead(at, k)
  {
    hide Hops, Ahead;
    AheadUnique(at, Hops(req, at, 1));
    forall k | 0 <= k < 16 && req[k] == Low ensures Ahead(at, (at + Hops(req, at, 1)) % SLOTS) <= Ahead(at, k) {
      HopsFind(req, at, 1, Ahead(at, k));
    }
  }

  lemma AheadUnique(at: nat, h: nat)
    requires at < SLOTS && 1 <= h <= SLOTS
    ensures Ahead(at, (at + h) % SLOTS) == h
  {
    Round(at + h);
  }

  lemma {:induction false} DeviceFirst(cfg: Setup, s: nat, d: nat)
    requires d <= |cfg.ident|
    ensures forall e :: d <= e < |cfg.ident| && cfg.ident[e] == s ==> d <= DeviceAt(cfg, s, d) <= e
    decreases |cfg.ident| - d
  {
    if d < |cfg.ident| && cfg.ident[d] != s {
      DeviceFirst(cfg, s, d + 1);
    }
  }

  /** Moving the grant from nobody or one device to another leaves one GNT# low. */
  lemma MovedSafe(cfg: Setup, s: State, d: int, s': State)
    requires Safe(cfg, s) && Index(cfg, d) && d != s.granted
    requires s' == s.(granted := d, gnt := if Index(cfg, s.granted) then s.gnt[d := Low][s.granted := High] else s.gnt[d := Low])
    ensures Safe(cfg, s')
  {
  }

  lemma ArbitratedSafe(cfg: Setup, s: State, rand: nat)
    requires ValidSetup(cfg) && Safe(cfg, s)
    ensures Safe(cfg, Arbitrated(cfg, s, rand))
  {
    hide NewGrant, DeviceAt;
    var s' := Arbitrated(cfg, s, rand);
    if Requested(s.req) && !(Index(cfg, s.granted) && s.req[cfg.ident[s.granted]] == Low) {
      GrantFound(cfg, s, rand);
      MovedSafe(cfg, s, NewGrant(cfg, s, rand), s');
    }
  }

  lemma StepSafe(cfg: Setup, s: State, i: Inputs)
    requires ValidSetup(cfg) && Safe(cfg, s) && ValidInputs(cfg, i)
    ensures Safe(cfg, Next(cfg, s, i))
  {
    hide Arbitrated, DeviceAt;
    var s' := s.(phase := (s.phase + 1) % 4);
    if s'.phase == 0 {
      forall k | 0 <= k < SLOTS ensures Sampled(cfg, i.req, |i.req|)[k] == Low ==> DeviceAt(cfg, k, 0) != NOBODY {
        SampledAttached(cfg, i.req, |i.req|, k);
      }
    } else if s'.phase == 1 {
      ArbitratedSafe(cfg, s', i.rand);
    }
  }

  ghost predicate AllValid(cfg: Setup, ins: seq<Inputs>)
  {
    forall k :: 0 <= k < |ins| ==> ValidInputs(cfg, ins[k])
  }

  /** The state after a run of inputs. */
  ghost function Run(cfg: Setup, s: State, ins: seq<Inputs>): (s': State)
    requires ValidSetup(cfg) && Safe(cfg, s) && AllValid(cfg, ins)
    ensures Safe(cfg, s')
  {
    if ins == [] then s else
    var before := Run(cfg, s, ins[..|ins| - 1]);
    StepSafe(cfg, before, ins[|ins| - 1]);
    Next(cfg, before, ins[|ins| - 1])
  }

  lemma StartSafe(cfg: Setup)
    requires ValidSetup(cfg)
    ensures Safe(cfg, Start(cfg))
  {
  }

  /** In every reachable state at most one device sees GNT# low: the granted one. */
  lemma OneGrant(cfg: Setup, ins: seq<Inputs>, d: nat)
    requires ValidSetup(cfg) && AllValid(cfg, ins) && d < |cfg.ident|
    ensures Safe(cfg, Start(cfg))
    ensures Run(cfg, Start(cfg), ins).gnt[d] == Low <==> Run(cfg, Start(cfg), ins).granted == d
  {
    StartSafe(cfg);
    assert Safe(cfg, Run(cfg, Start(cfg), ins));
  }

  /** A master loses the bus only at a rising edge where it drives neither FRAME# nor IRDY# low. */
  lemma MasterYields(cfg: Setup, s: State, i: Inputs)
    requires ValidSetup(cfg) && Safe(cfg, s) && ValidInputs(cfg, i)
    requires Index(cfg, s.master) && Next(cfg, s, i).master != s.master
    ensures Next(cfg, s, i).phase == 0 && i.frame[s.master] != Low && i.irdy[s.master] != Low && s.granted != s.master
    ensures Next(cfg, s, i).master == s.granted
  {
  }

  /** A device becomes master only at a rising edge and only while it is granted. */
  lemma MasterGranted(cfg: Setup, s: State, i: Inputs)
    requires ValidSetup(cfg) && Safe(cfg, s) && ValidInputs(cfg, i)
    requires Index(cfg, Next(cfg, s, i).master) && Next(cfg, s, i).master != s.master
    ensures Next(cfg, s, i).phase == 0 && s.granted == Next(cfg, s, i).master && s.gnt[s.granted] == Low
  {
  }

  /** A free bus goes to the grantee as soon as it drives FRAME# low; one given up by its master goes to the grantee at once. */
  lemma MasterTaken(cfg: Setup, s: State, i: Inputs)
    requires ValidSetup(cfg) && Safe(cfg, s) && ValidInputs(cfg, i) && s.phase == 3 && Index(cfg, s.granted)
    ensures !Index(cfg, s.master) ==> (Next(cfg, s, i).master == s.granted <==> i.frame[s.granted] == Low)
    ensures Index(cfg, s.master) && s.master != s.granted ==> (Next(cfg, s, i).master == s.granted <==> !Holds(i, s.master))
  {
  }

  /**
   Device `d` may take the bus: it is granted, GNT# is low for it alone, the clock is about to
   rise, and whoever has the bus drives neither FRAME# nor IRDY# low; a free bus must be claimed
   with FRAME#.
   */
  ghost predicate MayTake(cfg: Setup, s: State, i: Inputs, d: nat)
    requires ValidSetup(cfg) && Safe(cfg, s) && ValidInputs(cfg, i) && d < |cfg.ident|
  {
    && s.granted == d && s.phase == 3 && s.master != d
    && (forall e :: 0 <= e < |cfg.ident| ==> (s.gnt[e] == Low <==> e == d))
    && if Index(cfg, s.master) then !Holds(i, s.master) else i.frame[d] == Low
  }

  lemma MasterChanges(cfg: Setup, s: State, i: Inputs, d: nat)
    requires ValidSetup(cfg) && Safe(cfg, s) && ValidInputs(cfg, i) && d < |cfg.ident|
    ensures Next(cfg, s, i).master == d != s.master <==> MayTake(cfg, s, i, d)
  {
    hide Next, DeviceAt;
    NextSampled(cfg, s, i, 0);
    if Next(cfg, s, i).master == d != s.master {
      MasterGranted(cfg, s, i);
      if Index(cfg, s.master) {
        MasterYields(cfg, s, i);
      }
    }
    if s.phase == 3 && s.granted == d {
      MasterTaken(cfg, s, i);
    }
  }

  /** A master is gone, with no successor, exactly if at a rising edge nobody is granted and it drives neither line low. */
  lemma MasterDropped(cfg: Setup, s: State, i: Inputs)
    requires ValidSetup(cfg) && Safe(cfg, s) && ValidInputs(cfg, i) && Index(cfg, s.master)
    ensures Next(cfg, s, i).master == NOBODY <==>
      s.phase == 3 && s.granted == NOBODY && i.frame[s.master] != Low && i.irdy[s.master] != Low
  {
    hide DeviceAt, Sampled, Arbitrated;
    NextCases(cfg, s, i);
    ArbitrationKeepsMaster(cfg, s.(phase := (s.phase + 1) % 4), i.rand);
  }

  lemma ArbitrationKeepsMaster(cfg: Setup, s: State, rand: nat)
    requires cfg.linger > 0 && |s.req| == SLOTS && |s.gnt| == |cfg.ident|
    requires Index(cfg, s.granted) ==> cfg.ident[s.granted] < SLOTS
    ensures Arbitrated(cfg, s, rand).master == s.master
  {
  }

  /** A master without grant that drives neither line low is gone after the next rising edge, four steps at most. */
  lemma {:induction false} MasterReleased(cfg: Setup, s: State, ins: seq<Inputs>, d: nat)
    requires ValidSetup(cfg) && Safe(cfg, s) && AllValid(cfg, ins) && d < |cfg.ident| && s.phase + |ins| >= 4
    requires forall n :: 0 <= n < |ins| ==> !Holds(ins[n], d) && Run(cfg, s, ins[..n]).granted != d
    ensures Run(cfg, s, ins).master != d
    ensures (forall n :: 0 <= n < |ins| ==> Run(cfg, s, ins[..n]).granted == NOBODY) && s.master == d ==> Run(cfg, s, ins).master == NOBODY
  {
    hide Run, Next;
    var before, i := ins[..|ins| - 1], ins[|ins| - 1];
    var t := Run(cfg, s, before);
    forall n | 0 <= n < |before| ensures before[..n] == ins[..n] {
    }
    RunStep(cfg, s, ins);
    PhaseAfter(cfg, s, before);
    if s.phase + |before| >= 4 {
      MasterReleased(cfg, s, before, d);
      ReleasedStays(cfg, t, i, d);
    } else {
      MasterUntilEdge(cfg, s, before);
      ReleasedAtEdge(cfg, t, i, d);
    }
  }

  lemma ReleasedStays(cfg: Setup, s: State, i: Inputs, d: nat)
    requires ValidSetup(cfg) && Safe(cfg, s) && ValidInputs(cfg, i) && d < |cfg.ident| && s.master != d && s.granted != d
    ensures Next(cfg, s, i).master != d
    ensures s.granted == NOBODY && s.master == NOBODY ==> Next(cfg, s, i).master == NOBODY
  {
    hide DeviceAt, Sampled, Arbitrated;
    NextCases(cfg, s, i);
    ArbitrationKeepsMaster(cfg, s.(phase := (s.phase + 1) % 4), i.rand);
  }

  lemma ReleasedAtEdge(cfg: Setup, s: State, i: Inputs, d: nat)
    requires ValidSetup(cfg) && Safe(cfg, s) && ValidInputs(cfg, i) && d < |cfg.ident| && s.granted != d
    requires s.phase == 3 && !Holds(i, d)
    ensures Next(cfg, s, i).master != d
    ensures s.granted == NOBODY && s.master == d ==> Next(cfg, s, i).master == NOBODY
  {
    hide DeviceAt, Sampled, Arbitrated;
    NextCases(cfg, s, i);
  }

  /** The master does not change before the rising edge. */
  lemma {:induction false} MasterUntilEdge(cfg: Setup, s: State, ins: seq<Inputs>)
    requires ValidSetup(cfg) && Safe(cfg, s) && AllValid(cfg, ins) && s.phase + |ins| < 4
    ensures Run(cfg, s, ins).master == s.master
  {
    if ins != [] {
      hide Run, Next, Sampled, Arbitrated, DeviceAt, NextMaster;
      var before, i := ins[..|ins| - 1], ins[|ins| - 1];
      var t := Run(cfg, s, before);
      MasterUntilEdge(cfg, s, before);
      RunStep(cfg, s, ins);
      PhaseAfter(cfg, s, before);
      NextCases(cfg, t, i);
      ArbitrationKeepsMaster(cfg, t.(phase := (t.phase + 1) % 4), i.rand);
    } else {
      NoSteps(cfg, s);
    }
  }

  lemma NoSteps(cfg: Setup, s: State)
    requires ValidSetup(cfg) && Safe(cfg, s)
    ensures Run(cfg, s, []) == s
  {
  }

  /** In every run a master keeps the bus as long as it drives FRAME# or IRDY# low. */
  lemma {:induction false} MasterHolds(cfg: Setup, s: State, ins: seq<Inputs>, d: nat)
    requires ValidSetup(cfg) && Safe(cfg, s) && AllValid(cfg, ins) && d < |cfg.ident| && s.master == d
    requires forall n :: 0 <= n < |ins| ==> Holds(ins[n], d)
    ensures Run(cfg, s, ins).master == d
  {
    if ins != [] {
      hide Run, Next;
      var last := |ins| - 1;
      MasterHolds(cfg, s, ins[..last], d);
      RunStep(cfg, s, ins);
      var t := Run(cfg, s, ins[..last]);
      if Next(cfg, t, ins[last]).master != d {
        MasterYields(cfg, t, ins[last]);
        assert false;
      }
    }
  }

  /** Device `d` took the bus with input `n` of a run and has kept it. */
  ghost predicate TookBus(cfg: Setup, s: State, ins: seq<Inputs>, n: nat, d: nat)
    requires ValidSetup(cfg) && Safe(cfg, s) && AllValid(cfg, ins) && n < |ins| && d < |cfg.ident|
  {
    MayTake(cfg, Run(cfg, s, ins[..n]), ins[n], d) && forall m :: n < m <= |ins| ==> Run(cfg, s, ins[..m]).master == d
  }

  lemma RunStep(cfg: Setup, s: State, ins: seq<Inputs>)
    requires ValidSetup(cfg) && Safe(cfg, s) && AllValid(cfg, ins) && ins != []
    ensures var before := Run(cfg, s, ins[..|ins| - 1]);
      ValidInputs(cfg, ins[|ins| - 1]) && Run(cfg, s, ins) == Next(cfg, before, ins[|ins| - 1])
  {
    hide Next, Safe;
  }

  /** In every run, whoever is master took the bus when it might, unless it was master from the start. */
  lemma {:induction false} MasterTookBus(cfg: Setup, s: State, ins: seq<Inputs>, d: nat)
    requires ValidSetup(cfg) && Safe(cfg, s) && AllValid(cfg, ins) && d < |cfg.ident|
    requires Run(cfg, s, ins).master == d
    ensures (exists n :: 0 <= n < |ins| && TookBus(cfg, s, ins, n, d)) || forall m :: 0 <= m <= |ins| ==> Run(cfg, s, ins[..m]).master == d
  {
    hide Run, Safe, MayTake;
    assert ins[..|ins|] == ins;
    if ins != [] {
      var last := |ins| - 1;
      var before := ins[..last];
      if Run(cfg, s, before).master == d {
        MasterTookBus(cfg, s, before, d);
        forall m | 0 <= m <= last ensures before[..m] == ins[..m] {
        }
        if n :| 0 <= n < last && TookBus(cfg, s, before, n, d) {
          TookBusKeeps(cfg, s, ins, n, d);
        } else {
          forall m | 0 <= m <= |ins| ensures Run(cfg, s, ins[..m]).master == d {
            if m <= last {
              assert before[..m] == ins[..m];
            }
          }
        }
      } else {
        RunStep(cfg, s, ins);
        MasterChanges(cfg, Run(cfg, s, before), ins[last], d);
        assert TookBus(cfg, s, ins, last, d);
      }
    }
  }

  lemma TookBusKeeps(cfg: Setup, s: State, ins: seq<Inputs>, n: nat, d: nat)
    requires ValidSetup(cfg) && Safe(cfg, s) && AllValid(cfg, ins) && n < |ins| - 1 && d < |cfg.ident|
    requires TookBus(cfg, s, ins[..|ins| - 1], n, d) && Run(cfg, s, ins).master == d
    ensures TookBus(cfg, s, ins, n, d)
  {
    hide Run, Safe, MayTake;
    var before := ins[..|ins| - 1];
    assert ins[..|ins|] == ins && before[..n] == ins[..n];
    forall m | n < m <= |ins| ensures Run(cfg, s, ins[..m]).master == d {
      if m <= |before| {
        assert before[..m] == ins[..m];
      }
    }
  }

  /**
   The grant is taken away without going to another device exactly if nobody requests, there
   is a master, grants are not parked, and the dice fall that way.
   */
  lemma GrantRecalled(cfg: Setup, s: State, i: Inputs)
    requires ValidSetup(cfg) && Safe(cfg, s) && ValidInputs(cfg, i) && Index(cfg, s.granted)
    ensures Next(cfg, s, i).granted == NOBODY <==>
      s.phase == 0 && !Requested(s.req) && Index(cfg, s.master) && !cfg.parkLast && i.rand % cfg.linger == 0
  {
    hide NewGrant;
    if s.phase == 0 && Requested(s.req) && s.req[cfg.ident[s.granted]] != Low {
      GrantFound(cfg, s.(phase := 1), i.rand);
    }
  }

  /** The grant changes one step after the rising edge only; it stays while its holder requests. */
  lemma GrantStays(cfg: Setup, s: State, i: Inputs)
    requires ValidSetup(cfg) && Safe(cfg, s) && ValidInputs(cfg, i)
    ensures Next(cfg, s, i).granted != s.granted ==> s.phase == 0
    ensures Index(cfg, s.granted) && s.req[cfg.ident[s.granted]] == Low ==> Next(cfg, s, i).granted == s.granted
    ensures !Index(cfg, s.granted) && !Requested(s.req) ==> Next(cfg, s, i).granted == s.granted
    ensures !Requested(s.req) <==> forall k :: 0 <= k < 16 ==> s.req[k] != Low
  {
    hide DeviceAt, NewGrant, Sampled, NextMaster;
    NextCases(cfg, s, i);
    if Index(cfg, s.granted) && s.req[cfg.ident[s.granted]] == Low {
      assert Requested(s.req);
    }
  }

  /** A slot's request is that of the last of its devices that drives one, high if none does. */
  lemma {:induction false} SampledLast(cfg: Setup, req: seq<Pin>, n: nat, k: nat)
    requires ValidSetup(cfg) && n <= |req| == |cfg.ident| && k < SLOTS
    ensures (forall d :: 0 <= d < n && cfg.ident[d] == k ==> req[d] == Silent || req[d] == Drives(Z)) ==> Sampled(cfg, req, n)[k] == High
    ensures forall d ::
      (&& 0 <= d < n && cfg.ident[d] == k && req[d] != Silent && req[d] != Drives(Z)
       && (forall e :: d < e < n && cfg.ident[e] == k ==> req[e] == Silent || req[e] == Drives(Z)))
      ==> Sampled(cfg, req, n)[k] == req[d].bit
  {
    if n > 0 {
      SampledLast(cfg, req, n - 1, k);
    }
  }

  // ----- nobody starves

  /** How far the grant still has to travel to slot `k`: one more than all the way round from nobody. */
  ghost function Distance(cfg: Setup, s: State, k: nat): nat
    requires ValidSetup(cfg) && k < SLOTS
  {
    if !Index(cfg, s.granted) then SLOTS
    else if cfg.ident[s.granted] == k then 0
    else Ahead(cfg.ident[s.granted], k)
  }

  lemma AheadShrinks(at: nat, h: nat, k: nat)
    requires at < SLOTS && k < SLOTS && 1 <= h <= Ahead(at, k)
    ensures (at + h) % SLOTS == if at + h < SLOTS then at + h else at + h - SLOTS
    ensures h == Ahead(at, k) ==> (at + h) % SLOTS == k
    ensures h < Ahead(at, k) ==> (at + h) % SLOTS != k && Ahead((at + h) % SLOTS, k) == Ahead(at, k) - h
  {
  }

  /** The new grantee is closer to a requesting slot `k` than the old one, or is there. */
  lemma NewGrantCloser(cfg: Setup, s: State, rand: nat, k: nat)
    requires ValidSetup(cfg) && Safe(cfg, s) && k < SLOTS && s.req[k] == Low
    requires Index(cfg, s.granted) ==> s.req[cfg.ident[s.granted]] != Low
    ensures Index(cfg, NewGrant(cfg, s, rand)) && NewGrant(cfg, s, rand) != s.granted
    ensures var d := cfg.ident[NewGrant(cfg, s, rand)];
      d == k || Ahead(d, k) < if Index(cfg, s.granted) then Ahead(cfg.ident[s.granted], k) else SLOTS
  {
    hide Hops, Ahead, DeviceAt;
    assert Requested(s.req);
    GrantFound(cfg, s, rand);
    hide Safe, Requested;
    var at := SearchFrom(cfg, s.granted, rand);
    HopsFind(s.req, at, 1, Ahead(at, k));
    AheadShrinks(at, Hops(s.req, at, 1), k);
  }

  /** While slot `k` requests, every move of the grant brings it closer; the grant is never recalled. */
  lemma GrantApproaches(cfg: Setup, s: State, i: Inputs, k: nat)
    requires ValidSetup(cfg) && Safe(cfg, s) && ValidInputs(cfg, i) && k < SLOTS && s.req[k] == Low
    requires Distance(cfg, s, k) > 0
    ensures Next(cfg, s, i).granted != s.granted ==> Distance(cfg, Next(cfg, s, i), k) < Distance(cfg, s, k)
    ensures Next(cfg, s, i).granted == s.granted ==> Distance(cfg, Next(cfg, s, i), k) == Distance(cfg, s, k)
  {
    hide NewGrant, Sampled, NextMaster;
    var s' := s.(phase := (s.phase + 1) % 4);
    assert Safe(cfg, s');
    if s'.phase == 1 && !(Index(cfg, s.granted) && s.req[cfg.ident[s.granted]] == Low) {
      NewGrantCloser(cfg, s', i.rand, k);
    }
  }

  /** The number of times the grant moves in a run. */
  ghost function Moves(cfg: Setup, s: State, ins: seq<Inputs>): nat
    requires ValidSetup(cfg) && Safe(cfg, s) && AllValid(cfg, ins)
  {
    if ins == [] then 0 else
    var before := ins[..|ins| - 1];
    Moves(cfg, s, before) + if Run(cfg, s, ins).granted != Run(cfg, s, before).granted then 1 else 0
  }

  /** Slot `k` requests in every state of the run but the last, and is never granted up to then. */
  ghost predicate Waits(cfg: Setup, s: State, ins: seq<Inputs>, k: nat)
    requires ValidSetup(cfg) && Safe(cfg, s) && AllValid(cfg, ins) && k < SLOTS
  {
    forall n :: 0 <= n < |ins| ==>
      var t := Run(cfg, s, ins[..n]); t.req[k] == Low && Distance(cfg, t, k) > 0
  }

  lemma WaitsBefore(cfg: Setup, s: State, ins: seq<Inputs>, k: nat)
    requires ValidSetup(cfg) && Safe(cfg, s) && AllValid(cfg, ins) && k < SLOTS && ins != []
    requires Waits(cfg, s, ins, k)
    ensures AllValid(cfg, ins[..|ins| - 1]) && Waits(cfg, s, ins[..|ins| - 1], k)
  {
    var before := ins[..|ins| - 1];
    forall n | 0 <= n < |before|
      ensures Run(cfg, s, before[..n]).req[k] == Low && Distance(cfg, Run(cfg, s, before[..n]), k) > 0
    {
      assert before[..n] == ins[..n];
    }
  }

  /** Every move uses up distance. */
  lemma {:induction false} MovesBounded(cfg: Setup, s: State, ins: seq<Inputs>, k: nat)
    requires ValidSetup(cfg) && Safe(cfg, s) && AllValid(cfg, ins) && k < SLOTS && Waits(cfg, s, ins, k)
    ensures Moves(cfg, s, ins) + Distance(cfg, Run(cfg, s, ins), k) <= Distance(cfg, s, k)
  {
    if ins != [] {
      var before := ins[..|ins| - 1];
      WaitsBefore(cfg, s, ins, k);
      MovesBounded(cfg, s, before, k);
      assert ins[..|before|] == before;
      GrantApproaches(cfg, Run(cfg, s, before), ins[|ins| - 1], k);
    }
  }

  /**
   No starvation: a slot that keeps requesting is granted at the latest when the grant has
   moved 15 times, or 16 times if nobody held it.
   */
  lemma NoStarvation(cfg: Setup, s: State, ins: seq<Inputs>, k: nat)
    requires ValidSetup(cfg) && Safe(cfg, s) && AllValid(cfg, ins) && k < SLOTS && Waits(cfg, s, ins, k)
    requires Moves(cfg, s, ins) >= if Index(cfg, s.granted) then 15 else 16
    ensures Distance(cfg, Run(cfg, s, ins), k) == 0
    ensures Index(cfg, Run(cfg, s, ins).granted) && cfg.ident[Run(cfg, s, ins).granted] == k
  {
    MovesBounded(cfg, s, ins, k);
  }

  ghost predicate OwnSlots(cfg: Setup)
  {
    forall d, e :: 0 <= d < e < |cfg.ident| ==> cfg.ident[d] != cfg.ident[e]
  }

  /** With one device per slot, a slot's request is that device's REQ#, high if it drives none. */
  lemma {:induction false} SampledOwn(cfg: Setup, req: seq<Pin>, n: nat, d: nat)
    requires ValidSetup(cfg) && OwnSlots(cfg) && d < n <= |req| == |cfg.ident|
    ensures Sampled(cfg, req, n)[cfg.ident[d]] == if Heard(req[d]) then req[d].bit else High
  {
    if d < n - 1 {
      SampledOwn(cfg, req, n - 1, d);
    } else {
      SampledOthers(cfg, req, n - 1, d);
    }
  }

  lemma {:induction false} SampledOthers(cfg: Setup, req: seq<Pin>, n: nat, d: nat)
    requires ValidSetup(cfg) && OwnSlots(cfg) && n <= d < |req| == |cfg.ident|
    ensures Sampled(cfg, req, n)[cfg.ident[d]] == High
  {
    if n > 0 {
      SampledOthers(cfg, req, n - 1, d);
    }
  }

  /** With one device per slot it is that very device that gets the grant. */
  lemma DeviceGranted(cfg: Setup, s: State, ins: seq<Inputs>, d: nat)
    requires ValidSetup(cfg) && OwnSlots(cfg) && Safe(cfg, s) && AllValid(cfg, ins) && d < |cfg.ident|
    requires Waits(cfg, s, ins, cfg.ident[d])
    requires Moves(cfg, s, ins) >= if Index(cfg, s.granted) then 15 else 16
    ensures Run(cfg, s, ins).granted == d && Run(cfg, s, ins).gnt[d] == Low
  {
    NoStarvation(cfg, s, ins, cfg.ident[d]);
    assert Safe(cfg, Run(cfg, s, ins));
  }

  /** The device drives REQ# low all along. */
  ghost predicate Asks(cfg: Setup, ins: seq<Inputs>, d: nat)
    requires AllValid(cfg, ins) && d < |cfg.ident|
  {
    forall n :: 0 <= n < |ins| ==> ins[n].req[d] == Drives(Low)
  }

  lemma {:induction false} PhaseAfter(cfg: Setup, s: State, ins: seq<Inputs>)
    requires ValidSetup(cfg) && Safe(cfg, s) && AllValid(cfg, ins)
    ensures Run(cfg, s, ins).phase == (s.phase + |ins|) % 4
  {
    hide Sampled, Next;
    if ins != [] {
      var before := ins[..|ins| - 1];
      PhaseAfter(cfg, s, before);
      NextSampled(cfg, Run(cfg, s, before), ins[|ins| - 1], 0);
    }
  }

  /** After one rising edge, four steps at most, the arbiter has seen the request, and sees it ever after. */
  lemma {:induction false} RequestSeen(cfg: Setup, s: State, ins: seq<Inputs>, d: nat)
    requires ValidSetup(cfg) && OwnSlots(cfg) && Safe(cfg, s) && AllValid(cfg, ins) && d < |cfg.ident| && Asks(cfg, ins, d)
    ensures s.req[cfg.ident[d]] == Low || s.phase + |ins| >= 4 ==> Run(cfg, s, ins).req[cfg.ident[d]] == Low
  {
    hide Sampled, Next, OwnSlots, Safe;
    SafeFields(cfg, s);
    if ins != [] {
      var before, i := ins[..|ins| - 1], ins[|ins| - 1];
      assert Asks(cfg, before, d);
      RequestSeen(cfg, s, before, d);
      PhaseAfter(cfg, s, before);
      assert Heard(i.req[d]) && i.req[d].bit == Low;
      SampledOwn(cfg, i.req, |i.req|, d);
      NextSampled(cfg, Run(cfg, s, before), i, cfg.ident[d]);
    }
  }

  lemma NextSampled(cfg: Setup, s: State, i: Inputs, k: nat)
    requires ValidSetup(cfg) && Safe(cfg, s) && ValidInputs(cfg, i) && k < SLOTS
    ensures Next(cfg, s, i).phase == (s.phase + 1) % 4
    ensures Next(cfg, s, i).req[k] == if s.phase == 3 then Sampled(cfg, i.req, |i.req|)[k] else s.req[k]
  {
    hide NewGrant, DeviceAt, Sampled;
  }

  /**
   With one device per slot, a device that drives REQ# low all along, and whose request has
   been sampled once, is granted before the grant has moved more than 15 times, or 16 times
   if nobody held it.
   */
  lemma DeviceNotStarved(cfg: Setup, s: State, ins: seq<Inputs>, d: nat)
    requires ValidSetup(cfg) && OwnSlots(cfg) && Safe(cfg, s) && AllValid(cfg, ins) && d < |cfg.ident|
    requires Asks(cfg, ins, d) && s.req[cfg.ident[d]] == Low
    requires Moves(cfg, s, ins) >= if Index(cfg, s.granted) then 15 else 16
    ensures exists n :: 0 <= n <= |ins| && Run(cfg, s, ins[..n]).granted == d && Run(cfg, s, ins[..n]).gnt[d] == Low
  {
    hide Run, Moves;
    assert ins[..|ins|] == ins;
    if Waits(cfg, s, ins, cfg.ident[d]) {
      DeviceGranted(cfg, s, ins, d);
    } else {
      var n :| 0 <= n < |ins| && !(Run(cfg, s, ins[..n]).req[cfg.ident[d]] == Low && Distance(cfg, Run(cfg, s, ins[..n]), cfg.ident[d]) > 0);
      RequestSeen(cfg, s, ins[..n], d);
      ArrivedAt(cfg, Run(cfg, s, ins[..n]), d);
    }
  }

  lemma ArrivedAt(cfg: Setup, s: State, d: nat)
    requires ValidSetup(cfg) && OwnSlots(cfg) && Safe(cfg, s) && d < |cfg.ident| && Distance(cfg, s, cfg.ident[d]) == 0
    ensures s.granted == d && s.gnt[d] == Low
  {
  }

  /** And the grant does move: at the next arbitration, unless the grantee itself still requests. */
  lemma GrantMoves(cfg: Setup, s: State, i: Inputs)
    requires ValidSetup(cfg) && Safe(cfg, s) && ValidInputs(cfg, i) && s.phase == 0 && Requested(s.req)
    requires Index(cfg, s.granted) ==> s.req[cfg.ident[s.granted]] != Low
    ensures Next(cfg, s, i).granted != s.granted && Index(cfg, Next(cfg, s, i).granted)
    ensures s.req[cfg.ident[Next(cfg, s, i).granted]] == Low
  {
    hide NewGrant;
    GrantFound(cfg, s.(phase := 1), i.rand);
  }

  lemma NotAsked(cfg: Setup, s: State)
    requires |s.req| == SLOTS && s.phase != 0
    ensures !Draws(cfg, s)
  {
  }

  lemma NextCases(cfg: Setup, s: State, i: Inputs)
    requires ValidSetup(cfg) && Safe(cfg, s) && ValidInputs(cfg, i)
    ensures var s' := s.(phase := (s.phase + 1) % 4);
      Next(cfg, s, i) ==
        if s'.phase == 0 then s'.(req := Sampled(cfg, i.req, |i.req|), master := NextMaster(cfg, s.granted, s.master, i))
        else if s'.phase == 1 then Arbitrated(cfg, s', i.rand) else s'
  {
  }

  lemma PhaseSafe(cfg: Setup, s: State, phase: nat)
    requires Safe(cfg, s) && phase < 4
    ensures Safe(cfg, s.(phase := phase))
  {
  }

  lemma SafeFields(cfg: Setup, s: State)
    requires ValidSetup(cfg) && Safe(cfg, s)
    ensures s.phase < 4 && |s.req| == SLOTS && |s.gnt| == |cfg.ident| && (s.granted == NOBODY || Index(cfg, s.granted))
    ensures Index(cfg, s.granted) ==> cfg.ident[s.granted] < SLOTS
  {
  }

  // ----- random numbers

  const SEED: Mersenne.Word := 1

  /** A number is asked for to recall a parked grant by chance, or to begin a search at random. */
  ghost predicate Draws(cfg: Setup, s: State)
    requires |s.req| == SLOTS
  {
    s.phase == 0 &&
    if Requested(s.req) then !Index(cfg, s.granted)
    else Index(cfg, s.master) && Index(cfg, s.granted) && !cfg.parkLast
  }

  /** Otherwise the number makes no difference. */
  lemma OnlyWhenDrawn(cfg: Setup, s: State, i: Inputs, rand: nat)
    requires ValidSetup(cfg) && Safe(cfg, s) && ValidInputs(cfg, i) && !Draws(cfg, s)
    ensures Next(cfg, s, i) == Next(cfg, s, i.(rand := rand))
  {
    hide Next, Draws, Arbitrated, Sampled, NextMaster;
    NextCases(cfg, s, i);
    NextCases(cfg, s, i.(rand := rand));
    SameMaster(cfg, s, i, rand);
    if s.phase == 0 {
      ArbitratedAlike(cfg, s, i.rand, rand);
    }
  }

  lemma ArbitratedAlike(cfg: Setup, s: State, a: nat, b: nat)
    requires ValidSetup(cfg) && Safe(cfg, s) && !Draws(cfg, s) && s.phase == 0
    ensures Arbitrated(cfg, s.(phase := 1), a) == Arbitrated(cfg, s.(phase := 1), b)
  {
    SameArbitration(cfg, s.(phase := 1), a, b);
  }

  lemma SameMaster(cfg: Setup, s: State, i: Inputs, rand: nat)
    requires ValidInputs(cfg, i)
    ensures NextMaster(cfg, s.granted, s.master, i) == NextMaster(cfg, s.granted, s.master, i.(rand := rand))
  {
  }

  lemma SameArbitration(cfg: Setup, s: State, a: nat, b: nat)
    requires cfg.linger > 0 && |s.req| == SLOTS && |s.gnt| == |cfg.ident|
    requires Index(cfg, s.granted) ==> cfg.ident[s.granted] < SLOTS
    requires if Requested(s.req) then Index(cfg, s.granted)
             else !(Index(cfg, s.master) && Index(cfg, s.granted) && !cfg.parkLast)
    ensures Arbitrated(cfg, s, a) == Arbitrated(cfg, s, b)
  {
    hide NewGrant, Requested;
    if Index(cfg, s.granted) {
      SameSearch(cfg, s, a, b);
    }
  }

  lemma SameSearch(cfg: Setup, s: State, a: nat, b: nat)
    requires |s.req| == SLOTS && Index(cfg, s.granted)
    ensures NewGrant(cfg, s, a) == NewGrant(cfg, s, b)
  {
  }

  /** How many numbers a run has drawn. */
  ghost function DrawsOf(cfg: Setup, s: State, ins: seq<Inputs>): nat
    requires ValidSetup(cfg) && Safe(cfg, s) && AllValid(cfg, ins)
  {
    if ins == [] then 0 else
    var before := ins[..|ins| - 1];
    DrawsOf(cfg, s, before) + if Draws(cfg, Run(cfg, s, before)) then 1 else 0
  }

  /** Number `n` of the sequence that belongs to the seed. */
  ghost function RandomAt(n: nat): Mersenne.Word
  {
    Mersenne.Temper(Mersenne.Sequence(SEED, Mersenne.N + n))
  }

  lemma RandomFits(n: nat)
    ensures RandomAt(n) < 0x1_0000_0000
  {
    hide Mersenne.Temper, Mersenne.Sequence;
    Mersenne.SequenceNarrow(SEED, Mersenne.N + n);
    Mersenne.TemperNarrow(Mersenne.Sequence(SEED, Mersenne.N + n));
  }

  // ----- the arbiter itself

  class Arbiter {
    const cfg: Setup
    const req: array<Bit>
    const rng: Mersenne.Generator
    var granted: int
    var master: int
    var gnt: seq<Bit>
    var phase: nat

    ghost function Now(): State
      reads this, req
    {
      State(granted, master, req[..], gnt, phase)
    }

    ghost predicate Valid()
      reads this, req, rng, rng.mt
    {
      ValidSetup(cfg) && req.Length == SLOTS && Safe(cfg, Now()) && rng.Valid() && rng.seed == SEED && rng.Drawn() >= 0
    }

    constructor (cfg: Setup)
      requires ValidSetup(cfg)
      ensures Valid() && fresh(req) && fresh(rng) && fresh(rng.mt)
      ensures this.cfg == cfg && Now() == Start(cfg) && rng.Drawn() == 0
    {
      this.cfg := cfg;
      req := new Bit[SLOTS](_ => High);
      granted, master, phase := NOBODY, NOBODY, 0;
      gnt := seq(|cfg.ident|, _ => High);
      rng := new Mersenne.Generator();
      new;
      rng.Seed(SEED);
    }

    /** Lines 331-349. */
    method Sample(pins: seq<Pin>)
      requires Valid() && |pins| == |cfg.ident|
      modifies req
      ensures req[..] == Sampled(cfg, pins, |pins|)
    {
      var idx := 0;
      while idx < SLOTS
        invariant 0 <= idx <= SLOTS && forall k :: 0 <= k < idx ==> req[k] == High
      {
        req[idx] := High;
        idx := idx + 1;
      }
      var d := 0;
      while d < |pins|
        invariant 0 <= d <= |pins| && req[..] == Sampled(cfg, pins, d)
      {
        if pins[d].Drives? && pins[d].bit != Z {
          req[cfg.ident[d]] := pins[d].bit;
        }
        d := d + 1;
      }
    }

    /** track_req_n_, on a rising edge. */
    method TrackReq(i: Pins, ghost rand: nat)
      requires Valid() && ValidInputs(cfg, With(i, rand))
      modifies req, this`master
      ensures req[..] == Sampled(cfg, i.req, |i.req|) && master == NextMaster(cfg, granted, old(master), With(i, rand))
    {
      Sample(i.req);
      if master == NOBODY && granted == NOBODY {
      } else if master == NOBODY {
        if i.frame[granted] == Low {
          master := granted;
        }
      } else if master == granted {
      } else if granted != NOBODY {
        if !(i.frame[master] == Low || i.irdy[master] == Low) {
          master := granted;
        }
      } else if i.frame[master] != Low && i.irdy[master] != Low {
        master := NOBODY;
      }
    }

    method CountRequests() returns (count: nat)
      requires req.Length == SLOTS
      ensures count > 0 <==> Requested(req[..])
    {
      count := 0;
      var idx := 0;
      while idx < SLOTS
        invariant 0 <= idx <= SLOTS && (count > 0 <==> exists k :: 0 <= k < idx && req[k] == Low)
      {
        if req[idx] == Low {
          count := count + 1;
        }
        idx := idx + 1;
      }
      assert Requested(req[..]) <==> exists k :: 0 <= k < SLOTS && req[k] == Low by {
        assert forall k :: 0 <= k < SLOTS ==> req[..][k] == req[k];
      }
    }

    /** The do-while search of lines 441-443. It ends because somebody requests. */
    method Search(at: nat) returns (slot: nat)
      requires req.Length == SLOTS && at < SLOTS && Requested(req[..])
      ensures slot < SLOTS && slot == (at + Hops(req[..], at, 1)) % SLOTS
    {
      ghost var s := req[..];
      hide Hops, Ahead;
      ghost var goal: nat :| goal < SLOTS && s[goal] == Low;
      slot := (at + 1) % SLOTS;
      ghost var k := 1;
      while req[slot] != Low
        invariant 1 <= k <= Ahead(at, goal) && slot == (at + k) % SLOTS && req[..] == s
        invariant Hops(s, at, k) == Hops(s, at, 1)
        decreases SLOTS - k
      {
        assert s[slot] == req[slot];
        HopOn(s, at, k, goal);
        slot := (slot + 1) % SLOTS;
        k := k + 1;
      }
      assert s[slot] == req[slot];
      HopDone(s, at, k);
    }

    method FindDevice(slot: nat) returns (d: int)
      ensures d == DeviceAt(cfg, slot, 0)
    {
      d := 0;
      while d < |cfg.ident|
        invariant 0 <= d <= |cfg.ident| && DeviceAt(cfg, slot, d) == DeviceAt(cfg, slot, 0)
      {
        if cfg.ident[d] == slot {
          return;
        }
        d := d + 1;
      }
      d := NOBODY;
    }

    /** lrand_: the next number; being below 2^32 it is not negative as a `long`. */
    method Random() returns (rand: nat)
      requires Valid()
      modifies rng, rng.mt
      ensures Valid() && rng.Drawn() == old(rng.Drawn()) + 1
      ensures rand == RandomAt(old(rng.Drawn())) as nat
    {
      hide Safe, Mersenne.Generator.Drawn;
      var y := rng.Draw();
      rand := y as nat;
    }

    /** arbitrate_, one phase after the rising edge. */
    method Arbitrate() returns (ghost rand: nat)
      requires Valid()
      modifies this`granted, this`gnt, rng, rng.mt
      ensures Now() == Arbitrated(cfg, old(Now()), rand)
      ensures Tossed(old(Now()).(phase := 0), old(rng.Drawn()), rand)
    {
      rand := 0;
      var count := CountRequests();
      if count == 0 {
        if master != NOBODY && granted != NOBODY && !cfg.parkLast {
          var r := Random();
          rand := r;
          if r % cfg.linger == 0 {
            gnt := gnt[granted := High];
            granted := NOBODY;
          }
        }
        return;
      }
      if granted != NOBODY && req[cfg.ident[granted]] == Low {
        return;
      }
      rand := MoveGrant();
    }

    /** A number was drawn exactly if one was asked for, and then it is the next of the sequence. */
    ghost predicate Tossed(was: State, drawn: int, rand: nat)
      reads rng, rng.mt
      requires |was.req| == SLOTS
    {
      && rng.Valid() && rng.seed == SEED && drawn >= 0
      && rng.Drawn() == drawn + (if Draws(cfg, was) then 1 else 0)
      && (Draws(cfg, was) ==> rand == RandomAt(drawn) as nat)
    }

    method MoveGrant() returns (ghost rand: nat)
      requires Valid() && Requested(req[..]) && (granted != NOBODY ==> req[cfg.ident[granted]] != Low)
      modifies this`granted, this`gnt, rng, rng.mt
      ensures granted == NewGrant(cfg, old(Now()), rand) && Index(cfg, granted)
      ensures gnt == var g := old(gnt)[granted := Low]; if old(granted) == NOBODY then g else g[old(granted) := High]
      ensures Tossed(old(Now()).(phase := 0), old(rng.Drawn()), rand)
    {
      hide Safe, DeviceAt, Hops, Requested;
      SafeFields(cfg, Now());
      var oldGrant := if granted != NOBODY then cfg.ident[granted] else -1;
      var from := 0;
      rand := 0;
      if granted != NOBODY {
        from := cfg.ident[granted];
      } else {
        from := Random();
        rand := from;
        from := from % SLOTS;
      }
      var newGrant := Search(from);
      GrantFound(cfg, Now(), rand);
      assert newGrant != oldGrant;
      var newDev := FindDevice(newGrant);
      gnt := gnt[newDev := Low];
      if granted != NOBODY {
        gnt := gnt[granted := High];
      }
      granted := newDev;
    }

    /** run_run: one quarter of a clock. */
    method Step(i: Pins) returns (ghost rand: nat)
      requires Valid() && ValidInputs(cfg, With(i, 0))
      modifies this, req, rng, rng.mt
      ensures Valid() && Now() == Next(cfg, old(Now()), With(i, rand))
      ensures Tossed(old(Now()), old(rng.Drawn()), rand)
    {
      SafeFields(cfg, Now());
      rand := 0;
      ghost var s := Now();
      phase := (phase + 1) % 4;
      PhaseSafe(cfg, s, phase);
      hide Safe, Next, Sampled, NextMaster, Arbitrated, Draws, ValidSetup, Mersenne.Generator.Drawn, Mersenne.Generator.Valid;
      if phase == 0 {
        TrackReq(i, 0);
        NotAsked(cfg, s);
      } else if phase == 1 {
        rand := Arbitrate();
        assert s.(phase := 1).(phase := 0) == s;
      } else {
        NotAsked(cfg, s);
      }
      NextCases(cfg, s, With(i, rand));
      assert Now() == Next(cfg, s, With(i, rand));
      StepSafe(cfg, s, With(i, rand));
    }
  }

  /** Input `n` is what the devices drove, with the generator's next number if one was asked for. */
  ghost predicate SeededAt(cfg: Setup, step: Pins, before: seq<Inputs>, i: Inputs)
    requires ValidSetup(cfg) && Safe(cfg, Start(cfg)) && AllValid(cfg, before)
  {
    var at := Run(cfg, Start(cfg), before);
    && i == With(step, i.rand)
    && (Draws(cfg, at) ==> i.rand == RandomAt(DrawsOf(cfg, Start(cfg), before)) as nat)
  }

  ghost predicate Seeded(cfg: Setup, steps: seq<Pins>, ins: seq<Inputs>)
    requires ValidSetup(cfg) && Safe(cfg, Start(cfg)) && AllValid(cfg, ins)
  {
    |ins| <= |steps| &&
    forall n :: 0 <= n < |ins| ==> SeededAt(cfg, steps[n], ins[..n], ins[n])
  }

  lemma DrawsStep(cfg: Setup, s: State, ins: seq<Inputs>, i: Inputs)
    requires ValidSetup(cfg) && Safe(cfg, s) && AllValid(cfg, ins) && ValidInputs(cfg, i)
    ensures AllValid(cfg, ins + [i]) && Run(cfg, s, ins + [i]) == Next(cfg, Run(cfg, s, ins), i)
    ensures DrawsOf(cfg, s, ins + [i]) == DrawsOf(cfg, s, ins) + if Draws(cfg, Run(cfg, s, ins)) then 1 else 0
  {
    hide Next, Safe, Draws;
    assert (ins + [i])[..|ins + [i]| - 1] == ins;
    assert AllValid(cfg, ins + [i]);
  }

  lemma SeededMore(cfg: Setup, steps: seq<Pins>, ins: seq<Inputs>, i: Inputs)
    requires ValidSetup(cfg) && Safe(cfg, Start(cfg)) && AllValid(cfg, ins) && |ins| < |steps| && Seeded(cfg, steps, ins)
    requires ValidInputs(cfg, i) && SeededAt(cfg, steps[|ins|], ins, i)
    ensures AllValid(cfg, ins + [i]) && Seeded(cfg, steps, ins + [i])
  {
    hide Safe, Start, SeededAt, ValidInputs, ValidSetup;
    var ins' := ins + [i];
    assert AllValid(cfg, ins');
    forall n | 0 <= n < |ins'| ensures SeededAt(cfg, steps[n], ins'[..n], ins'[n]) {
      assert ins'[..n] == ins[..n];
      assert n < |ins| ==> ins'[n] == ins[n];
      assert ins[..|ins|] == ins;
    }
  }

  /**
   The arbiter with its own generator, from power-up on: its runs are runs of the state machine,
   so all that is proved of those holds of them; the only randomness is the generator's sequence.
   */
  method Simulate(cfg: Setup, steps: seq<Pins>) returns (arb: Arbiter, ghost ins: seq<Inputs>)
    requires ValidSetup(cfg) && forall n :: 0 <= n < |steps| ==> ValidInputs(cfg, With(steps[n], 0))
    ensures fresh(arb) && arb.cfg == cfg && arb.Valid()
    ensures Safe(cfg, Start(cfg)) && |ins| == |steps| && AllValid(cfg, ins) && Seeded(cfg, steps, ins)
    ensures arb.Now() == Run(cfg, Start(cfg), ins) && arb.rng.Drawn() == DrawsOf(cfg, Start(cfg), ins)
  {
    hide Safe, Draws, RandomAt, Next, Run, DrawsOf, Seeded, Start;
    StartSafe(cfg);
    arb := new Arbiter(cfg);
    ins := [];
    SeededNone(cfg, steps);
    var n := 0;
    while n < |steps|
      invariant 0 <= n == |ins| <= |steps| && AllValid(cfg, ins) && Seeded(cfg, steps, ins)
      invariant fresh(arb) && fresh(arb.req) && fresh(arb.rng) && fresh(arb.rng.mt) && arb.cfg == cfg && arb.Valid()
      invariant arb.Now() == Run(cfg, Start(cfg), ins) && arb.rng.Drawn() == DrawsOf(cfg, Start(cfg), ins)
    {
      ghost var rand := arb.Step(steps[n]);
      DrawsStep(cfg, Start(cfg), ins, With(steps[n], rand));
      SeededMore(cfg, steps, ins, With(steps[n], rand));
      ins := ins + [With(steps[n], rand)];
      n := n + 1;
    }
  }

  lemma SeededNone(cfg: Setup, steps: seq<Pins>)
    requires ValidSetup(cfg) && Safe(cfg, Start(cfg))
    ensures Seeded(cfg, steps, []) && Run(cfg, Start(cfg), []) == Start(cfg) && DrawsOf(cfg, Start(cfg), []) == 0
  {
  }
}
