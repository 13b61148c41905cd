/**
 What a trace is for: the value of every facility at every moment. `ValuesAt` says it
 directly from the calls made to the writer; the theorems say that looking up a moment
 among the recorded frames gives the same, and when the frames can be decoded at all
 (server/lxt2_write.c:1443-1537, 1773-1834 and 1977-1988).
 */
module TraceHistory {
  import opened ChangeCodec
  import opened TraceReader
  import opened TraceRecorder

  /** The calls: declare a symbol, set the time, emit a value. */
  datatype Op = Declare(width: nat) | At(time: nat) | Change(f: nat, raw: string)

  ghost predicate Declared(ops: seq<Op>)
  {
    forall i :: 0 <= i < |ops| && ops[i].Declare? ==> ops[i].width > 0
  }

  // ----- the plain history of a run

  /** The facilities' initial values: later declarations than the first value are refused. */
  ghost function Facilities(ops: seq<Op>, cfg: Config): (v: seq<string>)
    requires Declared(ops)
    ensures Proper(v)
    decreases |ops|, 0
  {
    if ops == [] then [] else
    var before := ops[..|ops| - 1];
    match ops[|ops| - 1]
    case Declare(w) => if Opened(before, cfg) then Facilities(before, cfg) else Facilities(before, cfg) + [Fill(cfg.initial, w)]
    case _ => Facilities(before, cfg)
  }

  ghost predicate Opened(ops: seq<Op>, cfg: Config)
    requires Declared(ops)
    decreases |ops|, 1
  {
    ops != [] &&
    var before := ops[..|ops| - 1];
    Opened(before, cfg) ||
    match ops[|ops| - 1]
    case Declare(_) => false
    case At(_) => Facilities(before, cfg) != []
    case Change(f, raw) => f < |Facilities(before, cfg)| && raw != ""
  }

  /** The time of the last call that set one. */
  ghost function TimeOf(ops: seq<Op>): nat
  {
    if ops == [] then 0
    else if ops[|ops| - 1].At? then ops[|ops| - 1].time
    else TimeOf(ops[..|ops| - 1])
  }

  /** The values after a change, if it comes in time. */
  ghost function Changed(v: seq<string>, op: Op, inTime: bool): seq<string>
    requires Proper(v) && op.Change?
  {
    if op.f < |v| && op.raw != "" && inTime then v[op.f := Normalise(op.raw, |v[op.f]|)] else v
  }

  /** The facilities' values at time `t`: the initial ones and every change made at `t` or before. */
  ghost function ValuesAt(ops: seq<Op>, t: nat, cfg: Config): (v: seq<string>)
    requires Declared(ops)
    ensures SameWidths(v, Facilities(ops, cfg)) && Proper(v)
  {
    if ops == [] then [] else
    var before := ops[..|ops| - 1];
    var v := ValuesAt(before, t, cfg);
    match ops[|ops| - 1]
    case Declare(w) => if Opened(before, cfg) then v else v + [Fill(cfg.initial, w)]
    case At(_) => v
    case Change(_, _) => Changed(v, ops[|ops| - 1], TimeOf(before) <= t)
  }

  /** From call `k` on, nothing that happens up to time `t` changes facility `f`. */
  ghost predicate Untouched(ops: seq<Op>, k: nat, f: nat, t: nat)
  {
    forall m :: k <= m < |ops| && ops[m].Change? && ops[m].f == f ==> ops[m].raw == "" || TimeOf(ops[..m]) > t
  }

  lemma {:induction false} FacilityKept(ops: seq<Op>, k: nat, f: nat, t: nat, cfg: Config)
    requires Declared(ops) && k <= |ops| && f < |Facilities(ops[..k], cfg)| && Untouched(ops, k, f, t)
    ensures f < |Facilities(ops, cfg)| && ValuesAt(ops, t, cfg)[f] == ValuesAt(ops[..k], t, cfg)[f]
    decreases |ops|
  {
    if k == |ops| {
      assert ops[..k] == ops;
    } else {
      var before := ops[..|ops| - 1];
      assert before[..k] == ops[..k];
      forall m | k <= m < |before| ensures before[..m] == ops[..m] && before[m] == ops[m] {
      }
      FacilityKept(before, k, f, t, cfg);
    }
  }

  /**
   The value of a facility at time `t` is what the last call with a time up to `t` that changed
   it said, brought to length and lower case.
   */
  lemma LastChangeCounts(ops: seq<Op>, k: nat, t: nat, cfg: Config)
    requires Declared(ops) && k < |ops| && ops[k].Change? && ops[k].raw != "" && TimeOf(ops[..k]) <= t
    requires ops[k].f < |Facilities(ops[..k], cfg)| && Untouched(ops, k + 1, ops[k].f, t)
    ensures var f := ops[k].f;
      && f < |Facilities(ops, cfg)| && |Facilities(ops, cfg)[f]| == |Facilities(ops[..k], cfg)[f]|
      && FixedUp(ops[k].raw, |Facilities(ops, cfg)[f]|, ValuesAt(ops, t, cfg)[f])
  {
    hide FixedUp, Normalise;
    var f, upTo := ops[k].f, ops[..k + 1];
    assert upTo[..k] == ops[..k];
    var before := ValuesAt(ops[..k], t, cfg)[f];
    NormaliseMeans(ops[k].raw, |before|);
    assert ValuesAt(upTo, t, cfg)[f] == Normalise(ops[k].raw, |before|);
    FacilityKept(ops, k + 1, f, t, cfg);
  }

  /** Before any such call it is the initial value. */
  lemma NoChangeNoValue(ops: seq<Op>, k: nat, f: nat, t: nat, cfg: Config)
    requires Declared(ops) && 0 < k <= |ops| && ops[k - 1].Declare? && !Opened(ops[..k - 1], cfg)
    requires f == |Facilities(ops[..k - 1], cfg)| && Untouched(ops, k, f, t)
    ensures f < |Facilities(ops, cfg)| && |ValuesAt(ops, t, cfg)[f]| == ops[k - 1].width
    ensures forall i :: 0 <= i < ops[k - 1].width ==> ValuesAt(ops, t, cfg)[f][i] == cfg.initial
  {
    assert ops[..k][..k - 1] == ops[..k - 1];
    FacilityKept(ops, k, f, t, cfg);
  }

  /** The times set never go back. */
  ghost predicate Ordered(ops: seq<Op>)
  {
    ops == [] || (Ordered(ops[..|ops| - 1]) && (ops[|ops| - 1].At? ==> ops[|ops| - 1].time >= TimeOf(ops[..|ops| - 1])))
  }

  // ----- the recorder's run

  ghost function Step(r: Recorder, op: Op, cfg: Config): (r': Recorder)
    requires Consistent(r) && (op.Declare? ==> op.width > 0)
    ensures Consistent(r')
  {
    match op
    case Declare(w) => AddSymbol(r, w, cfg)
    case At(t) => SetTime(r, t, cfg)
    case Change(f, raw) => Emit(r, f, raw, cfg)
  }

  ghost function RunOps(ops: seq<Op>, cfg: Config): (r: Recorder)
    requires Declared(ops)
    ensures Consistent(r)
  {
    if ops == [] then START else Step(RunOps(ops[..|ops| - 1], cfg), ops[|ops| - 1], cfg)
  }

  /** The values at time `t`: those of the last frame not after it. */
  ghost function Lookup(frames: seq<Frame>, t: nat, inits: seq<string>): seq<string>
  {
    if frames == [] then inits
    else if frames[|frames| - 1].time <= t then frames[|frames| - 1].values
    else Lookup(frames[..|frames| - 1], t, inits)
  }

  /** The frames, with the position still open. */
  ghost function Snapshot(r: Recorder): seq<Frame>
  {
    if r.emitted then r.frames + [Frame(r.time, r.values)] else []
  }

  ghost predicate Tells(r: Recorder, ops: seq<Op>, cfg: Config)
    requires Declared(ops)
  {
    forall t: nat :: Lookup(Snapshot(r), t, r.inits) == ValuesAt(ops, t, cfg)
  }

  /** The frames of the recorder keep pace with the calls. */
  ghost predicate InStep(r: Recorder, ops: seq<Op>, cfg: Config)
    requires Declared(ops)
  {
    && Consistent(r) && r.inits == Facilities(ops, cfg) && r.emitted == Opened(ops, cfg)
    && (r.timeset ==> r.time == TimeOf(ops) && r.first <= r.time)
    && (!r.timeset ==> TimeOf(ops) == 0)
    && (forall t: nat :: t >= TimeOf(ops) ==> ValuesAt(ops, t, cfg) == r.values)
    && (forall i :: 0 <= i < |r.frames| ==> r.frames[i].time <= r.time)
    && (r.emitted && !r.bump ==> r.frames != [] && r.frames[|r.frames| - 1].values == r.values)
  }

  lemma LookupPush(frames: seq<Frame>, x: Frame, t: nat, inits: seq<string>)
    ensures Lookup(frames + [x], t, inits) == if x.time <= t then x.values else Lookup(frames, t, inits)
  {
    assert (frames + [x])[..|frames|] == frames;
  }

  lemma LookupLast(frames: seq<Frame>, t: nat, inits: seq<string>)
    requires frames != [] && frames[|frames| - 1].time <= t
    ensures Lookup(frames, t, inits) == frames[|frames| - 1].values
  {
  }

  lemma SnapshotAt(r: Recorder, t: nat)
    ensures Lookup(Snapshot(r), t, r.inits) ==
      if !r.emitted then r.inits else if r.time <= t then r.values else Lookup(r.frames, t, r.inits)
  {
    LookupPush(r.frames, Frame(r.time, r.values), t, r.inits);
  }

  lemma DeclareStep(r: Recorder, before: seq<Op>, op: Op, cfg: Config)
    requires Declared(before + [op]) && Declared(before) && op.Declare? && op.width > 0
    requires InStep(r, before, cfg) && Tells(r, before, cfg)
    ensures InStep(Step(r, op, cfg), before + [op], cfg) && Tells(Step(r, op, cfg), before + [op], cfg)
  {
    var ops := before + [op];
    assert ops[..|ops| - 1] == before;
    var r' := Step(r, op, cfg);
    forall t: nat ensures ValuesAt(ops, t, cfg) == Lookup(Snapshot(r'), t, r'.inits) {
      SnapshotAt(r, t);
      SnapshotAt(r', t);
    }
    assert forall t: nat :: t >= TimeOf(ops) ==> ValuesAt(ops, t, cfg) == Lookup(Snapshot(r'), t, r'.inits);
  }

  /** Moving the clock changes no value, and no frame that a lookup can see. */
  lemma ClockTells(r: Recorder, t': nat, cfg: Config, t: nat)
    requires Consistent(r) && (r.timeset ==> r.first <= r.time <= t')
    requires forall i :: 0 <= i < |r.frames| ==> r.frames[i].time <= r.time
    requires r.emitted && !r.bump ==> r.frames != [] && r.frames[|r.frames| - 1].values == r.values
    ensures Clock(r, t', cfg).values == r.values && Clock(r, t', cfg).inits == r.inits
    ensures Lookup(Snapshot(Clock(r, t', cfg)), t, r.inits) == Lookup(Snapshot(r), t, r.inits)
  {
    var r' := Clock(r, t', cfg);
    SnapshotAt(r, t);
    SnapshotAt(r', t);
    if r.emitted && r.timeset && t' > r.first {
      if r.bump {
        LookupPush(r.frames, Frame(r.time, r.values), t, r.inits);
      } else if r.time <= t < t' {
        LookupLast(r.frames, t, r.inits);
      }
    }
  }

  lemma PlainAt(before: seq<Op>, op: Op, cfg: Config)
    requires Declared(before + [op]) && Declared(before) && op.At?
    ensures Facilities(before + [op], cfg) == Facilities(before, cfg) && TimeOf(before + [op]) == op.time
    ensures Opened(before + [op], cfg) <==> Opened(before, cfg) || Facilities(before, cfg) != []
    ensures forall t: nat :: ValuesAt(before + [op], t, cfg) == ValuesAt(before, t, cfg)
    ensures Ordered(before + [op]) ==> op.time >= TimeOf(before)
  {
    var ops := before + [op];
    assert ops[..|ops| - 1] == before;
  }

  /** What setting the time leaves of the recorder's fields. */
  lemma SetTimeFields(r: Recorder, t: nat, cfg: Config)
    requires Consistent(r) && (r.timeset ==> r.first <= r.time <= t)
    requires r.emitted && !r.bump ==> r.frames != [] && r.frames[|r.frames| - 1].values == r.values
    ensures var c, r' := Clock(r, t, cfg), SetTime(r, t, cfg);
      && r'.inits == r.inits && r'.values == r.values && r'.time == t && r'.first <= t && r'.timeset
      && r'.frames == c.frames && c.time == t && c.values == r.values && c.inits == r.inits && c.emitted == r.emitted
      && r'.emitted == (r.emitted || r.inits != [])
      && (r'.emitted && !r'.bump ==> r'.frames != [] && r'.frames[|r'.frames| - 1].values == r'.values)
      && (r'.frames == r.frames || (r.emitted && r'.frames == r.frames + [Frame(r.time, r.values)]))
      && (!r.emitted ==> r'.frames == [] && r'.values == r'.inits)
  {
    hide Clock, Consistent;
    ClockFields(r, t, cfg);
  }

  lemma WrapFields(r: Recorder, cfg: Config)
    ensures var w := Wrap(r, cfg); w == r.(pos := w.pos, gran := w.gran, block := w.block)
  {
  }

  lemma ClockFields(r: Recorder, t: nat, cfg: Config)
    requires Consistent(r) && (r.timeset ==> r.first <= r.time <= t)
    requires r.emitted && !r.bump ==> r.frames != [] && r.frames[|r.frames| - 1].values == r.values
    ensures var c := Clock(r, t, cfg);
      && c.inits == r.inits && c.values == r.values && c.time == t && c.first <= t && c.timeset && c.emitted == r.emitted
      && (c.emitted && !c.bump ==> c.frames != [] && c.frames[|c.frames| - 1].values == c.values)
      && (c.frames == r.frames || (r.emitted && c.frames == r.frames + [Frame(r.time, r.values)]))
      && (!r.emitted ==> c.frames == [] && c.values == c.inits && SectionStart(c) && c.block == 0)
  {
    hide PositionOk, Proper, SameWidths;
    if r.timeset && t > r.first && r.bump {
      hide Wrap;
      WrapFields(Seal(r.(bump := false), cfg), cfg);
    }
  }

  lemma AtStep(r: Recorder, before: seq<Op>, op: Op, cfg: Config)
    requires Declared(before + [op]) && Declared(before) && op.At? && Ordered(before + [op])
    requires InStep(r, before, cfg) && Tells(r, before, cfg)
    ensures InStep(Step(r, op, cfg), before + [op], cfg) && Tells(Step(r, op, cfg), before + [op], cfg)
  {
    hide ValuesAt, Facilities, Opened, TimeOf, SetTime, Clock, Lookup, Snapshot;
    PlainAt(before, op, cfg);
    SetTimeFields(r, op.time, cfg);
    var ops, c, r' := before + [op], Clock(r, op.time, cfg), SetTime(r, op.time, cfg);
    forall t: nat ensures Lookup(Snapshot(r'), t, r'.inits) == ValuesAt(ops, t, cfg) {
      ClockTells(r, op.time, cfg, t);
      SnapshotAt(c, t);
      SnapshotAt(r', t);
      EmptyLookup(t, r.inits);
    }
  }

  lemma EmptyLookup(t: nat, inits: seq<string>)
    ensures Lookup([], t, inits) == inits
  {
  }

  lemma PlainChange(before: seq<Op>, op: Op, cfg: Config)
    requires Declared(before + [op]) && Declared(before) && op.Change?
    ensures Facilities(before + [op], cfg) == Facilities(before, cfg) && TimeOf(before + [op]) == TimeOf(before)
    ensures Opened(before + [op], cfg) <==> Opened(before, cfg) || (op.f < |Facilities(before, cfg)| && op.raw != "")
    ensures forall t: nat :: ValuesAt(before + [op], t, cfg) == Changed(ValuesAt(before, t, cfg), op, TimeOf(before) <= t)
  {
    var ops := before + [op];
    assert ops[..|ops| - 1] == before;
  }

  lemma ChangeStep(r: Recorder, before: seq<Op>, op: Op, cfg: Config)
    requires Declared(before + [op]) && Declared(before) && op.Change?
    requires InStep(r, before, cfg) && Tells(r, before, cfg)
    ensures InStep(Step(r, op, cfg), before + [op], cfg) && Tells(Step(r, op, cfg), before + [op], cfg)
  {
    hide Normalise, Lookup, ValuesAt, Facilities, Opened, TimeOf;
    PlainChange(before, op, cfg);
    var ops, r' := before + [op], Step(r, op, cfg);
    forall t: nat
      ensures Lookup(Snapshot(r'), t, r'.inits) == ValuesAt(ops, t, cfg)
      ensures t >= TimeOf(ops) ==> ValuesAt(ops, t, cfg) == r'.values
    {
      SnapshotAt(r, t);
      SnapshotAt(r', t);
      if t >= TimeOf(before) {
        assert ValuesAt(before, t, cfg) == r.values;
      }
    }
  }

  lemma {:induction false} RunInStep(ops: seq<Op>, cfg: Config)
    requires Declared(ops) && Ordered(ops)
    ensures InStep(RunOps(ops, cfg), ops, cfg) && Tells(RunOps(ops, cfg), ops, cfg)
  {
    if ops != [] {
      var before, op := ops[..|ops| - 1], ops[|ops| - 1];
      RunInStep(before, cfg);
      assert before + [op] == ops;
      match op
      case Declare(_) => DeclareStep(RunOps(before, cfg), before, op, cfg);
      case At(_) => AtStep(RunOps(before, cfg), before, op, cfg);
      case Change(_, _) => ChangeStep(RunOps(before, cfg), before, op, cfg);
    }
  }

  ghost predicate Closable(r: Recorder)
  {
    r.timeset ==> r.emitted
  }

  /**
   Looking up any moment in the frames of a closed trace gives the values the
   facilities had then.
   */
  lemma FramesTellHistory(ops: seq<Op>, cfg: Config, t: nat)
    requires Declared(ops) && Ordered(ops) && Closable(RunOps(ops, cfg))
    ensures Lookup(Close(RunOps(ops, cfg), cfg).frames, t, Facilities(ops, cfg)) == ValuesAt(ops, t, cfg)
  {
    RunInStep(ops, cfg);
    var r := RunOps(ops, cfg);
    assert Close(r, cfg).frames == Snapshot(r);
  }

  /** Frames that come after `t` do not matter for it. */
  lemma {:induction false} LookupBefore(seen: seq<Frame>, frames: seq<Frame>, t: nat, inits: seq<string>)
    requires |seen| == |frames| && (forall k :: 0 <= k < |frames| ==> seen[k].time == frames[k].time)
    requires forall k :: 0 <= k < |frames| ==> seen[k] == frames[k] || t < frames[k].time
    ensures Lookup(seen, t, inits) == Lookup(frames, t, inits)
  {
    if frames != [] {
      LookupBefore(seen[..|seen| - 1], frames[..|frames| - 1], t, inits);
    }
  }

  /** The last frame that does not come after `t` decides. */
  lemma {:induction false} LookupDecided(frames: seq<Frame>, n: nat, t: nat, inits: seq<string>)
    requires n < |frames| && frames[n].time <= t && forall k :: n < k < |frames| ==> t < frames[k].time
    ensures Lookup(frames, t, inits) == frames[n].values
  {
    if n < |frames| - 1 {
      LookupDecided(frames[..|frames| - 1], n, t, inits);
    }
  }

  // ----- when the frames can be decoded

  /** The values the facilities had when a time was last set. */
  ghost function AtLastSet(ops: seq<Op>, cfg: Config): seq<string>
    requires Declared(ops)
  {
    if ops == [] then []
    else if ops[|ops| - 1].At? then RunOps(ops, cfg).values
    else AtLastSet(ops[..|ops| - 1], cfg)
  }

  /** The call `op` changes a facility that has already changed since a time was last set. */
  ghost predicate Glitches(before: seq<Op>, op: Op, cfg: Config)
    requires Declared(before)
  {
    var r := RunOps(before, cfg);
    && op.Change? && op.f < |r.values| && op.raw != "" && !SectionStart(r)
    && Normalise(op.raw, |r.values[op.f]|) != r.values[op.f]
    && (op.f < |AtLastSet(before, cfg)| ==> AtLastSet(before, cfg)[op.f] != r.values[op.f])
  }

  /**
   No facility changes twice between two calls that set the time, except at the first
   position of a section.
   */
  ghost predicate Quiet(ops: seq<Op>, cfg: Config)
    requires Declared(ops)
  {
    ops == [] || (Quiet(ops[..|ops| - 1], cfg) && !Glitches(ops[..|ops| - 1], ops[|ops| - 1], cfg))
  }

  ghost predicate Calm(r: Recorder, set0: seq<string>)
  {
    && r.ok && (r.emitted && !r.bump ==> r.values == r.base)
    && (!SectionStart(r) ==> r.base == set0 && r.prior == r.base)
  }

  lemma CalmOk(r: Recorder, logical: bool)
    requires Consistent(r) && (!SectionStart(r) ==> r.prior == r.base)
    ensures PositionOk(r, logical)
  {
    if !SectionStart(r) {
      forall f | 0 <= f < |r.values| ensures Overwrites(r.base[f], r.prior[f], r.values[f], false, logical) {
        OverwritesSame(r.base[f], r.values[f], logical);
      }
    }
  }

  lemma OverwritesSame(x: string, y: string, logical: bool)
    requires |x| == |y| > 0
    ensures Overwrites(x, x, y, false, logical)
  {
  }

  lemma CalmClock(r: Recorder, set0: seq<string>, t: nat, cfg: Config)
    requires Consistent(r) && Calm(r, set0) && (r.timeset && t <= r.first ==> SectionStart(r))
    ensures var r' := SetTime(r, t, cfg); Calm(r', r'.values) && r'.values == r.values
  {
    CalmOk(r.(bump := false), cfg.logical);
  }

  lemma CalmChange(r: Recorder, set0: seq<string>, f: nat, raw: string, cfg: Config)
    requires Consistent(r) && Calm(r, set0) && (!SectionStart(r) ==> |set0| == |r.values|)
    requires f < |r.values| && raw != "" && !SectionStart(r) && Normalise(raw, |r.values[f]|) != r.values[f] ==> set0[f] == r.values[f]
    ensures Calm(Emit(r, f, raw, cfg), set0)
  {
    if f < |r.values| && raw != "" && !SectionStart(r) {
      var v := Normalise(raw, |r.values[f]|);
      assert r.emitted && r.timeset;
      if v != r.values[f] {
        assert r.prior[f := r.values[f]] == r.prior;
      }
    }
  }

  /** Until the time moves on, the recorder stays at the start of its first section. */
  ghost predicate Unmoved(r: Recorder)
  {
    r.timeset && r.time == r.first ==> SectionStart(r)
  }

  lemma StepUnmoved(r: Recorder, op: Op, cfg: Config)
    requires Consistent(r) && Unmoved(r) && (op.Declare? ==> op.width > 0)
    requires r.timeset && op.At? ==> r.first <= r.time <= op.time
    ensures Unmoved(Step(r, op, cfg))
  {
    hide Normalise, PositionOk, Proper;
  }

  lemma {:induction false} QuietCalm(ops: seq<Op>, cfg: Config)
    requires Declared(ops) && Ordered(ops) && Quiet(ops, cfg)
    ensures Calm(RunOps(ops, cfg), AtLastSet(ops, cfg)) && Unmoved(RunOps(ops, cfg))
  {
    if ops != [] {
      var before, op := ops[..|ops| - 1], ops[|ops| - 1];
      QuietCalm(before, cfg);
      RunInStep(before, cfg);
      var r := RunOps(before, cfg);
      StepUnmoved(r, op, cfg);
      hide RunOps, Quiet, Normalise;
      LastStep(ops, cfg);
      match op
      case Declare(_) =>
      case At(t) => CalmClock(r, AtLastSet(before, cfg), t, cfg);
      case Change(f, raw) => CalmChange(r, AtLastSet(before, cfg), f, raw, cfg);
    }
  }

  lemma LastStep(ops: seq<Op>, cfg: Config)
    requires Declared(ops) && ops != []
    ensures RunOps(ops, cfg) == Step(RunOps(ops[..|ops| - 1], cfg), ops[|ops| - 1], cfg)
    ensures Quiet(ops, cfg) ==> !Glitches(ops[..|ops| - 1], ops[|ops| - 1], cfg)
  {
  }

  /** A quiet run can be decoded. */
  lemma QuietOk(ops: seq<Op>, cfg: Config)
    requires Declared(ops) && Ordered(ops) && Quiet(ops, cfg) && Closable(RunOps(ops, cfg))
    ensures Close(RunOps(ops, cfg), cfg).ok
  {
    QuietCalm(ops, cfg);
    CalmOk(RunOps(ops, cfg), cfg.logical);
  }

  /** A one-bit facility that goes up and down again within one time step. */
  const PULSE := [Declare(1), At(0), Change(0, "0"), At(1), Change(0, "1"), Change(0, "0")]

  /**
   The second frame of such a run cannot be decoded: the code kept for the second change
   inverts the value before the first.
   */
  lemma PulseLost(cfg: Config)
    requires ValidConfig(cfg)
    ensures Declared(PULSE) && Ordered(PULSE) && Closable(RunOps(PULSE, cfg))
    ensures !Close(RunOps(PULSE, cfg), cfg).ok && Close(RunOps(PULSE, cfg), cfg).right == 1
    ensures Close(RunOps(PULSE, cfg), cfg).frames == [Frame(0, ["0"]), Frame(1, ["0"])]
  {
    hide Normalise;
    PulseStart(cfg);
    var ops := PULSE;
    assert ops[..5][..4] == ops[..4] && ops[..|ops| - 1] == ops[..5];
    var r4 := RunOps(ops[..4], cfg);
    var r5 := RunOps(ops[..5], cfg);
    NormaliseOne("1");
    NormaliseOne("0");
    assert r5 == Emit(r4, 0, "1", cfg);
    var r6 := RunOps(ops, cfg);
    assert r6 == Emit(r5, 0, "0", cfg);
    assert r6.base == ["0"] && r6.prior == ["1"] && r6.values == ["0"];
    assert !Overwrites(r6.base[0], r6.prior[0], r6.values[0], false, cfg.logical);
    assert !PositionOk(r6, cfg.logical);
  }

  lemma NormaliseOne(v: string)
    requires v == "0" || v == "1"
    ensures Normalise(v, 1) == v
  {
    assert LeftFill(v, 1) == v;
    assert Normalise(v, 1)[0] == Lower(v[0]) == v[0];
  }

  lemma PulseStart(cfg: Config)
    requires ValidConfig(cfg)
    ensures Declared(PULSE) && Ordered(PULSE)
    ensures var r := RunOps(PULSE[..4], cfg);
      r.timeset && r.emitted && r.base == r.prior == r.values == ["0"] && r.pos == 1 && r.gran == 0
      && r.frames == [Frame(0, ["0"])] && r.right == 1 && r.ok && r.time == 1
  {
    hide Normalise;
    var ops := PULSE;
    assert ops[..4][..3] == ops[..3] && ops[..3][..2] == ops[..2] && ops[..2][..1] == ops[..1] && ops[..1][..0] == [];
    assert ops[..5][..4] == ops[..4] && ops[..|ops| - 1] == ops[..5];
    assert RunOps([], cfg) == START;
    var r1 := RunOps(ops[..1], cfg);
    assert r1 == AddSymbol(START, 1, cfg);
    var r2 := RunOps(ops[..2], cfg);
    assert r2 == SetTime(r1, 0, cfg);
    var r3 := RunOps(ops[..3], cfg);
    NormaliseOne("0");
    assert r3 == Emit(r2, 0, "0", cfg);
    assert r3.values == ["0"] && r3.bump && r3.time == 0 && r3.first == 0;
    var r4 := RunOps(ops[..4], cfg);
    assert r4 == SetTime(r3, 1, cfg);
    PulseOrdered();
  }

  lemma PulseOrdered()
    ensures Declared(PULSE) && Ordered(PULSE)
  {
    var ops := PULSE;
    assert ops[..|ops| - 1] == ops[..5] && ops[..5][..4] == ops[..4] && ops[..4][..3] == ops[..3];
    assert ops[..3][..2] == ops[..2] && ops[..2][..1] == ops[..1] && ops[..1][..0] == [];
    assert Ordered(ops[..1]);
    assert Ordered(ops[..2]);
    assert TimeOf(ops[..2]) == 0;
    assert Ordered(ops[..3]) && TimeOf(ops[..3]) == 0;
    assert Ordered(ops[..4]);
    assert Ordered(ops[..5]);
  }
}
