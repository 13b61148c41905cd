/**
 Whole runs of the trace writer (server/lxt2_write.c:1068-1537, 1773-1996 and 2136-2144):
 a trace is created, a list of calls is made on it and it is closed. The result relates
 the bytes in the file to the calls.
 */
module TraceRun {
  import opened ChangeCodec
  import opened TraceFormat
  import opened TraceReader
  import opened TraceRecorder
  import opened TraceInvariant
  import opened TraceSteps
  import opened TraceHistory
  import opened TraceWriter

  // ----- reading a file back

  /** The sections of a file, each read from its own bytes. */
  function ReadFile(file: seq<seq<byte>>, facs: nat): Parsed<seq<Section>>
  {
    if file == [] then Got([], []) else
    match ReadFile(file[..|file| - 1], facs)
    case Bad => Bad
    case Got(before, _) =>
      match ReadSection(file[|file| - 1], facs)
      case Bad => Bad
      case Got(s, _) => Got(before + [s], [])
  }

  lemma {:induction false} ReadFileBack(file: seq<seq<byte>>, done: seq<Section>, facs: nat)
    requires |file| == |done|
    requires forall k :: 0 <= k < |done| ==>
      SectionReadable(done[k], facs) && CountsFit(done[k].dict, done[k].masks) && Writable(done[k].granules)
      && file[k] == SectionBytes(done[k])
    ensures ReadFile(file, facs) == Got(done, [])
  {
    hide SectionReadable, CountsFit, SectionBytes, ReadSection, Writable;
    if file != [] {
      var n := |file| - 1;
      ReadFileBack(file[..n], done[..n], facs);
      ReadSectionBack(done[n], facs);
      assert done == done[..n] + [done[n]];
    }
  }

  /** A section gives the same frames whatever the facilities' values before it are taken to be. */
  ghost predicate StandsAlone(s: Section, inits: seq<string>)
    requires Proper(inits)
  {
    forall base: seq<string> :: Proper(base) && SameWidths(inits, base) ==> SectionFrames(s, base) == SectionFrames(s, inits)
  }

  lemma CheckpointStandsAlone(s: Section, inits: seq<string>)
    requires Proper(inits) && s.granules != [] && Checkpoint(s.granules[0], s.masks, s.dict, inits)
    ensures StandsAlone(s, inits)
  {
    forall base: seq<string> | Proper(base) && SameWidths(inits, base)
      ensures SectionFrames(s, base) == SectionFrames(s, inits)
    {
      CheckpointFrames(s.granules, s.masks, s.dict, inits, base);
    }
  }

  /** What the bytes of a closed trace say about the run recorded in `r`. */
  ghost predicate Faithful(file: seq<seq<byte>>, r: Recorder, cfg: Config)
    requires Consistent(r)
  {
    match ReadFile(file, |r.inits|)
    case Bad => false
    case Got(sections, _) =>
      && Matches(FileFrames(sections, r.inits), r.frames, r.right) && (r.ok <==> r.right == |r.frames|)
      && forall k :: 0 <= k < |sections| && Checkpointed(k, cfg) ==> StandsAlone(sections[k], r.inits)
  }

  lemma ClosedFaithful(v: View, st: Store)
    requires Good(v, st) && v.r.pos == v.r.gran == 0
    ensures Faithful(st.file, v.r, v.cfg)
  {
    ReadFileBack(st.file, v.done, |v.r.inits|);
    assert v.gs == [];
    assert Decoded(v) == FileFrames(v.done, v.r.inits);
    forall k | 0 <= k < |v.done| && Checkpointed(k, v.cfg) ensures StandsAlone(v.done[k], v.r.inits) {
      CheckpointStandsAlone(v.done[k], v.r.inits);
    }
  }

  // ----- running the writer

  /** The calls a C program can make: widths are positive, times 64-bit, strings without NUL. */
  ghost predicate Callable(op: Op)
  {
    match op
    case Declare(w) => w > 0
    case At(t) => t < Pow256(8)
    case Change(_, raw) => IsText(raw)
  }

  ghost predicate AllCallable(ops: seq<Op>)
  {
    forall i :: 0 <= i < |ops| ==> Callable(ops[i])
  }

  /** `TooBig`: a 32-bit counter could wrap. `Headless`: a time was set but no value ever emitted. */
  datatype Outcome = File(sections: seq<seq<byte>>) | TooBig | Headless

  lemma CallableDeclared(ops: seq<Op>)
    requires AllCallable(ops)
    ensures forall n :: 0 <= n <= |ops| ==> Declared(ops[..n])
  {
    forall n | 0 <= n <= |ops| ensures Declared(ops[..n]) {
      assert forall i :: 0 <= i < n ==> Callable(ops[..n][i]);
    }
  }

  /** The dictionaries stay this small after `n` calls on facilities of total weight `w`. */
  ghost predicate Bounded(mem: nat, masks: nat, n: nat, w: nat)
  {
    mem <= 2 * (w * n) && masks <= w * n
  }

  lemma ProductGrows(n: nat, n': nat, w: nat, w': nat)
    requires n <= n' && w <= w'
    ensures w * n <= w' * n'
  {
    assert w * n <= w * n' <= w' * n';
  }

  lemma BoundedNext(mem: nat, masks: nat, mem': nat, masks': nat, n: nat, w: nat, w': nat)
    requires Bounded(mem, masks, n, w) && w <= w' && mem' <= mem + 2 * w' && masks' <= masks + w'
    ensures Bounded(mem', masks', n + 1, w')
  {
    ProductGrows(n, n, w, w');
    assert w' * (n + 1) == w' * n + w';
  }

  lemma StepWeight(r: Recorder, op: Op, cfg: Config)
    requires Consistent(r) && Callable(op)
    ensures Weight(r.values) <= Weight(Step(r, op, cfg).values)
  {
    var r' := Step(r, op, cfg);
    if op.Declare? && !r.emitted {
      assert r'.values[..|r.values|] == r.values;
    } else {
      assert r'.inits == r.inits;
      WeightSame(r.values, r'.values);
    }
  }

  /** Doing one call. */
  method Perform(trace: Trace, op: Op, ghost n: nat)
    requires trace.Ready() && trace.Room() && Callable(op)
    requires Bounded(trace.dictMem, |trace.mapdict.Contents()|, n, Weight(trace.r.values))
    modifies trace, trace.timetable, trace.dict, trace.dict.repr, trace.mapdict, trace.mapdict.repr
    ensures trace.Ready() && Consistent(old(trace.r)) && trace.r == Step(old(trace.r), op, trace.cfg)
    ensures Bounded(trace.dictMem, |trace.mapdict.Contents()|, n + 1, Weight(trace.r.values))
    ensures fresh(trace.dict.repr - old(trace.dict.repr)) && fresh(trace.mapdict.repr - old(trace.mapdict.repr))
  {
    hide Trace.Ready, Trace.Room, Bounded, Weight, TraceRecorder.SetTime, TraceRecorder.Emit, TraceRecorder.AddSymbol, Consistent, IsText, Pow256;
    ghost var r0, mem, masks := trace.r, trace.dictMem, |trace.mapdict.Contents()|;
    ReadySizes(trace);
    StepWeight(r0, op, trace.cfg);
    match op {
      case Declare(w) => trace.AddSymbol(w);
      case At(t) => trace.SetTime(t);
      case Change(f, raw) => trace.Emit(f, raw);
    }
    ReadySizes(trace);
    BoundedNext(mem, masks, trace.dictMem, |trace.mapdict.Contents()|, n, Weight(r0.values), Weight(trace.r.values));
  }

  lemma ReadySizes(trace: Trace)
    requires trace.Ready()
    ensures Consistent(trace.r) && |trace.syms| <= Weight(trace.r.values)
    ensures trace.timeset == trace.r.timeset && trace.emitted == trace.r.emitted
  {
    hide Trace.Tables, Trace.Texts, Sound, Inv, StartSet, Good;
    GoodSound(trace.Now(), trace.Disk());
    WeightCounts(trace.r.values);
  }

  /** The run's facilities are so many and so wide, and its calls so many, that a 32-bit counter could wrap. */
  ghost predicate Huge(r: Recorder, calls: nat)
  {
    2 * (Weight(r.values) * (calls + 1)) + DICT_START > WORD
  }

  lemma NoRoom(mem: nat, masks: nat, n: nat, w: nat, k: nat)
    requires Bounded(mem, masks, n, w) && n <= k
    requires mem + DICT_START > WORD || masks + w >= WORD
    ensures 2 * (w * (k + 1)) + DICT_START > WORD
  {
    ProductGrows(n, k, w, w);
    assert w * (k + 1) == w * k + w;
  }

  method HasRoom(trace: Trace, ghost n: nat, ghost k: nat) returns (room: bool)
    requires trace.Ready() && n <= k
    requires Bounded(trace.dictMem, |trace.mapdict.Contents()|, n, Weight(trace.r.values))
    ensures room ==> trace.Room()
    ensures !room ==> Huge(trace.r, k)
  {
    room := trace.Room();
    if !room {
      ReadySizes(trace);
      NoRoom(trace.dictMem, |trace.mapdict.Contents()|, n, Weight(trace.r.values), k);
    }
  }

  method Finish(trace: Trace) returns (outcome: Outcome)
    requires trace.Ready() && trace.Room()
    modifies trace, trace.dict, trace.mapdict, trace.mapdict.repr
    ensures Consistent(old(trace.r))
    ensures outcome != TooBig && (outcome.Headless? <==> !Closable(old(trace.r)))
    ensures outcome.File? ==> Faithful(outcome.sections, Close(old(trace.r), trace.cfg), trace.cfg)
  {
    hide Trace.Ready, Trace.Room, Consistent, Faithful, Seal, Good;
    ReadySizes(trace);
    if trace.timeset && !trace.emitted {
      return Headless;
    }
    trace.Close();
    ClosedPosition(old(trace.r), trace.cfg);
    ClosedFaithful(trace.Now(), trace.Disk());
    outcome := File(trace.file);
  }

  lemma ClosedPosition(r: Recorder, cfg: Config)
    requires Consistent(r) && Closable(r)
    ensures Close(r, cfg).pos == Close(r, cfg).gran == 0
  {
  }

  // ----- fidelity

  /** The frames a reader decodes from a file. */
  ghost function DecodeFile(file: seq<seq<byte>>, inits: seq<string>): seq<Frame>
    requires Proper(inits)
  {
    match ReadFile(file, |inits|)
    case Bad => []
    case Got(sections, _) => FileFrames(sections, inits)
  }

  /** Decoding the file gives every facility's value at every time. */
  ghost predicate TellsHistory(file: seq<seq<byte>>, ops: seq<Op>, cfg: Config)
    requires Declared(ops)
  {
    forall t: nat :: TraceHistory.Lookup(DecodeFile(file, Facilities(ops, cfg)), t, Facilities(ops, cfg)) == ValuesAt(ops, t, cfg)
  }

  lemma SeenFrames(file: seq<seq<byte>>, r: Recorder, cfg: Config)
    requires Consistent(r) && Faithful(file, r, cfg)
    ensures Matches(DecodeFile(file, r.inits), r.frames, r.right) && (r.ok <==> r.right == |r.frames|)
  {
  }

  /**
   What decoding the file gives at time `t`: the right values as long as no frame up to `t` is
   lost, and wrong ones where the first lost frame is the last one up to `t`.
   */
  lemma FileTellsUntil(cfg: Config, ops: seq<Op>, file: seq<seq<byte>>, t: nat)
    requires Declared(ops) && Ordered(ops) && Closable(RunOps(ops, cfg))
    requires Faithful(file, Close(RunOps(ops, cfg), cfg), cfg)
    ensures var c, vs := Close(RunOps(ops, cfg), cfg), Facilities(ops, cfg);
      var seen := TraceHistory.Lookup(DecodeFile(file, vs), t, vs);
      && c.right <= |c.frames|
      && ((forall k :: c.right <= k < |c.frames| ==> t < c.frames[k].time) ==> seen == ValuesAt(ops, t, cfg))
      && (c.right < |c.frames| && c.frames[c.right].time <= t && (forall k :: c.right < k < |c.frames| ==> t < c.frames[k].time)
          ==> seen != ValuesAt(ops, t, cfg))
  {
    hide RunOps, Close, Faithful, ValuesAt, Facilities, Ordered, DecodeFile;
    var c := Close(RunOps(ops, cfg), cfg);
    ClosedInits(ops, cfg);
    SeenFrames(file, c, cfg);
    FramesTellHistory(ops, cfg, t);
    LookupSeen(DecodeFile(file, c.inits), c.frames, c.right, t, c.inits);
  }

  lemma ClosedInits(ops: seq<Op>, cfg: Config)
    requires Declared(ops) && Ordered(ops) && Closable(RunOps(ops, cfg))
    ensures Close(RunOps(ops, cfg), cfg).inits == Facilities(ops, cfg)
  {
    hide Tells, RunOps, Facilities;
    RunInStep(ops, cfg);
  }

  lemma LookupSeen(seen: seq<Frame>, frames: seq<Frame>, right: nat, t: nat, inits: seq<string>)
    requires Matches(seen, frames, right)
    ensures right <= |frames|
    ensures (forall k :: right <= k < |frames| ==> t < frames[k].time) ==>
      TraceHistory.Lookup(seen, t, inits) == TraceHistory.Lookup(frames, t, inits)
    ensures right < |frames| && frames[right].time <= t && (forall k :: right < k < |frames| ==> t < frames[k].time) ==>
      TraceHistory.Lookup(seen, t, inits) != TraceHistory.Lookup(frames, t, inits)
  {
    if forall k :: right <= k < |frames| ==> t < frames[k].time {
      LookupBefore(seen, frames, t, inits);
    } else if right < |frames| && frames[right].time <= t && forall k :: right < k < |frames| ==> t < frames[k].time {
      LookupDecided(seen, right, t, inits);
      LookupDecided(frames, right, t, inits);
    }
  }

  /** The file tells everything when all frames can be told from it, and if no two frames have the same time only then. */
  lemma FileTellsIff(cfg: Config, ops: seq<Op>, file: seq<seq<byte>>)
    requires Declared(ops) && Ordered(ops) && Closable(RunOps(ops, cfg))
    requires Faithful(file, Close(RunOps(ops, cfg), cfg), cfg)
    ensures Close(RunOps(ops, cfg), cfg).ok ==> TellsHistory(file, ops, cfg)
    ensures (forall i, j :: 0 <= i < j < |Close(RunOps(ops, cfg), cfg).frames| ==>
               Close(RunOps(ops, cfg), cfg).frames[i].time < Close(RunOps(ops, cfg), cfg).frames[j].time) ==>
      (TellsHistory(file, ops, cfg) <==> Close(RunOps(ops, cfg), cfg).ok)
  {
    hide RunOps, Close, Faithful, ValuesAt, Facilities, Ordered, DecodeFile;
    var c := Close(RunOps(ops, cfg), cfg);
    SeenFrames(file, c, cfg);
    if c.ok {
      forall t: nat ensures
        TraceHistory.Lookup(DecodeFile(file, Facilities(ops, cfg)), t, Facilities(ops, cfg)) == ValuesAt(ops, t, cfg)
      {
        FileTellsUntil(cfg, ops, file, t);
      }
    } else if forall i, j :: 0 <= i < j < |c.frames| ==> c.frames[i].time < c.frames[j].time {
      FileTellsUntil(cfg, ops, file, c.frames[c.right].time);
    }
  }

  /** It does when times never go back and no facility changes twice in one time step. */
  lemma FileTellsHistory(cfg: Config, ops: seq<Op>, file: seq<seq<byte>>)
    requires Declared(ops) && Ordered(ops) && Quiet(ops, cfg) && Closable(RunOps(ops, cfg))
    requires Faithful(file, Close(RunOps(ops, cfg), cfg), cfg)
    ensures TellsHistory(file, ops, cfg)
  {
    hide RunOps, Close, Faithful, TellsHistory, Quiet, Ordered;
    QuietOk(ops, cfg);
    FileTellsIff(cfg, ops, file);
  }

  /** So what a reader decodes at time `t` is, for each facility, what the last change up to `t` said. */
  lemma DecodesLastChange(cfg: Config, ops: seq<Op>, file: seq<seq<byte>>, k: nat, t: nat)
    requires Declared(ops) && TellsHistory(file, ops, cfg)
    requires k < |ops| && ops[k].Change? && ops[k].raw != "" && TimeOf(ops[..k]) <= t
    requires ops[k].f < |Facilities(ops[..k], cfg)| && Untouched(ops, k + 1, ops[k].f, t)
    ensures var vs, f := Facilities(ops, cfg), ops[k].f;
      var seen := TraceHistory.Lookup(DecodeFile(file, vs), t, vs);
      f < |vs| == |seen| && FixedUp(ops[k].raw, |vs[f]|, seen[f])
  {
    hide FixedUp, DecodeFile, Facilities, ValuesAt, Untouched;
    LastChangeCounts(ops, k, t, cfg);
  }

  /** The pulse within one time step, from the file: its first moment is right and the next is not. */
  lemma PulseDecodedWrong(cfg: Config, file: seq<seq<byte>>)
    requires ValidConfig(cfg) && Declared(PULSE) && Closable(RunOps(PULSE, cfg))
    requires Faithful(file, Close(RunOps(PULSE, cfg), cfg), cfg)
    ensures var vs := Facilities(PULSE, cfg);
      && TraceHistory.Lookup(DecodeFile(file, vs), 0, vs) == ValuesAt(PULSE, 0, cfg) == ["0"]
      && TraceHistory.Lookup(DecodeFile(file, vs), 1, vs) != ValuesAt(PULSE, 1, cfg) == ["0"]
  {
    hide RunOps, Close, Faithful, ValuesAt, Facilities, DecodeFile;
    PulseLost(cfg);
    var c, vs := Close(RunOps(PULSE, cfg), cfg), Facilities(PULSE, cfg);
    FileTellsUntil(cfg, PULSE, file, 0);
    FileTellsUntil(cfg, PULSE, file, 1);
    FramesTellHistory(PULSE, cfg, 0);
    FramesTellHistory(PULSE, cfg, 1);
    LookupDecided(c.frames, 0, 0, vs);
    LookupDecided(c.frames, 1, 1, vs);
  }

  /**
   A whole run. Unless a 32-bit counter could wrap or no header was written, the file
   reads back, its frames are the recorded ones if and only if the recorder says they
   can be, and every section that starts with a checkpoint can be decoded on its own. If
   moreover times never go back and no facility changes twice in one time step, decoding
   the file gives every facility's value at every time.
   */
  method Write(cfg: Config, ops: seq<Op>) returns (outcome: Outcome)
    requires ValidConfig(cfg) && AllCallable(ops)
    ensures Declared(ops)
    ensures outcome.Headless? ==> !Closable(RunOps(ops, cfg))
    ensures outcome.TooBig? ==> exists n :: 0 <= n <= |ops| && Declared(ops[..n]) && Huge(RunOps(ops[..n], cfg), |ops|)
    ensures outcome.File? ==>
      Closable(RunOps(ops, cfg)) && Faithful(outcome.sections, Close(RunOps(ops, cfg), cfg), cfg)
    ensures outcome.File? && Ordered(ops) && Quiet(ops, cfg) ==> TellsHistory(outcome.sections, ops, cfg)
  {
    hide Trace.Ready, Trace.Room, Faithful, Consistent, Declared, Step, Huge, Weight, Callable, TellsHistory, Quiet, Ordered;
    CallableDeclared(ops);
    assert ops[..|ops|] == ops;
    var trace := new Trace(cfg);
    assert RunOps(ops[..0], cfg) == START;
    var i := 0;
    while i < |ops|
      invariant 0 <= i <= |ops| && trace.cfg == cfg && trace.Ready() && trace.r == RunOps(ops[..i], cfg)
      invariant fresh(trace) && fresh(trace.timetable) && fresh(trace.dict) && fresh(trace.dict.repr)
      invariant fresh(trace.mapdict) && fresh(trace.mapdict.repr)
      invariant Bounded(trace.dictMem, |trace.mapdict.Contents()|, i, Weight(trace.r.values))
    {
      var room := HasRoom(trace, i, |ops|);
      if !room {
        return TooBig;
      }
      Perform(trace, ops[i], i);
      assert ops[..i + 1][..i] == ops[..i];
      i := i + 1;
    }
    var room := HasRoom(trace, i, |ops|);
    if !room {
      return TooBig;
    }
    outcome := Finish(trace);
    if outcome.File? && Ordered(ops) && Quiet(ops, cfg) {
      FileTellsHistory(cfg, ops, outcome.sections);
    }
  }
}
