/**
 The trace writer without its compression: it follows the writer's clock
 (server/lxt2_write.c:1443-1537, 1773-1834 and 2136-2144) but keeps whole values. The
 frames it records are what a reader of the real file should see. `ok` says whether
 every frame so far can be told from the codes the real writer keeps: when a symbol
 changes more than once at one time position only the last code survives (lines
 1977-1988), and that code is relative to the value just before it.
 */
module TraceRecorder {
  import opened ChangeCodec
  import opened TraceReader

  const GRANULE_SIZE := 64

  /** `maxGranule` granules per section; `logical` is how the mask shift at line 1924 is read. */
  datatype Config = Config(initial: char, maxGranule: nat, checkpoints: bool, logical: bool)

  ghost predicate ValidConfig(cfg: Config)
  {
    cfg.initial in "01xz" && cfg.maxGranule > 0
  }

  datatype Recorder = Recorder(
    inits: seq<string>,    // the facilities' initial values
    values: seq<string>,   // their current values
    base: seq<string>,     // their values in the last sealed frame
    prior: seq<string>,    // their values just before the last change at this position
    timeset: bool, emitted: bool, bump: bool,
    first: nat,            // the first time ever set
    time: nat,             // the time of the current position
    pos: nat, gran: nat, block: nat,
    frames: seq<Frame>,
    right: nat,            // how many frames, from the first, can be told from the codes
    ok: bool)

  const START := Recorder([], [], [], [], false, false, false, 0, 0, 0, 0, 0, [], 0, true)

  ghost predicate Consistent(r: Recorder)
  {
    && Proper(r.inits) && SameWidths(r.inits, r.values) && SameWidths(r.inits, r.base) && SameWidths(r.inits, r.prior)
    && (!r.emitted ==> r.pos == r.gran == r.block == 0 && !r.bump && r.frames == [] && r.ok
                       && r.values == r.inits && r.base == r.inits)
    && (r.emitted ==> r.timeset) && (r.bump ==> r.emitted)
  }

  /** The first position of a section, where every code is absolute. */
  predicate SectionStart(r: Recorder)
  {
    r.pos == 0 && r.gran == 0
  }

  ghost predicate PositionOk(r: Recorder, logical: bool)
    requires Consistent(r)
  {
    SectionStart(r) || forall f :: 0 <= f < |r.values| ==>
      Overwrites(r.base[f], r.prior[f], r.values[f], false, logical)
  }

  ghost function AddSymbol(r: Recorder, width: nat, cfg: Config): (r': Recorder)
    requires Consistent(r) && width > 0
    ensures Consistent(r')
  {
    var v := [Fill(cfg.initial, width)];
    if r.emitted then r
    else r.(inits := r.inits + v, values := r.values + v, base := r.base + v, prior := r.prior + v)
  }

  /** Close the current position and move on to the next. */
  ghost function Seal(r: Recorder, cfg: Config): (r': Recorder)
    requires Consistent(r) && r.emitted
    ensures Consistent(r')
  {
    r.(frames := r.frames + [Frame(r.time, r.values)], ok := r.ok && PositionOk(r, cfg.logical),
       right := if r.ok && PositionOk(r, cfg.logical) then |r.frames| + 1 else r.right,
       base := r.values, prior := r.values, pos := r.pos + 1)
  }

  ghost function NextGranule(r: Recorder): Recorder
  {
    r.(pos := 0, gran := r.gran + 1)
  }

  ghost function NextSection(r: Recorder): Recorder
  {
    r.(gran := 0, block := r.block + 1)
  }

  /** A full granule is written out; a full section is finished (lines 1466-1470 and 1295-1307). */
  ghost function Wrap(r: Recorder, cfg: Config): Recorder
  {
    if r.pos != GRANULE_SIZE then r
    else if r.gran + 1 >= cfg.maxGranule then NextSection(NextGranule(r))
    else NextGranule(r)
  }

  predicate Bursts(r: Recorder, cfg: Config)
  {
    SectionStart(r) && (r.block == 0 || cfg.checkpoints)
  }

  /** Re-emitting every value at the start of a section changes no value. */
  ghost function Burst(r: Recorder, cfg: Config): (r': Recorder)
  {
    if Bursts(r, cfg) && r.values != [] then r.(emitted := true, bump := true, prior := r.values) else r
  }

  ghost function Clock(r: Recorder, t: nat, cfg: Config): (r': Recorder)
    requires Consistent(r)
    ensures Consistent(r') && r'.timeset
  {
    if !r.timeset then r.(timeset := true, first := t, time := t)
    else if t <= r.first then r
    else if r.bump then Wrap(Seal(r.(bump := false), cfg), cfg).(time := t)
    else r.(time := t)
  }

  ghost function SetTime(r: Recorder, t: nat, cfg: Config): (r': Recorder)
    requires Consistent(r)
    ensures Consistent(r') && r'.timeset
  {
    Burst(Clock(r, t, cfg), cfg)
  }

  /** A change of facility `f` to `v` at the current position. */
  ghost function Record(r: Recorder, f: nat, v: string): (r': Recorder)
    requires Consistent(r) && r.timeset && r.emitted && f < |r.values| && |v| == |r.values[f]|
    ensures Consistent(r')
  {
    if !SectionStart(r) && v == r.values[f] then r
    else r.(bump := true, prior := r.prior[f := r.values[f]], values := r.values[f := v])
  }

  /** The first emission fixes the facilities and, if no time was set yet, sets time 0. */
  ghost function Open(r: Recorder, cfg: Config): (r': Recorder)
    requires Consistent(r)
    ensures Consistent(r') && r'.timeset && r'.emitted && SameWidths(r.inits, r'.values)
  {
    (if r.timeset then r else SetTime(r, 0, cfg)).(emitted := true)
  }

  ghost function Emit(r: Recorder, f: nat, raw: string, cfg: Config): (r': Recorder)
    requires Consistent(r)
    ensures Consistent(r')
  {
    if f >= |r.values| || raw == "" then r
    else Record(Open(r, cfg), f, Normalise(raw, |r.values[f]|))
  }

  /** After a value is emitted the facility has it, brought to length and lower case, and the others are as they were. */
  lemma EmitMeans(r: Recorder, f: nat, raw: string, cfg: Config)
    requires Consistent(r) && f < |r.values| && raw != ""
    ensures |Emit(r, f, raw, cfg).values| == |r.values| && FixedUp(raw, |r.values[f]|, Emit(r, f, raw, cfg).values[f])
    ensures forall g :: 0 <= g < |r.values| && g != f ==> Emit(r, f, raw, cfg).values[g] == r.values[g]
  {
    hide Normalise, FixedUp;
    NormaliseMeans(raw, |r.values[f]|);
    assert Open(r, cfg).values == r.values;
  }

  /** Closing the trace seals the current position and finishes the section (lines 2140-2144). */
  ghost function Close(r: Recorder, cfg: Config): (r': Recorder)
    requires Consistent(r) && (r.timeset ==> r.emitted)
    ensures Consistent(r')
  {
    if r.timeset then NextSection(NextGranule(Seal(r, cfg))) else r
  }
}
