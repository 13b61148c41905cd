/**
 What every step of the trace writer keeps (server/lxt2_write.c:1068-1440 and 1977-1988).
 A View is the writer's whole state; the lemmas say that each primitive step preserves
 `Inv`: the bookkeeping of masks and change lists, the readability of what is already
 written, and the agreement between what a reader decodes and what was recorded.
 */
module TraceInvariant {
  import opened Bits
  import opened ChangeCodec
  import opened TraceFormat
  import opened TraceReader
  import opened TraceRecorder

  /** `msk` and `chg[..chgpos]` hold the changes of the current granule. */
  datatype Symbol = Symbol(value: string, msk: nat, chgpos: nat, chg: seq<nat>)

  datatype View = View(
    cfg: Config, syms: seq<Symbol>, times: seq<nat>,
    dict: seq<string>, masks: seq<nat>,
    gs: seq<Granule>, done: seq<Section>,
    r: Recorder)

  ghost function Codes(s: Symbol): seq<nat>
    requires s.chgpos <= |s.chg|
  {
    s.chg[..s.chgpos]
  }

  // ----- bookkeeping of one granule

  /** The change list has one code per mask bit, and no bit lies above the current position. */
  ghost predicate Tallied(s: Symbol, pos: nat)
  {
    && s.value != "" && |s.chg| == GRANULE_SIZE
    && s.msk < Pow2(pos + 1) && s.msk < Pow2(GRANULE_SIZE)
    && s.chgpos == CountBelow(s.msk, GRANULE_SIZE)
  }

  ghost predicate SymbolShape(s: Symbol, pos: nat, dict: seq<string>)
  {
    Tallied(s, pos) && Known(Codes(s), dict)
  }

  /**
   The bookkeeping invariant of a granule, on its own: enough for every index of the
   writer to be in range.
   */
  ghost predicate Sound(v: View)
  {
    var sound :=
      && Consistent(v.r) && v.r.pos <= GRANULE_SIZE && |v.times| == GRANULE_SIZE
      && |v.syms| == |v.r.values|
      && forall f :: 0 <= f < |v.syms| ==> Tallied(v.syms[f], v.r.pos) && v.syms[f].value == v.r.values[f];
    sound
  }

  ghost predicate Bookkeeping(v: View)
  {
    && v.r.pos <= GRANULE_SIZE && |v.times| == GRANULE_SIZE && Fit(v.times, 8)
    && |v.syms| == |v.r.values|
    && forall f :: 0 <= f < |v.syms| ==> SymbolShape(v.syms[f], v.r.pos, v.dict) && v.syms[f].value == v.r.values[f]
  }

  /** The change list's length is the number of bits up to the current position. */
  lemma ChangeCount(s: Symbol, pos: nat)
    requires Tallied(s, pos) && pos < GRANULE_SIZE
    ensures s.chgpos == CountBelow(s.msk, pos + 1) <= pos + 1
    ensures s.chgpos == CountBelow(s.msk, pos) + if Bit(s.msk, pos) then 1 else 0
  {
    CountNone(s.msk, pos + 1, GRANULE_SIZE);
  }

  predicate Puttable(s: Symbol, pos: nat)
  {
    s.chgpos <= |s.chg| && if Bit(s.msk, pos) then s.chgpos > 0 else s.chgpos < |s.chg|
  }

  /** Lines 1977-1990: a new code for a new time position, or in place of the last one. */
  function Put(s: Symbol, pos: nat, code: nat, v: string): Symbol
    requires Puttable(s, pos)
  {
    if Bit(s.msk, pos) then s.(value := v, chg := s.chg[s.chgpos - 1 := code])
    else s.(value := v, msk := s.msk + Pow2(pos), chg := s.chg[s.chgpos := code], chgpos := s.chgpos + 1)
  }

  /** The write never runs over the end of `chg`, and replaces only a code of the current time. */
  lemma PutInRange(s: Symbol, pos: nat)
    requires Tallied(s, pos) && pos < GRANULE_SIZE
    ensures Puttable(s, pos)
    ensures if Bit(s.msk, pos) then s.chgpos > 0 && s.chgpos - 1 == CountBelow(s.msk, pos) else s.chgpos < GRANULE_SIZE
  {
    ChangeCount(s, pos);
  }

  lemma PutMask(s: Symbol, pos: nat, code: nat, v: string)
    requires Tallied(s, pos) && pos < GRANULE_SIZE && v != ""
    ensures Puttable(s, pos)
    ensures var s' := Put(s, pos, code, v);
      && s'.msk < Pow2(pos + 1) && Bit(s'.msk, pos)
      && (forall q: nat :: q < pos ==> Bit(s'.msk, q) == Bit(s.msk, q))
  {
    PutInRange(s, pos);
    if !Bit(s.msk, pos) {
      TopBit(s.msk, pos);
      SetTopBit(s.msk, pos);
    }
  }

  lemma PutTallied(s: Symbol, pos: nat, code: nat, v: string)
    requires Tallied(s, pos) && pos < GRANULE_SIZE && v != ""
    ensures Puttable(s, pos)
    ensures Tallied(Put(s, pos, code, v), pos)
  {
    PutMask(s, pos, code, v);
    ChangeCount(s, pos);
    var s' := Put(s, pos, code, v);
    Pow2Monotone(pos + 1, GRANULE_SIZE);
    CountSame(s.msk, s'.msk, pos);
    CountNone(s'.msk, pos + 1, GRANULE_SIZE);
  }

  lemma PutShape(s: Symbol, pos: nat, code: nat, v: string, dict: seq<string>)
    requires SymbolShape(s, pos, dict) && pos < GRANULE_SIZE && v != "" && code < DICT_START + |dict|
    ensures Puttable(s, pos)
    ensures SymbolShape(Put(s, pos, code, v), pos, dict)
  {
    PutTallied(s, pos, code, v);
    ChangeCount(s, pos);
    var s' := Put(s, pos, code, v);
    forall k | 0 <= k < |Codes(s')| ensures Codes(s')[k] < DICT_START + |dict| {
      if k < |Codes(s)| {
        assert Codes(s)[k] < DICT_START + |dict|;
      }
    }
  }

  /** Only the value at the current position changes, and it becomes what the new code says. */
  lemma PutReplay(s: Symbol, pos: nat, code: nat, v: string, base: string, n: nat, dict: seq<string>)
    requires SymbolShape(s, pos, dict) && pos < GRANULE_SIZE && v != "" && code < DICT_START + |dict|
    requires base != "" && n <= pos
    ensures Puttable(s, pos)
    ensures SymbolShape(Put(s, pos, code, v), pos, dict)
    ensures Replay(Put(s, pos, code, v).msk, Codes(Put(s, pos, code, v)), n, base, dict) ==
            Replay(s.msk, Codes(s), n, base, dict)
  {
    PutMask(s, pos, code, v);
    PutShape(s, pos, code, v, dict);
    ChangeCount(s, pos);
    var s' := Put(s, pos, code, v);
    CountMonotone(s.msk, n, pos);
    assert Codes(s)[..CountBelow(s.msk, n)] == Codes(s')[..CountBelow(s.msk, n)];
    ReplaySame(s.msk, Codes(s), s'.msk, Codes(s'), n, base, dict);
  }

  lemma PutDecodes(s: Symbol, pos: nat, code: nat, v: string, base: string, dict: seq<string>)
    requires SymbolShape(s, pos, dict) && pos < GRANULE_SIZE && v != "" && code < DICT_START + |dict|
    requires base != ""
    ensures Puttable(s, pos)
    ensures SymbolShape(Put(s, pos, code, v), pos, dict)
    ensures Replay(Put(s, pos, code, v).msk, Codes(Put(s, pos, code, v)), pos + 1, base, dict) ==
            Apply(code, Replay(s.msk, Codes(s), pos, base, dict), dict)
  {
    PutMask(s, pos, code, v);
    PutShape(s, pos, code, v, dict);
    PutReplay(s, pos, code, v, base, pos, dict);
    ChangeCount(s, pos);
    var s' := Put(s, pos, code, v);
    CountSame(s.msk, s'.msk, pos);
    assert Codes(s')[CountBelow(s'.msk, pos)] == code;
  }

  // ----- what a reader would decode

  ghost function SymValue(s: Symbol, n: nat, base: string, dict: seq<string>): (v: string)
    requires base != "" && s.chgpos <= |s.chg|
    ensures |v| == |base|
  {
    Replay(s.msk, Codes(s), n, base, dict)
  }

  /** The values after the first `n` positions of the granule under construction. */
  ghost function SymValues(syms: seq<Symbol>, n: nat, base: seq<string>, dict: seq<string>): (v: seq<string>)
    requires Proper(base) && |syms| == |base|
    requires forall f :: 0 <= f < |syms| ==> syms[f].chgpos <= |syms[f].chg|
    ensures |v| == |syms|
  {
    seq(|syms|, f requires 0 <= f < |syms| => SymValue(syms[f], n, base[f], dict))
  }

  ghost function Pending(syms: seq<Symbol>, n: nat, times: seq<nat>, base: seq<string>, dict: seq<string>): (fs: seq<Frame>)
    requires Proper(base) && |syms| == |base| && n <= |times|
    requires forall f :: 0 <= f < |syms| ==> syms[f].chgpos <= |syms[f].chg|
    ensures |fs| == n
  {
    seq(n, p requires 0 <= p < n => Frame(times[p], SymValues(syms, p + 1, base, dict)))
  }

  /** The values at the start of the section, and at the start of the granule, as a reader has them. */
  ghost function SectionBase(v: View): (b: seq<string>)
    requires Consistent(v.r)
    ensures Proper(b) && SameWidths(b, v.r.inits)
  {
    FileEnd(v.done, v.r.inits)
  }

  ghost function GranuleBase(v: View): (b: seq<string>)
    requires Consistent(v.r)
    ensures Proper(b) && SameWidths(b, v.r.inits)
  {
    EndValues(v.gs, v.masks, v.dict, SectionBase(v))
  }

  ghost function Written(v: View): seq<Frame>
    requires Consistent(v.r)
  {
    FileFrames(v.done, v.r.inits) + Frames(v.gs, v.masks, v.dict, SectionBase(v))
  }

  ghost function Decoded(v: View): seq<Frame>
    requires Consistent(v.r) && Bookkeeping(v)
  {
    Written(v) + Pending(v.syms, v.r.pos, v.times, GranuleBase(v), v.dict)
  }

  /** The reader's value of `f` at the current position is the recorded one exactly when it can be. */
  ghost predicate CurrentOk(v: View, f: nat)
    requires Consistent(v.r) && Bookkeeping(v) && f < |v.syms|
  {
    var b, s, r := GranuleBase(v)[f], v.syms[f], v.r;
    var seen := SymValue(s, r.pos + 1, b, v.dict);
    && SymValue(s, r.pos, b, v.dict) == r.base[f]
    && if SectionStart(r) then seen == r.values[f]
       else seen == r.values[f] <==> Overwrites(r.base[f], r.prior[f], r.values[f], false, v.cfg.logical)
  }

  ghost predicate History(v: View)
    requires Consistent(v.r) && Bookkeeping(v)
  {
    && Matches(Decoded(v), v.r.frames, v.r.right) && (v.r.ok <==> v.r.right == |v.r.frames|)
    && (v.r.ok ==> forall f :: 0 <= f < |v.syms| ==> CurrentOk(v, f))
  }

  // ----- what is already written

  ghost predicate Legible(v: View)
  {
    && (forall i :: 0 <= i < |v.dict| ==> IsText(v.dict[i]))
    && Fit(v.masks, 8)
    && AllReadable(v.gs, v.masks, |v.syms|) && AllKnown(v.gs, v.masks, v.dict)
    && |v.gs| == v.r.gran && |v.done| == v.r.block
    && forall k :: 0 <= k < |v.done| ==> SectionReadable(v.done[k], |v.syms|) && CountsFit(v.done[k].dict, v.done[k].masks)
  }

  /** The section that starts with block number `k` begins with a checkpoint. */
  predicate Checkpointed(k: nat, cfg: Config)
  {
    k == 0 || cfg.checkpoints
  }

  ghost predicate SymbolSet(s: Symbol, dict: seq<string>)
  {
    Bit(s.msk, 0) && 0 < s.chgpos <= |s.chg| && Decisive(s.chg[0], |s.value|, dict)
  }

  ghost predicate SelfContained(v: View)
    requires Consistent(v.r)
  {
    && (forall k :: 0 <= k < |v.done| && Checkpointed(k, v.cfg) ==>
          v.done[k].granules != [] && Checkpoint(v.done[k].granules[0], v.done[k].masks, v.done[k].dict, v.r.inits))
    && (Checkpointed(v.r.block, v.cfg) && v.gs != [] ==> Checkpoint(v.gs[0], v.masks, v.dict, v.r.inits))
  }

  /** The granule under construction starts with a checkpoint, if it should. */
  ghost predicate StartSet(v: View)
  {
    Checkpointed(v.r.block, v.cfg) && v.r.gran == 0 ==>
      forall f :: 0 <= f < |v.syms| ==> SymbolSet(v.syms[f], v.dict)
  }

  /** The bytes: of the section under construction, of the finished ones, and of the string dictionary. */
  datatype Store = Store(mem: nat, out: seq<byte>, file: seq<seq<byte>>)

  /** The bytes written so far are those of the granules and sections written so far. */
  ghost predicate Stored(v: View, st: Store)
  {
    var stored :=
      && st.mem == |StringsBytes(v.dict)|
      && Writable(v.gs) && st.out == GranulesBytes(v.gs)
      && |st.file| == |v.done|
      && forall k :: 0 <= k < |v.done| ==> Writable(v.done[k].granules) && st.file[k] == SectionBytes(v.done[k]);
    stored
  }

  ghost predicate Inv(v: View)
  {
    var inv :=
      && ValidConfig(v.cfg) && Consistent(v.r) && Bookkeeping(v) && History(v) && Legible(v) && SelfContained(v)
      && (!v.r.emitted ==> v.dict == [] && v.masks == []);
    inv
  }

  // ----- step: the string dictionary grows

  ghost predicate Extends(dict: seq<string>, dict': seq<string>)
  {
    dict <= dict' && forall i :: 0 <= i < |dict'| ==> IsText(dict'[i])
  }

  lemma SymValueMoreDict(s: Symbol, n: nat, base: string, dict: seq<string>, dict': seq<string>)
    requires base != "" && s.chgpos <= |s.chg| && Known(Codes(s), dict) && dict <= dict'
    ensures SymValue(s, n, base, dict') == SymValue(s, n, base, dict)
  {
    assert dict' == dict + dict'[|dict|..];
    ReplayMoreDict(s.msk, Codes(s), n, base, dict, dict'[|dict|..]);
  }

  lemma DictGrowsValues(v: View, dict': seq<string>, n: nat)
    requires Inv(v) && Extends(v.dict, dict')
    ensures SymValues(v.syms, n, GranuleBase(v), dict') == SymValues(v.syms, n, GranuleBase(v), v.dict)
  {
    hide Legible, SelfContained, History;
    forall f | 0 <= f < |v.syms|
      ensures SymValue(v.syms[f], n, GranuleBase(v)[f], dict') == SymValue(v.syms[f], n, GranuleBase(v)[f], v.dict)
    {
      SymValueMoreDict(v.syms[f], n, GranuleBase(v)[f], v.dict, dict');
    }
  }

  lemma DictGrowsDecoded(v: View, dict': seq<string>)
    requires Inv(v) && Extends(v.dict, dict')
    ensures Bookkeeping(v.(dict := dict')) && GranuleBase(v.(dict := dict')) == GranuleBase(v)
    ensures Decoded(v.(dict := dict')) == Decoded(v)
  {
    hide SymValues, SelfContained, History;
    var v' := v.(dict := dict');
    FramesMore(v.gs, v.masks, v.dict, SectionBase(v), v.masks, dict');
    var now, was := Pending(v.syms, v.r.pos, v.times, GranuleBase(v), dict'), Pending(v.syms, v.r.pos, v.times, GranuleBase(v), v.dict);
    forall p | 0 <= p < v.r.pos ensures now[p] == was[p] {
      DictGrowsValues(v, dict', p + 1);
    }
  }

  lemma DictGrowsHistory(v: View, dict': seq<string>)
    requires Inv(v) && Extends(v.dict, dict')
    ensures Bookkeeping(v.(dict := dict')) && History(v.(dict := dict'))
  {
    hide Decoded, GranuleBase, Legible, SelfContained;
    var v' := v.(dict := dict');
    DictGrowsDecoded(v, dict');
    forall f | 0 <= f < |v.syms| && v.r.ok ensures CurrentOk(v', f) {
      assert CurrentOk(v, f);
      SymValueMoreDict(v.syms[f], v.r.pos, GranuleBase(v)[f], v.dict, dict');
      SymValueMoreDict(v.syms[f], v.r.pos + 1, GranuleBase(v)[f], v.dict, dict');
    }
  }

  lemma DictGrows(v: View, dict': seq<string>)
    requires Inv(v) && v.r.emitted && Extends(v.dict, dict')
    ensures Inv(v.(dict := dict')) && (StartSet(v) ==> StartSet(v.(dict := dict')))
  {
    hide History, Bookkeeping;
    DictGrowsHistory(v, dict');
    DictGrowsShape(v, dict');
  }

  lemma DictGrowsShape(v: View, dict': seq<string>)
    requires Inv(v) && Extends(v.dict, dict')
    ensures |v.syms| == |v.r.values| && Legible(v.(dict := dict')) && SelfContained(v.(dict := dict'))
    ensures StartSet(v) ==> StartSet(v.(dict := dict'))
  {
    hide History;
  }

  // ----- step: one change is recorded

  lemma EncodesKnown(code: nat, was: string, v: string, sectionStart: bool, logical: bool, dict: seq<string>)
    requires |was| == |v| > 0 && Encodes(code, was, v, sectionStart, logical, dict)
    ensures code < DICT_START + |dict|
  {
    ArithmeticRange(was, v, logical);
  }

  /** The view after facility `f` has been given `code` for its new value. */
  ghost function Changed(v: View, f: nat, code: nat, val: string): View
    requires Consistent(v.r) && Bookkeeping(v) && v.r.timeset && v.r.emitted && v.r.pos < GRANULE_SIZE
    requires f < |v.syms| && |val| == |v.r.values[f]| && code < DICT_START + |v.dict|
  {
    PutShape(v.syms[f], v.r.pos, code, val, v.dict);
    v.(syms := v.syms[f := Put(v.syms[f], v.r.pos, code, val)], r := Record(v.r, f, val))
  }

  ghost predicate Records(v: View, f: nat, code: nat, val: string)
  {
    && Inv(v) && v.r.timeset && v.r.emitted && v.r.pos < GRANULE_SIZE
    && f < |v.syms| && |val| == |v.r.values[f]| && code < DICT_START + |v.dict|
    && (SectionStart(v.r) || val != v.r.values[f])
    && Encodes(code, v.r.values[f], val, SectionStart(v.r), v.cfg.logical, v.dict)
  }

  lemma ChangedBookkeeping(v: View, f: nat, code: nat, val: string)
    requires Records(v, f, code, val)
    ensures Bookkeeping(Changed(v, f, code, val))
    ensures GranuleBase(Changed(v, f, code, val)) == GranuleBase(v) && Written(Changed(v, f, code, val)) == Written(v)
  {
    PutShape(v.syms[f], v.r.pos, code, val, v.dict);
  }

  lemma ChangedCurrent(v: View, f: nat, code: nat, val: string)
    requires Records(v, f, code, val) && v.r.ok
    ensures Bookkeeping(Changed(v, f, code, val)) && CurrentOk(Changed(v, f, code, val), f)
  {
    ChangedBookkeeping(v, f, code, val);
    assert CurrentOk(v, f);
    var b, s, r := GranuleBase(v)[f], v.syms[f], v.r;
    PutReplay(s, r.pos, code, val, b, r.pos, v.dict);
    PutDecodes(s, r.pos, code, val, b, v.dict);
    if SectionStart(r) {
      SectionStartDecodes(code, r.base[f], r.values[f], val, v.cfg.logical, v.dict);
    } else {
      ChangeDecodesIff(code, r.base[f], r.values[f], val, false, v.cfg.logical, v.dict);
    }
  }

  lemma PutPending(syms: seq<Symbol>, f: nat, s': Symbol, pos: nat, times: seq<nat>, b: seq<string>, dict: seq<string>)
    requires Proper(b) && |syms| == |b| && f < |syms| && pos <= |times|
    requires forall k :: 0 <= k < |syms| ==> syms[k].chgpos <= |syms[k].chg|
    requires s'.chgpos <= |s'.chg|
    requires forall n: nat :: n <= pos ==> SymValue(s', n, b[f], dict) == SymValue(syms[f], n, b[f], dict)
    ensures Pending(syms[f := s'], pos, times, b, dict) == Pending(syms, pos, times, b, dict)
  {
    var syms' := syms[f := s'];
    forall p | 0 <= p < pos ensures Pending(syms', pos, times, b, dict)[p] == Pending(syms, pos, times, b, dict)[p] {
      forall k | 0 <= k < |syms| ensures SymValue(syms'[k], p + 1, b[k], dict) == SymValue(syms[k], p + 1, b[k], dict) {
      }
      assert SymValues(syms', p + 1, b, dict) == SymValues(syms, p + 1, b, dict);
    }
  }

  lemma ChangedDecoded(v: View, f: nat, code: nat, val: string)
    requires Records(v, f, code, val)
    ensures Bookkeeping(Changed(v, f, code, val)) && Decoded(Changed(v, f, code, val)) == Decoded(v)
  {
    ChangedBookkeeping(v, f, code, val);
    var b := GranuleBase(v);
    PutShape(v.syms[f], v.r.pos, code, val, v.dict);
    var s' := Put(v.syms[f], v.r.pos, code, val);
    forall n: nat | n <= v.r.pos ensures SymValue(s', n, b[f], v.dict) == SymValue(v.syms[f], n, b[f], v.dict) {
      PutReplay(v.syms[f], v.r.pos, code, val, b[f], n, v.dict);
    }
    PutPending(v.syms, f, s', v.r.pos, v.times, b, v.dict);
  }

  lemma OtherCurrent(v: View, f: nat, code: nat, val: string, k: nat)
    requires Records(v, f, code, val) && k < |v.syms| && k != f && CurrentOk(v, k)
    ensures Bookkeeping(Changed(v, f, code, val)) && CurrentOk(Changed(v, f, code, val), k)
  {
    ChangedBookkeeping(v, f, code, val);
  }

  lemma ChangedHistory(v: View, f: nat, code: nat, val: string)
    requires Records(v, f, code, val)
    ensures Bookkeeping(Changed(v, f, code, val)) && History(Changed(v, f, code, val))
  {
    ChangedDecoded(v, f, code, val);
    if v.r.ok {
      forall k | 0 <= k < |v.syms| ensures CurrentOk(Changed(v, f, code, val), k) {
        if k == f {
          ChangedCurrent(v, f, code, val);
        } else {
          OtherCurrent(v, f, code, val, k);
        }
      }
    }
  }

  lemma PutSet(s: Symbol, pos: nat, code: nat, v: string, dict: seq<string>)
    requires SymbolShape(s, pos, dict) && pos < GRANULE_SIZE && |v| == |s.value| && code < DICT_START + |dict|
    requires if pos == 0 then Decisive(code, |v|, dict) else SymbolSet(s, dict)
    ensures Puttable(s, pos)
    ensures SymbolSet(Put(s, pos, code, v), dict)
  {
    PutMask(s, pos, code, v);
    ChangeCount(s, pos);
    if pos > 0 {
      CountMonotone(s.msk, 1, pos);
      assert CountBelow(s.msk, 1) == CountBelow(s.msk, 0) + 1;
    }
  }

  lemma ChangeKeeps(v: View, f: nat, code: nat, val: string)
    requires Records(v, f, code, val)
    ensures Inv(Changed(v, f, code, val))
    ensures StartSet(v) ==> StartSet(Changed(v, f, code, val))
    ensures Bursts(v.r, v.cfg) ==> SymbolSet(Changed(v, f, code, val).syms[f], v.dict)
  {
    ChangedHistory(v, f, code, val);
    if SectionStart(v.r) {
      SectionStartDecodes(code, v.r.values[f], v.r.values[f], val, v.cfg.logical, v.dict);
      PutSet(v.syms[f], v.r.pos, code, val, v.dict);
    } else if StartSet(v) && Checkpointed(v.r.block, v.cfg) && v.r.gran == 0 {
      PutSet(v.syms[f], v.r.pos, code, val, v.dict);
    }
  }

  // ----- step: a time position is closed

  lemma OverwritesSelf(x: string, y: string, sectionStart: bool, logical: bool)
    requires |x| == |y| > 0
    ensures Overwrites(x, x, y, sectionStart, logical)
  {
  }

  /** The reader sees the recorded values at this position exactly when PositionOk says so. */
  lemma PositionSeen(v: View)
    requires Inv(v) && v.r.ok
    ensures SymValues(v.syms, v.r.pos + 1, GranuleBase(v), v.dict) == v.r.values <==> PositionOk(v.r, v.cfg.logical)
  {
    var seen := SymValues(v.syms, v.r.pos + 1, GranuleBase(v), v.dict);
    assert forall f :: 0 <= f < |v.syms| ==> CurrentOk(v, f);
    if PositionOk(v.r, v.cfg.logical) {
      forall f | 0 <= f < |v.syms| ensures seen[f] == v.r.values[f] {
        assert CurrentOk(v, f);
      }
    } else {
      var f :| 0 <= f < |v.r.values| && !Overwrites(v.r.base[f], v.r.prior[f], v.r.values[f], false, v.cfg.logical);
      assert CurrentOk(v, f);
      assert seen[f] != v.r.values[f];
    }
  }

  ghost function Sealed(v: View): View
    requires Consistent(v.r) && v.r.emitted
  {
    v.(r := Seal(v.r, v.cfg))
  }

  lemma SealedShape(v: View)
    requires Bookkeeping(v) && Consistent(v.r) && v.r.emitted && v.r.pos < GRANULE_SIZE
    ensures Bookkeeping(Sealed(v))
  {
    Pow2Monotone(v.r.pos + 1, v.r.pos + 2);
  }

  lemma SealedBookkeeping(v: View)
    requires Inv(v) && v.r.emitted && v.r.pos < GRANULE_SIZE && v.times[v.r.pos] == v.r.time
    ensures Bookkeeping(Sealed(v))
    ensures Decoded(Sealed(v)) ==
      Decoded(v) + [Frame(v.r.time, SymValues(v.syms, v.r.pos + 1, GranuleBase(v), v.dict))]
  {
    hide SymValues, Legible, SelfContained, History;
    SealedShape(v);
    var b := GranuleBase(v);
    assert Pending(v.syms, v.r.pos + 1, v.times, b, v.dict) ==
           Pending(v.syms, v.r.pos, v.times, b, v.dict) + [Frame(v.r.time, SymValues(v.syms, v.r.pos + 1, b, v.dict))];
  }

  lemma SealedCurrent(v: View, f: nat)
    requires Inv(v) && v.r.emitted && v.r.pos < GRANULE_SIZE && f < |v.syms|
    requires SymValue(v.syms[f], v.r.pos + 1, GranuleBase(v)[f], v.dict) == v.r.values[f] && Bookkeeping(Sealed(v))
    ensures CurrentOk(Sealed(v), f)
  {
    NoHighBits(v.syms[f].msk, v.r.pos + 1, v.r.pos + 1);
    OverwritesSelf(v.r.values[f], v.r.values[f], false, v.cfg.logical);
  }

  lemma SealKeeps(v: View)
    requires Inv(v) && v.r.emitted && v.r.pos < GRANULE_SIZE && v.times[v.r.pos] == v.r.time
    ensures Inv(Sealed(v)) && (StartSet(v) ==> StartSet(Sealed(v)))
  {
    hide History, Bookkeeping;
    SealedBookkeeping(v);
    SealedHistory(v);
    SealedShapeKept(v);
  }

  lemma SealedShapeKept(v: View)
    requires Inv(v) && v.r.emitted && v.r.pos < GRANULE_SIZE
    ensures |v.syms| == |v.r.values| && Legible(Sealed(v)) && SelfContained(Sealed(v)) && (StartSet(v) ==> StartSet(Sealed(v)))
  {
    hide History;
  }

  lemma SealedHistory(v: View)
    requires Inv(v) && v.r.emitted && v.r.pos < GRANULE_SIZE && v.times[v.r.pos] == v.r.time
    ensures Bookkeeping(Sealed(v)) && History(Sealed(v))
  {
    hide Legible, SelfContained;
    SealedBookkeeping(v);
    var seen := SymValues(v.syms, v.r.pos + 1, GranuleBase(v), v.dict);
    var v' := Sealed(v);
    MatchesMore(Decoded(v), v.r.frames, v.r.right, Frame(v.r.time, seen), Frame(v.r.time, v.r.values));
    if v.r.ok {
      PositionSeen(v);
    }
    if v'.r.ok {
      forall f | 0 <= f < |v.syms| ensures CurrentOk(v', f) {
        assert seen[f] == v.r.values[f];
        SealedCurrent(v, f);
      }
    }
  }

  // ----- step: the granule is written out

  function Cleared(s: Symbol): Symbol
  {
    s.(msk := 0, chgpos := 0)
  }

  function AllCleared(syms: seq<Symbol>): (r: seq<Symbol>)
    ensures |r| == |syms| && forall f :: 0 <= f < |syms| ==> r[f] == Cleared(syms[f])
  {
    seq(|syms|, f requires 0 <= f < |syms| => Cleared(syms[f]))
  }

  /** `g` is the granule under construction, with its masks looked up in `masks'`. */
  ghost predicate Represents(g: Granule, v: View, masks': seq<nat>)
    requires Bookkeeping(v)
  {
    && v.masks <= masks' && Fit(masks', 8)
    && g.times == v.times[..v.r.pos]
    && |g.maps| == |g.codes| == |v.syms|
    && Readable(g, masks', |v.syms|)
    && forall f :: 0 <= f < |v.syms| ==>
         g.maps[f] < |masks'| && masks'[g.maps[f]] == v.syms[f].msk && g.codes[f] == Codes(v.syms[f])
  }

  ghost function Flushed(v: View, g: Granule, masks': seq<nat>): View
  {
    v.(syms := AllCleared(v.syms), masks := masks', gs := v.gs + [g], r := NextGranule(v.r))
  }

  /** All positions so far are closed. */
  ghost predicate Settled(r: Recorder)
  {
    r.base == r.values && r.prior == r.values
  }

  lemma RepresentsValues(v: View, g: Granule, masks': seq<nat>, n: nat)
    requires Inv(v) && Represents(g, v, masks')
    ensures GranuleValues(g, masks', v.dict, GranuleBase(v), n) == SymValues(v.syms, n, GranuleBase(v), v.dict)
  {
    var b := GranuleBase(v);
    forall f | 0 <= f < |v.syms|
      ensures GranuleValues(g, masks', v.dict, b, n)[f] == SymValues(v.syms, n, b, v.dict)[f]
    {
    }
  }

  lemma FlushedDecoded(v: View, g: Granule, masks': seq<nat>)
    requires Inv(v) && v.r.emitted && Represents(g, v, masks')
    ensures Consistent(Flushed(v, g, masks').r)
    ensures Written(Flushed(v, g, masks')) == Decoded(v)
    ensures GranuleBase(Flushed(v, g, masks')) == SymValues(v.syms, v.r.pos, GranuleBase(v), v.dict)
  {
    hide SymValues, GranuleValues, SelfContained, History;
    var v', b := Flushed(v, g, masks'), GranuleBase(v);
    FramesMore(v.gs, v.masks, v.dict, SectionBase(v), masks', v.dict);
    assert v'.gs[..|v'.gs| - 1] == v.gs;
    RepresentsValues(v, g, masks', v.r.pos);
    assert GranuleFrames(g, masks', v.dict, b) == Pending(v.syms, v.r.pos, v.times, b, v.dict) by {
      forall p | 0 <= p < v.r.pos
        ensures GranuleFrames(g, masks', v.dict, b)[p] == Pending(v.syms, v.r.pos, v.times, b, v.dict)[p]
      {
        RepresentsValues(v, g, masks', p + 1);
      }
    }
  }

  lemma ClearedShape(s: Symbol, pos: nat, dict: seq<string>, base: string)
    requires SymbolShape(s, pos, dict) && base != ""
    ensures SymbolShape(Cleared(s), 0, dict)
    ensures SymValue(Cleared(s), 0, base, dict) == base && SymValue(Cleared(s), 1, base, dict) == base
  {
    CountNone(0, 0, GRANULE_SIZE);
    NoHighBits(0, 0, 0);
  }

  lemma FlushedShape(v: View, g: Granule, masks': seq<nat>)
    requires Inv(v) && v.r.emitted && Represents(g, v, masks')
    ensures Consistent(Flushed(v, g, masks').r) && Bookkeeping(Flushed(v, g, masks'))
    ensures Decoded(Flushed(v, g, masks')) == Written(Flushed(v, g, masks'))
  {
    hide Written, GranuleBase, Legible, SelfContained, History;
    var v' := Flushed(v, g, masks');
    forall f | 0 <= f < |v.syms| ensures SymbolShape(v'.syms[f], 0, v.dict) {
      ClearedShape(v.syms[f], v.r.pos, v.dict, v.r.inits[f]);
    }
    assert Pending(v'.syms, 0, v'.times, GranuleBase(v'), v'.dict) == [];
  }

  lemma FlushedHistory(v: View, g: Granule, masks': seq<nat>)
    requires Inv(v) && v.r.emitted && Settled(v.r) && Represents(g, v, masks')
    ensures Consistent(Flushed(v, g, masks').r) && Bookkeeping(Flushed(v, g, masks')) && History(Flushed(v, g, masks'))
  {
    hide Decoded, Written, GranuleBase, Legible, SelfContained;
    var v' := Flushed(v, g, masks');
    FlushedDecoded(v, g, masks');
    FlushedShape(v, g, masks');
    var b' := GranuleBase(v');
    if v.r.ok {
      forall f | 0 <= f < |v.syms| ensures CurrentOk(v', f) {
        assert CurrentOk(v, f);
        assert b'[f] == v.r.base[f];
        ClearedShape(v.syms[f], v.r.pos, v.dict, b'[f]);
        OverwritesSelf(v.r.values[f], v.r.values[f], false, v.cfg.logical);
      }
    }
  }

  lemma ReadableMore(g: Granule, masks: seq<nat>, masks': seq<nat>, facs: nat)
    requires Readable(g, masks, facs) && masks <= masks'
    ensures Readable(g, masks', facs)
  {
    assert Counts(g.maps, masks') == Counts(g.maps, masks);
  }

  lemma FlushedLegible(v: View, g: Granule, masks': seq<nat>)
    requires Inv(v) && Represents(g, v, masks')
    ensures Legible(Flushed(v, g, masks'))
  {
    forall i | 0 <= i < |v.gs| ensures Readable(v.gs[i], masks', |v.syms|) {
      ReadableMore(v.gs[i], v.masks, masks', |v.syms|);
    }
  }

  lemma FlushedSelfContained(v: View, g: Granule, masks': seq<nat>)
    requires Inv(v) && v.r.emitted && v.r.pos > 0 && StartSet(v) && Represents(g, v, masks')
    ensures Consistent(Flushed(v, g, masks').r) && SelfContained(Flushed(v, g, masks'))
  {
    var v' := Flushed(v, g, masks');
    if Checkpointed(v.r.block, v.cfg) {
      if v.gs == [] {
        assert v'.gs[0] == g;
        forall f | 0 <= f < |v.r.inits|
          ensures Bit(masks'[g.maps[f]], 0) && g.codes[f] != [] && Decisive(g.codes[f][0], |v.r.inits[f]|, v.dict)
        {
          assert SymbolSet(v.syms[f], v.dict);
          assert g.codes[f][0] == v.syms[f].chg[0];
        }
      } else {
        assert v'.gs[0] == v.gs[0];
        assert Checkpoint(v.gs[0], masks', v.dict, v.r.inits);
      }
    }
  }

  lemma FlushKeeps(v: View, g: Granule, masks': seq<nat>)
    requires Inv(v) && v.r.emitted && v.r.pos > 0 && Settled(v.r) && StartSet(v) && Represents(g, v, masks')
    ensures Inv(Flushed(v, g, masks')) && StartSet(Flushed(v, g, masks'))
  {
    FlushedHistory(v, g, masks');
    FlushedLegible(v, g, masks');
    FlushedSelfContained(v, g, masks');
  }

  // ----- step: the section is finished

  ghost function Finished(v: View): View
  {
    v.(done := v.done + [Section(v.gs, v.dict, v.masks)], gs := [], dict := [], masks := [], r := NextSection(v.r))
  }

  /** Nothing of the granule under construction has been filled in yet. */
  ghost predicate Blank(syms: seq<Symbol>)
  {
    forall f :: 0 <= f < |syms| ==> syms[f].msk == 0 && syms[f].chgpos == 0
  }

  lemma BlankValue(s: Symbol, n: nat, base: string, dict: seq<string>)
    requires base != "" && s.msk == 0 && s.chgpos == 0
    ensures SymValue(s, n, base, dict) == base
  {
    if n > 0 {
      NoHighBits(0, 0, n - 1);
      BlankValue(s, n - 1, base, dict);
    }
  }

  lemma FinishedDecoded(v: View)
    requires Inv(v) && v.r.emitted && v.r.pos == 0
    ensures Consistent(Finished(v).r)
    ensures Written(Finished(v)) == Written(v) == Decoded(v) && GranuleBase(Finished(v)) == GranuleBase(v)
  {
    var v' := Finished(v);
    assert v'.done[..|v'.done| - 1] == v.done;
    assert EndValues([], [], [], SectionBase(v')) == SectionBase(v');
    assert Frames([], [], [], SectionBase(v')) == [];
  }

  lemma FinishedHistory(v: View)
    requires Inv(v) && v.r.emitted && v.r.pos == 0 && Settled(v.r) && Blank(v.syms)
    ensures Consistent(Finished(v).r) && Bookkeeping(Finished(v)) && History(Finished(v))
  {
    hide Legible, SelfContained, Written, GranuleBase;
    var v' := Finished(v);
    FinishedDecoded(v);
    assert Decoded(v') == Written(v');
    if v.r.ok {
      forall f | 0 <= f < |v.syms| ensures CurrentOk(v', f) {
        FinishedCurrent(v, f);
      }
    }
  }

  lemma FinishedCurrent(v: View, f: nat)
    requires Inv(v) && v.r.ok && v.r.emitted && v.r.pos == 0 && Settled(v.r) && Blank(v.syms) && f < |v.syms|
    requires Consistent(Finished(v).r) && Bookkeeping(Finished(v)) && GranuleBase(Finished(v)) == GranuleBase(v)
    ensures CurrentOk(Finished(v), f)
  {
    hide Legible, SelfContained, Written, Decoded, GranuleBase, SymValue;
    assert CurrentOk(v, f);
    var b := GranuleBase(v)[f];
    BlankValue(v.syms[f], 0, b, v.dict);
    BlankValue(v.syms[f], 0, b, []);
    BlankValue(v.syms[f], 1, b, []);
  }

  lemma FinishKeeps(v: View)
    requires Inv(v) && v.r.emitted && v.r.pos == 0 && v.r.gran > 0 && Settled(v.r) && Blank(v.syms)
    requires CountsFit(v.dict, v.masks)
    ensures Inv(Finished(v))
  {
    hide History, Bookkeeping;
    FinishedHistory(v);
    FinishedLegible(v);
  }

  lemma FinishedLegible(v: View)
    requires Inv(v) && v.r.emitted && v.r.pos == 0 && v.r.gran > 0 && CountsFit(v.dict, v.masks)
    ensures |v.syms| == |v.r.values| && Legible(Finished(v)) && SelfContained(Finished(v))
  {
    hide History;
    var v' := Finished(v);
    forall k | 0 <= k < |v'.done|
      ensures SectionReadable(v'.done[k], |v.syms|) && CountsFit(v'.done[k].dict, v'.done[k].masks)
    {
      if k < |v.done| {
        assert v'.done[k] == v.done[k];
      }
    }
  }

  // ----- steps: the time of the position, the clock's flags, a new symbol

  /** `r'` differs from `r` only in flags and in the time of the current position. */
  ghost predicate SameButClock(r: Recorder, r': Recorder)
  {
    r' == r.(timeset := r'.timeset, emitted := r'.emitted, bump := r'.bump, first := r'.first, time := r'.time)
  }

  lemma ClockKeeps(v: View, times': seq<nat>, r': Recorder)
    requires Inv(v) && Consistent(r') && SameButClock(v.r, r') && (v.r.emitted ==> r'.emitted)
    requires |times'| == |v.times| && Fit(times', 8) && times'[..v.r.pos] == v.times[..v.r.pos]
    ensures Inv(v.(times := times', r := r')) && (StartSet(v) ==> StartSet(v.(times := times', r := r')))
  {
    hide History, Bookkeeping;
    ClockHistory(v, times', r');
    ClockShape(v, times', r');
  }

  lemma ClockShape(v: View, times': seq<nat>, r': Recorder)
    requires Inv(v) && Consistent(r') && SameButClock(v.r, r') && (v.r.emitted ==> r'.emitted)
    ensures var v' := v.(times := times', r := r');
      |v.syms| == |v.r.values| && Legible(v') && SelfContained(v') && (StartSet(v) ==> StartSet(v'))
  {
    hide History;
  }

  lemma ClockHistory(v: View, times': seq<nat>, r': Recorder)
    requires Inv(v) && Consistent(r') && SameButClock(v.r, r') && (v.r.emitted ==> r'.emitted)
    requires |times'| == |v.times| && Fit(times', 8) && times'[..v.r.pos] == v.times[..v.r.pos]
    ensures Bookkeeping(v.(times := times', r := r')) && History(v.(times := times', r := r'))
  {
    hide Legible, SelfContained;
    var v' := v.(times := times', r := r');
    var b := GranuleBase(v);
    forall p | 0 <= p < v.r.pos
      ensures Pending(v.syms, v.r.pos, times', b, v.dict)[p] == Pending(v.syms, v.r.pos, v.times, b, v.dict)[p]
    {
      assert times'[p] == times'[..v.r.pos][p] == v.times[..v.r.pos][p];
    }
    assert Decoded(v') == Decoded(v);
    if v.r.ok {
      forall f | 0 <= f < |v.syms| ensures CurrentOk(v', f) {
        assert CurrentOk(v, f);
      }
    }
  }

  /** A symbol as it is created: its initial value is already a change at the first position. */
  function NewSymbol(initial: char, width: nat): Symbol
  {
    var code := if initial == '0' then ENC_0 else if initial == '1' then ENC_1 else if initial == 'z' then ENC_Z else ENC_X;
    Symbol(Fill(initial, width), 1, 1, seq(GRANULE_SIZE, _ => code))
  }

  ghost function Added(v: View, width: nat): View
    requires Consistent(v.r) && width > 0
  {
    v.(syms := v.syms + [NewSymbol(v.cfg.initial, width)], r := AddSymbol(v.r, width, v.cfg))
  }

  lemma NewSymbolShape(initial: char, width: nat)
    requires width > 0 && initial in "01xz"
    ensures SymbolShape(NewSymbol(initial, width), 0, []) && SymbolSet(NewSymbol(initial, width), [])
    ensures SymValue(NewSymbol(initial, width), 0, Fill(initial, width), []) == Fill(initial, width)
    ensures SymValue(NewSymbol(initial, width), 1, Fill(initial, width), []) == Fill(initial, width)
  {
    var s := NewSymbol(initial, width);
    assert Pow2(1) == 2;
    Pow2Monotone(1, GRANULE_SIZE);
    CountNone(1, 1, GRANULE_SIZE);
    assert Bit(1, 0);
    assert CountBelow(1, 1) == CountBelow(1, 0) + 1;
    assert Codes(s) == [s.chg[0]];
    var code := s.chg[0];
    assert Apply(code, Fill(initial, width), []) == Fill(initial, width);
    assert SymValue(s, 1, Fill(initial, width), []) == Apply(code, SymValue(s, 0, Fill(initial, width), []), []);
  }

  lemma AddedBase(v: View, width: nat)
    requires Inv(v) && !v.r.emitted && width > 0
    ensures GranuleBase(v) == v.r.inits && GranuleBase(Added(v, width)) == Added(v, width).r.inits
    ensures Written(v) == [] && Written(Added(v, width)) == []
  {
    assert v.done == [] && v.gs == [];
  }

  lemma AddKeeps(v: View, width: nat)
    requires Inv(v) && !v.r.emitted && StartSet(v) && width > 0
    ensures Inv(Added(v, width)) && StartSet(Added(v, width))
  {
    var v' := Added(v, width);
    NewSymbolShape(v.cfg.initial, width);
    AddedBase(v, width);
    assert Decoded(v') == [];
    assert v.done == [] && v.gs == [];
    forall f | 0 <= f < |v'.syms| ensures CurrentOk(v', f) && SymbolSet(v'.syms[f], []) {
      if f < |v.syms| {
        assert CurrentOk(v, f);
      }
    }
  }

  /** A writer with no symbols yet. */
  ghost function NewView(cfg: Config, times: seq<nat>): View
  {
    View(cfg, [], times, [], [], [], [], START)
  }

  lemma NewViewInv(cfg: Config, times: seq<nat>)
    requires ValidConfig(cfg) && |times| == GRANULE_SIZE && Fit(times, 8)
    ensures Inv(NewView(cfg, times)) && StartSet(NewView(cfg, times))
  {
    var v := NewView(cfg, times);
    assert Decoded(v) == [];
  }
}
