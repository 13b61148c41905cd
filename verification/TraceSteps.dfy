/**
 The writer's operations as relations between views: what each leaves in the fields
 (server/lxt2_write.c:1145-1296, 1307-1433 and 1842-1990), and why the invariant survives.
 */
module TraceSteps {
  import opened Bits
  import opened ChangeCodec
  import opened TraceFormat
  import opened TraceReader
  import opened TraceRecorder
  import opened TraceInvariant

  const WORD := 0x1_0000_0000

  /** Lines 1174-1182: how many bytes an index below `n` takes. */
  function Width(n: nat): (w: nat)
    ensures 1 <= w <= 4
  {
    if n <= 0x100 then 1 else if n <= 0x1_0000 then 2 else if n <= 0x100_0000 then 3 else 4
  }

  /** Every index below `n` fits the width chosen for it. */
  lemma WidthEnough(n: nat)
    requires n <= WORD
    ensures n <= Pow256(Width(n))
  {
  }

  ghost predicate Good(v: View, st: Store)
  {
    var good := Inv(v) && Stored(v, st);
    good
  }

  // ----- one change

  /** A chosen code, the dictionary entry it needed, if any, and the bytes that entry added. */
  datatype Lookup = Lookup(code: nat, entry: string, mem: nat)

  ghost predicate LookedUp(dict: seq<string>, dict': seq<string>, was: string, val: string, start: bool, logical: bool, l: Lookup)
    requires |was| == |val| > 0
  {
    var c := Choice(was, val, start, logical);
    if c >= 0 then dict' == dict && l.code == c && l.mem == 0
    else
      && 0 < |l.entry| <= |val| && LeftFill(l.entry, |val|) == val && IsText(l.entry)
      && dict' == (if l.entry in dict then dict else dict + [l.entry])
      && l.mem == (if l.entry in dict then 0 else |l.entry| + 1)
      && DICT_START <= l.code < DICT_START + |dict'| && dict'[l.code - DICT_START] == l.entry
  }

  /** A change to facility `f` is possible here. */
  ghost predicate CanRecord(v: View, f: nat, val: string)
  {
    var can := Sound(v) && v.r.timeset && v.r.emitted && v.r.pos < GRANULE_SIZE
               && f < |v.syms| && |val| == |v.r.values[f]| > 0;
    can
  }

  ghost predicate Redundant(v: View, f: nat, val: string)
    requires CanRecord(v, f, val)
  {
    !SectionStart(v.r) && val == v.r.values[f]
  }

  ghost predicate Recorded(v: View, st: Store, v': View, st': Store, f: nat, val: string, l: Lookup)
    requires CanRecord(v, f, val)
  {
    PutTallied(v.syms[f], v.r.pos, l.code, val);
    var recorded :=
      if Redundant(v, f, val) then v' == v && st' == st
      else
        && LookedUp(v.dict, v'.dict, v.r.values[f], val, SectionStart(v.r), v.cfg.logical, l)
        && st' == st.(mem := st.mem + l.mem)
        && v' == v.(dict := v'.dict, r := Record(v.r, f, val),
                    syms := v.syms[f := Put(v.syms[f], v.r.pos, l.code, val)]);
    recorded
  }

  lemma Interned(was: seq<string>, now: seq<string>, e: string)
    requires now == if e in was then was else was + [e]
    ensures was <= now
    ensures |StringsBytes(now)| == |StringsBytes(was)| + if e in was then 0 else |e| + 1
    ensures IsText(e) && (forall i :: 0 <= i < |was| ==> IsText(was[i])) ==> forall i :: 0 <= i < |now| ==> IsText(now[i])
  {
    if e !in was {
      assert now[..|was|] == was;
    }
  }

  lemma LookedUpCodes(dict: seq<string>, dict': seq<string>, was: string, val: string, start: bool, logical: bool, l: Lookup)
    requires |was| == |val| > 0 && LookedUp(dict, dict', was, val, start, logical, l)
    requires forall i :: 0 <= i < |dict| ==> IsText(dict[i])
    ensures Extends(dict, dict') && Encodes(l.code, was, val, start, logical, dict')
    ensures l.mem <= |val| + 1 && |StringsBytes(dict')| == |StringsBytes(dict)| + l.mem
  {
    if Choice(was, val, start, logical) < 0 {
      Interned(dict, dict', l.entry);
    }
  }

  /** What a change leaves of the checkpoint at the start of a section. */
  ghost predicate KeepsStart(v: View, v': View, f: nat)
  {
    var keeps :=
      && |v'.syms| == |v.syms| && f < |v.syms|
      && (StartSet(v) ==> StartSet(v'))
      && (Bursts(v.r, v.cfg) ==>
           SymbolSet(v'.syms[f], v'.dict) &&
           forall k :: 0 <= k < |v.syms| && SymbolSet(v.syms[k], v.dict) ==> SymbolSet(v'.syms[k], v'.dict));
    keeps
  }

  lemma DictStep(v: View, f: nat, val: string, dict': seq<string>, l: Lookup)
    requires Inv(v) && CanRecord(v, f, val) && !Redundant(v, f, val)
    requires LookedUp(v.dict, dict', v.r.values[f], val, SectionStart(v.r), v.cfg.logical, l)
    ensures Inv(v.(dict := dict')) && (StartSet(v) ==> StartSet(v.(dict := dict')))
    ensures v.dict <= dict' && Records(v.(dict := dict'), f, l.code, val)
    ensures l.mem <= |val| + 1 && |StringsBytes(dict')| == |StringsBytes(v.dict)| + l.mem
  {
    LookedUpCodes(v.dict, dict', v.r.values[f], val, SectionStart(v.r), v.cfg.logical, l);
    DictGrows(v, dict');
    EncodesKnown(l.code, v.r.values[f], val, SectionStart(v.r), v.cfg.logical, dict');
  }

  lemma SetMore(s: Symbol, dict: seq<string>, dict': seq<string>)
    requires SymbolSet(s, dict) && dict <= dict'
    ensures SymbolSet(s, dict')
  {
  }

  lemma StoredMore(v: View, st: Store, v': View, st': Store, mem: nat)
    requires Stored(v, st) && v'.gs == v.gs && v'.done == v.done && st' == st.(mem := st.mem + mem)
    requires |StringsBytes(v'.dict)| == |StringsBytes(v.dict)| + mem
    ensures Stored(v', st')
  {
  }

  lemma RecordedKeeps(v: View, st: Store, v': View, st': Store, f: nat, val: string, l: Lookup)
    requires Good(v, st) && CanRecord(v, f, val) && Recorded(v, st, v', st', f, val, l)
    ensures Good(v', st') && v'.r == Record(v.r, f, val) && st'.mem <= st.mem + |val| + 1
  {
    hide Inv, Stored, LookedUp, Put, StringsBytes;
    if !Redundant(v, f, val) {
      DictStep(v, f, val, v'.dict, l);
      ChangeKeeps(v.(dict := v'.dict), f, l.code, val);
      StoredMore(v, st, v', st', l.mem);
    }
  }

  lemma RecordedKeepsStart(v: View, st: Store, v': View, st': Store, f: nat, val: string, l: Lookup)
    requires Good(v, st) && CanRecord(v, f, val) && Recorded(v, st, v', st', f, val, l)
    ensures KeepsStart(v, v', f)
  {
    if !Redundant(v, f, val) {
      DictStep(v, f, val, v'.dict, l);
      ChangeKeeps(v.(dict := v'.dict), f, l.code, val);
      if Bursts(v.r, v.cfg) {
        forall k | 0 <= k < |v.syms| && SymbolSet(v.syms[k], v.dict) ensures SymbolSet(v'.syms[k], v'.dict) {
          if k != f {
            SetMore(v.syms[k], v.dict, v'.dict);
          }
        }
      }
    }
  }

  // ----- writing out a granule

  ghost predicate HasMask(syms: seq<Symbol>, m: nat)
  {
    exists f :: 0 <= f < |syms| && syms[f].msk == m
  }

  ghost predicate Shipped(v: View, st: Store, v': View, st': Store, g: Granule)
  {
    var shipped :=
      && Sound(v) && Narrow(g)
      && v.masks <= v'.masks
      && (forall i :: |v.masks| <= i < |v'.masks| ==> HasMask(v.syms, v'.masks[i]))
      && g.times == v.times[..v.r.pos]
      && g.mapWidth == Width(|v'.masks|) && g.codeWidth == Width(|v.dict| + DICT_START)
      && |g.maps| == |g.codes| == |v.syms|
      && (forall f :: 0 <= f < |v.syms| ==>
           g.maps[f] < |v'.masks| && v'.masks[g.maps[f]] == v.syms[f].msk && g.codes[f] == Codes(v.syms[f]))
      && v' == Flushed(v, g, v'.masks)
      && st' == st.(out := st.out + GranuleBytes(g));
    shipped
  }

  lemma {:induction false} Pow256IsPow2(w: nat)
    ensures Pow256(w) == Pow2(8 * w)
  {
    if w > 0 {
      Pow256IsPow2(w - 1);
      var e := 8 * (w - 1);
      assert Pow2(e + 8) == 2 * Pow2(e + 7) == 4 * Pow2(e + 6) == 8 * Pow2(e + 5) == 16 * Pow2(e + 4);
      assert Pow2(e + 4) == 2 * Pow2(e + 3) == 4 * Pow2(e + 2) == 8 * Pow2(e + 1) == 16 * Pow2(e);
    }
  }

  lemma NewMasksFit(v: View, masks': seq<nat>)
    requires Inv(v) && v.masks <= masks'
    requires forall i :: |v.masks| <= i < |masks'| ==> HasMask(v.syms, masks'[i])
    ensures Fit(masks', 8)
  {
    var eight := 8;
    Pow256IsPow2(eight);
    forall i | 0 <= i < |masks'| ensures masks'[i] < Pow256(eight) {
      if i < |v.masks| {
        assert masks'[i] == v.masks[i];
      } else {
        assert HasMask(v.syms, masks'[i]);
        var f :| 0 <= f < |v.syms| && v.syms[f].msk == masks'[i];
        assert SymbolShape(v.syms[f], v.r.pos, v.dict);
      }
    }
  }

  /** Every change list fits the byte width chosen for its codes, and has one code per mask bit. */
  lemma CodesFit(v: View, g: Granule, masks': seq<nat>, f: nat)
    requires Inv(v) && f < |v.syms| == |g.maps| == |g.codes|
    requires forall k :: 0 <= k < |g.maps| ==> g.maps[k] < |masks'|
    requires masks'[g.maps[f]] == v.syms[f].msk && g.codes[f] == Codes(v.syms[f])
    requires g.codeWidth == Width(|v.dict| + DICT_START) && |v.dict| + DICT_START <= WORD
    ensures |g.codes[f]| == Counts(g.maps, masks')[f] && Fit(g.codes[f], g.codeWidth)
  {
    WidthEnough(|v.dict| + DICT_START);
    assert SymbolShape(v.syms[f], v.r.pos, v.dict);
  }

  lemma ShippedRepresents(v: View, st: Store, v': View, st': Store, g: Granule)
    requires Inv(v) && Shipped(v, st, v', st', g)
    requires |v'.masks| <= WORD && |v.dict| + DICT_START <= WORD
    ensures Represents(g, v, v'.masks)
  {
    hide Counted, Counts, Pow256, Width, WORD, HasMask, Legible, SelfContained, History, Codes;
    NewMasksFit(v, v'.masks);
    MapsFit(g.maps, |v'.masks|, g.mapWidth);
    ShippedCounted(v, g, v'.masks);
    assert Fit(g.times, 8);
  }

  lemma MapsFit(maps: seq<nat>, n: nat, w: nat)
    requires w == Width(n) && n <= WORD && forall i :: 0 <= i < |maps| ==> maps[i] < n
    ensures Fit(maps, w)
  {
    WidthEnough(n);
  }

  lemma ShippedCounted(v: View, g: Granule, masks': seq<nat>)
    requires Inv(v) && |g.maps| == |g.codes| == |v.syms|
    requires forall f :: 0 <= f < |v.syms| ==>
      g.maps[f] < |masks'| && masks'[g.maps[f]] == v.syms[f].msk && g.codes[f] == Codes(v.syms[f])
    requires g.codeWidth == Width(|v.dict| + DICT_START) && |v.dict| + DICT_START <= WORD
    ensures Counted(g.codes, Counts(g.maps, masks'), g.codeWidth)
  {
    hide Inv, Fit, Codes, Pow256, Width;
    forall f | 0 <= f < |v.syms|
      ensures |g.codes[f]| == Counts(g.maps, masks')[f] && Fit(g.codes[f], g.codeWidth)
    {
      CodesFit(v, g, masks', f);
    }
  }

  lemma ShippedKeeps(v: View, st: Store, v': View, st': Store, g: Granule)
    requires Good(v, st) && v.r.emitted && v.r.pos > 0 && Settled(v.r) && StartSet(v)
    requires Shipped(v, st, v', st', g) && |v'.masks| <= WORD && |v.dict| + DICT_START <= WORD
    ensures Good(v', st') && StartSet(v')
  {
    ShippedRepresents(v, st, v', st', g);
    FlushKeeps(v, g, v'.masks);
    GranulesBytesAppend(v.gs, g);
  }

  // ----- finishing a section

  /** The two dictionaries and the three counts at the end of a section (lines 1329-1379). */
  function EndBytes(dict: seq<string>, masks: seq<nat>, mem: nat): seq<byte>
  {
    StringsBytes(dict) + NumsBytes(masks, 8) + NumBytes(|dict|, 4) + NumBytes(mem, 4) + NumBytes(|masks|, 4)
  }

  ghost predicate Ended(v: View, st: Store, v': View, st': Store)
  {
    v' == Finished(v) && st' == Store(0, [], st.file + [st.out + [TAG_DICT] + EndBytes(v.dict, v.masks, st.mem)])
  }

  lemma NothingWritable()
    ensures Writable([])
  {
  }

  lemma EndedKeeps(v: View, st: Store, v': View, st': Store)
    requires Good(v, st) && v.r.emitted && v.r.pos == 0 && v.r.gran > 0 && Settled(v.r) && Blank(v.syms)
    requires CountsFit(v.dict, v.masks)
    requires Ended(v, st, v', st')
    ensures Good(v', st')
  {
    FinishKeeps(v);
    hide Inv, Settled, Blank, CountsFit, Writable, StringsBytes, EndBytes;
    EndedStored(v, st, v', st');
  }

  lemma EndedStored(v: View, st: Store, v': View, st': Store)
    requires Stored(v, st) && v.r.emitted && Ended(v, st, v', st')
    ensures Stored(v', st')
  {
    hide Writable;
    var s := Section(v.gs, v.dict, v.masks);
    assert Writable([]) by { NothingWritable(); }
    assert SectionBytes(s) == st.out + [TAG_DICT] + EndBytes(v.dict, v.masks, st.mem);
    assert Pieces([]) == [];
    assert Stored(v', st') by {
      forall k | 0 <= k < |v'.done| ensures Writable(v'.done[k].granules) && st'.file[k] == SectionBytes(v'.done[k]) {
        if k < |v.done| {
          assert v'.done[k] == v.done[k] && st'.file[k] == st.file[k];
        }
      }
    }
  }

  // ----- the clock

  lemma GoodSound(v: View, st: Store)
    requires Good(v, st)
    ensures Sound(v) && Consistent(v.r) && v.r.pos <= GRANULE_SIZE == |v.times| && Fit(v.times, 8)
    ensures |v.syms| == |v.r.values| && ValidConfig(v.cfg)
  {
  }

  lemma SealStep(v: View, st: Store, r': Recorder)
    requires Good(v, st) && StartSet(v) && v.r.emitted && v.r.pos < GRANULE_SIZE && v.times[v.r.pos] == v.r.time
    requires r' == Seal(v.r.(bump := false), v.cfg)
    ensures Good(v.(r := r'), st) && StartSet(v.(r := r')) && Settled(r')
  {
    hide History, Legible, SelfContained;
    var v1 := v.(r := v.r.(bump := false));
    ClockKeeps(v, v.times, v1.r);
    SealKeeps(v1);
  }

  lemma CloseStep(v: View, st: Store)
    requires Good(v, st) && StartSet(v) && v.r.emitted && v.r.pos < GRANULE_SIZE && v.times[v.r.pos] == v.r.time
    ensures Good(Sealed(v), st) && StartSet(Sealed(v)) && Settled(Sealed(v).r)
  {
    hide History, Legible, SelfContained;
    SealKeeps(v);
  }

  lemma TimeStep(v: View, st: Store, times': seq<nat>, r': Recorder)
    requires Good(v, st) && Consistent(r') && SameButClock(v.r, r') && (v.r.emitted ==> r'.emitted)
    requires |times'| == |v.times| && Fit(times', 8) && v.r.pos < |v.times| && times'[..v.r.pos] == v.times[..v.r.pos]
    ensures Good(v.(times := times', r := r'), st)
    ensures StartSet(v) ==> StartSet(v.(times := times', r := r'))
  {
    ClockKeeps(v, times', r');
  }

  /** The first symbol emitted fixes the facilities. */
  lemma OpenStep(v: View, st: Store)
    requires Good(v, st) && v.r.timeset
    ensures Good(v.(r := v.r.(emitted := true)), st) && (StartSet(v) ==> StartSet(v.(r := v.r.(emitted := true))))
  {
    ClockKeeps(v, v.times, v.r.(emitted := true));
  }

  lemma AddStep(v: View, st: Store, width: nat)
    requires Good(v, st) && StartSet(v) && !v.r.emitted && width > 0
    ensures Good(Added(v, width), st) && StartSet(Added(v, width)) && Sound(Added(v, width))
  {
    AddKeeps(v, width);
  }

  lemma NewStep(cfg: Config, times: seq<nat>)
    requires ValidConfig(cfg) && times == seq(GRANULE_SIZE, _ => 0)
    ensures Good(NewView(cfg, times), Store(0, [], [])) && StartSet(NewView(cfg, times)) && Sound(NewView(cfg, times))
  {
    NewViewInv(cfg, times);
    assert Pieces([]) == [];
  }

  // ----- the burst of values at the start of a section

  /** The recorder after the values of all facilities from the last down to `f` have been emitted again. */
  ghost function BurstSome(r: Recorder, f: nat): Recorder
    requires f <= |r.values| == |r.prior|
  {
    r.(emitted := true, bump := r.bump || f < |r.values|, prior := r.prior[..f] + r.values[f..])
  }

  lemma BurstNext(r: Recorder, f: nat)
    requires Consistent(r) && r.timeset && SectionStart(r) && f < |r.values|
    ensures Consistent(BurstSome(r, f + 1))
    ensures Record(BurstSome(r, f + 1), f, r.values[f]) == BurstSome(r, f)
  {
    assert BurstSome(r, f + 1).prior[f := r.values[f]] == BurstSome(r, f).prior;
    assert r.values[f := r.values[f]] == r.values;
  }

  lemma BurstEnds(r: Recorder, cfg: Config)
    requires Consistent(r) && Bursts(r, cfg)
    ensures |r.prior| == |r.values| && BurstSome(r, |r.values|) == r.(emitted := true)
    ensures r.values != [] ==> BurstSome(r, 0) == Burst(r, cfg)
  {
    assert BurstSome(r, |r.values|).prior == r.prior;
    assert BurstSome(r, 0).prior == r.values;
  }

  /** The facilities from `f` on are set at the start of the section. */
  ghost predicate SetFrom(v: View, f: nat)
  {
    var set0 := f <= |v.syms| && forall k :: f <= k < |v.syms| ==> SymbolSet(v.syms[k], v.dict);
    set0
  }

  lemma SetOneMore(v: View, v': View, f: nat)
    requires SetFrom(v, f + 1) && KeepsStart(v, v', f) && Bursts(v.r, v.cfg)
    ensures SetFrom(v', f)
  {
    assert forall k :: f + 1 <= k < |v.syms| ==> SymbolSet(v.syms[k], v.dict);
  }

  lemma AllSet(v: View)
    requires SetFrom(v, 0)
    ensures StartSet(v)
  {
  }

  // ----- how much the dictionaries can grow

  /** The bytes the string dictionary would need for every one of these values. */
  ghost function Weight(values: seq<string>): nat
  {
    if values == [] then 0 else Weight(values[..|values| - 1]) + |values[|values| - 1]| + 1
  }

  lemma {:induction false} WeightSame(a: seq<string>, b: seq<string>)
    requires SameWidths(a, b)
    ensures Weight(a) == Weight(b)
  {
    if a != [] {
      WeightSame(a[..|a| - 1], b[..|b| - 1]);
    }
  }

  lemma {:induction false} WeightAt(values: seq<string>, f: nat)
    requires f < |values|
    ensures |values[f]| + 1 <= Weight(values) && Weight(values[..f + 1]) == Weight(values[..f]) + |values[f]| + 1
  {
    assert values[..f + 1][..f] == values[..f];
    if f < |values| - 1 {
      WeightAt(values[..|values| - 1], f);
    } else {
      assert values[..f + 1] == values;
    }
  }

  lemma {:induction false} WeightCounts(values: seq<string>)
    ensures |values| <= Weight(values)
  {
    if values != [] {
      WeightCounts(values[..|values| - 1]);
    }
  }

  lemma StartKept(v: View, v': View, f: nat)
    requires KeepsStart(v, v', f) && StartSet(v)
    ensures StartSet(v') && |v'.syms| == |v.syms|
  {
  }
}
