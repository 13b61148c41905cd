/**
 The trace writer (server/lxt2_write.c). `file` holds the uncompressed bytes of the
 finished sections and `out` those of the section under construction; what the source
 hands to gzwrite is appended to `out`. The ghost fields say what has been recorded.
 */
module TraceWriter {
  import opened Bits
  import opened CStrings
  import SplayTree
  import opened Dictionaries
  import opened ChangeCodec
  import opened ChangeEncoder
  import opened TraceFormat
  import opened TraceRecorder
  import opened TraceInvariant
  import opened TraceSteps

  method Truncated(v: string) returns (e: string)
    requires v != "" && IsText(v)
    ensures 0 < |e| <= |v| && LeftFill(e, |v|) == v && IsText(e)
  {
    var start := TruncateBitvec(v);
    e := v[start..];
  }

  /** The caller's string brought to length and to lower case (lines 1799-1829). */
  method FixValue(raw: string, len: nat) returns (v: string)
    requires raw != "" && len > 0 && IsText(raw)
    ensures v == Normalise(raw, len) && IsText(v)
    ensures FixedUp(raw, len, v)
  {
    NormaliseMeans(raw, len);
    var fixed;
    if |raw| < len {
      fixed := Fill(if raw[0] != '1' then raw[0] else '0', len - |raw|) + raw;
    } else {
      fixed := raw[..len];
    }
    assert |raw| == len ==> raw[..len] == raw == LeftFill(raw, len);
    v := LowerCase(fixed);
  }

  method LowerCase(fixed: string) returns (v: string)
    requires IsText(fixed)
    ensures v == seq(|fixed|, i requires 0 <= i < |fixed| => Lower(fixed[i])) && IsText(v)
  {
    v := fixed;
    var i := 0;
    while i < |v|
      invariant 0 <= i <= |v| == |fixed|
      invariant forall k :: 0 <= k < i ==> v[k] == Lower(fixed[k])
      invariant forall k :: i <= k < |v| ==> v[k] == fixed[k]
    {
      if 'A' <= v[i] <= 'Z' {
        v := v[i := Lower(v[i])];
      }
      i := i + 1;
    }
  }

  lemma AppendNum(before: seq<byte>, xs: seq<nat>, x: nat, w: nat)
    ensures (before + NumsBytes(xs, w)) + NumBytes(x, w) == before + NumsBytes(xs + [x], w)
  {
    assert (xs + [x])[..|xs|] == xs;
  }

  /** The masks of the first `j` symbols are in the dictionary, and nothing else has been added to it. */
  ghost predicate MasksEntered(syms: seq<Symbol>, before: seq<nat>, now: seq<nat>, j: nat)
  {
    var entered :=
      && j <= |syms| && before <= now && |now| <= |before| + j
      && (forall i :: |before| <= i < |now| ==> HasMask(syms, now[i]))
      && (forall f :: 0 <= f < j ==> syms[f].msk in now);
    entered
  }

  lemma NoMasksYet(syms: seq<Symbol>, now: seq<nat>)
    ensures MasksEntered(syms, now, now, 0)
  {
  }

  lemma EnterMaskStep(syms: seq<Symbol>, before: seq<nat>, now: seq<nat>, j: nat)
    requires MasksEntered(syms, before, now, j) && j < |syms|
    ensures MasksEntered(syms, before, if syms[j].msk in now then now else now + [syms[j].msk], j + 1)
  {
    assert HasMask(syms, syms[j].msk);
    var now' := if syms[j].msk in now then now else now + [syms[j].msk];
    assert before <= now';
    assert forall i :: |before| <= i < |now| ==> now'[i] == now[i];
    forall f | 0 <= f < j + 1 ensures syms[f].msk in now' {
      if f < j {
        assert syms[f].msk in now;
      }
    }
  }

  /** The first `j` symbols have had their masks looked up and cleared. */
  ghost predicate Mapped(was: seq<Symbol>, now: seq<Symbol>, maps: seq<nat>, masks: seq<nat>, j: nat)
  {
    var mapped :=
      && |now| == |was| && |maps| == j <= |was|
      && (forall f :: 0 <= f < |was| ==> was[f].msk in masks)
      && (forall f :: j <= f < |was| ==> now[f] == was[f])
      && (forall f :: 0 <= f < j ==> now[f] == was[f].(msk := 0) && maps[f] < |masks| && masks[maps[f]] == was[f].msk);
    mapped
  }

  lemma MapStep(was: seq<Symbol>, now: seq<Symbol>, maps: seq<nat>, masks: seq<nat>, j: nat, val: nat)
    requires Mapped(was, now, maps, masks, j) && j < |was|
    requires val < |masks| && masks[val] == now[j].msk
    ensures Mapped(was, now[j := now[j].(msk := 0)], maps + [val], masks, j + 1)
  {
  }

  lemma MaskPresent(was: seq<Symbol>, now: seq<Symbol>, maps: seq<nat>, masks: seq<nat>, j: nat)
    requires Mapped(was, now, maps, masks, j) && j < |now|
    ensures j < |was| && now[j].msk in masks
  {
  }

  lemma EnteredAll(syms: seq<Symbol>, before: seq<nat>, now: seq<nat>)
    requires MasksEntered(syms, before, now, |syms|)
    ensures forall f :: 0 <= f < |syms| ==> syms[f].msk in now
  {
  }

  lemma SoundTimes(v: View)
    requires Sound(v)
    ensures v.r.pos <= GRANULE_SIZE == |v.times|
  {
  }

  lemma TalliedAll(v: View)
    requires Sound(v)
    ensures forall f :: 0 <= f < |v.syms| ==> v.syms[f].chgpos <= |v.syms[f].chg|
  {
  }

  lemma MappedAll(was: seq<Symbol>, now: seq<Symbol>, maps: seq<nat>, masks: seq<nat>)
    requires Mapped(was, now, maps, masks, |now|)
    requires forall f :: 0 <= f < |was| ==> was[f].chgpos <= |was[f].chg|
    ensures |now| == |was| && forall f :: 0 <= f < |now| ==> now[f].chgpos <= |now[f].chg|
  {
  }

  lemma GranuleGlue(before: seq<byte>, g: Granule)
    requires Narrow(g)
    ensures ((before + [TAG_TIME, |g.times| as byte] + NumsBytes(g.times, 8))
             + [g.mapWidth as byte] + NumsBytes(g.maps, g.mapWidth))
            + [g.codeWidth as byte] + CodesBytes(g.codes, g.codeWidth) == before + GranuleBytes(g)
  {
  }

  /** `g` holds the changes of `syms`, with their masks looked up in `masks'`. */
  ghost predicate Filled(g: Granule, syms: seq<Symbol>, times: seq<nat>, dict: seq<string>, masks: seq<nat>, masks': seq<nat>)
  {
    var filled :=
      && g.times == times && g.mapWidth == Width(|masks'|) && g.codeWidth == Width(|dict| + DICT_START)
      && |g.maps| == |g.codes| == |syms|
      && masks <= masks' && |masks'| <= |masks| + |syms|
      && (forall i :: |masks| <= i < |masks'| ==> HasMask(syms, masks'[i]))
      && (forall f :: 0 <= f < |syms| ==>
           && g.maps[f] < |masks'| && masks'[g.maps[f]] == syms[f].msk
           && syms[f].chgpos <= |syms[f].chg| && g.codes[f] == Codes(syms[f]));
    filled
  }

  /** The first `j` symbols have had their change lists taken and emptied. */
  ghost predicate Emptied(was: seq<Symbol>, now: seq<Symbol>, codes: seq<seq<nat>>, j: nat)
  {
    var emptied :=
      && |now| == |was| && |codes| == j <= |was|
      && (forall f :: 0 <= f < |was| ==> was[f].chgpos <= |was[f].chg|)
      && (forall f :: j <= f < |was| ==> now[f] == was[f])
      && (forall f :: 0 <= f < j ==> now[f] == was[f].(chgpos := 0) && codes[f] == Codes(was[f]));
    emptied
  }

  lemma EmptyStep(was: seq<Symbol>, now: seq<Symbol>, codes: seq<seq<nat>>, j: nat)
    requires Emptied(was, now, codes, j) && j < |now|
    ensures now[j].chgpos <= |now[j].chg|
    ensures Emptied(was, now[j := now[j].(chgpos := 0)], codes + [Codes(now[j])], j + 1)
  {
  }

  lemma FilledUp(g: Granule, was: seq<Symbol>, mid: seq<Symbol>, now: seq<Symbol>, times: seq<nat>,
                 dict: seq<string>, masks: seq<nat>, masks': seq<nat>)
    requires MasksEntered(was, masks, masks', |was|) && Mapped(was, mid, g.maps, masks', |mid|)
    requires forall f :: 0 <= f < |was| ==> was[f].chgpos <= |was[f].chg|
    requires Emptied(mid, now, g.codes, |now|)
    requires g.times == times && g.mapWidth == Width(|masks'|) && g.codeWidth == Width(|dict| + DICT_START)
    ensures Filled(g, was, times, dict, masks, masks') && now == AllCleared(was)
  {
    forall f | 0 <= f < |was| ensures now[f] == Cleared(was[f]) && g.codes[f] == Codes(was[f]) {
      assert mid[f] == was[f].(msk := 0);
    }
  }

  lemma FilledSize(g: Granule, syms: seq<Symbol>, times: seq<nat>, dict: seq<string>, masks: seq<nat>, masks': seq<nat>)
    requires Filled(g, syms, times, dict, masks, masks')
    ensures |masks'| <= |masks| + |syms|
  {
  }

  lemma ShippedState(v: View, st: Store, v': View, st': Store, g: Granule)
    requires Shipped(v, st, v', st', g)
    ensures v'.r == NextGranule(v.r) && v'.times == v.times && Blank(v'.syms) && |v'.syms| == |v.syms|
    ensures st'.mem == st.mem && v'.dict == v.dict && v'.cfg == v.cfg
  {
  }

  lemma FilledShips(v: View, st: Store, g: Granule, masks': seq<nat>)
    requires Sound(v) && v.r.emitted && Narrow(g) && Filled(g, v.syms, v.times[..v.r.pos], v.dict, v.masks, masks')
    ensures Shipped(v, st, Flushed(v, g, masks'), st.(out := st.out + GranuleBytes(g)), g)
    ensures Sound(Flushed(v, g, masks'))
  {
    forall f | 0 <= f < |v.syms| ensures Tallied(Cleared(v.syms[f]), 0) {
      CountNone(0, 0, GRANULE_SIZE);
    }
  }

  lemma FinishedSound(v: View)
    requires Sound(v) && v.r.emitted
    ensures Sound(Finished(v))
  {
  }

  lemma EndGlue(before: seq<byte>, names: seq<string>, masks: seq<nat>, mem: nat)
    ensures before + StringsBytes(names) + NumsBytes(masks, 8) + NumBytes(|names|, 4) + NumBytes(mem, 4) + NumBytes(|masks|, 4)
         == before + EndBytes(names, masks, mem)
  {
    hide StringsBytes, NumsBytes, NumBytes;
  }

  lemma {:induction false} EntriesBelowBytes(names: seq<string>)
    ensures |names| <= |StringsBytes(names)|
  {
    if names != [] {
      EntriesBelowBytes(names[..|names| - 1]);
    }
  }

  lemma Small(dict: seq<string>, masks: seq<nat>, mem: nat)
    requires mem == |StringsBytes(dict)| && mem + DICT_START <= WORD && |masks| < WORD
    ensures CountsFit(dict, masks)
  {
    EntriesBelowBytes(dict);
  }

  lemma GoodMem(v: View, st: Store)
    requires Good(v, st)
    ensures st.mem == |StringsBytes(v.dict)|
  {
  }

  lemma FillIsText(cfg: Config, width: nat)
    requires ValidConfig(cfg)
    ensures IsText(Fill(cfg.initial, width))
  {
  }

  lemma NothingSet(v: View)
    ensures SetFrom(v, |v.syms|)
  {
  }

  lemma KeptCount(v: View, v': View, f: nat)
    requires KeepsStart(v, v', f)
    ensures |v'.syms| == |v.syms|
  {
  }

  class Trace {
    const cfg: Config
    const timetable: array<nat>
    const dict: Dictionary<string>
    const mapdict: Dictionary<nat>
    var syms: seq<Symbol>
    var timepos: nat
    var timegranule: nat
    var numblock: nat
    var timeset: bool
    var emitted: bool
    var bumptime: bool
    var maxtime: nat
    var dictMem: nat
    var out: seq<byte>
    var file: seq<seq<byte>>
    ghost var gs: seq<Granule>
    ghost var done: seq<Section>
    ghost var r: Recorder

    ghost function Now(): View
      reads this`syms, this`gs, this`done, this`r, timetable, dict`chain, mapdict`chain
    {
      View(cfg, syms, timetable[..], dict.Contents(), mapdict.Contents(), gs, done, r)
    }

    ghost function Disk(): Store
      reads this`dictMem, this`out, this`file
    {
      Store(dictMem, out, file)
    }

    /** The two dictionaries are in order and share no object. */
    ghost predicate Tables()
      reads dict, dict.repr, mapdict, mapdict.repr
    {
      var tables :=
        && dict.Valid() && mapdict.Valid() && dict as object != mapdict
        && forall n, m :: n in dict.repr && m in mapdict.repr ==> n as object != m;
      tables
    }

    ghost predicate Fields()
      reads this`timepos, this`timegranule, this`numblock, this`timeset, this`emitted, this`bumptime, this`maxtime, this`r
    {
      var agree :=
        && timepos == r.pos && timegranule == r.gran && numblock == r.block
        && timeset == r.timeset && emitted == r.emitted && bumptime == r.bump && maxtime == r.first;
      agree
    }

    ghost predicate Texts()
      reads this`syms
    {
      var texts := forall f :: 0 <= f < |syms| ==> IsText(syms[f].value);
      texts
    }

    ghost predicate Valid()
      reads this, timetable, dict, dict.repr, mapdict, mapdict.repr
    {
      var valid := timetable.Length == GRANULE_SIZE && Tables() && Fields() && Texts() && Sound(Now());
      valid
    }

    constructor (cfg: Config)
      requires ValidConfig(cfg)
      ensures Ready() && this.cfg == cfg && r == START && dictMem == 0 && mapdict.Contents() == [] && file == []
      ensures fresh(timetable) && fresh(dict) && fresh(mapdict) && dict.repr == {} && mapdict.repr == {}
    {
      hide StrLess, NatLess, SplayTree.StrictOrder;
      StrLessStrict();
      NatLessStrict();
      this.cfg := cfg;
      timetable := new nat[GRANULE_SIZE](_ => 0);
      dict := new Dictionary(StrLess);
      mapdict := new Dictionary(NatLess);
      syms, timepos, timegranule, numblock := [], 0, 0, 0;
      timeset, emitted, bumptime, maxtime, dictMem := false, false, false, 0, 0;
      out, file, gs, done, r := [], [], [], [], START;
      new;
      hide Ready, Dictionary.Valid;
      assert timetable[..] == seq(GRANULE_SIZE, _ => 0);
      AtStart();
    }

    lemma AtStart()
      requires dict.Valid() && mapdict.Valid() && dict as object != mapdict && dict.repr == {} && syms == [] && r == START
      requires timepos == timegranule == numblock == maxtime == dictMem == 0 && !timeset && !emitted && !bumptime
      requires ValidConfig(cfg) && timetable.Length == GRANULE_SIZE && timetable[..] == seq(GRANULE_SIZE, _ => 0)
      requires dict.Contents() == [] && mapdict.Contents() == [] && out == [] && file == [] && gs == [] && done == []
      ensures Ready()
    {
      hide Inv, Stored, StartSet, Sound, Good, Tables, Fields, Texts, Dictionary.Valid;
      Begun();
      NewStep(cfg, timetable[..]);
      assert Now() == NewView(cfg, timetable[..]);
    }

    lemma Begun()
      requires dict.Valid() && mapdict.Valid() && dict as object != mapdict && dict.repr == {} && syms == [] && r == START
      requires timepos == timegranule == numblock == maxtime == 0 && !timeset && !emitted && !bumptime
      ensures Tables() && Fields() && Texts()
    {
    }

    /** Enter `e` in the string dictionary unless it is there (lines 1946-1975). */
    method Enter(e: string) returns (k: nat)
      requires Tables()
      modifies this`dictMem, dict, dict.repr
      ensures Tables() && fresh(dict.repr - old(dict.repr))
      ensures dict.Contents() == if e in old(dict.Contents()) then old(dict.Contents()) else old(dict.Contents()) + [e]
      ensures dictMem == old(dictMem) + if e in old(dict.Contents()) then 0 else |e| + 1
      ensures k < |dict.Contents()| && dict.Contents()[k] == e
      ensures mapdict.Contents() == old(mapdict.Contents())
    {
      var before := dict.count;
      k := dict.Intern(e);
      if dict.count != before {
        dictMem := dictMem + |e| + 1;
      }
    }

    /** Choose the code of a change, entering its value in the dictionary if it needs that (lines 1845-1975). */
    method CodeFor(was: string, v: string, start: bool) returns (code: nat, ghost l: Lookup)
      requires Tables() && |was| == |v| > 0 && IsText(v)
      modifies this`dictMem, dict, dict.repr
      ensures Tables() && fresh(dict.repr - old(dict.repr)) && dictMem == old(dictMem) + l.mem && l.code == code
      ensures LookedUp(old(dict.Contents()), dict.Contents(), was, v, start, cfg.logical, l)
      ensures mapdict.Contents() == old(mapdict.Contents())
    {
      hide Tables, Choice, LeftFill, IsText;
      var idx := ChooseCode(was, v, start, cfg.logical);
      if idx >= 0 {
        code, l := idx, Lookup(idx, "", 0);
      } else {
        var e := Truncated(v);
        var k := Enter(e);
        code, l := k + DICT_START, Lookup(k + DICT_START, e, dictMem - old(dictMem));
      }
    }

    /** Keep the code (lines 1977-1990). */
    method StoreCode(f: nat, v: string, code: nat)
      requires CanRecord(Now(), f, v) && Fields() && Texts() && IsText(v) && (SectionStart(r) || v != r.values[f])
      modifies this`syms, this`bumptime, this`r
      ensures Fields() && Texts()
      ensures f < |old(syms)| && Puttable(old(syms[f]), timepos)
      ensures syms == old(syms)[f := Put(old(syms[f]), timepos, code, v)]
      ensures r == Record(old(r), f, v)
    {
      hide Bit, Pow2, CountBelow, PositionOk;
      bumptime := true;
      PutTallied(syms[f], timepos, code, v);
      if !Bit(syms[f].msk, timepos) {
        syms := syms[f := syms[f].(value := v, msk := syms[f].msk + Pow2(timepos),
                                   chg := syms[f].chg[syms[f].chgpos := code], chgpos := syms[f].chgpos + 1)];
      } else {
        syms := syms[f := syms[f].(value := v, chg := syms[f].chg[syms[f].chgpos - 1 := code])];
      }
      r := Record(r, f, v);
    }

    lemma StoredSound(v: View, f: nat, val: string, code: nat)
      requires CanRecord(v, f, val)
      ensures Puttable(v.syms[f], v.r.pos)
      ensures Sound(v.(syms := v.syms[f := Put(v.syms[f], v.r.pos, code, val)], r := Record(v.r, f, val)))
    {
      PutTallied(v.syms[f], v.r.pos, code, val);
    }

    /** One value change at the current position (lines 1830-1992). */
    method RecordChange(f: nat, v: string) returns (ghost l: Lookup)
      requires Valid() && CanRecord(Now(), f, v) && IsText(v)
      modifies this`syms, this`bumptime, this`dictMem, this`r, dict, dict.repr
      ensures Valid() && fresh(dict.repr - old(dict.repr))
      ensures Recorded(old(Now()), old(Disk()), Now(), Disk(), f, v, l)
    {
      var start := timepos == 0 && timegranule == 0;
      if !start && v == syms[f].value {
        l := Lookup(0, "", 0);
        return;
      }
      l := Change(f, v, start);
    }

    method Change(f: nat, v: string, start: bool) returns (ghost l: Lookup)
      requires Valid() && CanRecord(Now(), f, v) && IsText(v)
      requires start == SectionStart(r) && !Redundant(Now(), f, v)
      modifies this`syms, this`bumptime, this`dictMem, this`r, dict, dict.repr
      ensures Valid() && fresh(dict.repr - old(dict.repr))
      ensures Recorded(old(Now()), old(Disk()), Now(), Disk(), f, v, l)
    {
      hide Tables, Texts, LookedUp, Put;
      ghost var before := Now();
      var code;
      code, l := CodeFor(syms[f].value, v, start);
      assert Now() == before.(dict := dict.Contents());
      StoredSound(before.(dict := dict.Contents()), f, v, code);
      StoreCode(f, v, code);
      assert Tables() && Fields() && Texts();
    }

    // ----- writing out a granule (lines 1145-1295)

    /** `w` bytes, most significant first (lines 377-442). */
    method EmitNum(x: nat, w: nat)
      modifies this`out
      ensures out == old(out) + NumBytes(x, w)
    {
      out := out + NumBytes(x, w);
    }

    method EnterMask(m: nat)
      requires Tables()
      modifies mapdict, mapdict.repr
      ensures dict.Contents() == old(dict.Contents())
      ensures Tables() && fresh(mapdict.repr - old(mapdict.repr))
      ensures mapdict.Contents() == if m in old(mapdict.Contents()) then old(mapdict.Contents()) else old(mapdict.Contents()) + [m]
    {
      var _ := mapdict.Intern(m);
    }

    method FindMask(m: nat) returns (val: nat)
      requires Tables() && m in mapdict.Contents()
      modifies mapdict, mapdict.repr
      ensures dict.Contents() == old(dict.Contents())
      ensures Tables() && mapdict.repr == old(mapdict.repr) && mapdict.Contents() == old(mapdict.Contents())
      ensures val < |mapdict.Contents()| && mapdict.Contents()[val] == m
    {
      var found;
      found, val := mapdict.Find(m);
    }

    /** Enter every facility's mask in the mask dictionary (lines 1152-1172). */
    method InternMasks()
      requires Tables()
      modifies mapdict, mapdict.repr
      ensures dict.Contents() == old(dict.Contents())
      ensures Tables() && fresh(mapdict.repr - old(mapdict.repr))
      ensures MasksEntered(syms, old(mapdict.Contents()), mapdict.Contents(), |syms|)
    {
      hide Tables, MasksEntered;
      NoMasksYet(syms, mapdict.Contents());
      var j := 0;
      while j < |syms|
        invariant 0 <= j <= |syms| && Tables() && fresh(mapdict.repr - old(mapdict.repr))
        invariant dict.Contents() == old(dict.Contents())
        invariant MasksEntered(syms, old(mapdict.Contents()), mapdict.Contents(), j)
      {
        EnterMaskStep(syms, old(mapdict.Contents()), mapdict.Contents(), j);
        EnterMask(syms[j].msk);
        j := j + 1;
      }
    }

    method EmitByte(b: nat)
      requires b < 256
      modifies this`out
      ensures out == old(out) + [b as byte]
    {
      out := out + [b];
    }

    /** The tag, the number of times and the times of the granule (lines 1222-1229). */
    method EmitTimes()
      requires timepos <= timetable.Length == GRANULE_SIZE
      modifies this`out
      ensures out == old(out) + [TAG_TIME, timepos as byte] + NumsBytes(timetable[..timepos], 8)
    {
      EmitByte(TAG_TIME);
      EmitByte(timepos);
      ghost var before := out;
      assert before == old(out) + [TAG_TIME, timepos as byte];
      var i := 0;
      while i < timepos
        invariant 0 <= i <= timepos && out == before + NumsBytes(timetable[..i], 8)
      {
        AppendNum(before, timetable[..i], timetable[i], 8);
        assert timetable[..i + 1] == timetable[..i] + [timetable[i]];
        EmitNum(timetable[i], 8);
        i := i + 1;
      }
    }

    /** Each facility's mask as an index into the mask dictionary; the masks are then cleared (lines 1233-1250). */
    method EmitMaps(w: nat) returns (ghost maps: seq<nat>)
      requires w < 256 && Tables() && forall f :: 0 <= f < |syms| ==> syms[f].msk in mapdict.Contents()
      modifies this`out, this`syms, mapdict, mapdict.repr
      ensures dict.Contents() == old(dict.Contents())
      ensures Tables() && mapdict.repr == old(mapdict.repr) && mapdict.Contents() == old(mapdict.Contents())
      ensures |maps| == |syms| && out == old(out) + [w as byte] + NumsBytes(maps, w)
      ensures Mapped(old(syms), syms, maps, mapdict.Contents(), |syms|)
    {
      EmitByte(w);
      ghost var before := out;
      maps := [];
      var j := 0;
      while j < |syms|
        invariant 0 <= j <= |syms| && dict.Contents() == old(dict.Contents())
        invariant Tables() && mapdict.repr == old(mapdict.repr) && mapdict.Contents() == old(mapdict.Contents())
        invariant out == before + NumsBytes(maps, w)
        invariant Mapped(old(syms), syms, maps, mapdict.Contents(), j)
      {
        maps := EmitMap(j, w, old(syms), maps, before);
        j := j + 1;
      }
    }

    method EmitMap(j: nat, w: nat, ghost was: seq<Symbol>, ghost maps: seq<nat>, ghost before: seq<byte>)
      returns (ghost maps': seq<nat>)
      requires Tables() && Mapped(was, syms, maps, mapdict.Contents(), j) && j < |syms|
      requires out == before + NumsBytes(maps, w)
      modifies this`out, this`syms, mapdict, mapdict.repr
      ensures dict.Contents() == old(dict.Contents())
      ensures Tables() && mapdict.repr == old(mapdict.repr) && mapdict.Contents() == old(mapdict.Contents())
      ensures Mapped(was, syms, maps', mapdict.Contents(), j + 1)
      ensures out == before + NumsBytes(maps', w)
    {
      hide Tables, Mapped, NumsBytes, NumBytes;
      MaskPresent(was, syms, maps, mapdict.Contents(), j);
      var val := FindMask(syms[j].msk);
      MapStep(was, syms, maps, mapdict.Contents(), j, val);
      AppendNum(before, maps, val, w);
      maps' := maps + [val];
      EmitNum(val, w);
      syms := syms[j := syms[j].(msk := 0)];
    }

    method EmitCodeList(s: Symbol, w: nat)
      requires s.chgpos <= |s.chg|
      modifies this`out
      ensures out == old(out) + NumsBytes(Codes(s), w)
    {
      var i := 0;
      while i < s.chgpos
        invariant 0 <= i <= s.chgpos && out == old(out) + NumsBytes(s.chg[..i], w)
      {
        AppendNum(old(out), s.chg[..i], s.chg[i], w);
        assert s.chg[..i + 1] == s.chg[..i] + [s.chg[i]];
        EmitNum(s.chg[i], w);
        i := i + 1;
      }
    }

    /** Each facility's change codes; the change lists are then emptied (lines 1253-1271). */
    method EmitCodes(w: nat) returns (ghost codes: seq<seq<nat>>)
      requires w < 256 && forall f :: 0 <= f < |syms| ==> syms[f].chgpos <= |syms[f].chg|
      modifies this`out, this`syms
      ensures out == old(out) + [w as byte] + CodesBytes(codes, w)
      ensures Emptied(old(syms), syms, codes, |syms|)
    {
      EmitByte(w);
      ghost var before := out;
      codes := [];
      var j := 0;
      while j < |syms|
        invariant 0 <= j <= |syms|
        invariant out == before + CodesBytes(codes, w)
        invariant Emptied(old(syms), syms, codes, j)
      {
        EmptyStep(old(syms), syms, codes, j);
        EmitCodeList(syms[j], w);
        assert (codes + [Codes(syms[j])])[..j] == codes;
        codes := codes + [Codes(syms[j])];
        syms := syms[j := syms[j].(chgpos := 0)];
        j := j + 1;
      }
    }

    method Widths() returns (mapWidth: nat, codeWidth: nat)
      requires Tables()
      ensures mapWidth == Width(|mapdict.Contents()|) && codeWidth == Width(|dict.Contents()| + DICT_START)
      ensures 1 <= mapWidth <= 4 && 1 <= codeWidth <= 4
    {
      mapWidth := Width(mapdict.count);
      codeWidth := Width(dict.count + DICT_START);
    }

    /** The times, masks and codes of the granule under construction (lines 1222-1271). */
    method EmitGranule(mapWidth: nat, codeWidth: nat) returns (ghost g: Granule, ghost mid: seq<Symbol>)
      requires Tables() && timepos <= timetable.Length == GRANULE_SIZE && mapWidth < 256 && codeWidth < 256
      requires forall f :: 0 <= f < |syms| ==> syms[f].msk in mapdict.Contents()
      requires forall f :: 0 <= f < |syms| ==> syms[f].chgpos <= |syms[f].chg|
      modifies this`out, this`syms, mapdict, mapdict.repr
      ensures Tables() && mapdict.repr == old(mapdict.repr)
      ensures dict.Contents() == old(dict.Contents()) && mapdict.Contents() == old(mapdict.Contents())
      ensures Mapped(old(syms), mid, g.maps, mapdict.Contents(), |mid|) && Emptied(mid, syms, g.codes, |syms|)
      ensures g.times == timetable[..timepos] && g.mapWidth == mapWidth && g.codeWidth == codeWidth
      ensures Narrow(g) && out == old(out) + GranuleBytes(g)
    {
      hide Tables, Mapped, Emptied, NumsBytes, CodesBytes, GranuleBytes;
      EmitTimes();
      ghost var maps := EmitMaps(mapWidth);
      mid := syms;
      MappedAll(old(syms), mid, maps, mapdict.Contents());
      ghost var codes := EmitCodes(codeWidth);
      g := Granule(timetable[..timepos], mapWidth, maps, codeWidth, codes);
      GranuleGlue(old(out), g);
    }

    /** The masks are interned, the widths chosen and the granule written (lines 1152-1271). */
    method WriteGranule() returns (ghost g: Granule)
      requires Tables() && Texts() && timepos <= timetable.Length == GRANULE_SIZE
      requires forall f :: 0 <= f < |syms| ==> syms[f].chgpos <= |syms[f].chg|
      modifies this`out, this`syms, mapdict, mapdict.repr
      ensures Tables() && Texts() && fresh(mapdict.repr - old(mapdict.repr)) && dict.Contents() == old(dict.Contents())
      ensures syms == AllCleared(old(syms)) && Narrow(g) && out == old(out) + GranuleBytes(g)
      ensures Filled(g, old(syms), timetable[..timepos], dict.Contents(), old(mapdict.Contents()), mapdict.Contents())
    {
      hide Tables, Mapped, Emptied, MasksEntered;
      ghost var was, masks := syms, mapdict.Contents();
      InternMasks();
      EnteredAll(was, masks, mapdict.Contents());
      var mapWidth, codeWidth := Widths();
      ghost var mid;
      g, mid := EmitGranule(mapWidth, codeWidth);
      FilledUp(g, was, mid, syms, g.times, dict.Contents(), masks, mapdict.Contents());
    }

    /** Write the granule and start the next (lines 1145-1296). */
    method Ship() returns (ghost g: Granule)
      requires Valid() && emitted
      modifies this`out, this`syms, this`timepos, this`timegranule, this`gs, this`r, mapdict, mapdict.repr
      ensures Valid() && fresh(mapdict.repr - old(mapdict.repr))
      ensures Shipped(old(Now()), old(Disk()), Now(), Disk(), g)
      ensures |mapdict.Contents()| <= |old(mapdict.Contents())| + |syms| && |syms| == |old(syms)|
    {
      hide Tables, Texts, Filled, Sound, Shipped, GranuleBytes;
      ghost var before := Now();
      SoundTimes(before);
      TalliedAll(before);
      g := WriteGranule();
      NextGranuleFields(g);
      FilledShips(before, old(Disk()), g, mapdict.Contents());
      FilledSize(g, before.syms, before.times[..before.r.pos], before.dict, before.masks, mapdict.Contents());
      assert Now() == Flushed(before, g, mapdict.Contents());
    }

    method NextGranuleFields(ghost g: Granule)
      requires Fields()
      modifies this`timepos, this`timegranule, this`gs, this`r
      ensures Fields() && gs == old(gs) + [g] && r == NextGranule(old(r))
    {
      timepos := 0;
      timegranule := timegranule + 1;
      gs := gs + [g];
      r := NextGranule(r);
    }

    // ----- finishing a section (lines 1307-1433)

    method EmitStrings(names: seq<string>)
      modifies this`out
      ensures out == old(out) + StringsBytes(names)
    {
      var i := 0;
      while i < |names|
        invariant 0 <= i <= |names| && out == old(out) + StringsBytes(names[..i])
      {
        assert names[..i + 1][..i] == names[..i];
        out := out + StringBytes(names[i]);
        i := i + 1;
      }
      assert names[..i] == names;
    }

    method EmitMasks(masks: seq<nat>)
      modifies this`out
      ensures out == old(out) + NumsBytes(masks, 8)
    {
      var i := 0;
      while i < |masks|
        invariant 0 <= i <= |masks| && out == old(out) + NumsBytes(masks[..i], 8)
      {
        AppendNum(old(out), masks[..i], masks[i], 8);
        assert masks[..i + 1] == masks[..i] + [masks[i]];
        EmitNum(masks[i], 8);
        i := i + 1;
      }
      assert masks[..i] == masks;
    }

    /** The two dictionaries, which are then empty, and the three counts (lines 1329-1382). */
    method EmitEnd()
      requires Tables()
      modifies this`out, dict, mapdict
      ensures Tables() && dict.repr == {} && mapdict.repr == {} && dict.Contents() == [] && mapdict.Contents() == []
      ensures out == old(out) + [TAG_DICT] + EndBytes(old(dict.Contents()), old(mapdict.Contents()), dictMem)
    {
      hide Tables, StringsBytes, NumsBytes, NumBytes, EndBytes;
      EmitByte(TAG_DICT);
      var names, masks := DrainBoth();
      EmitStrings(names);
      EmitMasks(masks);
      EmitNum(|names|, 4);
      EmitNum(dictMem, 4);
      EmitNum(|masks|, 4);
      EndGlue(old(out) + [TAG_DICT], names, masks, dictMem);
    }

    method DrainBoth() returns (names: seq<string>, masks: seq<nat>)
      requires Tables()
      modifies dict, mapdict
      ensures Tables() && dict.repr == {} && mapdict.repr == {} && dict.Contents() == [] && mapdict.Contents() == []
      ensures names == old(dict.Contents()) && masks == old(mapdict.Contents())
    {
      names := dict.Drain();
      masks := mapdict.Drain();
    }

    method Finish()
      requires Valid() && emitted && timepos == 0
      modifies this`out, this`file, this`dictMem, this`timegranule, this`numblock, this`gs, this`done, this`r, dict, mapdict
      ensures Valid() && dict.repr == {} && mapdict.repr == {}
      ensures Ended(old(Now()), old(Disk()), Now(), Disk())
    {
      hide Tables, Texts, EndBytes, Sound;
      ghost var before := Now();
      EmitEnd();
      file := file + [out];
      out, dictMem := [], 0;
      timegranule := 0;
      numblock := numblock + 1;
      done := done + [Section(gs, before.dict, before.masks)];
      gs := [];
      r := NextSection(r);
      FinishedSound(before);
      assert Now() == Finished(before);
    }

    // ----- the operations of the writer

    /** No 32-bit counter of the source wraps around if the granule is written now. */
    predicate Room()
      reads this, dict, mapdict
    {
      dictMem + DICT_START <= WORD && mapdict.count + |syms| < WORD
    }

    /** The whole invariant, between two operations. */
    ghost predicate Ready()
      reads this, timetable, dict, dict.repr, mapdict, mapdict.repr
    {
      var ready :=
        && Valid() && Good(Now(), Disk()) && StartSet(Now())
        && timepos < GRANULE_SIZE && (timeset ==> timetable[timepos] == r.time);
      ready
    }

    lemma RoomFits()
      requires Tables() && Room() && dictMem == |StringsBytes(dict.Contents())|
      ensures |dict.Contents()| + DICT_START <= WORD && |mapdict.Contents()| + |syms| < WORD
    {
      EntriesBelowBytes(dict.Contents());
    }

    /** lxt2_wr_flush_granule. */
    method FlushGranule(finalize: bool)
      requires Valid() && Good(Now(), Disk()) && StartSet(Now())
      requires emitted && timepos > 0 && Settled(r) && Room()
      modifies this, dict, mapdict, mapdict.repr
      ensures Valid() && Good(Now(), Disk()) && Settled(r) && timetable[..] == old(timetable[..])
      ensures fresh(mapdict.repr - old(mapdict.repr)) && dict.repr <= old(dict.repr)
      ensures r == if finalize || old(r.gran) + 1 >= cfg.maxGranule then NextSection(NextGranule(old(r))) else NextGranule(old(r))
      ensures StartSet(Now()) || Bursts(r, cfg)
      ensures |syms| == |old(syms)| && dictMem <= old(dictMem) && |mapdict.Contents()| <= |old(mapdict.Contents())| + |syms|
    {
      hide Tables, Texts, Sound, Inv, Stored, Filled, Good, Shipped;
      GoodMem(Now(), Disk());
      RoomFits();
      ghost var v0, d0 := Now(), Disk();
      ghost var g := Ship();
      ShippedKeeps(v0, d0, Now(), Disk(), g);
      ShippedState(v0, d0, Now(), Disk(), g);
      if timegranule >= cfg.maxGranule || finalize {
        ghost var v1, d1 := Now(), Disk();
        Small(v1.dict, v1.masks, dictMem);
        Finish();
        EndedKeeps(v1, d1, Now(), Disk());
      }
    }

    /** The current position holds a change, so the next time needs a new one (lines 1453-1471). */
    method EndPosition()
      requires Ready() && bumptime && Room()
      modifies this, dict, mapdict, mapdict.repr
      ensures Valid() && Good(Now(), Disk()) && timepos < GRANULE_SIZE && timetable[..] == old(timetable[..])
      ensures r == Wrap(Seal(old(r).(bump := false), cfg), cfg)
      ensures StartSet(Now()) || Bursts(r, cfg)
      ensures fresh(mapdict.repr - old(mapdict.repr)) && dict.repr <= old(dict.repr)
      ensures |syms| == |old(syms)| && dictMem <= old(dictMem) && |mapdict.Contents()| <= |old(mapdict.Contents())| + |syms|
    {
      hide Tables, Texts, Sound, Good, StartSet;
      GoodSound(Now(), Disk());
      SealStep(Now(), Disk(), Seal(r.(bump := false), cfg));
      bumptime := false;
      timepos := timepos + 1;
      r := Seal(r.(bump := false), cfg);
      GoodSound(Now(), Disk());
      if timepos == GRANULE_SIZE {
        FlushGranule(false);
      }
    }

    method StampTimeFields(t: nat)
      requires Fields() && timepos < timetable.Length
      modifies this`timeset, this`maxtime, this`r, timetable
      ensures Fields() && timetable[..] == old(timetable[..])[timepos := t] && timetable[timepos] == t
      ensures r == old(r).(timeset := true, first := if old(timeset) then old(r.first) else t, time := t)
    {
      r := r.(timeset := true, first := if timeset then r.first else t, time := t);
      if !timeset {
        timeset, maxtime := true, t;
      }
      timetable[timepos] := t;
    }

    /** Set the time of the current position and the clock's flags. */
    method StampTime(t: nat)
      requires Valid() && Good(Now(), Disk()) && timepos < GRANULE_SIZE && t < Pow256(8)
      modifies this`timeset, this`maxtime, this`r, timetable
      ensures Valid() && Good(Now(), Disk()) && timetable[timepos] == r.time == t
      ensures r == old(r).(timeset := true, first := if old(timeset) then old(r.first) else t, time := t)
      ensures old(StartSet(Now())) ==> StartSet(Now())
    {
      hide Tables, Texts, Sound, StartSet, Inv, Fields, Good, Pow256;
      ghost var r' := r.(timeset := true, first := if timeset then r.first else t, time := t);
      ghost var times := timetable[..];
      ghost var v, st := Now(), Disk();
      GoodSound(v, st);
      FieldsAgree();
      TimeStep(v, st, times[timepos := t], r');
      StampTimeFields(t);
      assert Now() == v.(times := times[timepos := t], r := r');
      GoodSound(Now(), Disk());
    }

    lemma FieldsAgree()
      requires Fields()
      ensures timepos == r.pos && timegranule == r.gran && numblock == r.block
      ensures timeset == r.timeset && emitted == r.emitted && bumptime == r.bump && maxtime == r.first
    {
    }

    /** A new bit symbol; refused once the facilities are written (lines 876-934). */
    method AddSymbol(width: nat)
      requires Ready() && width > 0
      modifies this`syms, this`r
      ensures Ready() && r == TraceRecorder.AddSymbol(old(r), width, cfg)
    {
      hide Tables, Sound, StartSet, Inv, Stored, Tallied;
      if emitted {
        return;
      }
      ghost var v, st := Now(), Disk();
      GoodSound(v, st);
      AddStep(v, st, width);
      FillIsText(cfg, width);
      syms := syms + [NewSymbol(cfg.initial, width)];
      r := TraceRecorder.AddSymbol(r, width, cfg);
      assert Now() == Added(v, width);
    }

    method MarkEmitted()
      requires Valid() && Good(Now(), Disk()) && timeset
      modifies this`emitted, this`r
      ensures Valid() && Good(Now(), Disk()) && r == old(r).(emitted := true)
      ensures old(StartSet(Now())) ==> StartSet(Now())
    {
      hide Tables, Texts, Sound, StartSet, Inv, Good;
      ghost var v, st := Now(), Disk();
      OpenStep(v, st);
      emitted := true;
      r := r.(emitted := true);
      assert Now() == v.(r := v.r.(emitted := true));
      GoodSound(Now(), Disk());
    }

    lemma Recordable(f: nat)
      requires Valid() && timeset && emitted && timepos < GRANULE_SIZE && f < |syms|
      ensures f < |r.values| && |r.values[f]| > 0 && CanRecord(Now(), f, r.values[f]) && syms[f].value == r.values[f]
      ensures IsText(syms[f].value) && forall v: string :: |v| == |r.values[f]| ==> CanRecord(Now(), f, v)
    {
    }

    /** Emit every value again, the newest symbol's first (lines 1492-1530). */
    method Burst()
      requires Valid() && Good(Now(), Disk()) && timeset && timepos < GRANULE_SIZE && timetable[timepos] == r.time
      requires Bursts(r, cfg)
      modifies this`syms, this`emitted, this`bumptime, this`dictMem, this`r, dict, dict.repr
      ensures Ready() && r == TraceRecorder.Burst(old(r), cfg) && |syms| == |old(syms)|
      ensures fresh(dict.repr - old(dict.repr)) && dictMem <= old(dictMem) + Weight(r.values)
    {
      hide Tables, Texts, Sound, StartSet, Inv, Good, SetFrom, Weight, Consistent;
      GoodSound(Now(), Disk());
      BurstEnds(r, cfg);
      if |syms| == 0 {
        NothingSet(Now());
        AllSet(Now());
        return;
      }
      ghost var r0 := r;
      MarkEmitted();
      BurstAll(r0);
    }

    method BurstAll(ghost r0: Recorder)
      requires Valid() && Good(Now(), Disk()) && timeset && timepos < GRANULE_SIZE && timetable[timepos] == r.time
      requires Consistent(r0) && r0.timeset && Bursts(r0, cfg) && |syms| == |r0.values| == |r0.prior|
      requires r == BurstSome(r0, |r0.values|)
      modifies this`syms, this`bumptime, this`dictMem, this`r, dict, dict.repr
      ensures Ready() && r == BurstSome(r0, 0) && |syms| == |old(syms)|
      ensures fresh(dict.repr - old(dict.repr)) && dictMem <= old(dictMem) + Weight(r0.values)
    {
      hide Tables, Texts, Sound, StartSet, Inv, Good, SetFrom, Weight, Consistent;
      NothingSet(Now());
      assert r0.values[..|r0.values|] == r0.values;
      var f := |syms|;
      while f > 0
        invariant Valid() && Good(Now(), Disk()) && timeset && timepos < GRANULE_SIZE && timetable[timepos] == r.time
        invariant 0 <= f <= |syms| == |old(syms)| == |r0.values| == |r0.prior| && fresh(dict.repr - old(dict.repr))
        invariant r == BurstSome(r0, f) && SetFrom(Now(), f)
        invariant dictMem + Weight(r0.values[..f]) <= old(dictMem) + Weight(r0.values)
      {
        f := f - 1;
        BurstOne(f, r0);
      }
      AllSet(Now());
    }

    method BurstOne(f: nat, ghost r0: Recorder)
      requires Valid() && Good(Now(), Disk()) && timeset && timepos < GRANULE_SIZE
      requires Consistent(r0) && r0.timeset && Bursts(r0, cfg) && f < |syms| == |r0.values|
      requires r == BurstSome(r0, f + 1) && SetFrom(Now(), f + 1)
      modifies this`syms, this`bumptime, this`dictMem, this`r, dict, dict.repr
      ensures Valid() && Good(Now(), Disk()) && fresh(dict.repr - old(dict.repr))
      ensures r == BurstSome(r0, f) && SetFrom(Now(), f) && |syms| == |old(syms)|
      ensures dictMem + Weight(r0.values[..f]) <= old(dictMem) + Weight(r0.values[..f + 1])
    {
      hide Tables, Texts, Sound, StartSet, Inv, Good, SetFrom, Recorded, KeepsStart, CanRecord;
      Recordable(f);
      BurstNext(r0, f);
      WeightAt(r0.values, f);
      ghost var v, st := Now(), Disk();
      ghost var val := syms[f].value;
      ghost var l := RecordChange(f, syms[f].value);
      RecordedKeeps(v, st, Now(), Disk(), f, val, l);
      RecordedKeepsStart(v, st, Now(), Disk(), f, val, l);
      SetOneMore(v, Now(), f);
      KeptCount(v, Now(), f);
    }

    /** A new time: close the current position if it holds a change, then stamp the time (lines 1449-1484). */
    method AdvanceClock(t: nat)
      requires Ready() && Room() && t < Pow256(8)
      modifies this, timetable, dict, mapdict, mapdict.repr
      ensures Valid() && Good(Now(), Disk()) && timepos < GRANULE_SIZE && timetable[timepos] == r.time
      ensures r == Clock(old(r), t, cfg) && |syms| == |old(syms)| && (StartSet(Now()) || Bursts(r, cfg))
      ensures dict.repr <= old(dict.repr) && fresh(mapdict.repr - old(mapdict.repr))
      ensures dictMem <= old(dictMem) && |mapdict.Contents()| <= |old(mapdict.Contents())| + |syms|
    {
      hide Tables, Texts, Sound, StartSet, Inv, Good, Pow256, Consistent, Seal;
      GoodSound(Now(), Disk());
      if !timeset {
        StampTime(t);
      } else if t > maxtime {
        if bumptime {
          EndPosition();
        }
        StampTime(t);
      }
    }

    /** lxt2_wr_set_time64. */
    method SetTime(t: nat)
      requires Ready() && Room() && t < Pow256(8)
      modifies this, timetable, dict, dict.repr, mapdict, mapdict.repr
      ensures Ready() && r == TraceRecorder.SetTime(old(r), t, cfg) && |syms| == |old(syms)|
      ensures fresh(dict.repr - old(dict.repr)) && fresh(mapdict.repr - old(mapdict.repr))
      ensures dictMem <= old(dictMem) + Weight(r.values) && |mapdict.Contents()| <= |old(mapdict.Contents())| + |syms|
    {
      hide Tables, Texts, Sound, StartSet, Inv, Good, Pow256, Weight, Consistent, Clock;
      GoodSound(Now(), Disk());
      AdvanceClock(t);
      if timepos == 0 && timegranule == 0 && (numblock == 0 || cfg.checkpoints) {
        Burst();
      }
    }

    /** Fix the facilities and the time before the first value (lines 1783-1792). */
    method OpenTrace()
      requires Ready() && Room()
      modifies this, timetable, dict, dict.repr, mapdict, mapdict.repr
      ensures Ready() && r == Open(old(r), cfg) && |syms| == |old(syms)|
      ensures fresh(dict.repr - old(dict.repr)) && fresh(mapdict.repr - old(mapdict.repr))
      ensures dictMem <= old(dictMem) + Weight(r.values) && |mapdict.Contents()| <= |old(mapdict.Contents())| + |syms|
    {
      hide Tables, Texts, Sound, StartSet, Inv, Good, Pow256, Weight, Consistent, TraceRecorder.SetTime;
      GoodSound(Now(), Disk());
      if !emitted {
        if !timeset {
          assert 0 < Pow256(8);
          SetTime(0);
        }
        MarkEmitted();
      }
    }

    /** lxt2_wr_emit_value_bit_string. */
    method Emit(f: nat, raw: string)
      requires Ready() && Room() && IsText(raw)
      modifies this, timetable, dict, dict.repr, mapdict, mapdict.repr
      ensures Ready() && r == TraceRecorder.Emit(old(r), f, raw, cfg) && |syms| == |old(syms)|
      ensures f < |old(r).values| && raw != "" ==> f < |r.values| && FixedUp(raw, |old(r).values[f]|, r.values[f])
      ensures fresh(dict.repr - old(dict.repr)) && fresh(mapdict.repr - old(mapdict.repr))
      ensures dictMem <= old(dictMem) + 2 * Weight(r.values) && |mapdict.Contents()| <= |old(mapdict.Contents())| + |syms|
    {
      hide Tables, Texts, Sound, StartSet, Inv, Good, Pow256, Weight, TraceRecorder.SetTime, Recorded, KeepsStart, CanRecord, Normalise, IsText;
      GoodSound(Now(), Disk());
      if f < |r.values| && raw != "" {
        EmitMeans(r, f, raw, cfg);
      }
      hide FixedUp, TraceRecorder.Emit;
      if f >= |syms| || raw == "" {
        return;
      }
      OpenTrace();
      EmitOpen(f, raw);
    }

    method EmitOpen(f: nat, raw: string)
      requires Ready() && timeset && emitted && IsText(raw) && raw != "" && f < |syms|
      modifies this`syms, this`bumptime, this`dictMem, this`r, dict, dict.repr
      ensures Ready() && Consistent(old(r)) && f < |old(r).values| && |old(r).values[f]| > 0
      ensures r == Record(old(r), f, Normalise(raw, |old(r).values[f]|))
      ensures |syms| == |old(syms)| && fresh(dict.repr - old(dict.repr))
      ensures Weight(r.values) == Weight(old(r).values) && dictMem <= old(dictMem) + Weight(r.values)
    {
      hide Tables, Texts, Sound, StartSet, Inv, Good, Pow256, Weight, Recorded, KeepsStart, CanRecord, Normalise, IsText;
      GoodSound(Now(), Disk());
      Recordable(f);
      var v := FixValue(raw, |syms[f].value|);
      WeightAt(r.values, f);
      ghost var v0, st := Now(), Disk();
      ghost var l := RecordChange(f, v);
      RecordedKeeps(v0, st, Now(), Disk(), f, v, l);
      RecordedKeepsStart(v0, st, Now(), Disk(), f, v, l);
      StartKept(v0, Now(), f);
      WeightSame(v0.r.values, r.values);
    }

    /** lxt2_wr_close, for a trace whose facilities are written if a time was set. */
    method Close()
      requires Ready() && Room() && (timeset ==> emitted)
      modifies this, dict, mapdict, mapdict.repr
      ensures Good(Now(), Disk()) && r == TraceRecorder.Close(old(r), cfg)
    {
      hide Tables, Texts, Sound, Good, StartSet, Inv, Consistent, PositionOk;
      GoodSound(Now(), Disk());
      if timeset {
        ghost var v, st := Now(), Disk();
        CloseStep(v, st);
        timepos := timepos + 1;
        r := Seal(r, cfg);
        assert Now() == Sealed(v);
        GoodSound(Now(), Disk());
        FlushGranule(true);
      }
    }
  }
}
