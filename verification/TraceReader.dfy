/**
 What a reader makes of a trace: the value of every facility at every recorded time.
 A facility's mask says at which of a granule's times it changes; its codes are
 replayed, in order, at those times.
 */
module TraceReader {
  import opened Bits
  import opened ChangeCodec
  import opened TraceFormat

  /** The values of all facilities from `time` until the next frame. */
  datatype Frame = Frame(time: nat, values: seq<string>)

  /** No facility has an empty value. */
  ghost predicate Proper(values: seq<string>)
  {
    forall f :: 0 <= f < |values| ==> values[f] != ""
  }

  ghost predicate SameWidths(a: seq<string>, b: seq<string>)
  {
    |a| == |b| && forall f :: 0 <= f < |a| ==> |a[f]| == |b[f]|
  }

  /** A facility's value after the first `n` times of a granule. */
  ghost function Replay(mask: nat, codes: seq<nat>, n: nat, base: string, dict: seq<string>): (v: string)
    requires base != ""
    ensures |v| == |base|
    decreases n
  {
    if n == 0 then base else
    var v := Replay(mask, codes, n - 1, base, dict);
    var k := CountBelow(mask, n - 1);
    if Bit(mask, n - 1) && k < |codes| then Apply(codes[k], v, dict) else v
  }

  ghost function FacilityValue(g: Granule, masks: seq<nat>, dict: seq<string>, f: nat, n: nat, base: string): (v: string)
    requires base != ""
    ensures |v| == |base|
  {
    if f < |g.maps| && g.maps[f] < |masks| && f < |g.codes|
    then Replay(masks[g.maps[f]], g.codes[f], n, base, dict)
    else base
  }

  ghost function GranuleValues(g: Granule, masks: seq<nat>, dict: seq<string>, base: seq<string>, n: nat): (v: seq<string>)
    requires Proper(base)
    ensures SameWidths(v, base) && Proper(v)
  {
    var v := seq(|base|, f requires 0 <= f < |base| => FacilityValue(g, masks, dict, f, n, base[f]));
    assert forall f :: 0 <= f < |base| ==> |v[f]| == |base[f]|;
    v
  }

  ghost function GranuleFrames(g: Granule, masks: seq<nat>, dict: seq<string>, base: seq<string>): (fs: seq<Frame>)
    requires Proper(base)
    ensures |fs| == |g.times|
  {
    seq(|g.times|, p requires 0 <= p < |g.times| =>
      Frame(g.times[p], GranuleValues(g, masks, dict, base, p + 1)))
  }

  /** The values after a run of granules. */
  ghost function EndValues(gs: seq<Granule>, masks: seq<nat>, dict: seq<string>, base: seq<string>): (v: seq<string>)
    requires Proper(base)
    ensures SameWidths(v, base) && Proper(v)
  {
    if gs == [] then base else
    var g := gs[|gs| - 1];
    GranuleValues(g, masks, dict, EndValues(gs[..|gs| - 1], masks, dict, base), |g.times|)
  }

  ghost function Frames(gs: seq<Granule>, masks: seq<nat>, dict: seq<string>, base: seq<string>): seq<Frame>
    requires Proper(base)
  {
    if gs == [] then [] else
    var before := gs[..|gs| - 1];
    Frames(before, masks, dict, base) + GranuleFrames(gs[|gs| - 1], masks, dict, EndValues(before, masks, dict, base))
  }

  ghost function SectionFrames(s: Section, base: seq<string>): seq<Frame>
    requires Proper(base)
  {
    Frames(s.granules, s.masks, s.dict, base)
  }

  /** The values after a run of sections, each continuing from the one before. */
  ghost function FileEnd(sections: seq<Section>, base: seq<string>): (v: seq<string>)
    requires Proper(base)
    ensures SameWidths(v, base) && Proper(v)
  {
    if sections == [] then base else
    var s := sections[|sections| - 1];
    EndValues(s.granules, s.masks, s.dict, FileEnd(sections[..|sections| - 1], base))
  }

  ghost function FileFrames(sections: seq<Section>, base: seq<string>): seq<Frame>
    requires Proper(base)
  {
    if sections == [] then [] else
    var before := sections[..|sections| - 1];
    FileFrames(before, base) + SectionFrames(sections[|sections| - 1], FileEnd(before, base))
  }

  /**
   The frames a reader sees against the recorded ones: the same times, the first `right` of them
   the same values, and the next one, if there is one, not.
   */
  ghost predicate Matches(seen: seq<Frame>, frames: seq<Frame>, right: nat)
  {
    var matches :=
      && |seen| == |frames| && right <= |frames|
      && (forall k :: 0 <= k < right ==> seen[k] == frames[k])
      && (right < |frames| ==> seen[right].values != frames[right].values)
      && forall k :: 0 <= k < |frames| ==> seen[k].time == frames[k].time;
    matches
  }

  lemma MatchesAll(seen: seq<Frame>, frames: seq<Frame>, right: nat)
    requires Matches(seen, frames, right)
    ensures |seen| == |frames| && (seen == frames <==> right == |frames|)
  {
  }

  /** One more frame is right if all before it are and it is. */
  lemma MatchesMore(seen: seq<Frame>, frames: seq<Frame>, right: nat, x: Frame, y: Frame)
    requires Matches(seen, frames, right) && x.time == y.time
    ensures Matches(seen + [x], frames + [y], if right == |frames| && x == y then right + 1 else right)
  {
  }

  /** Bit `p` of a mask is the position `p` of a granule, and its set bits take the codes in order. */
  lemma ReplayOrder(base: string, a: nat, b: nat, dict: seq<string>)
    requires base != ""
    ensures Replay(5, [a, b], 1, base, dict) == Apply(a, base, dict)
    ensures Replay(5, [a, b], 2, base, dict) == Apply(a, base, dict)
    ensures Replay(5, [a, b], 3, base, dict) == Apply(b, Apply(a, base, dict), dict)
  {
    hide Apply;
    var m := 5;
    assert Pow2(0) == 1 && Pow2(1) == 2 && Pow2(2) == 4;
    assert Bit(m, 0) && !Bit(m, 1) && Bit(m, 2);
    assert CountBelow(m, 0) == 0;
    assert CountBelow(m, 1) == 1;
    assert CountBelow(m, 2) == 1;
    assert Replay(m, [a, b], 0, base, dict) == base;
    assert Replay(m, [a, b], 1, base, dict) == Apply(a, base, dict);
    assert Replay(m, [a, b], 2, base, dict) == Apply(a, base, dict);
  }

  // ----- replay depends only on what it reads

  lemma {:induction false} ReplaySame(mask: nat, codes: seq<nat>, mask': nat, codes': seq<nat>, n: nat, base: string, dict: seq<string>)
    requires base != "" && (forall q: nat :: q < n ==> Bit(mask, q) == Bit(mask', q))
    requires CountBelow(mask, n) <= |codes| && CountBelow(mask, n) <= |codes'|
    requires codes[..CountBelow(mask, n)] == codes'[..CountBelow(mask, n)]
    ensures Replay(mask, codes, n, base, dict) == Replay(mask', codes', n, base, dict)
  {
    if n > 0 {
      var k := CountBelow(mask, n - 1);
      CountSame(mask, mask', n - 1);
      assert codes[..k] == codes[..CountBelow(mask, n)][..k] == codes'[..CountBelow(mask, n)][..k] == codes'[..k];
      ReplaySame(mask, codes, mask', codes', n - 1, base, dict);
      if Bit(mask, n - 1) {
        assert codes[k] == codes[..k + 1][k] == codes'[..k + 1][k] == codes'[k];
      }
    }
  }

  ghost predicate Known(codes: seq<nat>, dict: seq<string>)
  {
    forall k :: 0 <= k < |codes| ==> codes[k] < DICT_START + |dict|
  }

  lemma {:induction false} ReplayMoreDict(mask: nat, codes: seq<nat>, n: nat, base: string, dict: seq<string>, more: seq<string>)
    requires base != "" && Known(codes, dict)
    ensures Replay(mask, codes, n, base, dict + more) == Replay(mask, codes, n, base, dict)
  {
    if n > 0 {
      ReplayMoreDict(mask, codes, n - 1, base, dict, more);
      var k := CountBelow(mask, n - 1);
      if Bit(mask, n - 1) && k < |codes| {
        ApplyMoreDict(codes[k], Replay(mask, codes, n - 1, base, dict), dict, more);
      }
    }
  }

  /** A facility that changes at the first time, by an absolute code, forgets what was before. */
  lemma {:induction false} ReplayFromStart(mask: nat, codes: seq<nat>, n: nat, base: string, base': string, dict: seq<string>)
    requires |base| == |base'| > 0 && n > 0
    requires Bit(mask, 0) && codes != [] && Decisive(codes[0], |base|, dict)
    ensures Replay(mask, codes, n, base, dict) == Replay(mask, codes, n, base', dict)
  {
    if n > 1 {
      ReplayFromStart(mask, codes, n - 1, base, base', dict);
    }
  }

  /** The code decodes to the same value from every base of width `n`. */
  ghost predicate Decisive(code: nat, n: nat, dict: seq<string>)
  {
    Absolute(code) && (code >= DICT_START ==> code < DICT_START + |dict| && 0 < |dict[code - DICT_START]| <= n)
  }

  // ----- dictionaries that grow later change nothing

  ghost predicate GranuleKnown(g: Granule, masks: seq<nat>, dict: seq<string>)
  {
    && (forall f :: 0 <= f < |g.maps| ==> g.maps[f] < |masks|)
    && (forall f :: 0 <= f < |g.codes| ==> Known(g.codes[f], dict))
  }

  lemma GranuleMore(g: Granule, masks: seq<nat>, dict: seq<string>, base: seq<string>, n: nat, masks': seq<nat>, dict': seq<string>)
    requires Proper(base) && GranuleKnown(g, masks, dict) && masks <= masks' && dict <= dict'
    ensures GranuleValues(g, masks', dict', base, n) == GranuleValues(g, masks, dict, base, n)
  {
    var more := dict'[|dict|..];
    assert dict' == dict + more;
    forall f | 0 <= f < |base|
      ensures FacilityValue(g, masks', dict', f, n, base[f]) == FacilityValue(g, masks, dict, f, n, base[f])
    {
      if f < |g.maps| && f < |g.codes| {
        assert masks'[g.maps[f]] == masks[g.maps[f]];
        ReplayMoreDict(masks[g.maps[f]], g.codes[f], n, base[f], dict, more);
      }
    }
  }

  ghost predicate AllKnown(gs: seq<Granule>, masks: seq<nat>, dict: seq<string>)
  {
    forall i :: 0 <= i < |gs| ==> GranuleKnown(gs[i], masks, dict)
  }

  lemma {:induction false} FramesMore(gs: seq<Granule>, masks: seq<nat>, dict: seq<string>, base: seq<string>, masks': seq<nat>, dict': seq<string>)
    requires Proper(base) && AllKnown(gs, masks, dict) && masks <= masks' && dict <= dict'
    ensures EndValues(gs, masks', dict', base) == EndValues(gs, masks, dict, base)
    ensures Frames(gs, masks', dict', base) == Frames(gs, masks, dict, base)
  {
    if gs != [] {
      var before, g := gs[..|gs| - 1], gs[|gs| - 1];
      FramesMore(before, masks, dict, base, masks', dict');
      var b := EndValues(before, masks, dict, base);
      GranuleMore(g, masks, dict, b, |g.times|, masks', dict');
      forall p | 0 <= p < |g.times|
        ensures GranuleFrames(g, masks', dict', b)[p] == GranuleFrames(g, masks, dict, b)[p]
      {
        GranuleMore(g, masks, dict, b, p + 1, masks', dict');
      }
      assert GranuleFrames(g, masks', dict', b) == GranuleFrames(g, masks, dict, b);
    }
  }

  // ----- a checkpointed section can be read on its own

  /** At the granule's first time every facility is set by an absolute code. */
  ghost predicate Checkpoint(g: Granule, masks: seq<nat>, dict: seq<string>, base: seq<string>)
  {
    g.times != [] && forall f :: 0 <= f < |base| ==>
      && f < |g.maps| && g.maps[f] < |masks| && f < |g.codes|
      && Bit(masks[g.maps[f]], 0) && g.codes[f] != [] && Decisive(g.codes[f][0], |base[f]|, dict)
  }

  lemma CheckpointValues(g: Granule, masks: seq<nat>, dict: seq<string>, base: seq<string>, base': seq<string>, n: nat)
    requires Proper(base) && Proper(base') && SameWidths(base, base') && Checkpoint(g, masks, dict, base) && n > 0
    ensures GranuleValues(g, masks, dict, base, n) == GranuleValues(g, masks, dict, base', n)
  {
    forall f | 0 <= f < |base|
      ensures FacilityValue(g, masks, dict, f, n, base[f]) == FacilityValue(g, masks, dict, f, n, base'[f])
    {
      ReplayFromStart(masks[g.maps[f]], g.codes[f], n, base[f], base'[f], dict);
    }
  }

  lemma {:induction false} CheckpointFrames(gs: seq<Granule>, masks: seq<nat>, dict: seq<string>, base: seq<string>, base': seq<string>)
    requires Proper(base) && Proper(base') && SameWidths(base, base')
    requires gs != [] ==> Checkpoint(gs[0], masks, dict, base)
    ensures gs != [] ==> EndValues(gs, masks, dict, base) == EndValues(gs, masks, dict, base')
    ensures Frames(gs, masks, dict, base) == Frames(gs, masks, dict, base')
  {
    if gs != [] {
      var before, g := gs[..|gs| - 1], gs[|gs| - 1];
      CheckpointFrames(before, masks, dict, base, base');
      if before == [] {
        CheckpointValues(g, masks, dict, base, base', |g.times|);
        forall p | 0 <= p < |g.times|
          ensures GranuleFrames(g, masks, dict, base)[p] == GranuleFrames(g, masks, dict, base')[p]
        {
          CheckpointValues(g, masks, dict, base, base', p + 1);
        }
        assert GranuleFrames(g, masks, dict, base) == GranuleFrames(g, masks, dict, base');
      } else {
        assert before[0] == gs[0];
      }
    }
  }
}
