/**
 One end of a PCIe link (libsimbus/simbus_pcie_tlp.c:254-261, libsimbus/simbus_pcie_tlp_tlp.c:157-305 and
 libsimbus/simbus_pcie_tlp_read.c:48-145): a receive buffer, slots for completions by tag, and the
 packets it sends. A failed assertion of the source is reported as `false`.
 */
module TlpEndpoint {
  import opened TlpStream
  import opened TlpPackets
  import W = Wires

  const TAGS := 32

  /** The interrupt lines that are asserted after a packet. */
  function Lines(was: set<nat>, e: Effect): set<nat>
  {
    if !e.Interrupt? then was else if e.raised then was + {e.line} else was - {e.line}
  }

  /** The first two words are those of an Assert_INTx message for line `k`: a message to the root with code 0x20 + k. */
  predicate Asserts(w0: Word, w1: Word, k: nat)
  {
    w0 / 0x100_0000 == 0x30 && k < 4 && w1 % 0x100 == 0x20 + k
  }

  /** Deassert_INTx, code 0x24 + k. */
  predicate Deasserts(w0: Word, w1: Word, k: nat)
  {
    w0 / 0x100_0000 == 0x30 && k < 4 && w1 % 0x100 == 0x24 + k
  }

  /** Each message moves its own line and nothing else does anything to the lines. */
  ghost predicate LinesMoved(w0: Word, w1: Word, was: set<nat>, now: set<nat>)
  {
    && (forall k :: 0 <= k < 4 && Asserts(w0, w1, k) ==> now == was + {k})
    && (forall k :: 0 <= k < 4 && Deasserts(w0, w1, k) ==> now == was - {k})
    && ((forall k :: 0 <= k < 4 ==> !Asserts(w0, w1, k) && !Deasserts(w0, w1, k)) ==> now == was)
  }

  lemma MessageCode(w: Word)
    ensures w % 0x100 / 4 * 4 == 0x20 <==> 0x20 <= w % 0x100 < 0x24
    ensures w % 0x100 / 4 * 4 == 0x24 <==> 0x24 <= w % 0x100 < 0x28
    ensures 0x20 <= w % 0x100 < 0x24 ==> w % 4 == w % 0x100 - 0x20
    ensures 0x24 <= w % 0x100 < 0x28 ==> w % 4 == w % 0x100 - 0x24
  {
    var x := w % 0x100;
    assert w % 4 == x % 4;
  }

  lemma LinesMean(b: seq<Word>, rid: nat, reader: Reader, was: set<nat>)
    requires |b| == MAX_TLP && rid < 0x1_0000
    ensures LinesMoved(b[0], b[1], was, Lines(was, Dispatch(b, rid, reader)))
  {
    MessageCode(b[1]);
  }

  class Endpoint {
    const rid: nat
    const buf: array<Word>
    var cnt: nat
    var completions: map<nat, seq<Word>>
    var nextTag: nat
    var writes: seq<Effect>      // calls of the write handler
    var intx: set<nat>           // the interrupt lines asserted
    var out: seq<seq<Word>>      // packets sent

    ghost predicate Valid()
      reads this
    {
      rid < 0x1_0000 && buf.Length == MAX_TLP && cnt <= MAX_TLP && nextTag < TAGS
    }

    constructor (rid: nat)
      requires rid < 0x1_0000
      ensures Valid() && fresh(buf) && this.rid == rid && cnt == 0 && completions == map[] && writes == [] && out == [] && intx == {}
    {
      this.rid := rid;
      buf := new Word[MAX_TLP](_ => 0);
      cnt, completions, nextTag, writes, out, intx := 0, map[], 0, [], [], {};
    }

    /** crank_recv_tlp: one more word of a packet. */
    method Crank(val: Word) returns (ok: bool)
      requires Valid()
      modifies this`cnt, buf
      ensures Valid() && ok == (old(cnt) < MAX_TLP)
      ensures if ok then cnt == old(cnt) + 1 && buf[..cnt] == old(buf[..cnt]) + [val] else cnt == old(cnt) && buf[..] == old(buf[..])
    {
      ok := cnt < MAX_TLP;
      if ok {
        buf[cnt] := val;
        cnt := cnt + 1;
      }
    }

    /** The words of a beat go into the buffer as long as there is room. */
    method Gather(b: Beat) returns (ok: bool)
      requires Valid() && |b.data| == 64 && |b.keep| == 8
      modifies this`cnt, buf
      ensures Valid() && (ok <==> Gathered(b, 8).bytes == 0 && old(cnt) + |Gathered(b, 8).words| <= MAX_TLP)
      ensures ok ==> cnt == old(cnt) + |Gathered(b, 8).words| && buf[..cnt] == old(buf[..cnt]) + Gathered(b, 8).words
    {
      hide Gathered;
      var words, whole := ReceiveBeat(b);
      GatheredSizes(b, 8);
      ok := whole;
      var i := 0;
      while i < |words| && cnt < MAX_TLP
        invariant 0 <= i <= |words| && Valid() && cnt == old(cnt) + i && buf[..cnt] == old(buf[..cnt]) + words[..i]
      {
        var done := Crank(words[i]);
        assert words[..i + 1] == words[..i] + [words[i]];
        i := i + 1;
      }
      ok := ok && i == |words|;
      assert words[..|words|] == words;
    }

    /** copy_tlp_to_completion. */
    method Keep(tag: nat, words: nat) returns (ok: bool)
      requires Valid()
      modifies this`completions
      ensures ok == (tag !in old(completions) && 3 <= words <= cnt)
      ensures completions == if ok then old(completions)[tag := buf[..words]] else old(completions)
    {
      ok := tag !in completions && 3 <= words <= cnt;
      if ok {
        completions := completions[tag := buf[..words]];
      }
    }

    /** A write request: the data is swapped in the buffer and handed to the handler. */
    method TakeWrite(wide: bool)
      requires Valid()
      modifies this`writes, buf
      ensures Valid()
      ensures var b := old(buf[..]); var lo := if wide then 4 else 3;
        writes == old(writes) + [Written(Address(b, wide), SwapAll(b[lo..lo + Count(b)]), b[1] % 16, b[1] / 16 % 16)]
    {
      hide Swap;
      var ndata := buf[0] % 0x400;
      var addr := if wide then buf[2] * WORD + buf[3] else buf[2];
      var be0, beN := buf[1] % 16, buf[1] / 16 % 16;
      var lo := if wide then 4 else 3;
      ghost var b := buf[..];
      assert b[lo..lo + ndata] == buf[lo..lo + ndata];
      SwapInPlace(buf, lo, ndata);
      writes := writes + [Written(addr, buf[lo..lo + ndata], be0, beN)];
    }

    /** A read request: the handler's data, swapped, behind a completion header. */
    method Answer(wide: bool, reader: Reader) returns (tlp: seq<Word>)
      requires Valid() && GoodReader(reader)
      ensures var b := buf[..]; var addr := Address(b, wide);
        var data := reader(addr, Count(b), b[1] % 16, b[1] / 16 % 16);
        |data| < 0x400 && tlp == ReplyPacket(rid, b[1], addr, data)
    {
      hide Swap, GoodReader;
      var ndata := buf[0] % 0x400;
      var addr := if wide then buf[2] * WORD + buf[3] else buf[2];
      var be0, beN := buf[1] % 16, buf[1] / 16 % 16;
      ReaderSize(reader, addr, ndata, be0, beN);
      var data := new Word[ndata](_ => 0);
      var got := reader(addr, ndata, be0, beN);
      var i := 0;
      while i < ndata
        invariant 0 <= i <= ndata && data[..i] == got[..i]
      {
        data[i] := got[i];
        i := i + 1;
      }
      SwapInPlace(data, 0, ndata);
      assert data[0..ndata] == data[..];
      tlp := [Header(CPLD, ndata), rid * 0x1_0000 + 4 * ndata % 0x1000, buf[1] / 0x100 * 0x100 + addr % 0x80] + data[..];
    }

    /** complete_recv_tlp: every packet has the effect that Dispatch says. */
    method Complete(reader: Reader) returns (ok: bool)
      requires Valid() && GoodReader(reader)
      modifies this, buf
      ensures Valid() && cnt == 0 && nextTag == old(nextTag)
      ensures var e := Dispatch(old(buf[..]), rid, reader);
        && writes == old(writes) + (if e.Written? then [e] else [])
        && out == old(out) + (if e.Reply? then [e.tlp] else [])
        && (ok <==> (e.Completed? ==> e.tag !in old(completions) && 3 <= e.words <= old(cnt)))
        && completions == (if e.Completed? && ok then old(completions)[e.tag := old(buf[..e.words])] else old(completions))
        && intx == Lines(old(intx), e)
      ensures LinesMoved(old(buf[0]), old(buf[1]), old(intx), intx)
    {
      LinesMean(buf[..], rid, reader, intx);
      hide Swap, ReplyPacket, GoodReader, SwapAll, LinesMoved;
      var kind := buf[0] / 0x100_0000;
      ok := true;
      if kind == CPL {
        ok := Keep(buf[2] / 0x100 % 0x100, 3);
      } else if kind == CPLD {
        ok := Keep(buf[2] / 0x100 % 0x100, 3 + buf[0] % 0x400);
      } else if kind == MWR32 {
        TakeWrite(false);
      } else if kind == MWR64 {
        TakeWrite(true);
      } else if kind == MRD32 || kind == MRD64 {
        var tlp := Answer(kind == MRD64, reader);
        out := out + [tlp];
      } else if kind == MSG {
        if buf[1] % 0x100 / 4 * 4 == 0x20 {
          intx := intx + {buf[1] % 4};
        } else if buf[1] % 0x100 / 4 * 4 == 0x24 {
          intx := intx - {buf[1] % 4};
        }
      }
      cnt := 0;
    }

    /** __pcie_tlp_recv_tlp, for a beat that is valid and accepted. */
    method ReceiveTlp(b: Beat, reader: Reader) returns (ok: bool, ghost seen: seq<Word>)
      requires Valid() && |b.data| == 64 && |b.keep| == 8 && GoodReader(reader)
      modifies this, buf
      ensures Valid() && nextTag == old(nextTag) && |seen| == MAX_TLP
      ensures Gathered(b, 8).bytes == 0 && old(cnt) + |Gathered(b, 8).words| <= MAX_TLP ==>
        var n := old(cnt) + |Gathered(b, 8).words|;
        && seen[..n] == old(buf[..cnt]) + Gathered(b, 8).words
        && if b.last == W.High then Took(old(writes), old(out), old(completions), old(intx), seen, n, reader, ok) && cnt == 0
                && LinesMoved(seen[0], seen[1], old(intx), intx)
           else ok && cnt == n && buf[..] == seen && writes == old(writes) && out == old(out) && completions == old(completions) && intx == old(intx)
    {
      hide Gathered, Dispatch, LinesMoved;
      ok := Gather(b);
      seen := buf[..];
      assert seen[..cnt] == buf[..cnt];
      if ok && b.last == W.High {
        ok := Complete(reader);
      }
    }

    /** A packet of `n` words at the start of the buffer `seen` has had the effect Dispatch says. */
    ghost predicate Took(writes0: seq<Effect>, out0: seq<seq<Word>>, completions0: map<nat, seq<Word>>,
                         intx0: set<nat>, seen: seq<Word>, n: nat, reader: Reader, ok: bool)
      requires |seen| == MAX_TLP && n <= MAX_TLP && rid < 0x1_0000
      reads this
    {
      var e := Dispatch(seen, rid, reader);
      && writes == writes0 + (if e.Written? then [e] else [])
      && out == out0 + (if e.Reply? then [e.tlp] else [])
      && (ok <==> (e.Completed? ==> e.tag !in completions0 && 3 <= e.words <= n))
      && completions == (if e.Completed? && ok then completions0[e.tag := seen[..e.words]] else completions0)
      && intx == Lines(intx0, e)
    }

    lemma TookLines(writes0: seq<Effect>, out0: seq<seq<Word>>, completions0: map<nat, seq<Word>>,
                    intx0: set<nat>, seen: seq<Word>, p: seq<Word>, reader: Reader, ok: bool)
      requires Holds(seen, p) && |p| <= MAX_TLP && rid < 0x1_0000
      requires Took(writes0, out0, completions0, intx0, seen, |p|, reader, ok)
      ensures |p| >= 2 ==> LinesMoved(p[0], p[1], intx0, intx)
    {
      LinesMean(seen, rid, reader, intx0);
    }

    /** A whole packet, beat by beat: it is in the buffer when its last beat has come, and takes effect then. */
    method Receive(beats: seq<Beat>, ghost p: seq<Word>, reader: Reader) returns (ok: bool, ghost seen: seq<Word>)
      requires Valid() && cnt == 0 && 1 <= |p| <= MAX_TLP && beats == Beats(p) && GoodReader(reader)
      modifies this, buf
      ensures Valid() && cnt == 0 && nextTag == old(nextTag) && Holds(seen, p)
      ensures Took(old(writes), old(out), old(completions), old(intx), seen, |p|, reader, ok)
      ensures |p| >= 2 ==> LinesMoved(p[0], p[1], old(intx), intx)
    {
      hide Gathered, Dispatch, BeatOf, Beats, Rest, Took, GoodReader, W.Level;
      ok, seen := true, buf[..];
      ghost var ws := p;
      var i := 0;
      while i < |beats|
        invariant 0 <= i <= |beats| && Valid() && nextTag == old(nextTag) && Beats(ws) == beats[i..]
        invariant ws != [] ==> cnt == |p| - |ws| && |ws| <= |p| && buf[..cnt] + ws == p
        invariant ws != [] ==> writes == old(writes) && out == old(out) && completions == old(completions) && intx == old(intx)
        invariant ws == [] ==> cnt == 0 && Holds(seen, p) && Took(old(writes), old(out), old(completions), old(intx), seen, |p|, reader, ok)
      {
        NoBeats();
        BeatStep(ws);
        ghost var got := Gathered(BeatOf(ws), 8).words;
        NextPart(p, buf[..cnt], got, Rest(ws), ws);
        assert beats[i] == beats[i..][0] == BeatOf(ws);
        ok, seen := ReceiveTlp(beats[i], reader);
        assert beats[i + 1..] == beats[i..][1..] == Beats(Rest(ws));
        ws := Rest(ws);
        i := i + 1;
      }
      if ws != [] {
        BeatStep(ws);
      }
      TookLines(old(writes), old(out), old(completions), old(intx), seen, p, reader, ok);
    }

    /** simbus_pcie_tlp_write. */
    method Write(addr: nat, data: seq<Word>, off: nat, len: nat)
      requires Valid() && addr < ADDRESSES && 1 <= |data| < 0x400 && off <= 3 && off + len <= 4 * |data|
      modifies this`out
      ensures out == old(out) + [WritePacket(rid, addr, data, off, len)]
    {
      var tlp := BuildWrite(rid, addr, data, off, len);
      out := out + [tlp];
    }

    /** The first half of simbus_pcie_tlp_read: choose a tag and send the request. */
    method Request(addr: nat, ndata: nat) returns (tag: nat)
      requires Valid() && addr < ADDRESSES && 1 <= ndata < 0x400
      modifies this`out, this`nextTag
      ensures Valid() && tag == old(nextTag) && nextTag == (tag + 1) % TAGS
      ensures out == old(out) + [ReadPacket(rid, tag, addr, ndata)]
    {
      tag := nextTag;
      nextTag := (nextTag + 1) % TAGS;
      var tlp := [if addr / WORD == 0 then Header(MRD32, ndata) else Header(MRD64, ndata),
                  Second(rid, tag, if ndata == 1 then 0x0f else 0xff)];
      if addr / WORD != 0 {
        tlp := tlp + [addr / WORD];
      }
      tlp := tlp + [addr % WORD];
      assert tlp == ReadPacket(rid, tag, addr, ndata);
      out := out + [tlp];
    }

    /** The second half: take the completion out of its slot and decode it. */
    method Collect(tag: nat, ndata: nat) returns (data: seq<Word>)
      requires Valid() && tag in completions && |completions[tag]| >= 3 + ndata
      modifies this`completions
      ensures completions == old(completions) - {tag} && data == ReadData(old(completions)[tag], ndata)
      ensures var c := old(completions)[tag];
        && |data| == ndata && (c[1] / 0x2000 % 8 == 0 ==> BigEndian(c[3..3 + ndata], data))
        && (c[1] / 0x2000 % 8 != 0 ==> forall i :: 0 <= i < ndata ==> data[i] == 0xffff_ffff)
    {
      Unswapped(completions[tag][3..3 + ndata]);
      hide Swap, BigEndian;
      var ctlp := completions[tag];
      completions := completions - {tag};
      data := [];
      var idx := 0;
      if ctlp[1] / 0x2000 % 8 == 0 {
        while idx < ndata
          invariant 0 <= idx <= ndata && data == SwapAll(ctlp[3..3 + idx]) && completions == old(completions) - {tag}
        {
          var val := Reverse(ctlp[3 + idx]);
          assert SwapAll(ctlp[3..3 + (idx + 1)]) == SwapAll(ctlp[3..3 + idx]) + [val];
          data := data + [val];
          idx := idx + 1;
        }
      } else {
        while idx < ndata
          invariant 0 <= idx <= ndata && data == seq(idx, _ => 0xffff_ffff) && completions == old(completions) - {tag}
        {
          data := data + [0xffff_ffff];
          idx := idx + 1;
        }
      }
    }
  }

  lemma NoBeats()
    ensures Beats([]) == []
  {
  }

  lemma NextPart(p: seq<Word>, had: seq<Word>, got: seq<nat>, rest: seq<Word>, ws: seq<Word>)
    requires had + ws == p && got + rest == ws
    ensures had + got + rest == p && |had| + |got| + |rest| == |p|
    ensures rest == [] ==> had + got == p
  {
  }

  lemma ReaderSize(reader: Reader, a: nat, n: nat, x: nat, y: nat)
    requires GoodReader(reader)
    ensures |reader(a, n, x, y)| == n
  {
  }

  lemma PacketSizes(rid: nat, tag: nat, addr: nat, ndata: nat)
    requires rid < 0x1_0000 && tag < 0x100 && addr < ADDRESSES && 1 <= ndata < 0x400
    ensures 3 <= |ReadPacket(rid, tag, addr, ndata)| <= 4
  {
  }

  /** A packet that answers nothing: a request or a message. */
  predicate Unasked(p: seq<Word>)
  {
    1 <= |p| <= MAX_TLP && p[0] / 0x100_0000 != CPL && p[0] / 0x100_0000 != CPLD
  }

  lemma UnaskedEffect(p: seq<Word>, seen: seq<Word>, rid: nat, reader: Reader)
    requires Unasked(p) && Holds(seen, p) && rid < 0x1_0000
    ensures !Dispatch(seen, rid, reader).Completed?
  {
    assert seen[0] == p[0];
  }

  predicate Raises(p: seq<Word>, k: nat)
  {
    |p| >= 2 && Asserts(p[0], p[1], k)
  }

  predicate Lowers(p: seq<Word>, k: nat)
  {
    |p| >= 2 && Deasserts(p[0], p[1], k)
  }

  /** The last message about line `k` in these packets asserts it; or there is none and it was asserted before. */
  ghost predicate Asserted(packets: seq<seq<Word>>, k: nat, before: bool)
  {
    var asserted :=
      || (exists j :: 0 <= j < |packets| && Raises(packets[j], k) && forall m :: j < m < |packets| ==> !Lowers(packets[m], k))
      || (before && forall m :: 0 <= m < |packets| ==> !Lowers(packets[m], k));
    asserted
  }

  lemma NoMessages(k: nat, before: bool)
    ensures Asserted([], k, before) == before
  {
  }

  lemma OneMessage(packets: seq<seq<Word>>, p: seq<Word>, k: nat, before: bool, was: set<nat>, now: set<nat>)
    requires |p| >= 2 && k < 4 && LinesMoved(p[0], p[1], was, now) && (k in was <==> Asserted(packets, k, before))
    ensures k in now <==> Asserted(packets + [p], k, before)
  {
    OneMessageLine(p, k, was, now);
    var ps := packets + [p];
    assert ps[|packets|] == p && forall j :: 0 <= j < |packets| ==> ps[j] == packets[j];
    if Raises(p, k) {
      assert Raises(ps[|packets|], k);
    } else if Lowers(p, k) {
      assert Lowers(ps[|packets|], k);
    }
  }

  /** One message, for one line. */
  lemma OneMessageLine(p: seq<Word>, k: nat, was: set<nat>, now: set<nat>)
    requires |p| >= 2 && k < 4 && LinesMoved(p[0], p[1], was, now)
    ensures Raises(p, k) ==> !Lowers(p, k)
    ensures k in now <==> Raises(p, k) || (k in was && !Lowers(p, k))
  {
  }

  /** Waiting for an answer: what comes in before it takes its effect, and no slot is filled. */
  method Wait(a: Endpoint, traffic: seq<seq<Word>>, reader: Reader)
    requires a.Valid() && a.cnt == 0 && GoodReader(reader) && forall i :: 0 <= i < |traffic| ==> Unasked(traffic[i])
    modifies a, a.buf
    ensures a.Valid() && a.cnt == 0 && a.nextTag == old(a.nextTag) && a.completions == old(a.completions)
    ensures old(a.out) <= a.out && old(a.writes) <= a.writes
    ensures (forall i :: 0 <= i < |traffic| ==> |traffic[i]| >= 2) ==>
      forall k: nat :: k < 4 ==> (k in a.intx <==> Asserted(traffic, k, k in old(a.intx)))
  {
    hide Dispatch, GoodReader, Beats, LinesMoved, Asserted;
    assert traffic[..0] == [];
    forall k: nat | k < 4 ensures k in a.intx <==> Asserted([], k, k in a.intx) {
      NoMessages(k, k in a.intx);
    }
    var i := 0;
    while i < |traffic|
      invariant 0 <= i <= |traffic|
      invariant a.Valid() && a.cnt == 0 && a.nextTag == old(a.nextTag) && a.completions == old(a.completions)
      invariant old(a.out) <= a.out && old(a.writes) <= a.writes
      invariant (forall i :: 0 <= i < |traffic| ==> |traffic[i]| >= 2) ==>
        forall k: nat :: k < 4 ==> (k in a.intx <==> Asserted(traffic[..i], k, k in old(a.intx)))
    {
      ghost var lines := a.intx;
      var ok, seen := a.Receive(Beats(traffic[i]), traffic[i], reader);
      UnaskedEffect(traffic[i], seen, a.rid, reader);
      assert traffic[..i + 1] == traffic[..i] + [traffic[i]];
      if |traffic[i]| >= 2 {
        forall k: nat | k < 4 && (k in lines <==> Asserted(traffic[..i], k, k in old(a.intx)))
          ensures k in a.intx <==> Asserted(traffic[..i] + [traffic[i]], k, k in old(a.intx))
        {
          OneMessage(traffic[..i], traffic[i], k, k in old(a.intx), lines, a.intx);
        }
      }
      i := i + 1;
    }
    assert traffic[..i] == traffic;
  }

  /**
   A whole read: the request crosses to the responder beat by beat, other packets may reach
   the requester while it waits, the answer crosses back, and the caller gets what the
   responder's handler returned for that address. Both ends have sent what they should and
   nothing is left behind.
   */
  method Read(a: Endpoint, b: Endpoint, addr: nat, ndata: nat, reader: Reader, traffic: seq<seq<Word>>, own: Reader)
    returns (data: seq<Word>)
    requires a != b && a.buf != b.buf && a.Valid() && b.Valid() && a.cnt == b.cnt == 0
    requires a.nextTag !in a.completions && addr < ADDRESSES && 1 <= ndata < 0x400 && GoodReader(reader) && GoodReader(own)
    requires forall i :: 0 <= i < |traffic| ==> Unasked(traffic[i])
    modifies a, a.buf, b, b.buf
    ensures data == reader(addr, ndata, 15, if ndata == 1 then 0 else 15)
    ensures a.completions == old(a.completions) && a.cnt == b.cnt == 0 && a.nextTag == (old(a.nextTag) + 1) % TAGS
    ensures b.writes == old(b.writes) && b.completions == old(b.completions) && b.intx == old(b.intx)
    ensures old(a.out) + [ReadPacket(a.rid, old(a.nextTag), addr, ndata)] <= a.out && old(a.writes) <= a.writes
    ensures |data| == ndata
    ensures b.out == old(b.out) + [ReplyPacket(b.rid, ReadPacket(a.rid, old(a.nextTag), addr, ndata)[1], addr, data)]
  {
    hide ReadPacket, ReplyPacket, GoodReader, ReadData, Dispatch, Swap, Beats;
    var tag := a.Request(addr, ndata);
    var request := a.out[|a.out| - 1];
    PacketSizes(a.rid, tag, addr, ndata);
    ghost var before := b.out;
    var ok, seen := b.Receive(Beats(request), request, reader);
    ReadAnswered(a.rid, tag, addr, ndata, seen, b.rid, reader);
    assert seen[1] == request[1];
    ghost var answer := reader(addr, ndata, 15, if ndata == 1 then 0 else 15);
    ReplyFields(b.rid, seen[1], addr, answer);
    var reply := b.out[|b.out| - 1];
    Wait(a, traffic, own);
    var ok', heard := a.Receive(Beats(reply), reply, own);
    ReadRoundTrip(a.rid, tag, addr, ndata, seen, b.rid, reader, heard);
    DispatchAny(heard, a.rid, reader, own);
    data := a.Collect(tag, ndata);
  }

  /** What a completion does does not depend on the handler. */
  lemma DispatchAny(b: seq<Word>, rid: nat, x: Reader, y: Reader)
    requires |b| == MAX_TLP && rid < 0x1_0000 && Dispatch(b, rid, x).Completed?
    ensures Dispatch(b, rid, y) == Dispatch(b, rid, x)
  {
  }
}
