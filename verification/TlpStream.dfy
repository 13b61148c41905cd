/**
 TLPs on the stream (libsimbus/simbus_pcie_tlp_tlp.c:53-112, 157-167 and 340-381, and the same receiver
 at ver/xilinx_pcie_slot.v:747-775): the words of a packet go out two to a beat, and the
 receiver puts them together again byte by byte.
 */
module TlpStream {
  import opened Bits
  import W = Wires

  const WORD := 0x1_0000_0000
  const MAX_TLP := 1032

  type Word = x: nat | x < WORD

  /** One transfer: 64 data bits, 8 byte enables, and the mark of a packet's end. */
  datatype Beat = Beat(data: seq<W.Bit>, keep: seq<W.Bit>, last: W.Bit)

  function WordBits(w: nat): (s: seq<W.Bit>)
    ensures |s| == 32 && forall i :: 0 <= i < 32 ==> s[i] == W.Level(Bit(w, i))
  {
    W.BitsOf(w, 32)
  }

  function Repeat(b: W.Bit, n: nat): (s: seq<W.Bit>)
    ensures |s| == n && forall i :: 0 <= i < n ==> s[i] == b
  {
    seq(n, _ => b)
  }

  /** The beat for the first one or two of the words still to send. */
  function BeatOf(ws: seq<Word>): Beat
    requires ws != []
  {
    Beat(WordBits(ws[0]) + (if |ws| >= 2 then WordBits(ws[1]) else Repeat(W.Low, 32)),
         Repeat(W.High, 4) + Repeat(if |ws| >= 2 then W.High else W.Low, 4),
         W.Level(|ws| <= 2))
  }

  /** Which wire of a beat carries what: word `j` on wires 32 j and up, lowest bit first, each byte with its enable. */
  lemma BeatLayout(ws: seq<Word>, j: nat, i: nat)
    requires ws != [] && j < 2 && i < 32
    ensures var b := BeatOf(ws);
      && |b.data| == 64 && |b.keep| == 8 && (b.last == W.High <==> |ws| <= 2) && (b.last == W.Low <==> |ws| > 2)
      && b.data[32 * j + i] == (if j < |ws| then W.Level(Bit(ws[j], i)) else W.Low)
      && b.keep[4 * j + i / 8] == (if j < |ws| then W.High else W.Low)
  {
    hide Bit;
  }

  function Rest(ws: seq<Word>): (r: seq<Word>)
    ensures ws != [] ==> |r| < |ws|
  {
    if |ws| >= 2 then ws[2..] else []
  }

  /** The beats of a packet: its words in pairs, the last beat marked. */
  function Beats(ws: seq<Word>): seq<Beat>
    decreases |ws|
  {
    if ws == [] then [] else [BeatOf(ws)] + Beats(Rest(ws))
  }

  /** Only the final beat is marked as the last one. */
  lemma {:induction false} OnlyLastMarked(ws: seq<Word>, i: nat)
    requires i < |Beats(ws)|
    ensures Beats(ws)[i].last == W.High <==> i == |Beats(ws)| - 1
    ensures |Beats(ws)| == (|ws| + 1) / 2
    decreases |ws|
  {
    BeatCount(ws);
    BeatCount(Rest(ws));
    if i > 0 {
      OnlyLastMarked(Rest(ws), i - 1);
    }
  }

  lemma {:induction false} BeatCount(ws: seq<Word>)
    ensures |Beats(ws)| == (|ws| + 1) / 2
    decreases |ws|
  {
    if ws != [] {
      BeatCount(Rest(ws));
    }
  }

  // ----- the receiver

  /** The byte at `base`, taken in bit by bit, most significant first, after `val`. */
  function Shifted(data: seq<W.Bit>, base: nat, val: nat, n: nat): nat
    requires |data| == 64 && base + 8 <= 64 && n <= 8
  {
    if n == 0 then val else 2 * Shifted(data, base, val, n - 1) + if data[base + 8 - n] == W.High then 1 else 0
  }

  function KeepBit(idx: nat): (k: nat)
    requires idx < 8
    ensures k < 8
  {
    if idx < 4 then 3 - idx else 11 - idx
  }

  /** The words taken from a beat so far, and the bytes of one not yet complete. */
  datatype Gather = Gather(words: seq<nat>, val: nat, bytes: nat)

  function Taken(b: Beat, g: Gather, idx: nat): Gather
    requires |b.data| == 64 && |b.keep| == 8 && idx < 8
  {
    var k := KeepBit(idx);
    if b.keep[k] != W.High then g
    else
      var val := Shifted(b.data, 8 * k, g.val, 8);
      if g.bytes == 3 then Gather(g.words + [val], 0, 0) else Gather(g.words, val, g.bytes + 1)
  }

  function Gathered(b: Beat, n: nat): Gather
    requires |b.data| == 64 && |b.keep| == 8 && n <= 8
  {
    if n == 0 then Gather([], 0, 0) else Taken(b, Gathered(b, n - 1), n - 1)
  }

  /** The byte and bit loops of __pcie_tlp_recv_tlp; `whole` is the assertion at line 372. */
  method ReceiveBeat(b: Beat) returns (words: seq<nat>, whole: bool)
    requires |b.data| == 64 && |b.keep| == 8
    ensures words == Gathered(b, 8).words && whole == (Gathered(b, 8).bytes == 0)
  {
    var val, bytes := 0, 0;
    words := [];
    var idx := 0;
    while idx < 8
      invariant 0 <= idx <= 8 && Gathered(b, idx) == Gather(words, val, bytes)
    {
      var keepBit := KeepBit(idx);
      if b.keep[keepBit] == W.High {
        ghost var before := val;
        var bit := 0;
        while bit < 8
          invariant 0 <= bit <= 8 && val == Shifted(b.data, 8 * keepBit, before, bit)
        {
          val := 2 * val;
          if b.data[8 * keepBit + 7 - bit] == W.High {
            val := val + 1;
          }
          bit := bit + 1;
        }
        bytes := bytes + 1;
        if bytes == 4 {
          words := words + [val];
          val, bytes := 0, 0;
        }
      }
      idx := idx + 1;
    }
    whole := bytes == 0;
  }

  lemma {:induction false} ShiftedSize(data: seq<W.Bit>, base: nat, val: nat, n: nat)
    requires |data| == 64 && base + 8 <= 64 && n <= 8
    ensures Shifted(data, base, val, n) < (val + 1) * Pow2(n)
  {
    if n > 0 {
      ShiftedSize(data, base, val, n - 1);
      Doubled(val + 1, Pow2(n - 1));
    } else {
      assert Pow2(0) == 1;
    }
  }

  lemma Doubled(a: nat, p: nat)
    ensures a * (2 * p) == 2 * (a * p)
  {
  }

  lemma ByteSize(data: seq<W.Bit>, base: nat, val: nat)
    requires |data| == 64 && base + 8 <= 64
    ensures Shifted(data, base, val, 8) < (val + 1) * 0x100
  {
    ShiftedSize(data, base, val, 8);
    assert Pow2(8) == 0x100;
  }

  /** Whatever is on the wires, every word taken off them has 32 bits, and there are at most two. */
  lemma {:induction false} GatheredSizes(b: Beat, n: nat)
    requires |b.data| == 64 && |b.keep| == 8 && n <= 8
    ensures var g := Gathered(b, n);
      && (forall i :: 0 <= i < |g.words| ==> g.words[i] < WORD) && 4 * |g.words| + g.bytes <= n && g.bytes < 4
      && g.val < (if g.bytes == 0 then 1 else if g.bytes == 1 then 0x100 else if g.bytes == 2 then 0x1_0000 else 0x100_0000)
  {
    hide Shifted;
    if n > 0 {
      GatheredSizes(b, n - 1);
      ByteSize(b.data, 8 * KeepBit(n - 1), Gathered(b, n - 1).val);
    }
  }

  // ----- the round trip

  /** A word without its lowest `n` bits. */
  function Above(w: nat, n: nat): nat
  {
    QuotientNat(w, Pow2(n));
    w / Pow2(n)
  }

  lemma QuotientNat(w: nat, p: nat)
    requires p > 0
    ensures w / p >= 0
  {
    var q := w / p;
    assert w == q * p + w % p;
    NegativeProduct(q, p);
  }

  lemma ProductAtLeast(n: nat, p: nat)
    requires n >= 1
    ensures n * p >= p
  {
    var m: nat := n - 1;
    assert n * p == m * p + p;
  }

  lemma NegativeProduct(q: int, p: nat)
    ensures q < 0 ==> q * p + p <= 0
  {
    if q < 0 {
      ProductAtLeast(-q, p);
      assert q * p == -((-q) * p);
    }
  }

  /** Dropping one more bit. */
  lemma HalfAgain(w: nat, n: nat)
    ensures Above(w, n) == 2 * Above(w, n + 1) + if Bit(w, n) then 1 else 0
  {
    HalfQuotient(w, Pow2(n));
  }

  lemma HalfQuotient(w: nat, p: nat)
    requires p > 0
    ensures w / (2 * p) == w / p / 2
  {
    var q, r := w / p, w % p;
    var h, b := q / 2, q % 2;
    assert w == q * p + r;
    Regroup(h, b, p);
    QuotientUnique(w, 2 * p, h, b * p + r);
  }

  lemma Regroup(h: nat, b: nat, p: nat)
    requires b < 2
    ensures (2 * h + b) * p == h * (2 * p) + b * p && b * p <= p
  {
  }

  /** The byte at `base` is that of `w` from bit `lo` on. */
  ghost predicate Carries(data: seq<W.Bit>, base: nat, w: nat, lo: nat)
  {
    base + 8 <= |data| && lo + 8 <= 32 && data[base..base + 8] == WordBits(w)[lo..lo + 8]
  }

  lemma CarriesAt(data: seq<W.Bit>, base: nat, w: nat, lo: nat, i: nat)
    requires Carries(data, base, w, lo) && i < 8
    ensures base + i < |data| && (data[base + i] == W.High <==> Bit(w, lo + i))
  {
    assert data[base + i] == data[base..base + 8][i] == WordBits(w)[lo..lo + 8][i] == WordBits(w)[lo + i];
  }

  /** Eight bits of a word turn its value above them into its value above the next byte. */
  lemma {:induction false} ShiftedByte(data: seq<W.Bit>, base: nat, w: nat, lo: nat, n: nat)
    requires |data| == 64 && base + 8 <= 64 && n <= 8 && Carries(data, base, w, lo)
    ensures Shifted(data, base, Above(w, lo + 8), n) == Above(w, lo + 8 - n)
  {
    hide Above, Bit, Carries;
    if n > 0 {
      ShiftedByte(data, base, w, lo, n - 1);
      HalfAgain(w, lo + 8 - n);
      CarriesAt(data, base, w, lo, 8 - n);
    }
  }

  lemma TopGone(w: Word)
    ensures Above(w, 32) == 0 && Above(w, 0) == w
  {
    var p := Pow2(32);
    assert Pow2(8) == 256;
    Pow2Add(8, 8);
    Pow2Add(16, 16);
    assert p == WORD;
  }

  lemma ByteCarried(data: seq<W.Bit>, base: nat, w: nat, lo: nat)
    requires base + 32 <= |data| && lo + 8 <= 32 && data[base..base + 32] == WordBits(w)
    ensures Carries(data, base + lo, w, lo)
  {
    var x, y := data[base + lo..base + lo + 8], WordBits(w)[lo..lo + 8];
    forall i | 0 <= i < 8 ensures x[i] == y[i] {
      assert data[base + (lo + i)] == data[base..base + 32][lo + i];
    }
  }

  /** Four enabled bytes from `base` on, the highest first, make up the word. */
  lemma FourBytes(data: seq<W.Bit>, base: nat, w: Word)
    requires |data| == 64 && base + 32 <= 64 && data[base..base + 32] == WordBits(w)
    ensures Shifted(data, base + 24, 0, 8) == Above(w, 24)
    ensures Shifted(data, base + 16, Above(w, 24), 8) == Above(w, 16)
    ensures Shifted(data, base + 8, Above(w, 16), 8) == Above(w, 8)
    ensures Shifted(data, base, Above(w, 8), 8) == w
  {
    hide Above, Shifted, WordBits;
    TopGone(w);
    ByteCarried(data, base, w, 24);
    ByteCarried(data, base, w, 16);
    ByteCarried(data, base, w, 8);
    ByteCarried(data, base, w, 0);
    ShiftedByte(data, base + 24, w, 24, 8);
    ShiftedByte(data, base + 16, w, 16, 8);
    ShiftedByte(data, base + 8, w, 8, 8);
    ShiftedByte(data, base, w, 0, 8);
  }

  lemma LowWord(b: Beat, w: Word)
    requires |b.data| == 64 && |b.keep| == 8 && b.data[0..32] == WordBits(w)
    requires forall i :: 0 <= i < 4 ==> b.keep[i] == W.High
    ensures Gathered(b, 4) == Gather([w], 0, 0)
  {
    hide Shifted, WordBits, Above;
    FourBytes(b.data, 0, w);
    assert Gathered(b, 0) == Gather([], 0, 0);
    assert Gathered(b, 1) == Gather([], Above(w, 24), 1);
    assert Gathered(b, 2) == Gather([], Above(w, 16), 2);
    assert Gathered(b, 3) == Gather([], Above(w, 8), 3);
  }

  lemma HighWord(b: Beat, w: Word, words: seq<nat>)
    requires |b.data| == 64 && |b.keep| == 8 && b.data[32..64] == WordBits(w)
    requires forall i :: 4 <= i < 8 ==> b.keep[i] == W.High
    requires Gathered(b, 4) == Gather(words, 0, 0)
    ensures Gathered(b, 8) == Gather(words + [w], 0, 0)
  {
    hide Shifted, WordBits, Above;
    FourBytes(b.data, 32, w);
    assert Gathered(b, 5) == Gather(words, Above(w, 24), 1);
    assert Gathered(b, 6) == Gather(words, Above(w, 16), 2);
    assert Gathered(b, 7) == Gather(words, Above(w, 8), 3);
  }

  /** A half without enables gives nothing. */
  lemma EmptyHalf(b: Beat, g: Gather)
    requires |b.data| == 64 && |b.keep| == 8 && (forall i :: 4 <= i < 8 ==> b.keep[i] != W.High)
    requires Gathered(b, 4) == g
    ensures Gathered(b, 8) == g
  {
    assert Gathered(b, 5) == g;
    assert Gathered(b, 6) == g;
    assert Gathered(b, 7) == g;
  }

  /** The receiver takes from a beat the words that were put in. */
  lemma BeatRoundTrip(ws: seq<Word>)
    requires ws != []
    ensures Gathered(BeatOf(ws), 8) == Gather(if |ws| >= 2 then ws[..2] else ws, 0, 0)
  {
    var b := BeatOf(ws);
    assert b.data[0..32] == WordBits(ws[0]);
    LowWord(b, ws[0]);
    if |ws| >= 2 {
      assert b.data[32..64] == WordBits(ws[1]);
      HighWord(b, ws[1], [ws[0]]);
    } else {
      EmptyHalf(b, Gather([ws[0]], 0, 0));
    }
  }

  /** A beat leaves the rest of the packet to come, and is marked when there is none. */
  lemma BeatStep(ws: seq<Word>)
    requires ws != []
    ensures Beats(ws) == [BeatOf(ws)] + Beats(Rest(ws)) && Gathered(BeatOf(ws), 8).bytes == 0
    ensures Gathered(BeatOf(ws), 8).words + Rest(ws) == ws && (BeatOf(ws).last == W.High <==> Rest(ws) == [])
    ensures |BeatOf(ws).data| == 64 && |BeatOf(ws).keep| == 8
  {
    hide Gathered, BeatOf;
    BeatRoundTrip(ws);
    OneBeat(ws);
  }

  // ----- whole streams

  /** The packets a receiver completes, and the words of the one still open. */
  datatype Received = Received(tlps: seq<seq<nat>>, open: seq<nat>)

  ghost function Collect(r: Received, b: Beat): Received
    requires |b.data| == 64 && |b.keep| == 8
  {
    var ws := r.open + Gathered(b, 8).words;
    if b.last == W.High then Received(r.tlps + [ws], []) else Received(r.tlps, ws)
  }

  ghost predicate Shaped(beats: seq<Beat>)
  {
    forall i :: 0 <= i < |beats| ==> |beats[i].data| == 64 && |beats[i].keep| == 8
  }

  ghost function CollectAll(r: Received, beats: seq<Beat>): Received
    requires Shaped(beats)
    decreases |beats|
  {
    if beats == [] then r else CollectAll(Collect(r, beats[0]), beats[1..])
  }

  lemma {:induction false} BeatsShaped(ws: seq<Word>)
    ensures Shaped(Beats(ws))
    decreases |ws|
  {
    if ws != [] {
      BeatsShaped(Rest(ws));
    }
  }

  lemma OneBeat(ws: seq<Word>)
    requires ws != []
    ensures BeatOf(ws).last == W.Level(|ws| <= 2) && |BeatOf(ws).data| == 64 && |BeatOf(ws).keep| == 8
  {
  }

  /** The beats of one packet give that packet. */
  lemma {:induction false} PacketRoundTrip(r: Received, ws: seq<Word>, more: seq<Beat>)
    requires ws != [] && Shaped(more)
    ensures Shaped(Beats(ws) + more)
    ensures CollectAll(r, Beats(ws) + more) == CollectAll(Received(r.tlps + [r.open + ws], []), more)
    decreases |ws|
  {
    hide Gathered, BeatOf;
    BeatsShaped(ws);
    OneBeat(ws);
    var b, rest := BeatOf(ws), Rest(ws);
    var stream := Beats(ws) + more;
    assert stream[0] == b && stream[1..] == Beats(rest) + more;
    BeatRoundTrip(ws);
    if |ws| <= 2 {
      assert rest == [] && Beats(rest) + more == more;
      assert Gathered(b, 8).words == ws;
    } else {
      PacketRoundTrip(Received(r.tlps, r.open + ws[..2]), rest, more);
      assert r.open + ws[..2] + rest == r.open + ws;
    }
  }

  /** The beats of several packets, one after the other. */
  ghost function AllBeats(tlps: seq<seq<Word>>): seq<Beat>
  {
    if tlps == [] then [] else AllBeats(tlps[..|tlps| - 1]) + Beats(tlps[|tlps| - 1])
  }

  lemma {:induction false} AllShaped(tlps: seq<seq<Word>>)
    ensures Shaped(AllBeats(tlps))
  {
    if tlps != [] {
      AllShaped(tlps[..|tlps| - 1]);
      BeatsShaped(tlps[|tlps| - 1]);
    }
  }

  lemma {:induction false} CollectAppend(r: Received, a: seq<Beat>, b: seq<Beat>)
    requires Shaped(a) && Shaped(b)
    ensures Shaped(a + b) && CollectAll(r, a + b) == CollectAll(CollectAll(r, a), b)
    decreases |a|
  {
    if a == [] {
      assert a + b == b;
    } else {
      assert (a + b)[1..] == a[1..] + b;
      CollectAppend(Collect(r, a[0]), a[1..], b);
    }
  }

  /** The receiver gets back exactly the packets that were sent, whole and in order. */
  lemma {:induction false} StreamRoundTrip(tlps: seq<seq<Word>>)
    requires forall i :: 0 <= i < |tlps| ==> tlps[i] != []
    ensures Shaped(AllBeats(tlps)) && CollectAll(Received([], []), AllBeats(tlps)) == Received(tlps, [])
  {
    AllShaped(tlps);
    if tlps != [] {
      var before, last := tlps[..|tlps| - 1], tlps[|tlps| - 1];
      StreamRoundTrip(before);
      BeatsShaped(last);
      CollectAppend(Received([], []), AllBeats(before), Beats(last));
      PacketRoundTrip(Received(before, []), last, []);
      assert Beats(last) + [] == Beats(last);
      assert [] + last == last && before + [last] == tlps;
    }
  }
}
