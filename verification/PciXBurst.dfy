/**
 PCI-X write bursts into a target (libsimbus/simbus_pci_target.c:545-624 and 691-820): byte enables and
 word count are worked out from the starting address and the byte count of the attribute
 phase; then one word is taken at each clock where the initiator is ready.
 */
module PciXBurst {
  import Bits
  import W = Wires

  /** A call of the target's receive function: address, data word and byte enables, active low. */
  datatype Call = Call(addr: nat, val: nat, ben: bv8)

  // ----- byte enables

  predicate Lane(m: bv8, k: nat)
    requires k < 8
  {
    (if k == 0 then m & 1 else if k == 1 then m & 2 else if k == 2 then m & 4 else if k == 3 then m & 8
     else if k == 4 then m & 16 else if k == 5 then m & 32 else if k == 6 then m & 64 else m & 128) != 0
  }

  function First4(at: nat, count: nat): bv8
    requires at < 4
  {
    0xf0 |
    match at
    case 0 => if count == 1 then 0xe else if count == 2 then 0xc else if count == 3 then 0x8 else 0x0
    case 1 => if count == 1 then 0xd else if count == 2 then 0x9 else 0x1
    case 2 => if count == 1 then 0xb else 0x3
    case _ => 0x7
  }

  function Last4(at: nat, count: nat): bv8
    requires at < 4
  {
    0xf0 |
    match (at + count) % 4
    case 0 => 0x0
    case 1 => 0xe
    case 2 => 0xc
    case _ => 0x8
  }

  /** 0xff & ((-1) << n) */
  function FromByte(n: nat): bv8
    requires n < 8
  {
    match n
    case 0 => 0xff
    case 1 => 0xfe
    case 2 => 0xfc
    case 3 => 0xf8
    case 4 => 0xf0
    case 5 => 0xe0
    case 6 => 0xc0
    case _ => 0x80
  }

  function Last8(at: nat, count: nat): bv8
  {
    var ben2 := FromByte((at + count) % 8);
    if ben2 == 0xff then 0 else ben2
  }

  function First8(at: nat, count: nat): bv8
    requires at < 8
  {
    var ben1 := !FromByte(at);
    if at + count < 8 then ben1 | Last8(at, count) else ben1
  }

  /** make_ben4x. */
  lemma First4Exact(at: nat, count: nat, k: nat)
    requires at < 4 && count >= 1 && k < 4
    ensures !Lane(First4(at, count), k) <==> at <= k < at + count
  {
  }

  lemma Last4Exact(at: nat, count: nat, k: nat)
    requires at < 4 && count >= 1 && k < 4
    ensures !Lane(Last4(at, count), k) <==> k <= (at + count - 1) % 4
  {
  }

  /** make_ben8x. */
  lemma First8Exact(at: nat, count: nat, k: nat)
    requires at < 8 && count >= 1 && k < 8
    ensures !Lane(First8(at, count), k) <==> at <= k < at + count
  {
  }

  lemma Last8Exact(at: nat, count: nat, k: nat)
    requires at < 8 && count >= 1 && k < 8
    ensures !Lane(Last8(at, count), k) <==> k <= (at + count - 1) % 8
  {
  }

  // ----- a burst

  const HALF := 0x1_0000_0000

  /** A write of `count` bytes from `addr` on, in words of `size` bytes. */
  datatype Burst = Burst(addr: nat, count: nat, size: nat) {
    predicate Valid() {
      count >= 1 && (size == 4 || size == 8)
    }

    function At(): nat
      requires Valid()
    {
      addr % size
    }

    function Base(): nat
      requires Valid()
    {
      addr - addr % size
    }

    function Words(): nat
      requires Valid()
    {
      (addr % size + count + size - 1) / size
    }

    function First(): bv8
      requires Valid()
    {
      if size == 4 then First4(At(), count) else First8(At(), count)
    }

    function Last(): bv8
      requires Valid()
    {
      if size == 4 then Last4(At(), count) else Last8(At(), count)
    }

    /** The enables of word `i` (lines 762-768). */
    function Enables(i: nat): bv8
      requires Valid()
    {
      if i == 0 then First() else if i + 1 == Words() then Last() else 0
    }

    predicate Covers(a: nat) {
      addr <= a < addr + count
    }
  }

  /** 64-bit words only if the target and the initiator do and the data does not fit one 32-bit word (lines 715-730). */
  function SizedBurst(addr: nat, count: nat, wide: bool): Burst
  {
    Burst(addr, count, if wide && addr % 4 + count > 4 then 8 else 4)
  }

  /** What the target receives for word `i` when `data` is on the bus. */
  function WordCalls(b: Burst, i: nat, data: nat): seq<Call>
    requires b.Valid()
  {
    var at, ben := b.Base() + b.size * i, b.Enables(i);
    if b.size == 4 then [Call(at, data % HALF, ben)]
    else [Call(at, data % HALF, ben & 15), Call(at + 4, data / HALF, (ben >> 4) & 15)]
  }

  ghost function BurstCalls(b: Burst, data: seq<nat>): seq<Call>
    requires b.Valid()
  {
    if data == [] then [] else
    var i := |data| - 1;
    BurstCalls(b, data[..i]) + WordCalls(b, i, data[i])
  }

  predicate Touches(c: Call, a: nat)
  {
    c.addr <= a < c.addr + 4 && !Lane(c.ben, a - c.addr)
  }

  /** How often byte `a` is written. */
  ghost function Writes(calls: seq<Call>, a: nat): nat
  {
    if calls == [] then 0 else Writes(calls[..|calls| - 1], a) + if Touches(calls[|calls| - 1], a) then 1 else 0
  }

  lemma {:induction false} WritesAppend(x: seq<Call>, y: seq<Call>, a: nat)
    ensures Writes(x + y, a) == Writes(x, a) + Writes(y, a)
  {
    if y == [] {
      assert x + y == x;
    } else {
      assert (x + y)[..|x + y| - 1] == x + y[..|y| - 1];
      WritesAppend(x, y[..|y| - 1], a);
    }
  }

  lemma HalvesOf(ben: bv8, k: nat)
    requires k < 4
    ensures Lane(ben & 15, k) <==> Lane(ben, k)
    ensures Lane((ben >> 4) & 15, k) <==> Lane(ben, k + 4)
  {
  }

  /** A word's calls write just the enabled bytes of that word. */
  lemma WordWrites(b: Burst, i: nat, data: nat, a: nat)
    requires b.Valid()
    ensures var at := b.Base() + b.size * i;
      Writes(WordCalls(b, i, data), a) == if at <= a < at + b.size && !Lane(b.Enables(i), a - at) then 1 else 0
  {
    hide Lane, Burst.Enables;
    var at, ben := b.Base() + b.size * i, b.Enables(i);
    var calls := WordCalls(b, i, data);
    assert Writes([], a) == 0;
    assert calls[..0] == [];
    if b.size == 4 {
      assert Writes(calls, a) == if Touches(calls[0], a) then 1 else 0;
    } else {
      assert calls[..1] == [calls[0]] && [calls[0]][..0] == [];
      assert Writes([calls[0]], a) == if Touches(calls[0], a) then 1 else 0;
      if at <= a < at + 4 {
        HalvesOf(ben, a - at);
      } else if at + 4 <= a < at + 8 {
        HalvesOf(ben, a - at - 4);
      }
    }
  }

  /** The enables of every word select exactly the bytes of the burst in that word. */
  lemma EnablesExact(b: Burst, i: nat, k: nat)
    requires b.Valid() && i < b.Words() && k < b.size && k < 8
    ensures !Lane(b.Enables(i), k) <==> b.Covers(b.Base() + b.size * i + k)
  {
    hide First4, Last4, First8, Last8;
    var at, n := b.At(), b.count;
    WordCount(b);
    if i == 0 {
      if b.size == 4 {
        First4Exact(at, n, k);
      } else {
        First8Exact(at, n, k);
      }
    } else if i + 1 == b.Words() {
      if b.size == 4 {
        Last4Exact(at, n, k);
      } else {
        Last8Exact(at, n, k);
      }
    } else {
      NoLane(k);
    }
  }

  lemma NoLane(k: nat)
    requires k < 8
    ensures !Lane(0, k)
  {
  }

  /** The last byte lies in the last word. */
  lemma WordCount(b: Burst)
    requires b.Valid()
    ensures b.Words() >= 1 && b.At() + b.count - 1 == b.size * (b.Words() - 1) + (b.At() + b.count - 1) % b.size
    ensures b.Base() + b.At() == b.addr && b.At() < b.size
  {
  }

  /**
   After `|data|` words each byte of the burst that they reach has been written once, and
   no other byte has been written. With all its words the burst is written exactly.
   */
  lemma {:induction false} BurstWrites(b: Burst, data: seq<nat>, a: nat)
    requires b.Valid() && |data| <= b.Words()
    ensures Writes(BurstCalls(b, data), a) == if b.Covers(a) && a < b.Base() + b.size * |data| then 1 else 0
  {
    hide Writes, WordCalls, Burst.Enables, Lane;
    WordCount(b);
    if data == [] {
      NothingWritten(a);
    } else {
      var i := |data| - 1;
      BurstWrites(b, data[..i], a);
      WritesAppend(BurstCalls(b, data[..i]), WordCalls(b, i, data[i]), a);
      WordWrites(b, i, data[i], a);
      var at := b.Base() + b.size * i;
      assert b.size * (i + 1) == b.size * i + b.size;
      if at <= a < at + b.size {
        EnablesExact(b, i, a - at);
      }
    }
  }

  lemma NothingWritten(a: nat)
    ensures Writes([], a) == 0
  {
  }

  lemma BurstCoversExactly(b: Burst, data: seq<nat>, a: nat)
    requires b.Valid() && |data| == b.Words()
    ensures Writes(BurstCalls(b, data), a) == if b.Covers(a) then 1 else 0
  {
    BurstWrites(b, data, a);
    WordCount(b);
    assert b.size * b.Words() == b.size * (b.Words() - 1) + b.size;
  }

  // ----- the right byte in the right place

  /** Byte `k` of a number. */
  function Byte(x: nat, k: nat): nat
    requires k < 8
  {
    (if k == 0 then x else if k == 1 then x / 0x100 else if k == 2 then x / 0x1_0000 else if k == 3 then x / 0x100_0000
     else if k == 4 then x / 0x1_0000_0000 else if k == 5 then x / 0x100_0000_0000
     else if k == 6 then x / 0x1_0000_0000_0000 else x / 0x100_0000_0000_0000) % 0x100
  }

  /** Below `HALF`, the bytes of a number do not depend on what is above. */
  lemma SplitByte(q: nat, r: nat, p: nat, g: nat)
    requires p > 0 && p * (0x100 * g) == HALF
    ensures (q * HALF + r) / p % 0x100 == r / p % 0x100
  {
    var k, t, m := r / p, r % p, q * g;
    Division(r, p);
    Regroup(q, p, g, k);
    Bits.QuotientUnique(q * HALF + r, p, 0x100 * m + k, t);
    assert (0x100 * m + k) % 0x100 == k % 0x100;
  }

  lemma Division(r: nat, p: nat)
    requires p > 0
    ensures r == r / p * p + r % p && 0 <= r % p < p
  {
  }

  lemma Regroup(q: nat, p: nat, g: nat, k: int)
    ensures q * (p * (0x100 * g)) + k * p == (0x100 * (q * g) + k) * p
  {
    var m := q * g;
    assert q * (p * (0x100 * g)) == 0x100 * m * p by {
      assert p * (0x100 * g) == 0x100 * (g * p);
      assert q * (0x100 * (g * p)) == 0x100 * (q * (g * p));
      assert q * (g * p) == m * p;
    }
  }

  lemma LowBytes(x: nat, k: nat)
    requires k < 4
    ensures Byte(x % HALF, k) == Byte(x, k)
  {
    var q, r := x / HALF, x % HALF;
    assert x == q * HALF + r;
    if k == 0 {
      SplitByte(q, r, 1, 0x100_0000);
    } else if k == 1 {
      SplitByte(q, r, 0x100, 0x1_0000);
    } else if k == 2 {
      SplitByte(q, r, 0x1_0000, 0x100);
    } else {
      SplitByte(q, r, 0x100_0000, 1);
    }
  }

  lemma HighBytes(x: nat, k: nat)
    requires k < 4
    ensures Byte(x / HALF, k) == Byte(x, k + 4)
  {
  }

  /** Every byte written comes from its own lane of the word that was on the bus. */
  lemma RightByte(b: Burst, i: nat, data: nat, c: Call, a: nat)
    requires b.Valid() && c in WordCalls(b, i, data) && Touches(c, a)
    ensures 0 <= a - (b.Base() + b.size * i) < b.size
    ensures Byte(c.val, a - c.addr) == Byte(data, a - (b.Base() + b.size * i))
  {
    var k := a - c.addr;
    LowBytes(data, k);
    HighBytes(data, k);
  }

  /**
   Byte `a` gets byte `a % w` of word number `(a - base) / w` on the bus, whichever call writes it,
   and no call writes a byte of a word that was not taken.
   */
  ghost predicate BytesFrom(calls: seq<Call>, base: nat, w: nat, data: seq<nat>)
    requires w == 4 || w == 8
  {
    var bytesFrom := forall c: Call, a: nat :: c in calls && Touches(c, a) ==>
      base <= a && (a - base) / w < |data| && Byte(c.val, a - c.addr) == Byte(data[(a - base) / w], a % w);
    bytesFrom
  }

  lemma {:induction false} BurstBytes(b: Burst, data: seq<nat>)
    requires b.Valid()
    ensures BytesFrom(BurstCalls(b, data), b.Base(), b.size, data)
  {
    hide Byte, Lane, WordCalls;
    if data != [] {
      var i := |data| - 1;
      BurstBytes(b, data[..i]);
      forall c: Call, a: nat | c in BurstCalls(b, data) && Touches(c, a)
        ensures b.Base() <= a && (a - b.Base()) / b.size < |data|
        ensures Byte(c.val, a - c.addr) == Byte(data[(a - b.Base()) / b.size], a % b.size)
      {
        if c in WordCalls(b, i, data[i]) {
          RightByte(b, i, data[i], c, a);
          LaneOf(b, i, a);
        } else {
          assert data[..i][(a - b.Base()) / b.size] == data[(a - b.Base()) / b.size];
        }
      }
    }
  }

  lemma LaneOf(b: Burst, i: nat, a: nat)
    requires b.Valid() && 0 <= a - (b.Base() + b.size * i) < b.size
    ensures b.Base() <= a && (a - b.Base()) / b.size == i && a % b.size == a - (b.Base() + b.size * i)
  {
    var k := a - (b.Base() + b.size * i);
    var q := b.addr / b.size;
    Bits.QuotientUnique(a - b.Base(), b.size, i, k);
    assert b.Base() == q * b.size;
    assert a == (q + i) * b.size + k by {
      assert (q + i) * b.size == q * b.size + i * b.size;
    }
    Bits.QuotientUnique(a, b.size, q + i, k);
  }

  // ----- the target

  /** What the target drives. */
  datatype Signals = Signals(devsel: W.Bit, ack64: W.Bit, trdy: W.Bit, stop: W.Bit)

  /** What the target sees at a clock edge. */
  datatype Edge = Edge(irdy: W.Bit, frame: W.Bit, ad: nat)

  /** The next edge, and those after it; when none are left the initiator is ready with zeros. */
  function Coming(script: seq<Edge>): Edge
  {
    if script == [] then Edge(W.Low, W.Low, 0) else script[0]
  }

  function After(script: seq<Edge>): seq<Edge>
  {
    if script == [] then [] else script[1..]
  }

  /** The next edge at which the initiator is ready, and those after it. */
  function ReadyEdge(script: seq<Edge>): Edge
    decreases |script|
  {
    if script == [] || script[0].irdy != W.High then Coming(script) else ReadyEdge(script[1..])
  }

  function AfterReady(script: seq<Edge>): seq<Edge>
    decreases |script|
  {
    if script == [] || script[0].irdy != W.High then After(script) else AfterReady(script[1..])
  }

  /** The first `n` edges at which the initiator is ready. */
  ghost function Accepted(script: seq<Edge>, n: nat): (edges: seq<Edge>)
    ensures |edges| == n
    decreases n
  {
    if n == 0 then [] else [ReadyEdge(script)] + Accepted(AfterReady(script), n - 1)
  }

  ghost function Left(script: seq<Edge>, n: nat): seq<Edge>
    decreases n
  {
    if n == 0 then script else Left(AfterReady(script), n - 1)
  }

  lemma {:induction false} AcceptedNext(script: seq<Edge>, n: nat)
    ensures Accepted(script, n + 1) == Accepted(script, n) + [ReadyEdge(Left(script, n))]
    ensures Left(script, n + 1) == AfterReady(Left(script, n))
    decreases n
  {
    if n == 0 {
      assert Accepted(AfterReady(script), 0) == [];
    } else {
      AcceptedNext(AfterReady(script), n - 1);
    }
  }

  ghost function Data(edges: seq<Edge>): (d: seq<nat>)
    ensures |d| == |edges|
  {
    seq(|edges|, i requires 0 <= i < |edges| => edges[i].ad)
  }

  /** Since `was`, at least `n` edges have come, and at all of them just these signals were driven. */
  ghost predicate Steady(was: seq<Signals>, now: seq<Signals>, n: nat, s: Signals)
  {
    var steady := was <= now && |now| >= |was| + n && forall k :: |was| <= k < |now| ==> now[k] == s;
    steady
  }

  class Target {
    var script: seq<Edge>    // the edges to come; after them the initiator is always ready
    var now: Edge
    var devsel: W.Bit
    var ack64: W.Bit
    var trdy: W.Bit
    var stop: W.Bit
    var idle: bool
    var log: seq<Call>       // calls of the receive function
    ghost var shown: seq<Signals>    // what was driven at each edge

    constructor (script: seq<Edge>)
      ensures this.script == script && log == [] && idle && shown == []
    {
      this.script, now := script, Edge(W.High, W.High, 0);
      devsel, ack64, trdy, stop, idle, log := W.Z, W.Z, W.Z, W.Z, true, [];
      shown := [];
    }

    ghost function Driven(): Signals
      reads this
    {
      Signals(devsel, ack64, trdy, stop)
    }

    method NextPosedge()
      modifies this`script, this`now, this`shown
      ensures now == Coming(old(script)) && script == After(old(script)) && shown == old(shown) + [Driven()]
    {
      shown := shown + [Driven()];
      if script == [] {
        now := Edge(W.Low, W.Low, 0);
      } else {
        now, script := script[0], script[1..];
      }
    }

    /** Lines 749-751. */
    method WaitReady()
      modifies this`script, this`now, this`shown
      ensures Steady(old(shown), shown, 1, Driven())
      ensures now == ReadyEdge(old(script)) && script == AfterReady(old(script))
    {
      NextPosedge();
      while now.irdy == W.High
        invariant ReadyEdge(old(script)) == if now.irdy == W.High then ReadyEdge(script) else now
        invariant AfterReady(old(script)) == if now.irdy == W.High then AfterReady(script) else script
        invariant Steady(old(shown), shown, 1, Driven())
        decreases if now.irdy == W.High then |script| + 1 else 0
      {
        NextPosedge();
      }
    }

    /** One word (lines 753-786): `at` is the running address. */
    method Take(b: Burst, at: nat, i: nat)
      requires b.Valid() && at == b.addr + b.size * i
      modifies this`log
      ensures log == old(log) + WordCalls(b, i, now.ad)
    {
      hide Burst.First, Burst.Last;
      var ben := if i == 0 then b.First() else if i + 1 == b.Words() then b.Last() else 0;
      Aligned(b, i);
      if b.size == 4 {
        log := log + [Call(at - at % 4, now.ad % HALF, ben)];
      } else {
        log := log + [Call(at - at % 8, now.ad % HALF, ben & 15)];
        log := log + [Call(at - at % 8 + 4, now.ad / HALF, (ben >> 4) & 15)];
      }
    }

    /**
     do_target_memory_write in PCI-X mode: the data of the clock edges where the initiator is
     ready, in order. Never more than the computed number of words is taken; fewer only if
     the frame ends more than two words early, and no further than that.
     */
    method MemoryWrite(addr: nat, count: nat, wide: bool) returns (ghost taken: seq<Edge>)
      requires count >= 1
      modifies this
      ensures var b := SizedBurst(addr, count, wide);
        && 1 <= |taken| <= b.Words() && taken == Accepted(After(old(script)), |taken|)
        && log == old(log) + BurstCalls(b, Data(taken))
      ensures var b := SizedBurst(addr, count, wide);
        && (|taken| < b.Words() ==> |taken| + 2 < b.Words() && taken[|taken| - 1].frame != W.Low)
        && forall k :: 0 <= k < |taken| - 1 ==> taken[k].frame == W.Low || k + 3 >= b.Words()
      ensures var b := SizedBurst(addr, count, wide);
        |taken| == b.Words() ==> forall a: nat :: Writes(BurstCalls(b, Data(taken)), a) == if b.Covers(a) then 1 else 0
      ensures idle && devsel == ack64 == trdy == stop == W.Z
      ensures var w := if wide && addr % 4 + count > 4 then 8 else 4;
        var base, total := addr - addr % w, (addr % w + count + w - 1) / w;
        && |taken| <= total && old(log) <= log && BytesFrom(log[|old(log)|..], base, w, Data(taken))
        && forall a: nat :: Writes(log[|old(log)|..], a) == if addr <= a < addr + count && a < base + w * |taken| then 1 else 0
      ensures var ack := if wide && addr % 4 + count > 4 then W.Low else W.High;
        && |shown| >= 2 && Steady(old(shown) + [Signals(W.Low, ack, old(trdy), W.High)], shown[..|shown| - 1], |taken|, Signals(W.Low, ack, W.Low, W.High))
        && shown[|shown| - 1] == Signals(W.Z, W.Z, W.Z, W.Z)
    {
      hide WordCalls, BurstCalls, Burst.First, Burst.Last, Burst.Enables, ReadyEdge, AfterReady, Accepted, Left, Data, Writes, BytesFrom;
      var b := SizedBurst(addr, count, wide);
      WordCount(b);
      idle, devsel, stop := false, W.Low, W.High;
      ack64 := if b.size == 8 then W.Low else W.High;
      NextPosedge();
      trdy := W.Low;
      taken := Words(b);
      devsel, ack64, trdy, stop := W.Z, W.Z, W.Z, W.Z;
      NextPosedge();
      idle := true;
      assert log[|old(log)|..] == BurstCalls(b, Data(taken));
      BurstBytes(b, Data(taken));
      forall a: nat
        ensures Writes(BurstCalls(b, Data(taken)), a) == if b.Covers(a) && a < b.Base() + b.size * |taken| then 1 else 0
      {
        BurstWrites(b, Data(taken), a);
      }
      if |taken| == b.Words() {
        forall a: nat ensures Writes(BurstCalls(b, Data(taken)), a) == if b.Covers(a) then 1 else 0 {
          BurstCoversExactly(b, Data(taken), a);
        }
      }
    }

    /** The words of the burst (lines 747-804). */
    method Words(b: Burst) returns (ghost taken: seq<Edge>)
      requires b.Valid() && b.Words() >= 1
      modifies this`script, this`now, this`log, this`shown
      ensures Steady(old(shown), shown, |taken|, Driven())
      ensures 1 <= |taken| <= b.Words() && taken == Accepted(old(script), |taken|)
      ensures log == old(log) + BurstCalls(b, Data(taken))
      ensures |taken| < b.Words() ==> |taken| + 2 < b.Words() && taken[|taken| - 1].frame != W.Low
      ensures forall k :: 0 <= k < |taken| - 1 ==> taken[k].frame == W.Low || k + 3 >= b.Words()
    {
      hide WordCalls, BurstCalls, Burst.First, Burst.Last, Burst.Enables, ReadyEdge, AfterReady, Accepted, Left, Data, Burst.Words;
      var at, burstLen := b.addr, 0;
      taken := [];
      NoCalls(b, old(script));
      var more := true;
      while more
        invariant 0 <= burstLen == |taken| <= b.Words() && at == b.addr + b.size * burstLen
        invariant (more ==> burstLen < b.Words()) && (!more ==> burstLen >= 1)
        invariant !more && burstLen < b.Words() ==> burstLen + 2 < b.Words() && taken[burstLen - 1].frame != W.Low
        invariant forall k :: 0 <= k < |taken| - 1 ==> taken[k].frame == W.Low || k + 3 >= b.Words()
        invariant more && |taken| > 0 ==> taken[|taken| - 1].frame == W.Low || |taken| + 2 >= b.Words()
        invariant taken == Accepted(old(script), burstLen) && script == Left(old(script), burstLen)
        invariant log == old(log) + BurstCalls(b, Data(taken)) && Steady(old(shown), shown, burstLen, Driven())
        decreases b.Words() - burstLen, more
      {
        AcceptedNext(old(script), burstLen);
        WaitReady();
        Take(b, at, burstLen);
        OneMore(b, taken, now);
        taken := taken + [now];
        at := at + b.size;
        burstLen := burstLen + 1;
        if burstLen == b.Words() {
          break;
        }
        more := now.frame == W.Low || burstLen + 1 == b.Words() || burstLen + 2 == b.Words();
      }
    }
  }

  lemma Aligned(b: Burst, i: nat)
    requires b.Valid()
    ensures var at := b.addr + b.size * i; at - at % b.size == b.Base() + b.size * i
  {
    var q, r := b.addr / b.size, b.addr % b.size;
    assert b.addr + b.size * i == (q + i) * b.size + r by {
      assert (q + i) * b.size == q * b.size + i * b.size;
    }
    Bits.QuotientUnique(b.addr + b.size * i, b.size, q + i, r);
  }

  lemma NoCalls(b: Burst, script: seq<Edge>)
    requires b.Valid()
    ensures BurstCalls(b, Data([])) == [] && Accepted(script, 0) == [] && Left(script, 0) == script
  {
  }

  lemma OneMore(b: Burst, taken: seq<Edge>, e: Edge)
    requires b.Valid()
    ensures BurstCalls(b, Data(taken + [e])) == BurstCalls(b, Data(taken)) + WordCalls(b, |taken|, e.ad)
  {
    assert Data(taken + [e])[..|taken|] == Data(taken);
  }
}
