/**
 The library's AXI4 master against its AXI4 slave (libsimbus/simbus_axi4_write.c:25-149 and 195-236,
 libsimbus/simbus_axi4_read.c:25-110 and 162-206, libsimbus/simbus_axi4_slave.c:270-497): both sample the
 other's signals at the rising clock edge and then change their own, with the handshakes of
 section A3.2 of ARM IHI 0022. Behind the slave is a memory.
 */
module Axi4 {
  import opened Bits
  import W = Wires

  // ----- numbers as bits

  function Digit(b: W.Bit): nat
  {
    if b == W.High then 1 else 0
  }

  function FromBits(s: seq<W.Bit>): nat
  {
    if s == [] then 0 else Digit(s[0]) + 2 * FromBits(s[1..])
  }

  lemma {:induction false} FromBitsPush(s: seq<W.Bit>, b: W.Bit)
    ensures FromBits(s + [b]) == FromBits(s) + Digit(b) * Pow2(|s|)
  {
    if s == [] {
      assert s + [b] == [b] && [b][1..] == [];
    } else {
      assert (s + [b])[1..] == s[1..] + [b];
      FromBitsPush(s[1..], b);
      assert 2 * (Digit(b) * Pow2(|s| - 1)) == Digit(b) * Pow2(|s|);
    }
  }

  /** Splitting off one more bit from the top. */
  lemma NextDigit(x: nat, n: nat)
    ensures x % Pow2(n + 1) == x % Pow2(n) + Digit(W.Level(Bit(x, n))) * Pow2(n)
  {
    var p := Pow2(n);
    var q, r := x / p, x % p;
    assert x == q * p + r;
    var h, b := q / 2, q % 2;
    assert q == 2 * h + b;
    assert x == h * (2 * p) + (b * p + r) by {
      assert (2 * h + b) * p == h * (2 * p) + b * p;
    }
    assert b * p + r < 2 * p by {
      assert b * p <= p;
    }
    QuotientUnique(x, 2 * p, h, b * p + r);
  }

  lemma {:induction false} BitsRoundTrip(x: nat, n: nat)
    ensures FromBits(W.BitsOf(x, n)) == x % Pow2(n)
  {
    if n == 0 {
      assert W.BitsOf(x, 0) == [];
    } else {
      BitsRoundTrip(x, n - 1);
      assert W.BitsOf(x, n) == W.BitsOf(x, n - 1) + [W.Level(Bit(x, n - 1))];
      FromBitsPush(W.BitsOf(x, n - 1), W.Level(Bit(x, n - 1)));
      NextDigit(x, n - 1);
    }
  }

  lemma BitsExact(x: nat, n: nat)
    requires x < Pow2(n)
    ensures FromBits(W.BitsOf(x, n)) == x
  {
    hide FromBits, W.BitsOf, Pow2;
    BitsRoundTrip(x, n);
    SmallMod(x, Pow2(n));
  }

  lemma SmallMod(x: nat, p: nat)
    requires x < p
    ensures x % p == x
  {
  }

  /** bits_to_addr, bits_to_uint32 and bits_to_uint8: from the top bit down. */
  method BitsToNumber(s: seq<W.Bit>) returns (res: nat)
    ensures res == FromBits(s)
  {
    res := 0;
    var idx := 0;
    while idx < |s|
      invariant 0 <= idx <= |s| && res == FromBits(s[|s| - idx..])
    {
      ghost var rest := s[|s| - idx - 1..];
      assert rest[0] == s[|s| - 1 - idx] && rest[1..] == s[|s| - idx..];
      res := res * 2;
      if s[|s| - 1 - idx] == W.High {
        res := res + 1;
      }
      idx := idx + 1;
    }
    assert s[0..] == s;
  }

  /** The master's way: from bit 0 up, with a moving mask. */
  method CollectBits(s: seq<W.Bit>) returns (res: nat)
    ensures res == FromBits(s)
  {
    res := 0;
    var idx, mask := 0, 1;
    while idx < |s|
      invariant 0 <= idx <= |s| && res == FromBits(s[..idx]) && mask == Pow2(idx)
    {
      assert s[..idx + 1] == s[..idx] + [s[idx]];
      FromBitsPush(s[..idx], s[idx]);
      if s[idx] == W.High {
        res := res + mask;
      }
      idx, mask := idx + 1, 2 * mask;
    }
    assert s[..idx] == s;
  }

  method NumberToBits(x: nat, n: nat) returns (s: seq<W.Bit>)
    ensures s == W.BitsOf(x, n)
  {
    s := [];
    var idx := 0;
    while idx < n
      invariant 0 <= idx <= n && s == W.BitsOf(x, idx)
    {
      s := s + [W.Level(Bit(x, idx))];
      idx := idx + 1;
    }
  }

  // ----- the memory behind the slave

  type Memory = map<nat, nat>

  function ByteAt(m: Memory, a: nat): nat
  {
    if a in m then m[a] else 0
  }

  function Stored(m: Memory, a: nat, n: nat, data: nat): Memory
    decreases n
  {
    if n == 0 then m else Stored(m, a + 1, n - 1, data / 256)[a := data % 256]
  }

  function Loaded(m: Memory, a: nat, n: nat): nat
    decreases n
  {
    if n == 0 then 0 else ByteAt(m, a) + 256 * Loaded(m, a + 1, n - 1)
  }

  lemma {:induction false} StoredElsewhere(m: Memory, a: nat, n: nat, data: nat, b: nat)
    requires b < a || b >= a + n
    ensures ByteAt(Stored(m, a, n, data), b) == ByteAt(m, b)
    decreases n
  {
    if n > 0 {
      StoredElsewhere(m, a + 1, n - 1, data / 256, b);
    }
  }

  lemma {:induction false} LoadedSame(m: Memory, m': Memory, a: nat, n: nat)
    requires forall b :: a <= b < a + n ==> ByteAt(m', b) == ByteAt(m, b)
    ensures Loaded(m', a, n) == Loaded(m, a, n)
    decreases n
  {
    if n > 0 {
      LoadedSame(m, m', a + 1, n - 1);
    }
  }

  /** The least significant byte goes to the lowest address. */
  lemma {:induction false} StoredByte(m: Memory, a: nat, n: nat, data: nat, k: nat)
    requires k < n
    ensures ByteAt(Stored(m, a, n, data), a + k) == data / Pow2(8 * k) % 256
    decreases n
  {
    if k == 0 {
      assert Pow2(8 * k) == 1;
    } else {
      StoredByte(m, a + 1, n - 1, data / 256, k - 1);
      ByteUp(data, k);
    }
  }

  lemma ByteUp(x: nat, k: nat)
    requires k > 0
    ensures x / 256 / Pow2(8 * (k - 1)) == x / Pow2(8 * k)
  {
    var e := 8 * (k - 1);
    var p := Pow2(e);
    Pow2Add(e, 8);
    var eight := 8;
    assert Pow2(eight) == 2 * Pow2(7) == 4 * Pow2(6) == 8 * Pow2(5) == 16 * Pow2(4) == 256;
    var q, r := x / 256, x % 256;
    var h, t := q / p, q % p;
    assert x == q * 256 + r && q == h * p + t;
    assert x == h * (p * 256) + (t * 256 + r) by {
      assert (h * p + t) * 256 == h * (p * 256) + t * 256;
    }
    assert 0 <= t * 256 + r < p * 256 by {
      assert t * 256 <= (p - 1) * 256;
    }
    QuotientUnique(x, p * 256, h, t * 256 + r);
  }

  lemma {:induction false} LoadAfterStore(m: Memory, a: nat, n: nat, data: nat)
    requires data < Pow2(8 * n)
    ensures Loaded(Stored(m, a, n, data), a, n) == data
    decreases n
  {
    if n > 0 {
      var rest := Stored(m, a + 1, n - 1, data / 256);
      var e := 8 * (n - 1);
      assert Pow2(e + 8) == 2 * Pow2(e + 7) == 4 * Pow2(e + 6) == 8 * Pow2(e + 5) == 16 * Pow2(e + 4);
      assert Pow2(e + 4) == 2 * Pow2(e + 3) == 4 * Pow2(e + 2) == 8 * Pow2(e + 1) == 16 * Pow2(e);
      LoadAfterStore(m, a + 1, n - 1, data / 256);
      LoadedSame(rest, Stored(m, a, n, data), a + 1, n - 1);
    }
  }

  // ----- the two sides

  /** A call of the device behind the slave. */
  datatype Access = Write(addr: nat, bytes: nat, data: nat) | Read(addr: nat, bytes: nat)

  const OKAY := 0
  const SLVERR := 2

  /** The widths of the bus, and the device's response to each access. */
  datatype Config = Config(dataWidth: nat, addrWidth: nat, respond: Access -> nat)

  ghost predicate ValidConfig(c: Config)
  {
    (c.dataWidth == 8 || c.dataWidth == 16 || c.dataWidth == 32 || c.dataWidth == 64) && c.addrWidth <= 64
    && forall a :: c.respond(a) < 4
  }

  /** What the master drives. */
  datatype Request = Request(
    awvalid: W.Bit, awaddr: seq<W.Bit>, awsize: seq<W.Bit>,
    wvalid: W.Bit, wdata: seq<W.Bit>, bready: W.Bit,
    arvalid: W.Bit, araddr: seq<W.Bit>, arsize: seq<W.Bit>, rready: W.Bit)

  /** What the slave drives. */
  datatype Reply = Reply(
    awready: W.Bit, wready: W.Bit, bvalid: W.Bit, bresp0: W.Bit, bresp1: W.Bit,
    arready: W.Bit, rvalid: W.Bit, rdata: seq<W.Bit>, rresp0: W.Bit, rresp1: W.Bit)

  function Xs(n: nat): (s: seq<W.Bit>)
    ensures |s| == n && forall i :: 0 <= i < n ==> s[i] == W.X
  {
    seq(n, _ => W.X)
  }

  /** The value of the library's bit enumeration: 0, 1, X, Z. */
  function Enumerated(n: nat): W.Bit
  {
    if n == 0 then W.Low else if n == 1 then W.High else if n == 2 then W.X else W.Z
  }

  /** How a response code is put on its two wires: resp&1 and resp&2, used as bit values. */
  function Resp0(resp: nat): W.Bit
  {
    Enumerated(resp % 2)
  }

  function Resp1(resp: nat): W.Bit
  {
    Enumerated(if resp / 2 % 2 == 1 then 2 else 0)
  }

  /** How the master reads it. */
  function RespOf(r0: W.Bit, r1: W.Bit): nat
  {
    Digit(r0) + 2 * Digit(r1)
  }

  /** The response arrives unchanged if and only if it is OKAY or EXOKAY: errors are lost on the wire. */
  lemma ResponseArrives(resp: nat)
    requires resp < 4
    ensures RespOf(Resp0(resp), Resp1(resp)) == resp % 2
    ensures RespOf(Resp0(resp), Resp1(resp)) == resp <==> resp < 2
    ensures Resp0(resp) == W.Level(resp == 1 || resp == 3) && Resp1(resp) == if resp < 2 then W.Low else W.X
  {
  }

  /** Where in the data word the bytes of an address lie. */
  function Offset(c: Config, addr: nat): nat
    requires c.dataWidth >= 8
  {
    addr % (c.dataWidth / 8) * 8
  }

  predicate Fits(c: Config, addr: nat, bytes: nat)
  {
    (bytes == 1 || bytes == 2 || bytes == 4) && 8 * bytes <= c.dataWidth && addr % bytes == 0
  }

  lemma OffsetFits(c: Config, addr: nat, bytes: nat)
    requires ValidConfig(c) && Fits(c, addr, bytes)
    ensures Offset(c, addr) + 8 * bytes <= c.dataWidth
  {
    LaneFits(addr, c.dataWidth / 8, bytes);
  }

  lemma LaneFits(addr: nat, w: nat, bytes: nat)
    requires (w == 1 || w == 2 || w == 4 || w == 8) && (bytes == 1 || bytes == 2 || bytes == 4) && bytes <= w && addr % bytes == 0
    ensures addr % w + bytes <= w
  {
    var n := if bytes == 1 then w else if bytes == 2 then w / 2 else w / 4;
    var h := if bytes == 1 then addr else if bytes == 2 then addr / 2 else addr / 4;
    var q, e := h / n, h % n;
    Multiple(addr, bytes);
    Remainder(h, n);
    Regroup(bytes, n, q, e);
    assert 0 <= bytes * e <= bytes * (n - 1) by { Scaled(bytes, e, n - 1); }
    QuotientUnique(addr, w, q, bytes * e);
  }

  lemma Multiple(addr: nat, bytes: nat)
    requires (bytes == 1 || bytes == 2 || bytes == 4) && addr % bytes == 0
    ensures bytes == 2 ==> addr == 2 * (addr / 2)
    ensures bytes == 4 ==> addr == 4 * (addr / 4)
  {
  }

  lemma Remainder(h: nat, n: nat)
    requires n > 0
    ensures h == n * (h / n) + h % n && 0 <= h % n <= n - 1
  {
  }

  lemma Regroup(b: nat, n: nat, q: int, e: int)
    ensures b * (n * q + e) == q * (b * n) + b * e
  {
    assert b * (n * q) == q * (b * n);
  }

  lemma Scaled(b: nat, e: int, m: int)
    requires 0 <= e <= m
    ensures 0 <= b * e <= b * m
  {
  }

  datatype State = State(out: Reply, waddr: nat, wsize: nat, raddr: nat, rsize: nat, mem: Memory, log: seq<Access>)

  /** Ready for an address on both channels, with nothing under way. */
  predicate Idle(s: State)
  {
    && s.out.awready == W.High && s.out.wready == W.Low && s.out.bvalid == W.Low
    && s.out.arready == W.High && s.out.rvalid == W.Low
  }

  /** What a call of the device leaves behind. */
  datatype Served = Served(mem: Memory, log: seq<Access>, resp: nat)

  predicate Addressable(c: Config, addr: nat, size: nat)
  {
    size < 3 && Fits(c, addr, Pow2(size))
  }

  /** write_data: only 32-bit and 8-bit writes reach the device. */
  ghost function WriteServed(c: Config, s: State, wdata: seq<W.Bit>): Served
    requires ValidConfig(c) && |wdata| == c.dataWidth && Addressable(c, s.waddr, s.wsize)
  {
    OffsetFits(c, s.waddr, Pow2(s.wsize));
    var off, n := Offset(c, s.waddr), Pow2(s.wsize);
    if n == 2 then Served(s.mem, s.log, SLVERR)
    else
      var a := Write(s.waddr, n, FromBits(wdata[off..off + 8 * n]));
      Served(if c.respond(a) < 2 then Stored(s.mem, s.waddr, n, a.data) else s.mem, s.log + [a], c.respond(a))
  }

  /** read_data: the lanes of the address carry the data, all others X. */
  ghost function ReadLanes(c: Config, s: State): (r: seq<W.Bit>)
    requires ValidConfig(c) && Addressable(c, s.raddr, s.rsize)
    ensures |r| == c.dataWidth
  {
    OffsetFits(c, s.raddr, Pow2(s.rsize));
    var off, n := Offset(c, s.raddr), Pow2(s.rsize);
    Xs(off) + W.BitsOf(Loaded(s.mem, s.raddr, n), 8 * n) + Xs(c.dataWidth - off - 8 * n)
  }

  // the transfers of one clock edge

  predicate AddressTaken(o: Reply, m: Request) { m.awvalid == W.High && o.awready == W.High }

  predicate DataTaken(o: Reply, m: Request) { m.wvalid == W.High && o.wready == W.High }

  predicate ResponseTaken(o: Reply, m: Request) { o.bvalid == W.High && m.bready == W.High }

  predicate ReadTaken(o: Reply, m: Request) { m.arvalid == W.High && o.arready != W.Low }

  predicate ReadDone(o: Reply, m: Request) { o.rvalid == W.High && m.rready == W.High }

  function AfterAddress(s: State, m: Request): State
  {
    if AddressTaken(s.out, m) then
      s.(waddr := FromBits(m.awaddr), wsize := FromBits(m.awsize), out := s.out.(awready := W.Low, wready := W.High))
    else if s.out.awready == W.Low && s.out.wready == W.Low then s.(out := s.out.(awready := W.High))
    else s
  }

  function ReadAddressed(s: State, m: Request): State
  {
    s.(raddr := FromBits(m.araddr), rsize := FromBits(m.arsize))
  }

  /** The assertions of write_data and read_data hold. */
  ghost predicate Legal(c: Config, s: State, m: Request)
  {
    && ValidConfig(c)
    && (DataTaken(s.out, m) ==> |m.wdata| == c.dataWidth && Addressable(c, AfterAddress(s, m).waddr, AfterAddress(s, m).wsize))
    && (ReadTaken(s.out, m) ==> Addressable(c, FromBits(m.araddr), FromBits(m.arsize)))
  }

  /** The write channels of do_slave_machine. */
  ghost function WriteSide(c: Config, s: State, m: Request): State
    requires Legal(c, s, m)
  {
    var s1 := AfterAddress(s, m);
    var s2 := if !DataTaken(s.out, m) then s1 else
      var d := WriteServed(c, s1, m.wdata);
      s1.(mem := d.mem, log := d.log,
          out := s1.out.(wready := W.Low, bvalid := W.High, bresp0 := Resp0(d.resp), bresp1 := Resp1(d.resp)));
    if !ResponseTaken(s.out, m) then s2 else
      s2.(out := s2.out.(awready := W.High, bvalid := W.Low, bresp0 := W.X, bresp1 := W.X))
  }

  /** Its read channels: `o` is what the slave drove before the edge. */
  ghost function ReadSide(c: Config, o: Reply, s: State, m: Request): State
    requires ValidConfig(c) && (ReadTaken(o, m) ==> Addressable(c, FromBits(m.araddr), FromBits(m.arsize)))
  {
    var s1 := if !ReadTaken(o, m) then s else
      var r := ReadAddressed(s, m);
      var a := Read(r.raddr, Pow2(r.rsize));
      r.(log := r.log + [a],
         out := r.out.(arready := W.Low, rvalid := W.High, rdata := ReadLanes(c, r),
                       rresp0 := Resp0(c.respond(a)), rresp1 := Resp1(c.respond(a))));
    if !ReadDone(o, m) then s1 else s1.(out := s1.out.(rvalid := W.Low, arready := W.High))
  }

  ghost function NextState(c: Config, s: State, m: Request): State
    requires Legal(c, s, m)
  {
    ReadSide(c, s.out, WriteSide(c, s, m), m)
  }

  class Slave {
    const c: Config
    var out: Reply
    var waddr: nat
    var wsize: nat
    var raddr: nat
    var rsize: nat
    var mem: Memory
    var log: seq<Access>

    ghost function Now(): State
      reads this
    {
      State(out, waddr, wsize, raddr, rsize, mem, log)
    }

    constructor (c: Config)
      ensures this.c == c && mem == map[] && log == []
    {
      this.c := c;
      out := Reply(W.Z, W.Z, W.Z, W.Z, W.Z, W.Z, W.Z, Xs(c.dataWidth), W.Z, W.Z);
      waddr, wsize, raddr, rsize, mem, log := 0, 0, 0, 0, map[], [];
    }

    /** do_reset. */
    method Reset()
      modifies this`out
      ensures Idle(Now())
    {
      out := Reply(W.High, W.Low, W.Low, W.Low, W.Low, W.High, W.Low, seq(c.dataWidth, _ => W.Low), W.Low, W.Low);
    }

    method WriteData(wdata: seq<W.Bit>) returns (resp: nat)
      requires ValidConfig(c) && |wdata| == c.dataWidth && Addressable(c, waddr, wsize)
      modifies this`mem, this`log
      ensures Served(mem, log, resp) == WriteServed(c, old(Now()), wdata)
    {
      OffsetFits(c, waddr, Pow2(wsize));
      var off, n := Offset(c, waddr), Pow2(wsize);
      if n == 4 || n == 1 {
        var data := BitsToNumber(wdata[off..off + 8 * n]);
        var a := Write(waddr, n, data);
        log := log + [a];
        resp := c.respond(a);
        if resp < 2 {
          mem := Stored(mem, waddr, n, data);
        }
      } else {
        resp := SLVERR;
      }
    }

    method ReadData() returns (resp: nat, rdata: seq<W.Bit>)
      requires ValidConfig(c) && Addressable(c, raddr, rsize)
      modifies this`log
      ensures rdata == ReadLanes(c, old(Now())) && resp == c.respond(Read(raddr, Pow2(rsize)))
      ensures log == old(log) + [Read(raddr, Pow2(rsize))]
    {
      OffsetFits(c, raddr, Pow2(rsize));
      var off, n := Offset(c, raddr), Pow2(rsize);
      var a := Read(raddr, n);
      log := log + [a];
      resp := c.respond(a);
      var bits := NumberToBits(Loaded(mem, raddr, n), 8 * n);
      rdata := Xs(off) + bits + Xs(c.dataWidth - off - 8 * n);
    }

    method WriteChannels(m: Request) returns (next: Reply)
      requires Legal(c, Now(), m)
      modifies this`waddr, this`wsize, this`mem, this`log
      ensures Now().(out := next) == WriteSide(c, old(Now()), m)
    {
      hide FromBits, WriteServed, ValidConfig, Fits, Pow2, Resp0, Resp1;
      next := out;
      if m.awvalid == W.High && out.awready == W.High {
        waddr := BitsToNumber(m.awaddr);
        wsize := BitsToNumber(m.awsize);
        next := next.(awready := W.Low, wready := W.High);
      } else if out.awready == W.Low && out.wready == W.Low {
        next := next.(awready := W.High);
      }
      if m.wvalid == W.High && out.wready == W.High {
        ServedAlike(c, Now(), AfterAddress(old(Now()), m), m.wdata);
        var resp := WriteData(m.wdata);
        next := next.(wready := W.Low, bvalid := W.High, bresp0 := Resp0(resp), bresp1 := Resp1(resp));
      }
      if out.bvalid == W.High && m.bready == W.High {
        next := next.(awready := W.High, bvalid := W.Low, bresp0 := W.X, bresp1 := W.X);
      }
    }

    method ReadChannels(m: Request, before: Reply) returns (next: Reply)
      requires ValidConfig(c) && (ReadTaken(out, m) ==> Addressable(c, FromBits(m.araddr), FromBits(m.arsize)))
      modifies this`raddr, this`rsize, this`log
      ensures Now().(out := next) == ReadSide(c, out, old(Now()).(out := before), m)
    {
      hide FromBits, ReadLanes, ValidConfig, Fits, Pow2, Resp0, Resp1;
      next := before;
      if m.arvalid == W.High && out.arready != W.Low {
        raddr := BitsToNumber(m.araddr);
        rsize := BitsToNumber(m.arsize);
        LanesAlike(c, Now(), Now().(out := before));
        var resp, rdata := ReadData();
        next := next.(arready := W.Low, rvalid := W.High, rdata := rdata, rresp0 := Resp0(resp), rresp1 := Resp1(resp));
      }
      if out.rvalid == W.High && m.rready == W.High {
        next := next.(rvalid := W.Low, arready := W.High);
      }
    }

    /** A rising clock edge: all signals change together. */
    method Edge(m: Request)
      requires Legal(c, Now(), m)
      modifies this
      ensures Now() == NextState(c, old(Now()), m)
    {
      var next := WriteChannels(m);
      next := ReadChannels(m, next);
      out := next;
    }
  }

  lemma ServedAlike(c: Config, s: State, s': State, wdata: seq<W.Bit>)
    requires ValidConfig(c) && |wdata| == c.dataWidth && Addressable(c, s.waddr, s.wsize)
    requires s' == s.(out := s'.out)
    ensures WriteServed(c, s, wdata) == WriteServed(c, s', wdata)
  {
  }

  lemma LanesAlike(c: Config, s: State, s': State)
    requires ValidConfig(c) && Addressable(c, s.raddr, s.rsize)
    requires s' == s.(out := s'.out)
    ensures ReadLanes(c, s) == ReadLanes(c, s')
  {
  }

  // ----- one write

  function SizeCode(bytes: nat): nat
  {
    if bytes == 1 then 0 else if bytes == 2 then 1 else 2
  }

  const QUIET := Request(W.Low, [], [], W.Low, [], W.Low, W.Low, [], [], W.Low)

  /** What the master drives for a write (write.c:88-120 and 203-236). */
  function WriteRequest(c: Config, addr: nat, bytes: nat, data: nat): Request
    requires c.dataWidth >= 8 && Offset(c, addr) + 8 * bytes <= c.dataWidth
  {
    var off := Offset(c, addr);
    QUIET.(awvalid := W.High, awaddr := W.BitsOf(addr, c.addrWidth), awsize := W.BitsOf(SizeCode(bytes), 3),
           wvalid := W.High, wdata := Xs(off) + W.BitsOf(data, 8 * bytes) + Xs(c.dataWidth - off - 8 * bytes),
           bready := W.High)
  }

  /** The lane of byte `k` of an access: its address modulo the bytes of the bus. */
  lemma LaneOf(c: Config, addr: nat, bytes: nat, k: nat)
    requires ValidConfig(c) && Fits(c, addr, bytes) && k < bytes
    ensures var w := c.dataWidth / 8; (addr + k) % w < w && 8 * ((addr + k) % w) == Offset(c, addr) + 8 * k
  {
    var w := c.dataWidth / 8;
    OffsetFits(c, addr, bytes);
    var q, r := addr / w, addr % w;
    assert addr == q * w + r;
    QuotientUnique(addr + k, w, q, r + k);
  }

  /** What is put at the lanes of an address, with X on all others. */
  lemma LanePlaces(c: Config, addr: nat, bytes: nat, bits: seq<W.Bit>, k: nat, i: nat)
    requires ValidConfig(c) && Fits(c, addr, bytes) && k < bytes && i < 8
    requires Offset(c, addr) + 8 * bytes <= c.dataWidth && |bits| == 8 * bytes
    ensures var off := Offset(c, addr);
      var s, j := Xs(off) + bits + Xs(c.dataWidth - off - 8 * bytes), 8 * ((addr + k) % (c.dataWidth / 8)) + i;
      |s| == c.dataWidth && 0 <= j < |s| && s[j] == bits[8 * k + i]
  {
    LaneOf(c, addr, bytes, k);
    hide Fits, ValidConfig, Offset;
  }

  /** The wires outside the lanes of an access. */
  predicate Outside(c: Config, addr: nat, bytes: nat, j: nat)
    requires c.dataWidth >= 8
  {
    var first := addr % (c.dataWidth / 8);
    j < c.dataWidth && (j < 8 * first || j >= 8 * (first + bytes))
  }

  /** On the wires of a write: byte `k` of the data on the eight wires of the lane of address `addr + k`, bit 0 lowest. */
  lemma WriteLanes(c: Config, addr: nat, bytes: nat, data: nat, k: nat, i: nat)
    requires ValidConfig(c) && Fits(c, addr, bytes) && k < bytes && i < 8 && Offset(c, addr) + 8 * bytes <= c.dataWidth
    ensures var wdata, j := WriteRequest(c, addr, bytes, data).wdata, 8 * ((addr + k) % (c.dataWidth / 8)) + i;
      |wdata| == c.dataWidth && 0 <= j < |wdata| && wdata[j] == W.Level(Bit(data, 8 * k + i))
    ensures forall j: nat :: Outside(c, addr, bytes, j) ==> WriteRequest(c, addr, bytes, data).wdata[j] == W.X
  {
    hide Bit;
    LanePlaces(c, addr, bytes, W.BitsOf(data, 8 * bytes), k, i);
  }

  /** The same for what the slave drives in answer to a read. */
  lemma ReadLanesMean(c: Config, s: State, k: nat, i: nat)
    requires ValidConfig(c) && Addressable(c, s.raddr, s.rsize) && k < Pow2(s.rsize) && i < 8
    ensures var r, n, j := ReadLanes(c, s), Pow2(s.rsize), 8 * ((s.raddr + k) % (c.dataWidth / 8)) + i;
      0 <= j < |r| && r[j] == W.Level(Bit(Loaded(s.mem, s.raddr, n), 8 * k + i))
    ensures forall j: nat :: Outside(c, s.raddr, Pow2(s.rsize), j) ==> ReadLanes(c, s)[j] == W.X
  {
    hide Bit, Loaded, Pow2;
    var n := Pow2(s.rsize);
    OffsetFits(c, s.raddr, n);
    LanePlaces(c, s.raddr, n, W.BitsOf(Loaded(s.mem, s.raddr, n), 8 * n), k, i);
  }

  function ReadRequest(c: Config, addr: nat, bytes: nat): Request
  {
    QUIET.(arvalid := W.High, araddr := W.BitsOf(addr, c.addrWidth), arsize := W.BitsOf(SizeCode(bytes), 3), rready := W.High)
  }

  ghost predicate InRange(c: Config, addr: nat, bytes: nat)
  {
    ValidConfig(c) && addr < Pow2(c.addrWidth) && Fits(c, addr, bytes)
  }

  /** The slave recovers the address and the size. */
  lemma AddressRecovered(c: Config, addr: nat, bytes: nat)
    requires InRange(c, addr, bytes)
    ensures FromBits(W.BitsOf(addr, c.addrWidth)) == addr
    ensures FromBits(W.BitsOf(SizeCode(bytes), 3)) == SizeCode(bytes) && Pow2(SizeCode(bytes)) == bytes
    ensures Addressable(c, addr, SizeCode(bytes))
  {
    hide FromBits, W.BitsOf;
    BitsExact(addr, c.addrWidth);
    var three := 3;
    assert Pow2(three) == 8;
    BitsExact(SizeCode(bytes), three);
  }

  lemma DataRecovered(c: Config, addr: nat, bytes: nat, data: nat)
    requires InRange(c, addr, bytes) && data < Pow2(8 * bytes) && Offset(c, addr) + 8 * bytes <= c.dataWidth
    ensures var m, off := WriteRequest(c, addr, bytes, data), Offset(c, addr);
      |m.wdata| == c.dataWidth && FromBits(m.wdata[off..off + 8 * bytes]) == data
  {
    var m, off := WriteRequest(c, addr, bytes, data), Offset(c, addr);
    hide FromBits, W.BitsOf, Bit, Pow2;
    assert m.wdata[off..off + 8 * bytes] == W.BitsOf(data, 8 * bytes);
    BitsExact(data, 8 * bytes);
  }

  /** The device's answer to a write, as the slave gives it. */
  ghost function WriteAnswer(c: Config, addr: nat, bytes: nat, data: nat): nat
  {
    if bytes == 2 then SLVERR else c.respond(Write(addr, bytes, data))
  }

  ghost function WrittenMemory(c: Config, m: Memory, addr: nat, bytes: nat, data: nat): Memory
  {
    if WriteAnswer(c, addr, bytes, data) < 2 then Stored(m, addr, bytes, data) else m
  }

  /** First edge: the address goes over. */
  lemma FirstWriteEdge(c: Config, s: State, addr: nat, bytes: nat, data: nat)
    requires InRange(c, addr, bytes) && Idle(s) && Offset(c, addr) + 8 * bytes <= c.dataWidth
    ensures var m := WriteRequest(c, addr, bytes, data);
      && Legal(c, s, m)
      && NextState(c, s, m) == s.(waddr := addr, wsize := SizeCode(bytes), out := s.out.(awready := W.Low, wready := W.High))
  {
    AddressRecovered(c, addr, bytes);
  }

  /** Second edge: the data goes over and the device is called. */
  lemma SecondWriteEdge(c: Config, s: State, m: Request, addr: nat, bytes: nat, data: nat)
    requires InRange(c, addr, bytes) && data < Pow2(8 * bytes) && Offset(c, addr) + 8 * bytes <= c.dataWidth
    requires s.waddr == addr && s.wsize == SizeCode(bytes)
    requires s.out.awready == W.Low && s.out.wready == W.High && s.out.bvalid == W.Low && s.out.rvalid == W.Low
    requires m == WriteRequest(c, addr, bytes, data).(awvalid := W.Low, awaddr := m.awaddr, awsize := m.awsize)
    ensures Legal(c, s, m)
    ensures var resp := WriteAnswer(c, addr, bytes, data);
      NextState(c, s, m) == s.(
        mem := WrittenMemory(c, s.mem, addr, bytes, data),
        log := s.log + (if bytes == 2 then [] else [Write(addr, bytes, data)]),
        out := s.out.(wready := W.Low, bvalid := W.High, bresp0 := Resp0(resp), bresp1 := Resp1(resp)))
  {
    hide FromBits, Resp0, Resp1;
    AddressRecovered(c, addr, bytes);
    DataRecovered(c, addr, bytes, data);
  }

  /** Third edge: the response goes over and the slave is idle again. */
  lemma ThirdWriteEdge(c: Config, s: State, m: Request)
    requires ValidConfig(c) && s.out.awready == W.Low && s.out.wready == W.Low && s.out.bvalid == W.High
    requires s.out.arready == W.High && s.out.rvalid == W.Low
    requires m.awvalid == W.Low && m.wvalid == W.Low && m.bready == W.High && m.arvalid == W.Low
    ensures Legal(c, s, m)
    ensures NextState(c, s, m) == s.(out := s.out.(awready := W.High, bvalid := W.Low, bresp0 := W.X, bresp1 := W.X))
    ensures Idle(NextState(c, s, m))
  {
  }

  // ----- one read

  ghost predicate AllBytes(m: Memory)
  {
    forall a :: a in m ==> m[a] < 256
  }

  lemma {:induction false} StoredBytes(m: Memory, a: nat, n: nat, data: nat)
    requires AllBytes(m)
    ensures AllBytes(Stored(m, a, n, data))
    decreases n
  {
    if n > 0 {
      StoredBytes(m, a + 1, n - 1, data / 256);
    }
  }

  lemma {:induction false} LoadedBound(m: Memory, a: nat, n: nat)
    requires AllBytes(m)
    ensures Loaded(m, a, n) < Pow2(8 * n)
    decreases n
  {
    if n > 0 {
      LoadedBound(m, a + 1, n - 1);
      var e := 8 * (n - 1);
      assert Pow2(e + 8) == 2 * Pow2(e + 7) == 4 * Pow2(e + 6) == 8 * Pow2(e + 5) == 16 * Pow2(e + 4);
      assert Pow2(e + 4) == 2 * Pow2(e + 3) == 4 * Pow2(e + 2) == 8 * Pow2(e + 1) == 16 * Pow2(e);
    }
  }

  /** First edge: the address goes over and the device is called. */
  lemma FirstReadEdge(c: Config, s: State, addr: nat, bytes: nat)
    requires InRange(c, addr, bytes) && Idle(s)
    ensures var m, r, resp := ReadRequest(c, addr, bytes), s.(raddr := addr, rsize := SizeCode(bytes)), c.respond(Read(addr, bytes));
      && Legal(c, s, m) && Addressable(c, r.raddr, r.rsize)
      && NextState(c, s, m) == r.(
           log := s.log + [Read(addr, bytes)],
           out := s.out.(arready := W.Low, rvalid := W.High, rdata := ReadLanes(c, r), rresp0 := Resp0(resp), rresp1 := Resp1(resp)))
  {
    AddressRecovered(c, addr, bytes);
  }

  /** Second edge: the data goes over and the slave is idle again. */
  lemma SecondReadEdge(c: Config, s: State, m: Request)
    requires ValidConfig(c) && s.out.awready == W.High && s.out.wready == W.Low && s.out.bvalid == W.Low
    requires s.out.arready == W.Low && s.out.rvalid == W.High
    requires m.awvalid == W.Low && m.wvalid == W.Low && m.bready == W.Low && m.arvalid == W.Low && m.rready == W.High
    ensures Legal(c, s, m)
    ensures NextState(c, s, m) == s.(out := s.out.(rvalid := W.Low, arready := W.High)) && Idle(NextState(c, s, m))
  {
  }

  lemma LanesRecovered(c: Config, s: State, addr: nat, bytes: nat)
    requires InRange(c, addr, bytes) && s.raddr == addr && s.rsize == SizeCode(bytes) && AllBytes(s.mem)
    requires Addressable(c, s.raddr, s.rsize)
    ensures var r, off := ReadLanes(c, s), Offset(c, addr);
      off + 8 * bytes <= |r| && FromBits(r[off..off + 8 * bytes]) == Loaded(s.mem, addr, bytes)
  {
    hide FromBits, W.BitsOf, Bit, Loaded;
    AddressRecovered(c, addr, bytes);
    OffsetFits(c, addr, bytes);
    var r, off, v := ReadLanes(c, s), Offset(c, addr), Loaded(s.mem, addr, bytes);
    assert r[off..off + 8 * bytes] == W.BitsOf(v, 8 * bytes);
    LoadedBound(s.mem, addr, bytes);
    BitsExact(v, 8 * bytes);
  }

  // ----- the master

  class Master {
    const c: Config
    var out: Request

    constructor (c: Config)
      ensures this.c == c && out == QUIET
    {
      this.c, out := c, QUIET;
    }

    predicate Quiet()
      reads this
    {
      out.awvalid == W.Low && out.wvalid == W.Low && out.bready == W.Low && out.arvalid == W.Low && out.rready == W.Low
    }

    /** Both sides sample, then both change; the master sees what the slave drove before. */
    method NextPosedge(slave: Slave) returns (seen: Reply)
      requires slave.c == c && Legal(c, slave.Now(), out)
      modifies slave
      ensures seen == old(slave.out) && slave.Now() == NextState(c, old(slave.Now()), out)
    {
      seen := slave.out;
      slave.Edge(out);
    }

    /**
     simbus_axi4_write32, write16 and write8: three clocks, one call of the device (none for
     16 bits), and the response's upper bit lost.
     */
    method Write(slave: Slave, addr: nat, bytes: nat, data: nat) returns (resp: nat, ghost clocks: nat)
      requires slave.c == c && InRange(c, addr, bytes) && data < Pow2(8 * bytes) && Quiet() && Idle(slave.Now())
      modifies this, slave
      ensures Quiet() && Idle(slave.Now()) && clocks == 3
      ensures slave.log == old(slave.log) + if bytes == 2 then [] else [Access.Write(addr, bytes, data)]
      ensures slave.mem == WrittenMemory(c, old(slave.mem), addr, bytes, data)
      ensures resp == WriteAnswer(c, addr, bytes, data) % 2
    {
      hide FromBits, W.BitsOf, Pow2, Legal, NextState, WriteRequest, Stored, Offset;
      OffsetFits(c, addr, bytes);
      ghost var s0 := slave.Now();
      var off := OffsetOf(addr);
      out := Drive(off, addr, bytes, data);
      ghost var m0 := out;
      FirstWriteEdge(c, s0, addr, bytes, data);
      ghost var s1 := NextState(c, s0, m0);
      resp, clocks := OKAY, 0;
      RequestFields(c, addr, bytes, data);
      while out.awvalid == W.High || out.wvalid == W.High || out.bready == W.High
        invariant clocks <= 3 && out.arvalid == W.Low && out.rready == W.Low
        invariant clocks == 0 ==> slave.Now() == s0 && out == m0
        invariant clocks == 1 ==> slave.Now() == s1 && out == m0.(awvalid := W.Low, awaddr := out.awaddr, awsize := out.awsize)
        invariant clocks == 2 ==> AfterData(slave.Now(), s1, addr, bytes, data)
        invariant clocks == 2 ==> out.awvalid == W.Low && out.wvalid == W.Low && out.bready == W.High
        invariant clocks == 3 ==> Quiet() && Idle(slave.Now()) && resp == WriteAnswer(c, addr, bytes, data) % 2
        invariant clocks == 3 ==> slave.log == s0.log + (if bytes == 2 then [] else [Access.Write(addr, bytes, data)])
        invariant clocks == 3 ==> slave.mem == WrittenMemory(c, s0.mem, addr, bytes, data)
        decreases 3 - clocks
      {
        if clocks == 1 {
          SecondWriteEdge(c, s1, out, addr, bytes, data);
        } else if clocks == 2 {
          ThirdWriteEdge(c, slave.Now(), out);
        }
        var seen := NextPosedge(slave);
        if out.awvalid == W.High && seen.awready == W.High {
          out := out.(awvalid := W.Low, awaddr := Xs(c.addrWidth), awsize := Xs(3));
        }
        if out.wvalid == W.High && seen.wready == W.High {
          out := out.(wvalid := W.Low, wdata := Xs(c.dataWidth));
        }
        if out.bready == W.High && seen.bvalid == W.High {
          out := out.(bready := W.Low);
          resp := RespOf(seen.bresp0, seen.bresp1);
          Answered(c, addr, bytes, data);
        }
        clocks := clocks + 1;
      }
    }

    method Drive(off: nat, addr: nat, bytes: nat, data: nat) returns (m: Request)
      requires ValidConfig(c) && Offset(c, addr) == off && off + 8 * bytes <= c.dataWidth
      ensures m == WriteRequest(c, addr, bytes, data)
    {
      var awaddr := NumberToBits(addr, c.addrWidth);
      var awsize := NumberToBits(SizeCode(bytes), 3);
      var bits := NumberToBits(data, 8 * bytes);
      m := QUIET.(awvalid := W.High, awaddr := awaddr, awsize := awsize,
                  wvalid := W.High, wdata := Xs(off) + bits + Xs(c.dataWidth - off - 8 * bytes), bready := W.High);
    }

    /** The slave after the second edge of a write. */
    ghost predicate AfterData(s: State, s1: State, addr: nat, bytes: nat, data: nat)
    {
      var resp := WriteAnswer(c, addr, bytes, data);
      s == s1.(
        mem := WrittenMemory(c, s1.mem, addr, bytes, data),
        log := s1.log + (if bytes == 2 then [] else [Access.Write(addr, bytes, data)]),
        out := s1.out.(wready := W.Low, bvalid := W.High, bresp0 := Resp0(resp), bresp1 := Resp1(resp)))
    }

    /** simbus_axi4_read32, read16 and read8: two clocks and one call of the device. */
    method Read(slave: Slave, addr: nat, bytes: nat) returns (resp: nat, data: nat, ghost clocks: nat)
      requires slave.c == c && InRange(c, addr, bytes) && Quiet() && Idle(slave.Now()) && AllBytes(slave.mem)
      modifies this, slave
      ensures Quiet() && Idle(slave.Now()) && clocks == 2
      ensures slave.log == old(slave.log) + [Access.Read(addr, bytes)] && slave.mem == old(slave.mem)
      ensures data == Loaded(slave.mem, addr, bytes) && resp == c.respond(Access.Read(addr, bytes)) % 2
    {
      hide FromBits, W.BitsOf, Pow2, Legal, NextState, Loaded, ReadLanes, Offset;
      OffsetFits(c, addr, bytes);
      ghost var s0 := slave.Now();
      FirstReadEdge(c, s0, addr, bytes);
      ghost var r := s0.(raddr := addr, rsize := SizeCode(bytes));
      LanesRecovered(c, r, addr, bytes);
      var araddr := NumberToBits(addr, c.addrWidth);
      var arsize := NumberToBits(SizeCode(bytes), 3);
      out := QUIET.(arvalid := W.High, araddr := araddr, arsize := arsize, rready := W.High);
      ghost var m0 := out;
      ghost var s1 := NextState(c, s0, m0);
      resp, data, clocks := OKAY, 0, 0;
      while out.arvalid == W.High || out.rready == W.High
        invariant clocks <= 2 && out.awvalid == W.Low && out.wvalid == W.Low && out.bready == W.Low
        invariant clocks == 0 ==> slave.Now() == s0 && out == m0
        invariant clocks == 1 ==> slave.Now() == s1 && out.arvalid == W.Low && out.rready == W.High
        invariant clocks == 2 ==> Quiet() && Idle(slave.Now()) && slave.log == s1.log && slave.mem == s1.mem
        invariant clocks == 2 ==> data == Loaded(s0.mem, addr, bytes) && resp == c.respond(Access.Read(addr, bytes)) % 2
        decreases 2 - clocks
      {
        if clocks == 1 {
          SecondReadEdge(c, s1, out);
        }
        var seen := NextPosedge(slave);
        if out.arvalid == W.High && seen.arready == W.High {
          out := out.(arvalid := W.Low, araddr := Xs(c.addrWidth), arsize := Xs(3));
        }
        if out.rready == W.High && seen.rvalid == W.High {
          out := out.(rready := W.Low);
          var off := OffsetOf(addr);
          data := CollectBits(seen.rdata[off..off + 8 * bytes]);
          resp := RespOf(seen.rresp0, seen.rresp1);
          ResponseArrives(c.respond(Access.Read(addr, bytes)));
        }
        clocks := clocks + 1;
      }
    }

    method OffsetOf(addr: nat) returns (off: nat)
      requires c.dataWidth >= 8
      ensures off == Offset(c, addr)
    {
      off := addr % (c.dataWidth / 8) * 8;
    }
  }

  lemma RequestFields(c: Config, addr: nat, bytes: nat, data: nat)
    requires c.dataWidth >= 8 && Offset(c, addr) + 8 * bytes <= c.dataWidth
    ensures var m := WriteRequest(c, addr, bytes, data);
      m.awvalid == m.wvalid == m.bready == W.High && m.arvalid == m.rready == W.Low
  {
  }

  lemma Answered(c: Config, addr: nat, bytes: nat, data: nat)
    requires ValidConfig(c)
    ensures var resp := WriteAnswer(c, addr, bytes, data); RespOf(Resp0(resp), Resp1(resp)) == resp % 2
  {
    ResponseArrives(WriteAnswer(c, addr, bytes, data));
  }

  // ----- any sequence of accesses

  /** The accesses as a plain memory would do them: its contents, and what the reads return. */
  datatype Plain = Plain(mem: Memory, results: seq<nat>)

  function PlainRun(ops: seq<Access>): Plain
  {
    if ops == [] then Plain(map[], []) else
    var p := PlainRun(ops[..|ops| - 1]);
    match ops[|ops| - 1]
    case Write(a, n, d) => p.(mem := Stored(p.mem, a, n, d))
    case Read(a, n) => p.(results := p.results + [Loaded(p.mem, a, n)])
  }

  ghost predicate Allowed(c: Config, a: Access)
  {
    && InRange(c, a.addr, a.bytes) && c.respond(a) == OKAY
    && (a.Write? ==> a.bytes != 2 && a.data < Pow2(8 * a.bytes))
  }

  ghost function Clocks(ops: seq<Access>): nat
  {
    if ops == [] then 0 else Clocks(ops[..|ops| - 1]) + if ops[|ops| - 1].Write? then 3 else 2
  }

  /**
   After reset, any sequence of aligned 8- and 32-bit writes and 8-, 16- and 32-bit reads calls
   the device once per access, in order, with the same address and data; the reads return
   what a plain memory would; every access takes its fixed number of clocks and leaves both
   sides idle.
   */
  method Session(c: Config, ops: seq<Access>) returns (results: seq<nat>, log: seq<Access>, ghost clocks: nat)
    requires ValidConfig(c) && forall i :: 0 <= i < |ops| ==> Allowed(c, ops[i])
    ensures results == PlainRun(ops).results && log == ops && clocks == Clocks(ops)
  {
    hide Loaded, Stored, Allowed, AllBytes, Idle, PlainRun, Clocks;
    var slave := new Slave(c);
    var master := new Master(c);
    slave.Reset();
    results, clocks := [], 0;
    Beginning();
    var i := 0;
    while i < |ops|
      invariant 0 <= i <= |ops| && fresh(slave) && fresh(master) && slave.c == c && master.c == c
      invariant master.Quiet() && Idle(slave.Now()) && AllBytes(slave.mem)
      invariant slave.log == ops[..i] && PlainRun(ops[..i]) == Plain(slave.mem, results) && clocks == Clocks(ops[..i])
    {
      PlainNext(ops, i);
      ghost var k;
      results, k := Perform(master, slave, ops[i], results);
      clocks := clocks + k;
      i := i + 1;
    }
    assert ops[..i] == ops;
    log := slave.log;
  }

  ghost function PlainStep(p: Plain, a: Access): Plain
  {
    match a
    case Write(at, n, d) => p.(mem := Stored(p.mem, at, n, d))
    case Read(at, n) => p.(results := p.results + [Loaded(p.mem, at, n)])
  }

  lemma PlainNext(ops: seq<Access>, i: nat)
    requires i < |ops|
    ensures ops[..i + 1] == ops[..i] + [ops[i]] && PlainRun(ops[..i + 1]) == PlainStep(PlainRun(ops[..i]), ops[i])
    ensures Clocks(ops[..i + 1]) == Clocks(ops[..i]) + if ops[i].Write? then 3 else 2
  {
    assert ops[..i + 1][..i] == ops[..i];
  }

  /** One access of a session. */
  method Perform(master: Master, slave: Slave, a: Access, results: seq<nat>) returns (results': seq<nat>, ghost clocks: nat)
    requires slave.c == master.c && Allowed(master.c, a)
    requires master.Quiet() && Idle(slave.Now()) && AllBytes(slave.mem)
    modifies master, slave
    ensures master.Quiet() && Idle(slave.Now()) && AllBytes(slave.mem)
    ensures slave.log == old(slave.log) + [a] && clocks == if a.Write? then 3 else 2
    ensures Plain(slave.mem, results') == PlainStep(Plain(old(slave.mem), results), a)
  {
    hide Loaded, Stored, InRange, Pow2, AllBytes, Idle;
    results' := results;
    var resp;
    match a {
      case Write(at, n, d) =>
        StoredBytes(slave.mem, at, n, d);
        resp, clocks := master.Write(slave, at, n, d);
      case Read(at, n) =>
        var v;
        resp, v, clocks := master.Read(slave, at, n);
        results' := results + [v];
    }
  }

  lemma Beginning()
    ensures AllBytes(map[]) && PlainRun([]) == Plain(map[], []) && Clocks([]) == 0
  {
  }
}
