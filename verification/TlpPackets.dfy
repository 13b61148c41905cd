/**
 TLPs as the library builds and takes them apart (libsimbus/simbus_pcie_tlp_write.c:54-130,
 libsimbus/simbus_pcie_tlp_read.c:48-145, libsimbus/simbus_pcie_tlp_tlp.c:26-45 and 157-305): memory writes,
 memory reads and completions with data, in the formats of section 2.2 of the PCI Express Base
 Specification. Words are unsigned 32-bit numbers; shifts and masks are written as
 divisions and remainders by powers of two.
 */
module TlpPackets {
  import opened Bits
  import opened TlpStream

  const ADDRESSES := 0x1_0000_0000_0000_0000

  const MWR32 := 0x40
  const MWR64 := 0x60
  const MRD32 := 0x00
  const MRD64 := 0x20
  const CPL := 0x0a
  const CPLD := 0x4a
  const MSG := 0x30

  // ----- byte order

  /** A word with its bytes in the opposite order. */
  function Swap(w: Word): Word
  {
    (w % 0x100) * 0x100_0000 + (w / 0x100 % 0x100) * 0x1_0000 + (w / 0x1_0000 % 0x100) * 0x100 + w / 0x100_0000
  }

  /** The bytes of a word put together from four bytes. */
  lemma Bytes(a: nat, b: nat, c: nat, d: nat, s: nat)
    requires a < 0x100 && b < 0x100 && c < 0x100 && d < 0x100
    requires s == a * 0x100_0000 + b * 0x1_0000 + c * 0x100 + d
    ensures s % 0x100 == d && s / 0x100 % 0x100 == c && s / 0x1_0000 % 0x100 == b && s / 0x100_0000 == a
  {
    assert s / 0x100 == a * 0x1_0000 + b * 0x100 + c;
    assert s / 0x1_0000 == a * 0x100 + b;
  }

  lemma SwapTwice(w: Word)
    ensures Swap(Swap(w)) == w
  {
    var a, b, c, d := w % 0x100, w / 0x100 % 0x100, w / 0x1_0000 % 0x100, w / 0x100_0000;
    Join(w);
    Bytes(a, b, c, d, Swap(w));
  }

  lemma Join(w: Word)
    ensures w / 0x100_0000 < 0x100
    ensures w == (w / 0x100_0000) * 0x100_0000 + (w / 0x1_0000 % 0x100) * 0x1_0000 + (w / 0x100 % 0x100) * 0x100 + w % 0x100
  {
    var x := w / 0x100;
    var y := x / 0x100;
    assert w / 0x1_0000 == y && w / 0x100_0000 == y / 0x100;
  }

  function SwapAll(ws: seq<Word>): (r: seq<Word>)
    ensures |r| == |ws| && forall i :: 0 <= i < |ws| ==> r[i] == Swap(ws[i])
  {
    seq(|ws|, i requires 0 <= i < |ws| => Swap(ws[i]))
  }

  lemma SwapAllTwice(ws: seq<Word>)
    ensures SwapAll(SwapAll(ws)) == ws
  {
    forall i | 0 <= i < |ws| ensures Swap(Swap(ws[i])) == ws[i] {
      SwapTwice(ws[i]);
    }
  }

  /** The byte loop that turns a word round. */
  method Reverse(w: Word) returns (r: Word)
    ensures r == Swap(w)
  {
    Join(w);
    var val, tmp: nat := w, 0;
    var bdx := 0;
    while bdx < 4
      invariant 0 <= bdx <= 4 && Reversing(w, bdx, val, tmp)
    {
      ReversingNext(w, bdx, val, tmp);
      tmp := tmp * 0x100 + val % 0x100;
      val := val / 0x100;
      bdx := bdx + 1;
    }
    r := tmp;
  }

  /** After `n` bytes. */
  ghost predicate Reversing(w: Word, n: nat, val: nat, tmp: nat)
  {
    match n
    case 0 => val == w && tmp == 0
    case 1 => val == w / 0x100 && tmp == w % 0x100
    case 2 => val == w / 0x1_0000 && tmp == w % 0x100 * 0x100 + w / 0x100 % 0x100
    case 3 => val == w / 0x100_0000 && tmp == w % 0x100 * 0x1_0000 + w / 0x100 % 0x100 * 0x100 + w / 0x1_0000 % 0x100
    case _ => tmp == Swap(w)
  }

  lemma ReversingNext(w: Word, n: nat, val: nat, tmp: nat)
    requires n < 4 && Reversing(w, n, val, tmp)
    ensures Reversing(w, n + 1, val / 0x100, tmp * 0x100 + val % 0x100)
  {
    Join(w);
  }

  /** byte_swap32, in place. */
  method SwapInPlace(a: array<Word>, lo: nat, n: nat)
    requires lo + n <= a.Length
    modifies a
    ensures a[lo..lo + n] == SwapAll(old(a[lo..lo + n]))
    ensures a[..lo] == old(a[..lo]) && a[lo + n..] == old(a[lo + n..])
  {
    var k := lo;
    while k < lo + n
      invariant lo <= k <= lo + n
      invariant forall i :: lo <= i < k ==> a[i] == Swap(old(a[i]))
      invariant forall i :: 0 <= i < a.Length && !(lo <= i < k) ==> a[i] == old(a[i])
    {
      var r := Reverse(a[k]);
      a[k] := r;
      k := k + 1;
    }
  }

  // ----- byte enables

  /** 0xf & ~(0xf << n) */
  function Below(n: nat): (m: nat)
    requires n <= 4
    ensures m < 16
  {
    if n == 0 then 0 else if n == 1 then 1 else if n == 2 then 3 else if n == 3 then 7 else 15
  }

  /** 0xf & (0xf << n) */
  function From(n: nat): (m: nat)
    requires n <= 3
    ensures m < 16
  {
    if n == 0 then 15 else if n == 1 then 14 else if n == 2 then 12 else 8
  }

  predicate Lane(m: nat, k: nat)
    requires k < 4
  {
    (if k == 0 then m else if k == 1 then m / 2 else if k == 2 then m / 4 else m / 8) % 2 == 1
  }

  function And4(a: nat, b: nat): (m: nat)
    ensures m < 16
  {
    (if Lane(a, 0) && Lane(b, 0) then 1 else 0) + (if Lane(a, 1) && Lane(b, 1) then 2 else 0) +
    (if Lane(a, 2) && Lane(b, 2) then 4 else 0) + (if Lane(a, 3) && Lane(b, 3) then 8 else 0)
  }

  /** The enables of the first and last words of a write of `len` bytes from byte `off` on (write.c:79-98). */
  function FirstEnables(ndata: nat, off: nat, len: nat): (m: nat)
    requires off <= 3 && off + len <= 4 * ndata
    ensures m < 16
  {
    if ndata == 1 then And4(Below(len), From(off)) else From(off)
  }

  function LastEnables(ndata: nat, off: nat, len: nat): (m: nat)
    requires off <= 3
    ensures m < 16
  {
    if ndata == 1 then 0 else Below(if (off + len) % 4 == 0 then 4 else (off + len) % 4)
  }

  /** Byte `j` of a write with these enables is written. */
  predicate Enabled(ndata: nat, be0: nat, beN: nat, j: nat)
    requires j < 4 * ndata
  {
    if j < 4 then Lane(be0, j)
    else if j >= 4 * (ndata - 1) then Lane(beN, j - 4 * (ndata - 1))
    else true
  }

  /** The caller asked for byte `j`. */
  predicate Wanted(off: nat, len: nat, j: nat)
  {
    off <= j < off + len
  }

  ghost predicate EnablesMatch(ndata: nat, off: nat, len: nat)
    requires ndata >= 1 && off <= 3 && off + len <= 4 * ndata
  {
    forall j: nat :: j < 4 * ndata ==>
      (Enabled(ndata, FirstEnables(ndata, off, len), LastEnables(ndata, off, len), j) <==> Wanted(off, len, j))
  }

  lemma OneWordEnables(off: nat, len: nat)
    requires off <= 3 && off + len <= 4
    ensures EnablesMatch(1, off, len) <==> off == 0 || len == 0
  {
    if off == 0 || len == 0 {
      assert EnablesMatch(1, off, len);
    } else {
      var j := if len <= off then off else len;
      assert Wanted(off, len, j) && j < 4;
      assert !Enabled(1, FirstEnables(1, off, len), LastEnables(1, off, len), j);
    }
  }

  lemma MoreWordsEnables(ndata: nat, off: nat, len: nat)
    requires ndata >= 2 && off <= 3 && off + len <= 4 * ndata
    ensures EnablesMatch(ndata, off, len) <==> off + len > 4 * (ndata - 1)
  {
    var last := 4 * (ndata - 1);
    if off + len > last {
      var olen := off + len - last;
      assert olen == if (off + len) % 4 == 0 then 4 else (off + len) % 4;
      forall j: nat | j < 4 * ndata
        ensures Enabled(ndata, FirstEnables(ndata, off, len), LastEnables(ndata, off, len), j) <==> Wanted(off, len, j)
      {
      }
    } else {
      assert Enabled(ndata, FirstEnables(ndata, off, len), LastEnables(ndata, off, len), last);
      assert !Wanted(off, len, last);
    }
  }

  /**
   The enables select exactly the requested bytes if and only if a one-word write starts at
   byte 0 (or is empty), and a longer one reaches into its last word.
   */
  lemma EnablesExact(ndata: nat, off: nat, len: nat)
    requires ndata >= 1 && off <= 3 && off + len <= 4 * ndata
    ensures EnablesMatch(ndata, off, len) <==>
      (if ndata == 1 then off == 0 || len == 0 else off + len > 4 * (ndata - 1))
  {
    if ndata == 1 {
      OneWordEnables(off, len);
    } else {
      MoreWordsEnables(ndata, off, len);
    }
  }

  /** A single word written from byte 1 on: the third byte asked for is not enabled. */
  lemma ShortWriteLoses()
    ensures Wanted(1, 3, 3) && !Enabled(1, FirstEnables(1, 1, 3), LastEnables(1, 1, 3), 3)
  {
  }

  // ----- packets

  function Header(kind: nat, ndata: nat): Word
    requires kind < 0x100 && ndata < 0x400
  {
    kind * 0x100_0000 + ndata
  }

  function Second(rid: nat, tag: nat, be: nat): Word
    requires rid < 0x1_0000 && tag < 0x100 && be < 0x100
  {
    rid * 0x1_0000 + tag * 0x100 + be
  }

  function High(addr: nat): nat
  {
    addr / WORD
  }

  function AddressWords(addr: nat): seq<Word>
    requires addr < ADDRESSES
  {
    if High(addr) == 0 then [addr % WORD] else [High(addr), addr % WORD]
  }

  function WritePacket(rid: nat, addr: nat, data: seq<Word>, off: nat, len: nat): seq<Word>
    requires rid < 0x1_0000 && addr < ADDRESSES && 1 <= |data| < 0x400 && off <= 3 && off + len <= 4 * |data|
  {
    [Header(if High(addr) == 0 then MWR32 else MWR64, |data|),
     Second(rid, 0, 16 * LastEnables(|data|, off, len) + FirstEnables(|data|, off, len))]
    + AddressWords(addr) + SwapAll(data)
  }

  function ReadPacket(rid: nat, tag: nat, addr: nat, ndata: nat): seq<Word>
    requires rid < 0x1_0000 && tag < 0x100 && addr < ADDRESSES && 1 <= ndata < 0x400
  {
    [Header(if High(addr) == 0 then MRD32 else MRD64, ndata), Second(rid, tag, if ndata == 1 then 0x0f else 0xff)]
    + AddressWords(addr)
  }

  function ReplyPacket(rid: nat, second: Word, addr: nat, data: seq<Word>): seq<Word>
    requires rid < 0x1_0000 && |data| < 0x400
  {
    [Header(CPLD, |data|), rid * 0x1_0000 + 4 * |data| % 0x1000, second / 0x100 * 0x100 + addr % 0x80] + SwapAll(data)
  }

  // ----- the packets on the wire, field by field

  /** Byte `k` of a word, 0 the least significant. */
  function ByteOf(w: Word, k: nat): nat
    requires k < 4
  {
    (if k == 0 then w else if k == 1 then w / 0x100 else if k == 2 then w / 0x1_0000 else w / 0x100_0000) % 0x100
  }

  /** Byte swapping puts byte `k` where byte `3 - k` was. */
  lemma SwapMeans(w: Word, k: nat)
    requires k < 4
    ensures ByteOf(Swap(w), k) == ByteOf(w, 3 - k)
  {
    Join(w);
    Bytes(w % 0x100, w / 0x100 % 0x100, w / 0x1_0000 % 0x100, w / 0x100_0000, Swap(w));
    var top := w / 0x100_0000;
    assert top % 0x100 == top;
  }

  /** The data of a packet: byte `j` in memory order is byte `3 - j % 4` of its word. */
  ghost predicate BigEndian(p: seq<Word>, data: seq<Word>)
  {
    var bigEndian := |p| == |data| && forall i, k :: 0 <= i < |data| && 0 <= k < 4 ==> ByteOf(p[i], k) == ByteOf(data[i], 3 - k);
    bigEndian
  }

  lemma SwapAllMeans(data: seq<Word>)
    ensures BigEndian(SwapAll(data), data)
  {
    hide Swap, ByteOf;
    var p := SwapAll(data);
    forall i, k | 0 <= i < |data| && 0 <= k < 4 ensures ByteOf(p[i], k) == ByteOf(data[i], 3 - k) {
      SwapMeans(data[i], k);
    }
  }

  /** Words 0 and 1 of any packet: format, type and length; requester, tag and enables. */
  lemma TwoWords(kind: nat, n: nat, rid: nat, tag: nat, lo: nat, hi: nat)
    requires kind < 0x100 && n < 0x400 && rid < 0x1_0000 && tag < 0x100 && lo < 16 && hi < 16
    ensures Header(kind, n) == kind * 0x100_0000 + n
    ensures var w := Second(rid, tag, 16 * hi + lo);
      w / 0x1_0000 == rid && w / 0x100 % 0x100 == tag && w / 16 % 16 == hi && w % 16 == lo
  {
    SecondFields(rid, tag, lo, hi);
    LowPart(Second(rid, tag, 16 * hi + lo), 0x1_0000, rid, tag * 0x100 + (16 * hi + lo));
  }

  /** The address words: one below 2^32, otherwise two, the high one first. */
  ghost predicate AddressAt(p: seq<Word>, addr: nat)
  {
    |p| >= 3 && if addr < 0x1_0000_0000 then p[2] == addr else |p| >= 4 && p[2] == addr / 0x1_0000_0000 && p[3] == addr % 0x1_0000_0000
  }

  lemma AddressPlaced(p: seq<Word>, addr: nat)
    requires addr < ADDRESSES && |p| >= 2 + |AddressWords(addr)| && p[2..2 + |AddressWords(addr)|] == AddressWords(addr)
    ensures AddressAt(p, addr) && |AddressWords(addr)| == if addr < 0x1_0000_0000 then 1 else 2
    ensures High(addr) == 0 <==> addr < 0x1_0000_0000
  {
    var ws := AddressWords(addr);
    assert p[2] == p[2..2 + |ws|][0];
    if High(addr) != 0 {
      assert p[3] == p[2..2 + |ws|][1];
    }
  }

  lemma WriteFormat(rid: nat, addr: nat, data: seq<Word>, off: nat, len: nat)
    requires rid < 0x1_0000 && addr < ADDRESSES && 1 <= |data| < 0x400 && off <= 3 && off + len <= 4 * |data|
    ensures var p, h := WritePacket(rid, addr, data, off, len), if addr < 0x1_0000_0000 then 3 else 4;
      && |p| == h + |data| && p[0] == (if addr < 0x1_0000_0000 then 0x4000_0000 else 0x6000_0000) + |data|
      && p[1] / 0x1_0000 == rid && p[1] / 0x100 % 0x100 == 0
      && p[1] % 16 == FirstEnables(|data|, off, len) && p[1] / 16 % 16 == LastEnables(|data|, off, len)
      && AddressAt(p, addr) && BigEndian(p[h..], data)
  {
    hide Header, Second, FirstEnables, LastEnables, Swap, AddressWords, High, AddressAt;
    var p := WritePacket(rid, addr, data, off, len);
    TwoWords(if High(addr) == 0 then MWR32 else MWR64, |data|, rid, 0, FirstEnables(|data|, off, len), LastEnables(|data|, off, len));
    assert p[2..2 + |AddressWords(addr)|] == AddressWords(addr);
    AddressPlaced(p, addr);
    assert p[2 + |AddressWords(addr)|..] == SwapAll(data);
    SwapAllMeans(data);
  }

  lemma ReadFormat(rid: nat, tag: nat, addr: nat, ndata: nat)
    requires rid < 0x1_0000 && tag < 0x100 && addr < ADDRESSES && 1 <= ndata < 0x400
    ensures var p := ReadPacket(rid, tag, addr, ndata);
      && |p| == (if addr < 0x1_0000_0000 then 3 else 4) && p[0] == (if addr < 0x1_0000_0000 then 0 else 0x2000_0000) + ndata
      && p[1] / 0x1_0000 == rid && p[1] / 0x100 % 0x100 == tag
      && p[1] % 16 == 15 && p[1] / 16 % 16 == (if ndata == 1 then 0 else 15) && AddressAt(p, addr)
  {
    hide Header, Second, AddressWords, High, AddressAt;
    var p := ReadPacket(rid, tag, addr, ndata);
    TwoWords(if High(addr) == 0 then MRD32 else MRD64, ndata, rid, tag, 15, if ndata == 1 then 0 else 15);
    assert p[2..2 + |AddressWords(addr)|] == AddressWords(addr);
    AddressPlaced(p, addr);
  }

  /**
   A completion: the completer's id and byte count with status 0; the requester's id and tag as in the request,
   and the low bits of the address.
   */
  lemma ReplyFormat(rid: nat, second: Word, addr: nat, data: seq<Word>)
    requires rid < 0x1_0000 && |data| < 0x400
    ensures var r := ReplyPacket(rid, second, addr, data);
      && |r| == 3 + |data| && r[0] == 0x4a00_0000 + |data|
      && r[1] / 0x1_0000 == rid && r[1] % 0x1_0000 == 4 * |data|
      && r[2] / 0x100 == second / 0x100 && r[2] % 0x100 == addr % 128 && BigEndian(r[3..], data)
  {
    hide Swap;
    var r := ReplyPacket(rid, second, addr, data);
    assert 4 * |data| % 0x1000 == 4 * |data|;
    LowPart(r[1], 0x1_0000, rid, 4 * |data|);
    LowPart(r[2], 0x100, second / 0x100, addr % 0x80);
    assert r[3..] == SwapAll(data);
    SwapAllMeans(data);
  }

  /** What the enables of a write say about each of its bytes. */
  lemma EnablesPerByte(ndata: nat, off: nat, len: nat, j: nat)
    requires ndata >= 1 && off <= 3 && off + len <= 4 * ndata && j < 4 * ndata
    ensures var end := if (off + len) % 4 == 0 then 4 else (off + len) % 4;
      Enabled(ndata, FirstEnables(ndata, off, len), LastEnables(ndata, off, len), j) <==>
        if ndata == 1 then off <= j < len else (j < 4 ==> off <= j) && (j >= 4 * (ndata - 1) ==> j - 4 * (ndata - 1) < end)
  {
  }

  /** simbus_pcie_tlp_write, up to the sending. */
  method BuildWrite(rid: nat, addr: nat, data: seq<Word>, off: nat, len: nat) returns (tlp: seq<Word>)
    requires rid < 0x1_0000 && addr < ADDRESSES && 1 <= |data| < 0x400 && off <= 3 && off + len <= 4 * |data|
    ensures tlp == WritePacket(rid, addr, data, off, len)
  {
    hide Swap, FirstEnables, LastEnables;
    var addrH, addrL := addr / WORD, addr % WORD;
    tlp := [if addrH == 0 then Header(MWR32, |data|) else Header(MWR64, |data|)];
    tlp := tlp + [Second(rid, 0, 16 * LastEnables(|data|, off, len) + FirstEnables(|data|, off, len))];
    if addrH != 0 {
      tlp := tlp + [addrH];
    }
    tlp := tlp + [addrL];
    ghost var head := tlp;
    assert head == tlp[..2] + AddressWords(addr);
    var idx := 0;
    while idx < |data|
      invariant 0 <= idx <= |data| && tlp == head + SwapAll(data[..idx])
    {
      var tmp := Reverse(data[idx]);
      assert SwapAll(data[..idx + 1]) == SwapAll(data[..idx]) + [tmp];
      tlp := tlp + [tmp];
      idx := idx + 1;
    }
    assert data[..idx] == data;
  }

  // ----- what a received packet means

  /** A handler of reads: address, number of words, first and last enables. */
  type Reader = (nat, nat, nat, nat) -> seq<Word>

  ghost predicate GoodReader(reader: Reader)
  {
    forall a, n, x, y :: |reader(a, n, x, y)| == n
  }

  datatype Effect =
    | Written(addr: nat, data: seq<Word>, be0: nat, beN: nat)
    | Reply(tlp: seq<Word>)
    | Completed(tag: nat, words: nat)
    | Interrupt(line: nat, raised: bool)
    | Other

  function Kind(b: seq<Word>): nat
    requires |b| == MAX_TLP
  {
    b[0] / 0x100_0000
  }

  function Count(b: seq<Word>): (n: nat)
    requires |b| == MAX_TLP
    ensures n < 0x400
  {
    b[0] % 0x400
  }

  function Address(b: seq<Word>, wide: bool): nat
    requires |b| == MAX_TLP
  {
    if wide then b[2] * WORD + b[3] else b[2]
  }

  /** complete_recv_tlp, on the whole receive buffer. */
  function Dispatch(b: seq<Word>, rid: nat, reader: Reader): Effect
    requires |b| == MAX_TLP && rid < 0x1_0000
  {
    var k, n := Kind(b), Count(b);
    var be0, beN := b[1] % 16, b[1] / 16 % 16;
    if k == CPL then Completed(b[2] / 0x100 % 0x100, 3)
    else if k == CPLD then Completed(b[2] / 0x100 % 0x100, 3 + n)
    else if k == MWR32 then Written(Address(b, false), SwapAll(b[3..3 + n]), be0, beN)
    else if k == MWR64 then Written(Address(b, true), SwapAll(b[4..4 + n]), be0, beN)
    else if k == MRD32 || k == MRD64 then
      var addr := Address(b, k == MRD64);
      var data := reader(addr, n, be0, beN);
      if |data| < 0x400 then Reply(ReplyPacket(rid, b[1], addr, data)) else Other
    else if k == MSG && b[1] % 0x100 / 4 * 4 == 0x20 then Interrupt(b[1] % 4, true)
    else if k == MSG && b[1] % 0x100 / 4 * 4 == 0x24 then Interrupt(b[1] % 4, false)
    else Other
  }

  /** Packets by their first byte. */
  lemma DispatchTable(b: seq<Word>, rid: nat, reader: Reader)
    requires |b| == MAX_TLP && rid < 0x1_0000 && GoodReader(reader)
    ensures var k, n, e := b[0] / 0x100_0000, b[0] % 0x400, Dispatch(b, rid, reader);
      var hi: nat, lo: nat := b[2], b[3];
      && (k == 0x0a ==> e == Completed(b[2] / 0x100 % 0x100, 3))
      && (k == 0x4a ==> e == Completed(b[2] / 0x100 % 0x100, 3 + n))
      && (k == 0x40 ==> e.Written? && e.addr == b[2] && BigEndian(b[3..3 + n], e.data) && e.be0 == b[1] % 16 && e.beN == b[1] / 16 % 16)
      && (k == 0x60 ==> e.Written? && e.addr == hi * 0x1_0000_0000 + lo && BigEndian(b[4..4 + n], e.data)
                        && e.be0 == b[1] % 16 && e.beN == b[1] / 16 % 16)
      && (k == 0x00 ==> e == Reply(ReplyPacket(rid, b[1], b[2], reader(b[2], n, b[1] % 16, b[1] / 16 % 16))))
      && (k == 0x20 ==> e == Reply(ReplyPacket(rid, b[1], hi * 0x1_0000_0000 + lo,
                                               reader(hi * 0x1_0000_0000 + lo, n, b[1] % 16, b[1] / 16 % 16))))
      && (k !in {0x00, 0x0a, 0x20, 0x30, 0x40, 0x4a, 0x60} ==> e == Other)
  {
    hide Swap, ReplyPacket, ByteOf;
    var n := b[0] % 0x400;
    Unswapped(b[3..3 + n]);
    Unswapped(b[4..4 + n]);
  }

  lemma Unswapped(p: seq<Word>)
    ensures BigEndian(p, SwapAll(p))
  {
    hide Swap, ByteOf;
    SwapAllMeans(SwapAll(p));
    SwapAllTwice(p);
  }

  /** The buffer starts with packet `p`. */
  ghost predicate Holds(b: seq<Word>, p: seq<Word>)
  {
    |b| == MAX_TLP && p <= b
  }

  lemma HeaderFields(kind: nat, ndata: nat)
    requires kind < 0x100 && ndata < 0x400
    ensures Header(kind, ndata) / 0x100_0000 == kind && Header(kind, ndata) % 0x400 == ndata
  {
    var w := Header(kind, ndata);
    LowPart(w, 0x100_0000, kind, ndata);
    LowPart(w, 0x400, kind * 0x4000, ndata);
  }

  lemma SecondFields(rid: nat, tag: nat, lo: nat, hi: nat)
    requires rid < 0x1_0000 && tag < 0x100 && lo < 16 && hi < 16
    ensures var w := Second(rid, tag, 16 * hi + lo);
      w % 16 == lo && w / 16 % 16 == hi && w / 0x100 == rid * 0x100 + tag && w / 0x100 % 0x100 == tag
  {
    var w := Second(rid, tag, 16 * hi + lo);
    var x := rid * 0x100 + tag;
    assert w == 0x100 * x + (16 * hi + lo);
    LowPart(w, 0x100, x, 16 * hi + lo);
    LowPart(w, 16, 16 * x + hi, lo);
    LowPart(16 * x + hi, 16, x, hi);
    LowPart(x, 0x100, rid, tag);
  }

  lemma LowPart(w: nat, p: nat, q: nat, r: nat)
    requires r < p && w == p * q + r
    ensures w / p == q && w % p == r
  {
    QuotientUnique(w, p, q, r);
  }

  lemma AddressFields(addr: nat, b: seq<Word>)
    requires addr < ADDRESSES && |b| == MAX_TLP && b[2..2 + |AddressWords(addr)|] == AddressWords(addr)
    ensures Address(b, High(addr) != 0) == addr
  {
    if High(addr) == 0 {
      assert b[2] == b[2..3][0];
    } else {
      assert b[2] == b[2..4][0] && b[3] == b[2..4][1];
    }
  }

  /** A built write, when received, calls the handler with the same address, data and enables. */
  lemma WriteRoundTrip(rid: nat, addr: nat, data: seq<Word>, off: nat, len: nat, b: seq<Word>, rid': nat, reader: Reader)
    requires rid < 0x1_0000 && addr < ADDRESSES && 1 <= |data| < 0x400 && off <= 3 && off + len <= 4 * |data|
    requires rid' < 0x1_0000 && Holds(b, WritePacket(rid, addr, data, off, len))
    ensures Dispatch(b, rid', reader) == Written(addr, data, FirstEnables(|data|, off, len), LastEnables(|data|, off, len))
  {
    hide Swap, FirstEnables, LastEnables, Header, Second, ReplyPacket, High;
    var p := WritePacket(rid, addr, data, off, len);
    var n, words := |data|, AddressWords(addr);
    HeaderFields(if High(addr) == 0 then MWR32 else MWR64, n);
    SecondFields(rid, 0, FirstEnables(n, off, len), LastEnables(n, off, len));
    assert b[0] == p[0] && b[1] == p[1];
    assert b[2..2 + |words|] == p[2..2 + |words|] == words;
    AddressFields(addr, b);
    var lo := 2 + |words|;
    assert b[lo..lo + n] == p[lo..lo + n] == SwapAll(data);
    SwapAllTwice(data);
  }

  /** A built read request, when received, is answered with the handler's data. */
  lemma ReadAnswered(rid: nat, tag: nat, addr: nat, ndata: nat, b: seq<Word>, rid': nat, reader: Reader)
    requires rid < 0x1_0000 && tag < 0x100 && addr < ADDRESSES && 1 <= ndata < 0x400 && rid' < 0x1_0000 && GoodReader(reader)
    requires Holds(b, ReadPacket(rid, tag, addr, ndata))
    ensures var data := reader(addr, ndata, 15, if ndata == 1 then 0 else 15);
      |data| == ndata && b[1] / 0x100 % 0x100 == tag && Dispatch(b, rid', reader) == Reply(ReplyPacket(rid', b[1], addr, data))
  {
    hide Swap, Header, Second, ReplyPacket, High, SwapAll;
    var p := ReadPacket(rid, tag, addr, ndata);
    var words := AddressWords(addr);
    HeaderFields(if High(addr) == 0 then MRD32 else MRD64, ndata);
    SecondFields(rid, tag, 15, if ndata == 1 then 0 else 15);
    assert b[0] == p[0] && b[1] == p[1];
    assert b[2..2 + |words|] == p[2..2 + |words|] == words;
    AddressFields(addr, b);
  }

  /** The data a requester takes from a completion, or all ones if its status is not success (read.c:118-142). */
  function ReadData(ctlp: seq<Word>, ndata: nat): (r: seq<Word>)
    requires |ctlp| >= 3 + ndata
    ensures |r| == ndata
  {
    if ctlp[1] / 0x2000 % 8 == 0 then SwapAll(ctlp[3..3 + ndata]) else seq(ndata, _ => 0xffff_ffff)
  }

  lemma ReplyFields(rid: nat, second: Word, addr: nat, data: seq<Word>)
    requires rid < 0x1_0000 && |data| < 0x400
    ensures var r := ReplyPacket(rid, second, addr, data);
      && |r| == 3 + |data| && r[0] / 0x100_0000 == CPLD && r[0] % 0x400 == |data|
      && r[1] / 0x2000 % 8 == 0 && r[2] / 0x100 % 0x100 == second / 0x100 % 0x100
      && r[3..] == SwapAll(data)
  {
    hide Swap;
    HeaderFields(CPLD, |data|);
    var q := 4 * |data| % 0x1000;
    assert (rid * 0x1_0000 + q) / 0x2000 == rid * 8;
    assert (second / 0x100 * 0x100 + addr % 0x80) / 0x100 == second / 0x100;
  }

  /** The reply lands in the slot of the request's tag and gives the handler's data. */
  lemma ReadRoundTrip(rid: nat, tag: nat, addr: nat, ndata: nat, b: seq<Word>, rid': nat, reader: Reader, b': seq<Word>)
    requires rid < 0x1_0000 && tag < 0x100 && addr < ADDRESSES && 1 <= ndata < 0x400 && rid' < 0x1_0000 && GoodReader(reader)
    requires Holds(b, ReadPacket(rid, tag, addr, ndata))
    requires Dispatch(b, rid', reader).Reply? ==> Holds(b', Dispatch(b, rid', reader).tlp)
    ensures Dispatch(b, rid', reader).Reply? && |b'| == MAX_TLP
    ensures Dispatch(b', rid, reader) == Completed(tag, 3 + ndata)
    ensures ReadData(b'[..3 + ndata], ndata) == reader(addr, ndata, 15, if ndata == 1 then 0 else 15)
  {
    hide Swap, ReplyPacket, GoodReader, ReadPacket, SwapAll;
    ReadAnswered(rid, tag, addr, ndata, b, rid', reader);
    var data := reader(addr, ndata, 15, if ndata == 1 then 0 else 15);
    var r := ReplyPacket(rid', b[1], addr, data);
    ReplyFields(rid', b[1], addr, data);
    assert b'[0] == r[0] && b'[1] == r[1] && b'[2] == r[2];
    assert b'[..3 + ndata] == r;
    assert r[3..3 + ndata] == r[3..];
    SwapAllTwice(data);
  }
}
