/**
 The bytes of one trace section and a reader for them (written by
 server/lxt2_write.c:1184-1295 and 1325-1379). Integers are big-endian. A section is a
 run of granules followed by the string dictionary, the mask dictionary and a trailer
 of three counts, so a reader starts from the end.
 */
module TraceFormat {
  import opened Bits

  type byte = b: nat | b < 256

  datatype Parsed<T> = Bad | Got(value: T, rest: seq<byte>)

  datatype Granule = Granule(times: seq<nat>, mapWidth: nat, maps: seq<nat>, codeWidth: nat, codes: seq<seq<nat>>)

  datatype Section = Section(granules: seq<Granule>, dict: seq<string>, masks: seq<nat>)

  const TAG_TIME: byte := 0
  const TAG_DICT: byte := 1

  lemma Associate(a: seq<byte>, b: seq<byte>, c: seq<byte>)
    ensures (a + b) + c == a + (b + c)
  {
  }

  // ----- numbers

  function Pow256(w: nat): (p: nat)
    ensures p > 0
  {
    if w == 0 then 1 else 256 * Pow256(w - 1)
  }

  function Num(bs: seq<byte>): nat
  {
    if bs == [] then 0 else 256 * Num(bs[..|bs| - 1]) + bs[|bs| - 1]
  }

  function NumBytes(x: nat, w: nat): (bs: seq<byte>)
    ensures |bs| == w
  {
    if w == 0 then [] else NumBytes(x / 256, w - 1) + [x % 256]
  }

  lemma {:induction false} NumRoundTrip(x: nat, w: nat)
    requires x < Pow256(w)
    ensures Num(NumBytes(x, w)) == x
  {
    if w > 0 {
      NumRoundTrip(x / 256, w - 1);
      assert NumBytes(x, w)[..w - 1] == NumBytes(x / 256, w - 1);
    }
  }

  function NumsBytes(xs: seq<nat>, w: nat): (bs: seq<byte>)
    ensures |bs| == |xs| * w
  {
    if xs == [] then [] else NumsBytes(xs[..|xs| - 1], w) + NumBytes(xs[|xs| - 1], w)
  }

  lemma {:induction false} NumsBytesCons(x: nat, xs: seq<nat>, w: nat)
    ensures NumsBytes([x] + xs, w) == NumBytes(x, w) + NumsBytes(xs, w)
  {
    if xs == [] {
      assert ([x] + xs)[..0] == [];
    } else {
      var n := |xs|;
      NumsBytesCons(x, xs[..n - 1], w);
      assert ([x] + xs)[..n] == [x] + xs[..n - 1];
    }
  }

  ghost predicate Fit(xs: seq<nat>, w: nat)
  {
    forall i :: 0 <= i < |xs| ==> xs[i] < Pow256(w)
  }

  function ReadNums(bs: seq<byte>, n: nat, w: nat): Parsed<seq<nat>>
  {
    if n == 0 then Got([], bs)
    else if |bs| < w then Bad
    else
      match ReadNums(bs[w..], n - 1, w)
      case Bad => Bad
      case Got(xs, rest) => Got([Num(bs[..w])] + xs, rest)
  }

  lemma {:induction false} ReadNumsBack(xs: seq<nat>, w: nat, rest: seq<byte>)
    requires Fit(xs, w)
    ensures ReadNums(NumsBytes(xs, w) + rest, |xs|, w) == Got(xs, rest)
  {
    var bs := NumsBytes(xs, w) + rest;
    if xs == [] {
      assert bs == rest;
    } else {
      NumsBytesCons(xs[0], xs[1..], w);
      assert xs == [xs[0]] + xs[1..];
      assert bs[..w] == NumBytes(xs[0], w);
      assert bs[w..] == NumsBytes(xs[1..], w) + rest;
      NumRoundTrip(xs[0], w);
      ReadNumsBack(xs[1..], w, rest);
    }
  }

  // ----- the change codes of all facilities, one list each

  function CodesBytes(codes: seq<seq<nat>>, w: nat): seq<byte>
  {
    if codes == [] then [] else CodesBytes(codes[..|codes| - 1], w) + NumsBytes(codes[|codes| - 1], w)
  }

  lemma {:induction false} CodesBytesCons(c: seq<nat>, codes: seq<seq<nat>>, w: nat)
    ensures CodesBytes([c] + codes, w) == NumsBytes(c, w) + CodesBytes(codes, w)
  {
    if codes == [] {
      assert ([c] + codes)[..0] == [];
    } else {
      hide NumsBytes;
      var n := |codes|;
      CodesBytesCons(c, codes[..n - 1], w);
      assert ([c] + codes)[..n] == [c] + codes[..n - 1] && ([c] + codes)[n] == codes[n - 1];
      Associate(NumsBytes(c, w), CodesBytes(codes[..n - 1], w), NumsBytes(codes[n - 1], w));
    }
  }

  function ReadCodes(bs: seq<byte>, counts: seq<nat>, w: nat): Parsed<seq<seq<nat>>>
    decreases |counts|
  {
    if counts == [] then Got([], bs)
    else
      match ReadNums(bs, counts[0], w)
      case Bad => Bad
      case Got(c, rest) =>
        match ReadCodes(rest, counts[1..], w)
        case Bad => Bad
        case Got(cs, rest') => Got([c] + cs, rest')
  }

  ghost predicate Counted(codes: seq<seq<nat>>, counts: seq<nat>, w: nat)
  {
    |codes| == |counts| && forall i :: 0 <= i < |codes| ==> |codes[i]| == counts[i] && Fit(codes[i], w)
  }

  lemma {:induction false} ReadCodesBack(codes: seq<seq<nat>>, counts: seq<nat>, w: nat, rest: seq<byte>)
    requires Counted(codes, counts, w)
    ensures ReadCodes(CodesBytes(codes, w) + rest, counts, w) == Got(codes, rest)
    decreases |codes|
  {
    var bs := CodesBytes(codes, w) + rest;
    if codes == [] {
      assert bs == rest;
    } else {
      var tail := CodesBytes(codes[1..], w) + rest;
      CodesBytesCons(codes[0], codes[1..], w);
      assert codes == [codes[0]] + codes[1..];
      assert bs == NumsBytes(codes[0], w) + tail;
      ReadNumsBack(codes[0], w, tail);
      ReadCodesBack(codes[1..], counts[1..], w, rest);
    }
  }

  // ----- strings

  /** Characters that survive being written as one byte and cannot be taken for the terminator. */
  ghost predicate IsText(s: string)
  {
    forall i :: 0 <= i < |s| ==> 0 < s[i] as int < 256
  }

  function CharByte(c: char): byte
  {
    (c as int) % 256
  }

  function StringBytes(s: string): (bs: seq<byte>)
    ensures |bs| == |s| + 1
  {
    seq(|s|, i requires 0 <= i < |s| => CharByte(s[i])) + [0]
  }

  function StringsBytes(ss: seq<string>): seq<byte>
  {
    if ss == [] then [] else StringsBytes(ss[..|ss| - 1]) + StringBytes(ss[|ss| - 1])
  }

  lemma {:induction false} StringsBytesCons(s: string, ss: seq<string>)
    ensures StringsBytes([s] + ss) == StringBytes(s) + StringsBytes(ss)
  {
    if ss == [] {
      assert ([s] + ss)[..0] == [];
    } else {
      var n := |ss|;
      StringsBytesCons(s, ss[..n - 1]);
      assert ([s] + ss)[..n] == [s] + ss[..n - 1] && ([s] + ss)[n] == ss[n - 1];
      Associate(StringBytes(s), StringsBytes(ss[..n - 1]), StringBytes(ss[n - 1]));
    }
  }

  function ReadString(bs: seq<byte>): Parsed<string>
  {
    if bs == [] then Bad
    else if bs[0] == 0 then Got("", bs[1..])
    else
      match ReadString(bs[1..])
      case Bad => Bad
      case Got(s, rest) => Got([bs[0] as char] + s, rest)
  }

  lemma {:induction false} ReadStringBack(s: string, rest: seq<byte>)
    requires IsText(s)
    ensures ReadString(StringBytes(s) + rest) == Got(s, rest)
  {
    var bs := StringBytes(s) + rest;
    if s == "" {
      assert bs[1..] == rest;
    } else {
      assert bs[1..] == StringBytes(s[1..]) + rest;
      ReadStringBack(s[1..], rest);
      assert s == [s[0]] + s[1..];
    }
  }

  function ReadStrings(bs: seq<byte>, n: nat): Parsed<seq<string>>
    decreases n
  {
    if n == 0 then Got([], bs)
    else
      match ReadString(bs)
      case Bad => Bad
      case Got(s, rest) =>
        match ReadStrings(rest, n - 1)
        case Bad => Bad
        case Got(ss, rest') => Got([s] + ss, rest')
  }

  lemma {:induction false} ReadStringsBack(ss: seq<string>, rest: seq<byte>)
    requires forall i :: 0 <= i < |ss| ==> IsText(ss[i])
    ensures ReadStrings(StringsBytes(ss) + rest, |ss|) == Got(ss, rest)
    decreases |ss|
  {
    var bs := StringsBytes(ss) + rest;
    if ss == [] {
      assert bs == rest;
    } else {
      var tail := StringsBytes(ss[1..]) + rest;
      StringsBytesCons(ss[0], ss[1..]);
      assert ss == [ss[0]] + ss[1..];
      assert bs == StringBytes(ss[0]) + tail;
      ReadStringBack(ss[0], tail);
      ReadStringsBack(ss[1..], rest);
    }
  }

  // ----- granules

  /** The counts that a granule stores in single bytes fit there. */
  predicate Narrow(g: Granule)
  {
    |g.times| < 256 && g.mapWidth < 256 && g.codeWidth < 256
  }

  function GranuleBytes(g: Granule): seq<byte>
    requires Narrow(g)
  {
    [TAG_TIME, |g.times|] + NumsBytes(g.times, 8)
    + [g.mapWidth] + NumsBytes(g.maps, g.mapWidth)
    + [g.codeWidth] + CodesBytes(g.codes, g.codeWidth)
  }

  /** How many codes each facility has: the number of bits set in its mask. */
  function Counts(maps: seq<nat>, masks: seq<nat>): (c: seq<nat>)
    requires forall i :: 0 <= i < |maps| ==> maps[i] < |masks|
    ensures |c| == |maps|
  {
    seq(|maps|, i requires 0 <= i < |maps| => CountBelow(masks[maps[i]], 64))
  }

  /** What a granule must satisfy to be read back with the section's masks. */
  ghost predicate Readable(g: Granule, masks: seq<nat>, facs: nat)
  {
    && Narrow(g) && Fit(g.times, 8)
    && |g.maps| == facs && Fit(g.maps, g.mapWidth)
    && (forall i :: 0 <= i < |g.maps| ==> g.maps[i] < |masks|)
    && Counted(g.codes, Counts(g.maps, masks), g.codeWidth)
  }

  /** Reads a granule after its tag byte. */
  function ReadGranule(bs: seq<byte>, masks: seq<nat>, facs: nat): Parsed<Granule>
  {
    if bs == [] then Bad else
    match ReadNums(bs[1..], bs[0], 8)
    case Bad => Bad
    case Got(times, b1) =>
      if b1 == [] then Bad else
      match ReadNums(b1[1..], facs, b1[0])
      case Bad => Bad
      case Got(maps, b2) =>
        if b2 == [] || exists i :: 0 <= i < |maps| && maps[i] >= |masks| then Bad else
        match ReadCodes(b2[1..], Counts(maps, masks), b2[0])
        case Bad => Bad
        case Got(codes, b3) => Got(Granule(times, b1[0], maps, b2[0], codes), b3)
  }

  lemma GranuleLayout(g: Granule, rest: seq<byte>, b1: seq<byte>, b2: seq<byte>)
    requires Narrow(g)
    requires b2 == [g.codeWidth] + (CodesBytes(g.codes, g.codeWidth) + rest)
    requires b1 == [g.mapWidth] + (NumsBytes(g.maps, g.mapWidth) + b2)
    ensures (GranuleBytes(g) + rest)[1..] == [|g.times|] + (NumsBytes(g.times, 8) + b1)
  {
  }

  lemma ReadGranuleBack(g: Granule, masks: seq<nat>, facs: nat, rest: seq<byte>)
    requires Readable(g, masks, facs)
    ensures ReadGranule((GranuleBytes(g) + rest)[1..], masks, facs) == Got(g, rest)
  {
    var b2 := [g.codeWidth] + (CodesBytes(g.codes, g.codeWidth) + rest);
    var b1 := [g.mapWidth] + (NumsBytes(g.maps, g.mapWidth) + b2);
    var b0 := [|g.times|] + (NumsBytes(g.times, 8) + b1);
    GranuleLayout(g, rest, b1, b2);
    assert b0[1..] == NumsBytes(g.times, 8) + b1;
    assert b1[1..] == NumsBytes(g.maps, g.mapWidth) + b2;
    assert b2[1..] == CodesBytes(g.codes, g.codeWidth) + rest;
    ReadNumsBack(g.times, 8, b1);
    ReadNumsBack(g.maps, g.mapWidth, b2);
    ReadCodesBack(g.codes, Counts(g.maps, masks), g.codeWidth, rest);
  }

  ghost predicate AllReadable(gs: seq<Granule>, masks: seq<nat>, facs: nat)
  {
    forall i :: 0 <= i < |gs| ==> Readable(gs[i], masks, facs)
  }

  ghost predicate Writable(gs: seq<Granule>)
  {
    forall i :: 0 <= i < |gs| ==> Narrow(gs[i])
  }

  function Flat(parts: seq<seq<byte>>): seq<byte>
  {
    if parts == [] then [] else Flat(parts[..|parts| - 1]) + parts[|parts| - 1]
  }

  lemma {:induction false} FlatCons(p: seq<byte>, parts: seq<seq<byte>>)
    ensures Flat([p] + parts) == p + Flat(parts)
  {
    if parts == [] {
      assert ([p] + parts)[..0] == [];
    } else {
      var n := |parts|;
      FlatCons(p, parts[..n - 1]);
      assert ([p] + parts)[..n] == [p] + parts[..n - 1];
    }
  }

  ghost function Pieces(gs: seq<Granule>): seq<seq<byte>>
    requires Writable(gs)
  {
    seq(|gs|, i requires 0 <= i < |gs| => GranuleBytes(gs[i]))
  }

  ghost function GranulesBytes(gs: seq<Granule>): seq<byte>
    requires Writable(gs)
  {
    Flat(Pieces(gs))
  }

  lemma GranulesBytesCons(g: Granule, gs: seq<Granule>)
    requires Narrow(g) && Writable(gs)
    ensures Writable([g] + gs) && GranulesBytes([g] + gs) == GranuleBytes(g) + GranulesBytes(gs)
  {
    hide GranuleBytes, Flat;
    assert Pieces([g] + gs) == [GranuleBytes(g)] + Pieces(gs);
    FlatCons(GranuleBytes(g), Pieces(gs));
  }

  lemma GranulesBytesAppend(gs: seq<Granule>, g: Granule)
    requires Narrow(g) && Writable(gs)
    ensures Writable(gs + [g]) && GranulesBytes(gs + [g]) == GranulesBytes(gs) + GranuleBytes(g)
  {
    hide GranuleBytes;
    assert Pieces(gs + [g]) == Pieces(gs) + [GranuleBytes(g)];
    assert Pieces(gs + [g])[..|gs|] == Pieces(gs);
  }

  /** Granules up to and including the tag that opens the dictionaries. */
  function ReadGranules(bs: seq<byte>, masks: seq<nat>, facs: nat): Parsed<seq<Granule>>
    decreases |bs|
  {
    if bs == [] then Bad
    else if bs[0] == TAG_DICT then Got([], bs[1..])
    else if bs[0] != TAG_TIME then Bad
    else
      match ReadGranule(bs[1..], masks, facs)
      case Bad => Bad
      case Got(g, rest) =>
        if |rest| >= |bs| then Bad else
        match ReadGranules(rest, masks, facs)
        case Bad => Bad
        case Got(gs, rest') => Got([g] + gs, rest')
  }

  lemma ReadOneMore(g: Granule, bs: seq<byte>, tail: seq<byte>, masks: seq<nat>, facs: nat)
    requires Readable(g, masks, facs) && bs == GranuleBytes(g) + tail
    ensures ReadGranules(bs, masks, facs) ==
      match ReadGranules(tail, masks, facs)
      case Bad => Bad
      case Got(gs, rest) => Got([g] + gs, rest)
  {
    ReadGranuleBack(g, masks, facs, tail);
    assert |GranuleBytes(g)| > 0 && GranuleBytes(g)[0] == TAG_TIME == bs[0];
  }

  lemma {:induction false} ReadGranulesBack(gs: seq<Granule>, masks: seq<nat>, facs: nat, rest: seq<byte>)
    requires AllReadable(gs, masks, facs)
    ensures Writable(gs)
    ensures ReadGranules(GranulesBytes(gs) + ([TAG_DICT] + rest), masks, facs) == Got(gs, rest)
    decreases |gs|
  {
    assert Writable(gs);
    var end := [TAG_DICT] + rest;
    if gs == [] {
      assert GranulesBytes(gs) + end == end && end[1..] == rest;
    } else {
      var tail := GranulesBytes(gs[1..]) + end;
      GranulesBytesCons(gs[0], gs[1..]);
      assert gs == [gs[0]] + gs[1..];
      Associate(GranuleBytes(gs[0]), GranulesBytes(gs[1..]), end);
      ReadOneMore(gs[0], GranulesBytes(gs) + end, tail, masks, facs);
      ReadGranulesBack(gs[1..], masks, facs, rest);
    }
  }

  // ----- sections

  ghost function TrailerBytes(dict: seq<string>, masks: seq<nat>): seq<byte>
  {
    StringsBytes(dict) + NumsBytes(masks, 8)
    + NumBytes(|dict|, 4) + NumBytes(|StringsBytes(dict)|, 4) + NumBytes(|masks|, 4)
  }

  ghost function SectionBytes(s: Section): seq<byte>
    requires Writable(s.granules)
  {
    GranulesBytes(s.granules) + [TAG_DICT] + TrailerBytes(s.dict, s.masks)
  }

  /** None of the three 32-bit counts in the trailer has wrapped around. */
  ghost predicate CountsFit(dict: seq<string>, masks: seq<nat>)
  {
    |dict| < Pow256(4) && |StringsBytes(dict)| < Pow256(4) && |masks| < Pow256(4)
  }

  ghost predicate SectionReadable(s: Section, facs: nat)
  {
    && AllReadable(s.granules, s.masks, facs)
    && (forall i :: 0 <= i < |s.dict| ==> IsText(s.dict[i]))
    && Fit(s.masks, 8)
  }

  /** Reads a section from its three parts: granules, string dictionary and mask dictionary. */
  function ReadParts(body: seq<byte>, names: seq<byte>, table: seq<byte>,
                     dictCount: nat, maskCount: nat, facs: nat): Parsed<Section>
  {
    match ReadNums(table, maskCount, 8)
    case Bad => Bad
    case Got(masks, r1) =>
      match ReadStrings(names, dictCount)
      case Bad => Bad
      case Got(dict, r2) =>
        match ReadGranules(body, masks, facs)
        case Bad => Bad
        case Got(granules, r3) => if r1 == r2 == r3 == [] then Got(Section(granules, dict, masks), []) else Bad
  }

  datatype Split = NoSplit | Split(body: seq<byte>, names: seq<byte>, table: seq<byte>, dictCount: nat, maskCount: nat)

  /** Finds the three parts of a section from the counts at its end. */
  function SplitSection(bs: seq<byte>): Split
  {
    var n := |bs|;
    if n < 12 then NoSplit else
    var maskCount := Num(bs[n - 4..]);
    var m := n - 12 - 8 * maskCount;
    var d := m - Num(bs[n - 8..n - 4]);
    if d < 0 then NoSplit
    else Split(bs[..d], bs[d..m], bs[m..n - 12], Num(bs[n - 12..n - 8]), maskCount)
  }

  function ReadSection(bs: seq<byte>, facs: nat): Parsed<Section>
  {
    match SplitSection(bs)
    case NoSplit => Bad
    case Split(body, names, table, dictCount, maskCount) => ReadParts(body, names, table, dictCount, maskCount, facs)
  }

  lemma ReadPartsBack(s: Section, facs: nat)
    requires SectionReadable(s, facs)
    ensures Writable(s.granules)
    ensures ReadParts(GranulesBytes(s.granules) + [TAG_DICT], StringsBytes(s.dict), NumsBytes(s.masks, 8),
                      |s.dict|, |s.masks|, facs) == Got(s, [])
  {
    EmptyTail(NumsBytes(s.masks, 8));
    EmptyTail(StringsBytes(s.dict));
    ReadNumsBack(s.masks, 8, []);
    ReadStringsBack(s.dict, []);
    ReadGranulesBack(s.granules, s.masks, facs, []);
    EmptyTail([TAG_DICT]);
  }

  lemma TrailerSlices(bs: seq<byte>, body: seq<byte>, names: seq<byte>, table: seq<byte>,
                      x: seq<byte>, y: seq<byte>, z: seq<byte>, n: nat, m: nat, d: nat)
    requires |x| == |y| == |z| == 4 && bs == body + (names + table + x + y + z)
    requires n == |bs| && m == n - 12 - |table| && d == m - |names|
    ensures bs[n - 12..n - 8] == x && bs[n - 8..n - 4] == y && bs[n - 4..] == z
    ensures bs[m..n - 12] == table && bs[d..m] == names && bs[..d] == body
  {
  }

  lemma EmptyTail(a: seq<byte>)
    ensures a + [] == a
  {
  }

  lemma SplitAtSlices(bs: seq<byte>, n: nat, m: nat, d: nat)
    requires n == |bs| && 12 <= n && 0 <= d <= m <= n - 12
    requires m == n - 12 - 8 * Num(bs[n - 4..]) && d == m - Num(bs[n - 8..n - 4])
    ensures SplitSection(bs) == Split(bs[..d], bs[d..m], bs[m..n - 12], Num(bs[n - 12..n - 8]), Num(bs[n - 4..]))
  {
  }

  lemma SplitSectionBack(body: seq<byte>, names: seq<byte>, table: seq<byte>, x: seq<byte>, y: seq<byte>, z: seq<byte>)
    requires |x| == |y| == |z| == 4 && Num(y) == |names| && 8 * Num(z) == |table|
    ensures SplitSection(body + (names + table + x + y + z)) == Split(body, names, table, Num(x), Num(z))
  {
    var bs := body + (names + table + x + y + z);
    var n := |bs|;
    var m := n - 12 - |table|;
    TrailerSlices(bs, body, names, table, x, y, z, n, m, m - |names|);
    SplitAtSlices(bs, n, m, m - |names|);
  }

  /** Reading a section's bytes gives back its granules and dictionaries. */
  lemma ReadSectionBack(s: Section, facs: nat)
    requires SectionReadable(s, facs) && CountsFit(s.dict, s.masks)
    ensures Writable(s.granules)
    ensures ReadSection(SectionBytes(s), facs) == Got(s, [])
  {
    ReadPartsBack(s, facs);
    var four := 4;
    var body, names, table := GranulesBytes(s.granules) + [TAG_DICT], StringsBytes(s.dict), NumsBytes(s.masks, 8);
    var x, y, z := NumBytes(|s.dict|, four), NumBytes(|names|, four), NumBytes(|s.masks|, four);
    NumRoundTrip(|s.dict|, four);
    NumRoundTrip(|names|, four);
    NumRoundTrip(|s.masks|, four);
    SplitSectionBack(body, names, table, x, y, z);
  }

  // ----- one section, byte by byte

  /** Byte `i` of a number, the most significant first. */
  lemma {:induction false} NumBytesAt(x: nat, w: nat, i: nat)
    requires i < w
    ensures NumBytes(x, w)[i] == x / Pow256(w - 1 - i) % 256
  {
    if i < w - 1 {
      NumBytesAt(x / 256, w - 1, i);
      DivideTwice(x, Pow256(w - 2 - i));
    } else {
      assert Pow256(0) == 1;
    }
  }

  lemma DivideTwice(x: nat, p: nat)
    requires p > 0
    ensures x / 256 / p == x / (256 * p)
  {
    var q, r := x / 256, x % 256;
    var h, t := q / p, q % p;
    assert x == q * 256 + r && q == h * p + t;
    assert x == h * (256 * p) + (256 * t + r) by {
      assert (h * p + t) * 256 == h * (256 * p) + 256 * t;
    }
    assert 0 <= 256 * t + r < 256 * p by {
      assert 256 * t <= 256 * (p - 1);
    }
    QuotientUnique(x, 256 * p, h, 256 * t + r);
  }

  /** Two times, one facility that changes at both, one string and one mask. */
  const SMALL := Section([Granule([1000, 1001], 1, [0], 1, [[18, 2]])], ["10"], [3])

  lemma SmallNumber(x: nat, w: nat)
    requires x < 0x1_0000 && (w == 1 || w == 4 || w == 8) && (w == 1 ==> x < 0x100)
    ensures NumBytes(x, w) == if w == 1 then [x] else if w == 4 then [0, 0, x / 256, x % 256] else [0, 0, 0, 0, 0, 0, x / 256, x % 256]
  {
    var hi := x / 256;
    assert hi / 256 == 0 && hi % 256 == hi;
    forall n: nat ensures NumBytes(0, n) == Zeros(n) {
      NoBytes(n);
    }
    if w == 1 {
      assert NumBytes(hi, 0) == [];
    } else {
      assert NumBytes(x, w) == NumBytes(hi, w - 1) + [x % 256];
      assert NumBytes(hi, w - 1) == NumBytes(0, w - 2) + [hi];
    }
  }

  function Zeros(n: nat): (z: seq<byte>)
  {
    seq(n, _ => 0)
  }

  lemma {:induction false} NoBytes(n: nat)
    ensures NumBytes(0, n) == Zeros(n)
  {
    if n > 0 {
      NoBytes(n - 1);
    }
  }

  lemma OneNumber(x: nat, w: nat)
    ensures NumsBytes([x], w) == NumBytes(x, w)
  {
    assert [x][..0] == [];
  }

  lemma TwoNumbers(x: nat, y: nat, w: nat)
    ensures NumsBytes([x, y], w) == NumBytes(x, w) + NumBytes(y, w)
  {
    assert [x, y][..1] == [x];
    OneNumber(x, w);
  }

  lemma SmallGranule()
    ensures GranuleBytes(SMALL.granules[0]) ==
      [0, 2] + ([0, 0, 0, 0, 0, 0, 3, 232] + [0, 0, 0, 0, 0, 0, 3, 233]) + [1] + [0] + [1] + ([18] + [2])
  {
    hide NumsBytes, NumBytes, CodesBytes;
    SmallNumber(1000, 8);
    SmallNumber(1001, 8);
    SmallNumber(0, 1);
    SmallNumber(18, 1);
    SmallNumber(2, 1);
    TwoNumbers(1000, 1001, 8);
    OneNumber(0, 1);
    TwoNumbers(18, 2, 1);
    SmallCodes([18, 2], 1);
  }

  lemma SmallCodes(c: seq<nat>, w: nat)
    ensures CodesBytes([c], w) == NumsBytes(c, w)
  {
    assert [c][..0] == [];
  }

  /** The bytes of that section. */
  lemma SmallSection()
    ensures Writable(SMALL.granules)
    ensures SectionBytes(SMALL) ==
      ([0, 2] + ([0, 0, 0, 0, 0, 0, 3, 232] + [0, 0, 0, 0, 0, 0, 3, 233]) + [1] + [0] + [1] + ([18] + [2]))
      + [1] + ([49, 48, 0] + [0, 0, 0, 0, 0, 0, 0, 3] + [0, 0, 0, 1] + [0, 0, 0, 3] + [0, 0, 0, 1])
  {
    hide GranuleBytes, GranulesBytes, TrailerBytes;
    SmallGranule();
    SmallGranules(SMALL.granules[0]);
    SmallTrailer();
  }

  lemma SmallGranules(g: Granule)
    requires Narrow(g)
    ensures Writable([g]) && GranulesBytes([g]) == GranuleBytes(g)
  {
    GranulesBytesAppend([], g);
    assert [] + [g] == [g];
    assert Pieces([]) == [];
  }

  lemma SmallTrailer()
    ensures TrailerBytes(["10"], [3]) ==
      [49, 48, 0] + [0, 0, 0, 0, 0, 0, 0, 3] + [0, 0, 0, 1] + [0, 0, 0, 3] + [0, 0, 0, 1]
  {
    hide NumsBytes, NumBytes;
    assert ["10"][..0] == [] && StringsBytes(["10"]) == [] + StringBytes("10");
    assert StringBytes("10") == [49, 48, 0];
    OneNumber(3, 8);
    SmallNumber(3, 8);
    SmallNumber(1, 4);
    SmallNumber(3, 4);
  }
}
