/**
 Four-valued wires (server/priv.h:52, server/PciProtocol.cc:575-704): every shared signal is the
 blend of what all devices drive, and each device is sent the blend without its own contribution.
 */
module Wires {
  import Bits

  datatype Bit = Low | High | Z | X

  function Level(b: bool): Bit
  {
    if b then High else Low
  }

  /** The lowest `n` bits of a number, on as many wires. */
  function BitsOf(x: nat, n: nat): (s: seq<Bit>)
    ensures |s| == n && forall i :: 0 <= i < n ==> s[i] == Level(Bits.Bit(x, i))
  {
    seq(n, i requires 0 <= i < n => Level(Bits.Bit(x, i)))
  }

  function Blend(a: Bit, b: Bit): (r: Bit)
  {
    if a == Z then b
    else if b == Z then a
    else if a == b then a
    else X
  }

  /** What is left of a signal for a device that drives `ref` itself. */
  function Subtract(sig: Bit, ref: Bit): (r: Bit)
  {
    if ref == Z then sig
    else if sig == ref then Z
    else sig
  }

  /** All drivers of one wire, in the order of the device map. */
  ghost function Resolve(drivers: seq<Bit>): (r: Bit)
  {
    if drivers == [] then Z else Blend(Resolve(drivers[..|drivers| - 1]), drivers[|drivers| - 1])
  }

  /**
   What the resolved value means, without reference to any order: floating when nobody
   drives, a level when everybody who drives agrees on it, unknown otherwise.
   */
  ghost predicate Resolves(drivers: multiset<Bit>, r: Bit)
  {
    && (r == Z <==> forall b :: b in drivers ==> b == Z)
    && (r == Low <==> Low in drivers && forall b :: b in drivers ==> b == Low || b == Z)
    && (r == High <==> High in drivers && forall b :: b in drivers ==> b == High || b == Z)
    && (r == X <==> X in drivers || (Low in drivers && High in drivers))
  }

  lemma {:induction false} ResolveMeans(drivers: seq<Bit>)
    ensures Resolves(multiset(drivers), Resolve(drivers))
  {
    if drivers != [] {
      var before, last := drivers[..|drivers| - 1], drivers[|drivers| - 1];
      ResolveMeans(before);
      assert drivers == before + [last];
      assert multiset(drivers) == multiset(before) + multiset{last};
      assert forall b :: b in multiset(drivers) <==> b in multiset(before) || b == last;
      assert Low in multiset(drivers) <==> Low in multiset(before) || Low == last;
      assert High in multiset(drivers) <==> High in multiset(before) || High == last;
      assert X in multiset(drivers) <==> X in multiset(before) || X == last;
    }
  }

  /** The order of the devices does not matter. */
  lemma ResolveAnyOrder(a: seq<Bit>, b: seq<Bit>)
    requires multiset(a) == multiset(b)
    ensures Resolve(a) == Resolve(b)
  {
    ResolveMeans(a);
    ResolveMeans(b);
  }

  /** Adding a device's own drive to what it was sent gives the wire again exactly when that drive is part of it. */
  lemma FeedbackRestores(sig: Bit, ref: Bit)
    ensures Blend(Subtract(sig, ref), ref) == sig <==> Blend(sig, ref) == sig
  {
  }

  lemma {:induction false} DriverIsPart(drivers: seq<Bit>, d: nat)
    requires d < |drivers|
    ensures Blend(Resolve(drivers), drivers[d]) == Resolve(drivers)
  {
    if d < |drivers| - 1 {
      DriverIsPart(drivers[..|drivers| - 1], d);
    }
  }

  /** For every device: what it is sent, blended with what it drives, is the resolved wire. */
  lemma DeviceSeesWire(drivers: seq<Bit>, d: nat)
    requires d < |drivers|
    ensures Blend(Subtract(Resolve(drivers), drivers[d]), drivers[d]) == Resolve(drivers)
  {
    DriverIsPart(drivers, d);
    FeedbackRestores(Resolve(drivers), drivers[d]);
  }

  /** What device `d` is sent says whether anybody else drives the wire differently. */
  lemma SentMeans(drivers: seq<Bit>, d: nat)
    requires d < |drivers|
    ensures Subtract(Resolve(drivers), drivers[d]) == Z <==>
      (forall k :: 0 <= k < |drivers| ==> drivers[k] == Z || drivers[k] == drivers[d]) || drivers[d] == X
  {
    ResolveMeans(drivers);
    assert forall k :: 0 <= k < |drivers| ==> drivers[k] in multiset(drivers);
    assert drivers[d] in multiset(drivers);
    forall b | b in multiset(drivers) ensures exists k :: 0 <= k < |drivers| && drivers[k] == b {
      assert b in drivers;
    }
  }

  /**
   A device is sent the wire as it is, unless that is just what it drives; so one that drives a
   level on a wire that somebody else drives differently is sent X.
   */
  lemma SentWhat(drivers: seq<Bit>, d: nat)
    requires d < |drivers|
    ensures Subtract(Resolve(drivers), drivers[d]) == if Resolve(drivers) == drivers[d] then Z else Resolve(drivers)
    ensures drivers[d] != X && drivers[d] != Z && (exists k :: 0 <= k < |drivers| && drivers[k] != Z && drivers[k] != drivers[d]) ==>
      Subtract(Resolve(drivers), drivers[d]) == X
  {
    ResolveMeans(drivers);
    assert forall k :: 0 <= k < |drivers| ==> drivers[k] in multiset(drivers);
  }

  // ----- the loop over devices and bits

  /** One column of the bundle that every device drives. */
  ghost function Column(client: seq<seq<Bit>>, n: nat, bit: nat): (c: seq<Bit>)
    requires n <= |client| && forall d :: 0 <= d < |client| ==> bit < |client[d]|
    ensures |c| == n
  {
    seq(n, d requires 0 <= d < n => client[d][bit])
  }

  lemma ColumnNext(client: seq<seq<Bit>>, n: nat, bit: nat)
    requires n < |client| && forall d :: 0 <= d < |client| ==> bit < |client[d]|
    ensures Resolve(Column(client, n + 1, bit)) == Blend(Resolve(Column(client, n, bit)), client[n][bit])
  {
    assert Column(client, n + 1, bit)[..n] == Column(client, n, bit);
  }

  method BlendInto(ad: array<Bit>, drive: seq<Bit>)
    requires |drive| == ad.Length
    modifies ad
    ensures forall b :: 0 <= b < ad.Length ==> ad[b] == Blend(old(ad[b]), drive[b])
  {
    var idx := 0;
    while idx < ad.Length
      invariant 0 <= idx <= ad.Length
      invariant forall b :: 0 <= b < idx ==> ad[b] == Blend(old(ad[b]), drive[b])
      invariant forall b :: idx <= b < ad.Length ==> ad[b] == old(ad[b])
    {
      ad[idx] := Blend(ad[idx], drive[idx]);
      idx := idx + 1;
    }
  }

  method SubtractAll(wire: seq<Bit>, drive: seq<Bit>) returns (sent: seq<Bit>)
    requires |drive| == |wire|
    ensures |sent| == |drive| && forall b :: 0 <= b < |drive| ==> sent[b] == Subtract(wire[b], drive[b])
  {
    sent := [];
    var idx := 0;
    while idx < |wire|
      invariant 0 <= idx <= |wire| && |sent| == idx
      invariant forall b :: 0 <= b < idx ==> sent[b] == Subtract(wire[b], drive[b])
    {
      sent := sent + [Subtract(wire[idx], drive[idx])];
      idx := idx + 1;
    }
  }

  /**
   blend_bi_signals_, for one bundle of wires: from what all devices drive, what each is
   sent. A device that adds its own drive to what it is sent has the resolved wire.
   */
  method BlendSignals(client: seq<seq<Bit>>, width: nat) returns (sent: seq<seq<Bit>>, wire: seq<Bit>)
    requires forall d :: 0 <= d < |client| ==> |client[d]| == width
    ensures |wire| == width && |sent| == |client| && forall d :: 0 <= d < |client| ==> |sent[d]| == width
    ensures forall b :: 0 <= b < width ==> wire[b] == Resolve(Column(client, |client|, b))
    ensures forall d, b :: 0 <= d < |client| && 0 <= b < width ==> Blend(sent[d][b], client[d][b]) == wire[b]
    ensures forall d, b :: 0 <= d < |client| && 0 <= b < width ==> sent[d][b] == Subtract(wire[b], client[d][b])
  {
    var ad := new Bit[width](_ => Z);
    var n := 0;
    while n < |client|
      invariant 0 <= n <= |client|
      invariant forall b :: 0 <= b < width ==> ad[b] == Resolve(Column(client, n, b))
    {
      BlendInto(ad, client[n]);
      forall b | 0 <= b < width ensures Resolve(Column(client, n + 1, b)) == Blend(Resolve(Column(client, n, b)), client[n][b]) {
        ColumnNext(client, n, b);
      }
      n := n + 1;
    }
    wire := ad[..];
    sent := SendAll(wire, client);
    forall d, b | 0 <= d < |client| && 0 <= b < width ensures Blend(sent[d][b], client[d][b]) == wire[b] {
      DeviceSeesWire(Column(client, |client|, b), d);
    }
  }

  method SendAll(wire: seq<Bit>, client: seq<seq<Bit>>) returns (sent: seq<seq<Bit>>)
    requires forall d :: 0 <= d < |client| ==> |client[d]| == |wire|
    ensures |sent| == |client| && forall d :: 0 <= d < |client| ==> |sent[d]| == |wire|
    ensures forall d, b :: 0 <= d < |client| && 0 <= b < |wire| ==> sent[d][b] == Subtract(wire[b], client[d][b])
  {
    sent := [];
    var d := 0;
    while d < |client|
      invariant 0 <= d <= |client| && |sent| == d
      invariant forall e :: 0 <= e < d ==> |sent[e]| == |wire|
      invariant forall e, b :: 0 <= e < d && 0 <= b < |wire| ==> sent[e][b] == Subtract(wire[b], client[e][b])
    {
      var s := SubtractAll(wire, client[d]);
      sent := sent + [s];
      d := d + 1;
    }
  }
}
