/**
 The queue of outgoing TLPs (libsimbus/simbus_pcie_tlp_tlp.c:53-155 and libsimbus/simbus_pcie_tlp.c:217-231):
 a circular list with a pointer to its tail. Sending a packet takes clock edges; on any
 edge incoming packets may make the callers send more, from inside the loop that drains
 the list. Those calls find the list in use and only append to it.
 */
module TlpQueue {
  import W = Wires
  import opened TlpStream

  class Cell {
    const data: seq<Word>
    var next: Cell?

    constructor (data: seq<Word>)
      ensures this.data == data && next == null
    {
      this.data := data;
      next := null;
    }
  }

  /** What happens on a clock edge: whether the receiver is ready, and the packets sent in response to input. */
  datatype Edge = Edge(ready: bool, replies: seq<seq<Word>>)

  /** The packets held by a run of cells. */
  ghost function Packets(cells: seq<Cell>): (s: seq<seq<Word>>)
    ensures |s| == |cells|
  {
    seq(|cells|, i requires 0 <= i < |cells| => cells[i].data)
  }

  /** The packets sent in response to input on these edges, in order. */
  ghost function Replies(edges: seq<Edge>): seq<seq<Word>>
  {
    if edges == [] then [] else edges[0].replies + Replies(edges[1..])
  }

  /** The edges used up when `edges` has become `left`. */
  ghost function Past(edges: seq<Edge>, left: seq<Edge>): seq<Edge>
  {
    if |left| <= |edges| then edges[..|edges| - |left|] else []
  }

  ghost predicate Later(edges: seq<Edge>, left: seq<Edge>)
  {
    |left| <= |edges| && left == edges[|edges| - |left|..]
  }

  lemma {:induction false} RepliesSplit(a: seq<Edge>, b: seq<Edge>)
    ensures Replies(a + b) == Replies(a) + Replies(b)
  {
    if a == [] {
      assert a + b == b;
    } else {
      assert (a + b)[1..] == a[1..] + b;
      RepliesSplit(a[1..], b);
    }
  }

  lemma PastMore(edges: seq<Edge>, mid: seq<Edge>, left: seq<Edge>)
    requires Later(edges, mid) && Later(mid, left)
    ensures Later(edges, left)
    ensures Replies(Past(edges, left)) == Replies(Past(edges, mid)) + Replies(Past(mid, left))
  {
    assert Past(edges, left) == Past(edges, mid) + Past(mid, left);
    RepliesSplit(Past(edges, mid), Past(mid, left));
  }

  lemma PastNone(edges: seq<Edge>)
    ensures Later(edges, edges) && Replies(Past(edges, edges)) == []
  {
  }

  lemma PastOne(edges: seq<Edge>)
    requires edges != []
    ensures Later(edges, edges[1..]) && Replies(Past(edges, edges[1..])) == edges[0].replies
  {
    assert Past(edges, edges[1..]) == [edges[0]];
    assert Replies([edges[0]]) == edges[0].replies + Replies([]);
  }

  /** One more reply of an edge is queued, and behind it those of the edges its sending takes. */
  lemma ReplyJoins(was: seq<seq<Word>>, replies: seq<seq<Word>>, i: nat, past: seq<seq<Word>>,
                   mid: seq<seq<Word>>, more: seq<seq<Word>>)
    requires i < |replies| && multiset(mid) == multiset(was) + multiset(replies[..i]) + multiset(past)
    ensures multiset(mid + [replies[i]] + more) == multiset(was) + multiset(replies[..i + 1]) + multiset(past + more)
  {
    assert replies[..i + 1] == replies[..i] + [replies[i]];
  }

  lemma AllBeatsPush(tlps: seq<seq<Word>>, ws: seq<Word>)
    ensures AllBeats(tlps + [ws]) == AllBeats(tlps) + Beats(ws)
  {
    assert (tlps + [ws])[..|tlps|] == tlps;
  }

  lemma NextBeat(out: seq<Beat>, ws: seq<Word>)
    requires ws != []
    ensures out + Beats(ws) == out + [BeatOf(ws)] + Beats(Rest(ws))
  {
  }

  lemma Sent(ws: seq<Word>)
    requires ws == []
    ensures Beats(ws) == []
  {
  }

  class Port {
    var list: Cell?            // the tail of the list; its successor is the head
    var script: seq<Edge>      // the edges to come; after them the receiver is always ready and nothing arrives
    var tready: bool
    const tdata: array<W.Bit>
    const tkeep: array<W.Bit>
    var tlast: W.Bit
    var tvalid: W.Bit
    ghost var cells: seq<Cell>       // the list, head first
    ghost var freed: set<Cell>       // cells taken off it
    ghost var queued: seq<seq<Word>> // every packet ever queued
    ghost var sent: nat              // how many of them are completely sent
    ghost var wire: seq<Beat>        // every beat ever accepted

    /** The cells form a ring in order, the tail pointer is at its end, and no cell is used twice. */
    ghost predicate Ring()
      reads this`list, this`cells, cells
    {
      && (list == null <==> cells == [])
      && (list != null ==> list == cells[|cells| - 1])
      && (forall i, j :: 0 <= i < j < |cells| ==> cells[i] != cells[j])
      && (forall i :: 0 <= i < |cells| - 1 ==> cells[i].next == cells[i + 1])
      && (cells != [] ==> cells[|cells| - 1].next == cells[0])
    }

    ghost predicate Books()
      reads this`cells, this`freed, this`queued, this`sent
    {
      && sent <= |queued| && Packets(cells) == queued[sent..]
      && forall c :: c in cells ==> c !in freed
    }

    ghost predicate Valid()
      reads this, cells
    {
      Ring() && Books() && tdata.Length == 64 && tkeep.Length == 8 && tdata != tkeep
    }

    /** Between packets, nothing is on offer and everything sent has been accepted. */
    ghost predicate Idle()
      reads this
    {
      tvalid == W.Low && sent <= |queued| && wire == AllBeats(queued[..sent])
    }

    constructor (script: seq<Edge>)
      ensures Valid() && Idle() && list == null && queued == [] && wire == [] && this.script == script
      ensures fresh(tdata) && fresh(tkeep)
    {
      list, this.script, tready := null, script, false;
      tdata := new W.Bit[64](_ => W.X);
      tkeep := new W.Bit[8](_ => W.X);
      tlast, tvalid := W.Low, W.Low;
      cells, freed, queued, sent, wire := [], {}, [], 0, [];
    }

    ghost function Signals(): Beat
      reads this`tlast, tdata, tkeep
    {
      Beat(tdata[..], tkeep[..], tlast)
    }

    // ----- the signals of a beat

    method DriveWord(w: Word, base: nat)
      requires tdata.Length == 64 && (base == 0 || base == 32)
      modifies tdata
      ensures tdata[base..base + 32] == WordBits(w)
      ensures tdata[..base] == old(tdata[..base]) && tdata[base + 32..] == old(tdata[base + 32..])
    {
      var idx := 0;
      while idx < 32
        invariant 0 <= idx <= 32
        invariant forall i :: base <= i < base + idx ==> tdata[i] == WordBits(w)[i - base]
        invariant forall i :: 0 <= i < 64 && !(base <= i < base + 32) ==> tdata[i] == old(tdata[i])
      {
        tdata[base + idx] := W.Level(Bits.Bit(w, idx));
        idx := idx + 1;
      }
    }

    method FillHigh(b: W.Bit)
      requires tdata.Length == 64
      modifies tdata
      ensures tdata[32..] == Repeat(b, 32) && tdata[..32] == old(tdata[..32])
    {
      var idx := 32;
      while idx < 64
        invariant 32 <= idx <= 64
        invariant forall i :: 32 <= i < idx ==> tdata[i] == b
        invariant forall i :: 0 <= i < 32 ==> tdata[i] == old(tdata[i])
      {
        tdata[idx] := b;
        idx := idx + 1;
      }
    }

    method Enable(b: W.Bit)
      requires tkeep.Length == 8
      modifies tkeep
      ensures tkeep[..] == Repeat(W.High, 4) + Repeat(b, 4)
    {
      var idx := 0;
      while idx < 4
        invariant 0 <= idx <= 4 && forall i :: 0 <= i < idx ==> tkeep[i] == W.High
      {
        tkeep[idx] := W.High;
        idx := idx + 1;
      }
      while idx < 8
        invariant 4 <= idx <= 8
        invariant forall i :: 0 <= i < 4 ==> tkeep[i] == W.High
        invariant forall i :: 4 <= i < idx ==> tkeep[i] == b
      {
        tkeep[idx] := b;
        idx := idx + 1;
      }
    }

    /** Put the next one or two words on the stream (lines 57-92). */
    method Drive(ws: seq<Word>)
      requires ws != [] && tdata.Length == 64 && tkeep.Length == 8 && tdata != tkeep
      modifies this`tlast, this`tvalid, tdata, tkeep
      ensures Signals() == BeatOf(ws) && tvalid == W.High
    {
      hide WordBits, Repeat;
      DriveWord(ws[0], 0);
      Enable(if |ws| >= 2 then W.High else W.Low);
      if |ws| >= 2 {
        DriveWord(ws[1], 32);
      } else {
        FillHigh(W.Low);
      }
      assert tdata[..] == tdata[0..32] + tdata[32..64];
      tlast := W.Level(|ws| <= 2);
      tvalid := W.High;
    }

    /** Take everything off the stream (lines 104-109). */
    method Release()
      modifies this`tlast, this`tvalid, tdata, tkeep
      ensures tvalid == W.Low
    {
      tvalid, tlast := W.Low, W.Low;
      var idx := 0;
      while idx < tkeep.Length
        invariant 0 <= idx && tvalid == W.Low
      {
        tkeep[idx] := W.X;
        idx := idx + 1;
      }
      idx := 0;
      while idx < tdata.Length
        invariant 0 <= idx && tvalid == W.Low
      {
        tdata[idx] := W.X;
        idx := idx + 1;
      }
    }

    // ----- the list

    /** The first cell of an empty list points to itself (lines 131-132). */
    method Start(cell: Cell)
      requires Valid() && list == null && cell !in freed
      modifies this`list, this`cells, this`queued, cell
      ensures Valid() && cells == [cell] && queued == old(queued) + [cell.data] && list == cell
    {
      list := cell;
      cell.next := cell;
      cells := [cell];
      queued := queued + [cell.data];
      assert queued[sent..] == [cell.data];
    }

    /** A further cell goes behind the tail and becomes the tail (lines 151-153). */
    method Append(cell: Cell)
      requires Valid() && list != null && cell !in freed && cell !in cells
      modifies this`list, this`cells, this`queued, cell, list
      ensures Valid() && cells == old(cells) + [cell] && queued == old(queued) + [cell.data] && list == cell
    {
      ghost var n := |cells|;
      cell.next := list.next;
      list.next := cell;
      list := cell;
      cells := cells + [cell];
      queued := queued + [cell.data];
      assert queued[sent..] == old(queued)[sent..] + [cell.data];
    }

    /** The head leaves the list, for good (lines 138-144). */
    method Remove(cur: Cell)
      requires Valid() && cells != [] && cur == cells[0]
      modifies this`list, this`cells, this`freed, this`sent, list
      ensures Valid() && cells == old(cells)[1..] && sent == old(sent) + 1
      ensures cur !in old(freed) && freed == old(freed) + {cur}
      ensures Packets(old(cells))[0] == old(queued)[old(sent)]
    {
      ghost var n := |cells|;
      assert Packets(cells)[0] == queued[sent..][0];
      if list == cur {
        list := null;
      } else {
        assert list.next == cur;
        list.next := cur.next;
      }
      assert Packets(cells[1..]) == Packets(cells)[1..];
      cells := cells[1..];
      freed := freed + {cur};
      sent := sent + 1;
    }

    // ----- sending, and being called again while sending

    /** Exactly the replies of the edges since then have been queued, in order, behind what was there. */
    ghost predicate Grown(was: seq<seq<Word>>, edges: seq<Edge>)
      reads this
    {
      Later(edges, script) && queued == was + Replies(Past(edges, script))
    }

    /** The same in some order: a reply on an idle port starts sending, so replies to its own edges overtake the next one. */
    ghost predicate Joined(was: seq<seq<Word>>, edges: seq<Edge>)
      reads this
    {
      Later(edges, script) && was <= queued
      && multiset(queued) == multiset(was) + multiset(Replies(Past(edges, script)))
    }

    lemma GrownMore(was: seq<seq<Word>>, edges: seq<Edge>, mid: seq<seq<Word>>, left: seq<Edge>)
      requires Later(edges, left) && mid == was + Replies(Past(edges, left)) && Grown(mid, left)
      ensures Grown(was, edges)
    {
      PastMore(edges, left, script);
    }

    /**
     A clock edge. If a packet is under way its beat is accepted when the receiver is
     ready; then replies to incoming packets are sent.
     */
    method NextPosedge()
      requires Valid() && (list == null ==> Idle())
      modifies this, cells, tdata, tkeep
      ensures Valid() && forall i :: 0 <= i < |cells| ==> cells[i] in old(cells) || fresh(cells[i])
      ensures Joined(old(queued), old(script))
      ensures old(script) != [] ==> |script| < |old(script)|
      ensures old(list) == null ==> list == null && Idle()
      ensures old(list) != null ==> Grown(old(queued), old(script))
      ensures old(list) != null ==> script == if old(script) == [] then [] else old(script)[1..]
      ensures old(list) != null ==> Pushed(old(cells), old(sent), old(tvalid), old(Signals()))
      ensures old(list) != null ==> wire == old(wire) + if tready && old(tvalid) == W.High then [old(Signals())] else []
      ensures old(list) != null ==> tready == if old(script) == [] then true else old(script)[0].ready
      ensures old(list) != null && old(script) == [] ==> cells == old(cells)
      decreases |script|, 0
    {
      hide Ring, Books, AllBeats, Replies, Past, Later;
      var edge := if script == [] then Edge(true, []) else script[0];
      PastNone(script);
      if script != [] {
        PastOne(script);
        script := script[1..];
      }
      tready := edge.ready;
      if tready && tvalid == W.High {
        wire := wire + [Signals()];
      }
      ghost var rest := script;
      PastNone(rest);
      if edge.replies != [] {
        Receive(edge.replies);
      }
      PastMore(old(script), rest, script);
    }

    /** Packets that came in make the callers send these replies. */
    method Receive(replies: seq<seq<Word>>)
      requires Valid() && (list == null ==> Idle())
      modifies this, cells, tdata, tkeep
      ensures Valid() && forall i :: 0 <= i < |cells| ==> cells[i] in old(cells) || fresh(cells[i])
      ensures Later(old(script), script) && |script| <= |old(script)| && old(queued) <= queued
      ensures multiset(queued) == multiset(old(queued)) + multiset(replies) + multiset(Replies(Past(old(script), script)))
      ensures old(list) == null ==> list == null && Idle()
      ensures old(list) != null ==> Pushed(old(cells), old(sent), old(tvalid), old(Signals()))
      ensures old(list) != null ==> script == old(script) && wire == old(wire) && tready == old(tready)
      ensures old(list) != null ==> queued == old(queued) + replies
      decreases |script|, 4
    {
      hide Ring, Books, AllBeats, Replies, Past, Later, Idle;
      PastNone(script);
      var i := 0;
      while i < |replies|
        invariant 0 <= i <= |replies| && Valid() && (list == null ==> Idle())
        invariant Later(old(script), script) && |script| <= |old(script)| && old(queued) <= queued
        invariant multiset(queued) ==
                  multiset(old(queued)) + multiset(replies[..i]) + multiset(Replies(Past(old(script), script)))
        invariant forall i :: 0 <= i < |cells| ==> cells[i] in old(cells) || fresh(cells[i])
        invariant (list == null) == (old(list) == null)
        invariant old(list) != null ==> Pushed(old(cells), old(sent), old(tvalid), old(Signals()))
        invariant old(list) != null ==> wire == old(wire) && tready == old(tready)
        invariant old(list) != null ==> script == old(script) && queued == old(queued) + replies[..i]
      {
        ghost var mid, left := queued, script;
        SendTlp(replies[i]);
        PastMore(old(script), left, script);
        ReplyJoins(old(queued), replies, i, Replies(Past(old(script), left)), mid, Replies(Past(left, script)));
        i := i + 1;
      }
      assert replies[..i] == replies;
    }

    /** The packet under way is undisturbed: the list has only grown at its end. */
    ghost predicate Pushed(was: seq<Cell>, sent0: nat, valid0: W.Bit, beat: Beat)
      reads this, tdata, tkeep
    {
      list != null && was <= cells && sent == sent0 && tvalid == valid0 && Signals() == beat
    }

    /** do_send_tlp_raw: the words of one packet, each beat repeated until it is accepted. */
    method SendRaw(data: seq<Word>)
      requires Valid() && Idle() && list != null
      modifies this, cells, tdata, tkeep
      ensures Valid() && Grown(old(queued), old(script)) && forall i :: 0 <= i < |cells| ==> cells[i] in old(cells) || fresh(cells[i])
      ensures list != null && old(cells) <= cells && sent == old(sent) && tvalid == W.Low
      ensures wire == old(wire) + Beats(data)
      ensures |script| == |old(script)| ==> cells == old(cells)
      decreases |script|, 1
    {
      hide Ring, Books, AllBeats, BeatOf, Beats, Replies, Past, Later;
      Sent([]);
      PastNone(script);
      var ws := data;
      ghost var out: seq<Beat> := [];
      while |ws| >= 1
        invariant Valid() && list != null && Grown(old(queued), old(script)) && |script| <= |old(script)|
        invariant forall i :: 0 <= i < |cells| ==> cells[i] in old(cells) || fresh(cells[i])
        invariant old(cells) <= cells && sent == old(sent) && (ws == [] ==> tvalid == W.Low)
        invariant wire == old(wire) + out && out + Beats(ws) == Beats(data)
        invariant |script| == |old(script)| ==> script == old(script) && cells == old(cells)
        decreases |script|, |ws|
      {
        Drive(ws);
        ghost var mid, left := queued, script;
        NextPosedge();
        GrownMore(old(queued), old(script), mid, left);
        if tready {
          NextBeat(out, ws);
          out := out + [BeatOf(ws)];
          ws := if |ws| >= 2 then ws[2..] else ws[1..];
          if |ws| == 0 {
            Release();
          }
        }
      }
    }

    /**
     __pcie_tlp_send_tlp. The outermost call returns only when every packet queued before
     and meanwhile has been sent, whole and in the order of queueing.
     */
    method SendTlp(data: seq<Word>)
      requires Valid() && (list == null ==> Idle())
      modifies this, cells, tdata, tkeep
      ensures Valid() && Grown(old(queued) + [data], old(script)) && forall i :: 0 <= i < |cells| ==> cells[i] in old(cells) || fresh(cells[i])
      ensures old(list) == null ==> list == null && Idle() && wire == AllBeats(queued)
      ensures old(list) != null ==> Pushed(old(cells), old(sent), old(tvalid), old(Signals()))
      ensures old(list) != null ==> script == old(script) && wire == old(wire) && tready == old(tready)
      ensures old(list) != null ==> |cells| == |old(cells)| + 1 && queued == old(queued) + [data]
      decreases |script|, 3
    {
      hide Ring, Books, AllBeats, Beats, Replies, Past, Later;
      PastNone(script);
      var cell := new Cell(data);
      if list == null {
        Start(cell);
        assert queued[..sent] == old(queued)[..sent];
        while list != null
          invariant Valid() && Idle() && Grown(old(queued) + [data], old(script)) && |script| <= |old(script)|
          invariant forall i :: 0 <= i < |cells| ==> cells[i] in old(cells) || fresh(cells[i])
          decreases |script|, |cells|
        {
          ghost var mid, left := queued, script;
          SendHead();
          GrownMore(old(queued) + [data], old(script), mid, left);
        }
        AllSent();
      } else {
        Head();
        Append(cell);
      }
    }

    lemma AllSent()
      requires Valid() && list == null
      ensures sent == |queued| && queued[..sent] == queued
    {
    }

    /** One turn of the drain loop (lines 134-145). */
    method SendHead()
      requires Valid() && Idle() && list != null
      modifies this, cells, tdata, tkeep
      ensures Valid() && Idle() && Grown(old(queued), old(script)) && |script| <= |old(script)|
      ensures forall i :: 0 <= i < |cells| ==> cells[i] in old(cells) || fresh(cells[i])
      ensures sent == old(sent) + 1 && (|script| == |old(script)| ==> |cells| < |old(cells)|)
      decreases |script|, 2
    {
      Head();
      var cur := list.next;
      ghost var n, was := sent, cells;
      SendRaw(cur.data);
      assert Packets(cells)[0] == cur.data;
      Remove(cur);
      assert queued[..n] == old(queued)[..n];
      Delivered(n);
    }

    lemma Head()
      requires Ring() && list != null
      ensures cells != [] && list in cells && list.next == cells[0] && list.next != null
    {
    }

    lemma Delivered(n: nat)
      requires n < |queued| && wire == AllBeats(queued[..n]) + Beats(queued[n])
      ensures wire == AllBeats(queued[..n + 1])
    {
      AllBeatsPush(queued[..n], queued[n]);
      assert queued[..n + 1] == queued[..n] + [queued[n]];
    }
  }

  /** What the application does: send a packet, or wait for a clock edge. */
  datatype Call = Send(ws: seq<Word>) | Wait

  /** The packets the application itself sends. */
  ghost function Own(calls: seq<Call>): seq<seq<Word>>
  {
    if calls == [] then []
    else
      var last := calls[|calls| - 1];
      Own(calls[..|calls| - 1]) + if last.Send? then [last.ws] else []
  }

  /** One more call: its packet, if it has one, and the replies of the edges it took are queued. */
  lemma CallJoins(calls: seq<Call>, n: nat, was: seq<seq<Word>>, queued: seq<seq<Word>>, past: seq<seq<Word>>, more: seq<seq<Word>>)
    requires n < |calls| && multiset(was) == multiset(Own(calls[..n])) + multiset(past)
    requires multiset(queued) ==
             multiset(was + if calls[n].Send? then [calls[n].ws] else []) + multiset(more)
    ensures multiset(queued) == multiset(Own(calls[..n + 1])) + multiset(past + more)
  {
    assert calls[..n + 1][..n] == calls[..n];
    if calls[n].Wait? {
      assert was + [] == was;
      assert Own(calls[..n]) + [] == Own(calls[..n]);
    }
  }

  /** The packets of the first `n` calls are at these places among all packets, in order. */
  ghost predicate Placed(calls: seq<Call>, at: seq<nat>, queued: seq<seq<Word>>, n: nat)
  {
    var placed := |at| == n <= |calls| && forall i :: 0 <= i < n && calls[i].Send? ==>
      at[i] < |queued| && queued[at[i]] == calls[i].ws && forall j :: i < j < n ==> at[i] < at[j];
    placed
  }

  lemma OwnNone(calls: seq<Call>)
    ensures Own(calls[..0]) == []
  {
  }

  lemma PlacedNone(calls: seq<Call>, queued: seq<seq<Word>>)
    ensures Placed(calls, [], queued, 0)
  {
  }

  lemma PlacedNext(calls: seq<Call>, at: seq<nat>, was: seq<seq<Word>>, queued: seq<seq<Word>>, n: nat)
    requires Placed(calls, at, was, n) && n < |calls| && was <= queued
    requires calls[n].Send? ==> was + [calls[n].ws] <= queued
    ensures Placed(calls, at + [|was|], queued, n + 1)
  {
    var at' := at + [|was|];
    if calls[n].Send? {
      assert queued[|was|] == (was + [calls[n].ws])[|was|];
    }
    forall i | 0 <= i < n && calls[i].Send? ensures at'[i] < |queued| && queued[at'[i]] == calls[i].ws {
      assert at'[i] == at[i];
    }
  }

  /**
   A whole session. Whatever the receiver's readiness and whatever replies are sent from
   inside other sends, the receiver gets every queued packet once, whole, in order. The queued
   packets are the application's own and the replies of every edge so far, no more and no
   fewer; `at` says where among them the application's own are.
   */
  method Session(script: seq<Edge>, calls: seq<Call>) returns (port: Port, ghost at: seq<nat>)
    ensures fresh(port) && port.list == null && port.sent == |port.queued| && port.wire == AllBeats(port.queued)
    ensures Shaped(port.wire)
    ensures (forall i :: 0 <= i < |port.queued| ==> port.queued[i] != []) ==>
      CollectAll(Received([], []), port.wire) == Received(port.queued, [])
    ensures Placed(calls, at, port.queued, |calls|)
    ensures Later(script, port.script)
    ensures multiset(port.queued) == multiset(Own(calls)) + multiset(Replies(Past(script, port.script)))
  {
    hide Port.Books, Placed, AllBeats, Own, Replies, Past, Later;
    port := new Port(script);
    PastNone(script);
    OwnNone(calls);
    at := [];
    PlacedNone(calls, port.queued);
    var i := 0;
    while i < |calls|
      invariant 0 <= i <= |calls| && fresh(port) && fresh(port.tdata) && fresh(port.tkeep)
      invariant port.Valid() && port.list == null && port.Idle() && port.cells == []
      invariant Placed(calls, at, port.queued, i) && Later(script, port.script)
      invariant multiset(port.queued) == multiset(Own(calls[..i])) + multiset(Replies(Past(script, port.script)))
    {
      ghost var was, left := port.queued, port.script;
      match calls[i] {
        case Send(ws) => port.SendTlp(ws);
        case Wait => port.NextPosedge();
      }
      PlacedNext(calls, at, was, port.queued, i);
      PastMore(script, left, port.script);
      CallJoins(calls, i, was, port.queued, Replies(Past(script, left)), Replies(Past(left, port.script)));
      at := at + [|was|];
      i := i + 1;
    }
    assert calls[..i] == calls;
    port.AllSent();
    AllShaped(port.queued);
    if forall i :: 0 <= i < |port.queued| ==> port.queued[i] != [] {
      StreamRoundTrip(port.queued);
    }
  }
}
