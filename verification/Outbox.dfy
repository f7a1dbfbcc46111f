/** The host's side of the stream: a byte-budgeted queue of frames, emptied into one peer after the other. */
module Outbox {
  import opened Wrappers
  import opened FrameCodec

  const MAX_PENDING_BYTES := 16 * 1024 * 1024

  datatype PushResult = Accepted | NotConnected | WouldBlock

  function TotalLength(frames: seq<Bytes>): nat {
    if frames == [] then 0 else |frames[0]| + TotalLength(frames[1..])
  }

  lemma {:induction false} TotalLengthAppend(frames: seq<Bytes>, frame: Bytes)
    ensures TotalLength(frames + [frame]) == TotalLength(frames) + |frame|
  {
    if frames == [] {
    } else {
      assert (frames + [frame])[1..] == frames[1..] + [frame];
      TotalLengthAppend(frames[1..], frame);
    }
  }

  /** accepted lists the payloads taken since the outbox was opened; taken counts those handed to the writer. */
  class Outbox {
    var frames: seq<Bytes>
    var bytes: nat
    var isOpen: bool
    ghost var accepted: seq<Bytes>
    ghost var taken: nat

    ghost predicate Valid()
      reads this
    {
      && bytes == TotalLength(frames)
      && (bytes <= MAX_PENDING_BYTES || |frames| == 1)
      && AllFit(accepted)
      && taken <= |accepted|
      && |frames| == |accepted| - taken
      && (forall i :: 0 <= i < |frames| ==> frames[i] == FrameOf(accepted[taken + i]))
      && (!isOpen ==> frames == [])
    }

    constructor ()
      ensures Valid() && !isOpen && frames == []
    {
      frames, bytes, isOpen := [], 0, false;
      accepted, taken := [], 0;
    }

    method Open()
      requires Valid()
      modifies this
      ensures Valid() && isOpen && frames == [] && accepted == [] && taken == 0
    {
      frames, bytes, isOpen := [], 0, true;
      accepted, taken := [], 0;
    }

    method Close()
      requires Valid()
      modifies this
      ensures Valid() && !isOpen && frames == []
    {
      frames, bytes, isOpen := [], 0, false;
      taken := |accepted|;
    }

    /** A frame is refused without a peer, and when it does not fit the budget unless the queue is empty. */
    method Push(payload: Bytes) returns (r: PushResult)
      requires Valid() && Fits(payload)
      modifies this
      ensures Valid() && isOpen == old(isOpen) && taken == old(taken)
      ensures r == if !old(isOpen) then NotConnected
                   else if old(frames) != [] && old(bytes) + |FrameOf(payload)| > MAX_PENDING_BYTES then WouldBlock
                   else Accepted
      ensures accepted == if r == Accepted then old(accepted) + [payload] else old(accepted)
      ensures frames == if r == Accepted then old(frames) + [FrameOf(payload)] else old(frames)
    {
      var frame := FrameOf(payload);
      if !isOpen {
        return NotConnected;
      }
      EmptyMeansNoBytes();
      if bytes > 0 && bytes + |frame| > MAX_PENDING_BYTES {
        return WouldBlock;
      }
      TotalLengthAppend(frames, frame);
      bytes := bytes + |frame|;
      frames := frames + [frame];
      accepted := accepted + [payload];
      r := Accepted;
    }

    /** Frames are never empty, so a queue without bytes is a queue without frames. */
    lemma EmptyMeansNoBytes()
      requires Valid()
      ensures bytes == 0 <==> frames == []
    {
      if frames != [] {
        assert frames[0] == FrameOf(accepted[taken]);
      }
    }

    /** The oldest frame, if any. */
    method Pop() returns (r: Option<Bytes>)
      requires Valid()
      modifies this
      ensures Valid() && isOpen == old(isOpen) && accepted == old(accepted)
      ensures r.None? <==> old(frames) == []
      ensures r.Some? ==> r.value == FrameOf(accepted[old(taken)])
      ensures r.Some? ==> taken == old(taken) + 1 && frames == old(frames)[1..]
      ensures r.None? ==> taken == old(taken) && frames == old(frames)
    {
      if frames == [] {
        return None;
      }
      r := Some(frames[0]);
      bytes := bytes - |frames[0]|;
      frames := frames[1..];
      taken := taken + 1;
      BudgetAfterPop();
    }

    lemma BudgetAfterPop()
      requires bytes == TotalLength(frames)
      requires |frames| == 0 || bytes <= MAX_PENDING_BYTES
      ensures bytes <= MAX_PENDING_BYTES || |frames| == 1
    {
    }
  }

  // ----- One peer after the other -----

  /** What happens while a peer is connected: the host sends, and the writer takes the next frame and gets n bytes
      of it out. Fewer than all of them means the connection ended under it. */
  datatype Act = HostSends(payload: Bytes) | WriterWrites(n: nat)

  /** A peer so far: the payloads accepted for it, how many of them the writer has taken, what reached it and whether
      the connection stands. */
  datatype Peer = Peer(accepted: seq<Bytes>, taken: nat, wire: Bytes, connected: bool)

  ghost predicate PeerOk(p: Peer) {
    AllFit(p.accepted) && p.taken <= |p.accepted|
  }

  function FrameList(payloads: seq<Bytes>): seq<Bytes>
    requires forall i :: 0 <= i < |payloads| ==> Fits(payloads[i])
  {
    seq(|payloads|, i requires 0 <= i < |payloads| => FrameOf(payloads[i]))
  }

  /** Whether the budget takes a payload: always when nothing waits. */
  ghost predicate Takes(p: Peer, payload: Bytes)
    requires PeerOk(p) && Fits(payload)
  {
    || p.taken == |p.accepted|
    || TotalLength(FrameList(p.accepted[p.taken..])) + |FrameOf(payload)| <= MAX_PENDING_BYTES
  }

  ghost function Next(p: Peer, act: Act): (p': Peer)
    requires PeerOk(p) && (act.HostSends? ==> Fits(act.payload))
    ensures PeerOk(p') && p.accepted <= p'.accepted
  {
    if !p.connected then p
    else
      match act
      case HostSends(payload) => if Takes(p, payload) then p.(accepted := p.accepted + [payload]) else p
      case WriterWrites(n) =>
        if p.taken == |p.accepted| then p
        else
          var frame := FrameOf(p.accepted[p.taken]);
          p.(taken := p.taken + 1, connected := n >= |frame|,
             wire := p.wire + (if n >= |frame| then frame else frame[..n]))
  }

  ghost predicate SendsFit(acts: seq<Act>) {
    forall i :: 0 <= i < |acts| && acts[i].HostSends? ==> Fits(acts[i].payload)
  }

  /** The peer after these acts. */
  ghost function Served(acts: seq<Act>): (p: Peer)
    requires SendsFit(acts)
    ensures PeerOk(p)
  {
    if acts == [] then Peer([], 0, [], true) else Next(Served(acts[..|acts| - 1]), acts[|acts| - 1])
  }

  // ----- What a peer decodes -----

  /** The frames that reached the peer whole. */
  function WholeFrames(p: Peer): nat {
    if p.connected || p.taken == 0 then p.taken else p.taken - 1
  }

  /** The wire holds whole frames of what was accepted, in order, and behind them at most a part of the next. */
  ghost predicate WireOk(p: Peer) {
    && PeerOk(p)
    && var n := WholeFrames(p);
       && (p.connected ==> p.wire == Stream(p.accepted[..n]))
       && (!p.connected ==> p.taken > 0 && exists k: nat ::
             k < |FrameOf(p.accepted[n])| && p.wire == Stream(p.accepted[..n]) + FrameOf(p.accepted[n])[..k])
  }

  lemma NextKeepsWire(p: Peer, act: Act)
    requires WireOk(p) && (act.HostSends? ==> Fits(act.payload))
    ensures WireOk(Next(p, act))
  {
    var p' := Next(p, act);
    assert p'.accepted[..p.taken] == p.accepted[..p.taken];
    if p.connected && act.WriterWrites? && p.taken < |p.accepted| {
      if p'.connected {
        assert p.accepted[..p.taken + 1] == p.accepted[..p.taken] + [p.accepted[p.taken]];
        StreamAppend(p.accepted[..p.taken], p.accepted[p.taken]);
      } else {
        var n := WholeFrames(p');
        assert n == p.taken;
        assert p'.wire == Stream(p'.accepted[..n]) + FrameOf(p'.accepted[n])[..act.n];
      }
    }
  }

  lemma {:induction false} ServedWire(acts: seq<Act>)
    requires SendsFit(acts)
    ensures WireOk(Served(acts))
  {
    if acts == [] {
    } else {
      ServedWire(acts[..|acts| - 1]);
      NextKeepsWire(Served(acts[..|acts| - 1]), acts[|acts| - 1]);
    }
  }

  /** A peer decodes exactly the payloads the writer took whole, in order, and nothing of a torn frame. */
  lemma PeerDecodesWholeFrames(acts: seq<Act>)
    requires SendsFit(acts)
    ensures DecodeAll(Served(acts).wire).0 == Served(acts).accepted[..WholeFrames(Served(acts))]
  {
    ServedWire(acts);
    var p := Served(acts);
    var n := WholeFrames(p);
    if p.connected {
      assert Stream(p.accepted[..n]) + [] == p.wire;
      DecodesStream(p.accepted[..n], []);
    } else {
      var k: nat :| k < |FrameOf(p.accepted[n])| && p.wire == Stream(p.accepted[..n]) + FrameOf(p.accepted[n])[..k];
      CutFrameYieldsNothing(p.accepted[n], k);
      DecodesStream(p.accepted[..n], FrameOf(p.accepted[n])[..k]);
    }
  }

  /** The payloads the host sends, in order. */
  function Sends(acts: seq<Act>): seq<Bytes> {
    if acts == [] then []
    else Sends(acts[..|acts| - 1]) +
         (if acts[|acts| - 1].HostSends? then [acts[|acts| - 1].payload] else [])
  }

  ghost predicate IsSubsequence(a: seq<Bytes>, b: seq<Bytes>) {
    if b == [] then a == []
    else
      || IsSubsequence(a, b[..|b| - 1])
      || (a != [] && a[|a| - 1] == b[|b| - 1] && IsSubsequence(a[..|a| - 1], b[..|b| - 1]))
  }

  lemma SubsequenceAppend(a: seq<Bytes>, b: seq<Bytes>, x: Bytes)
    requires IsSubsequence(a, b)
    ensures IsSubsequence(a, b + [x]) && IsSubsequence(a + [x], b + [x])
  {
    assert (b + [x])[..|b|] == b;
    assert (a + [x])[..|a|] == a;
  }

  /** What is accepted for a peer is some of what the host sent while it was connected, in order. */
  lemma {:induction false} AcceptedInOrder(acts: seq<Act>)
    requires SendsFit(acts)
    ensures IsSubsequence(Served(acts).accepted, Sends(acts))
  {
    if acts == [] {
    } else {
      var before, act := acts[..|acts| - 1], acts[|acts| - 1];
      AcceptedInOrder(before);
      if act.HostSends? {
        SubsequenceAppend(Served(before).accepted, Sends(before), act.payload);
      } else {
        assert Sends(acts) == Sends(before);
      }
    }
  }

  lemma {:induction false} SendsAllFit(acts: seq<Act>)
    requires SendsFit(acts)
    ensures AllFit(Sends(acts))
  {
    if acts == [] {
    } else {
      SendsAllFit(acts[..|acts| - 1]);
    }
  }

  lemma FrameListAppend(payloads: seq<Bytes>, payload: Bytes)
    requires AllFit(payloads) && Fits(payload)
    ensures TotalLength(FrameList(payloads + [payload])) == TotalLength(FrameList(payloads)) + |FrameOf(payload)|
  {
    assert FrameList(payloads + [payload]) == FrameList(payloads) + [FrameOf(payload)];
    TotalLengthAppend(FrameList(payloads), FrameOf(payload));
  }

  lemma {:induction false} LaterFramesAreShorter(payloads: seq<Bytes>, n: nat)
    requires AllFit(payloads) && n <= |payloads|
    ensures TotalLength(FrameList(payloads[n..])) <= TotalLength(FrameList(payloads))
    decreases n
  {
    if n == 0 {
      assert payloads[0..] == payloads;
    } else {
      assert FrameList(payloads)[1..] == FrameList(payloads[1..]) && payloads[1..][n - 1..] == payloads[n..];
      LaterFramesAreShorter(payloads[1..], n - 1);
    }
  }

  /** While all that was sent fits the budget nothing is refused, however slowly the peer takes it. */
  lemma {:induction false} NothingRefused(acts: seq<Act>)
    requires SendsFit(acts) && Served(acts).connected
    requires AllFit(Sends(acts)) && TotalLength(FrameList(Sends(acts))) <= MAX_PENDING_BYTES
    ensures Served(acts).accepted == Sends(acts)
  {
    if acts == [] {
    } else {
      var before, act := acts[..|acts| - 1], acts[|acts| - 1];
      SendsAllFit(before);
      if act.HostSends? {
        assert Fits(act.payload);
        FrameListAppend(Sends(before), act.payload);
        NothingRefused(before);
        LaterFramesAreShorter(Sends(before), Served(before).taken);
      } else {
        assert Sends(acts) == Sends(before);
        NothingRefused(before);
      }
    }
  }

  // ----- The outbox and its writer -----

  /** The outbox holds what was accepted for the peer and not taken yet. */
  ghost predicate Holds(outbox: Outbox, p: Peer)
    reads outbox
  {
    outbox.Valid() && outbox.isOpen && outbox.accepted == p.accepted && outbox.taken == p.taken
  }

  lemma QueueIsFrameList(outbox: Outbox, p: Peer)
    requires Holds(outbox, p)
    ensures PeerOk(p) && outbox.frames == FrameList(p.accepted[p.taken..])
  {
  }

  /** A send is taken exactly if the budget takes it. */
  method HostSend(outbox: Outbox, payload: Bytes, ghost p: Peer)
    requires Holds(outbox, p) && Fits(payload) && p.connected
    modifies outbox
    ensures Holds(outbox, Next(p, HostSends(payload)))
  {
    QueueIsFrameList(outbox, p);
    var _ := outbox.Push(payload);
  }

  /** The writer takes the next frame and gets count bytes of it out. */
  method WriteNext(outbox: Outbox, count: nat, wire: Bytes, ghost p: Peer) returns (wire': Bytes, connected: bool)
    requires Holds(outbox, p) && p.connected && wire == p.wire
    modifies outbox
    ensures Holds(outbox, Next(p, WriterWrites(count)))
    ensures wire' == Next(p, WriterWrites(count)).wire && connected == Next(p, WriterWrites(count)).connected
  {
    wire', connected := wire, true;
    var frame := outbox.Pop();
    if frame.Some? {
      if count >= |frame.value| {
        wire' := wire + frame.value;
      } else {
        wire', connected := wire + frame.value[..count], false;
      }
    }
  }

  lemma TakeOneMore(acts: seq<Act>, i: nat)
    requires SendsFit(acts) && i < |acts|
    ensures SendsFit(acts[..i]) && SendsFit(acts[..i + 1])
    ensures Served(acts[..i + 1]) == Next(Served(acts[..i]), acts[i])
  {
    assert acts[..i + 1][..i] == acts[..i];
  }

  lemma {:induction false} GoneStaysGone(acts: seq<Act>, i: nat)
    requires SendsFit(acts) && i <= |acts| && !Served(acts[..i]).connected
    ensures Served(acts) == Served(acts[..i])
    decreases |acts| - i
  {
    if i < |acts| {
      TakeOneMore(acts, i);
      GoneStaysGone(acts, i + 1);
    } else {
      assert acts[..i] == acts;
    }
  }

  /** Serves one peer from the opening of the outbox to its closing. */
  method ServePeer(outbox: Outbox, acts: seq<Act>) returns (wire: Bytes)
    requires outbox.Valid() && SendsFit(acts)
    modifies outbox
    ensures outbox.Valid() && !outbox.isOpen
    ensures wire == Served(acts).wire
  {
    outbox.Open();
    wire := [];
    var connected := true;
    var i := 0;
    ghost var p := Served([]);
    assert acts[..0] == [];
    while i < |acts| && connected
      invariant 0 <= i <= |acts|
      invariant p == Served(acts[..i]) && Holds(outbox, p)
      invariant wire == p.wire && connected == p.connected
    {
      TakeOneMore(acts, i);
      match acts[i] {
        case HostSends(payload) => HostSend(outbox, payload, p);
        case WriterWrites(n) => wire, connected := WriteNext(outbox, n, wire, p);
      }
      p := Next(p, acts[i]);
      i := i + 1;
    }
    if connected {
      assert acts[..i] == acts;
    } else {
      GoneStaysGone(acts, i);
    }
    outbox.Close();
  }

  /** Peers in turn, with sends between them: each gets what it would get alone, so it decodes payloads that were
      accepted for it and whole when they reached it, and no frame of an earlier peer. */
  method ServePeers(peers: seq<seq<Act>>, between: seq<Bytes>) returns (wires: seq<Bytes>)
    requires forall p :: 0 <= p < |peers| ==> SendsFit(peers[p])
    requires AllFit(between)
    ensures |wires| == |peers|
    ensures forall p :: 0 <= p < |peers| ==> wires[p] == Served(peers[p]).wire
    ensures forall p :: 0 <= p < |peers| ==>
      DecodeAll(wires[p]).0 == Served(peers[p]).accepted[..WholeFrames(Served(peers[p]))]
  {
    var outbox := new Outbox();
    wires := [];
    for p := 0 to |peers|
      invariant fresh(outbox) && outbox.Valid() && !outbox.isOpen
      invariant |wires| == p && forall q :: 0 <= q < p ==> wires[q] == Served(peers[q]).wire
    {
      if p < |between| {
        var r := outbox.Push(between[p]);
        assert r == NotConnected;
      }
      var wire := ServePeer(outbox, peers[p]);
      wires := wires + [wire];
    }
    forall p | 0 <= p < |peers|
      ensures DecodeAll(wires[p]).0 == Served(peers[p]).accepted[..WholeFrames(Served(peers[p]))]
    {
      PeerDecodesWholeFrames(peers[p]);
    }
  }
}
