/** Length-prefixed frames: the layout both ends of the IPC stream write and read. */
module FrameCodec {

  type Byte = b: int | 0 <= b < 256

  type Bytes = seq<Byte>

  const MAX_FRAME_SIZE := 64 * 1024 * 1024
  const HEADER_SIZE := 4

  // ----- The layout -----

  /** n as an unsigned 32-bit integer, little-endian. */
  function ToLe(n: nat): Bytes
    requires n < 0x1_0000_0000
  {
    [n % 256, n / 256 % 256, n / 65536 % 256, n / 16777216]
  }

  function FromLe(b: Bytes): nat
    requires |b| == HEADER_SIZE
  {
    var b0: int, b1: int, b2: int, b3: int := b[0], b[1], b[2], b[3];
    b0 + 256 * b1 + 65536 * b2 + 16777216 * b3
  }

  lemma FromToLe(n: nat)
    requires n < 0x1_0000_0000
    ensures FromLe(ToLe(n)) == n
  {
    assert n / 65536 == n / 256 / 256;
    assert n / 16777216 == n / 65536 / 256;
  }

  lemma ToFromLe(b: Bytes)
    requires |b| == HEADER_SIZE
    ensures FromLe(b) < 0x1_0000_0000 && ToLe(FromLe(b)) == b
  {
    var n: int, b1: int, b2: int, b3: int := FromLe(b), b[1], b[2], b[3];
    assert n / 256 == b1 + 256 * b2 + 65536 * b3;
    assert n / 65536 == b2 + 256 * b3;
    assert n / 16777216 == b3;
  }

  /** The least significant byte comes first, and each weighs 256 times the one before it. */
  lemma LittleEndian(n: nat)
    requires n < 0x1_0000_0000
    ensures var b := ToLe(n);
            |b| == 4 && n == (b[0] as int) + 256 * (b[1] as int) + 65536 * (b[2] as int) + 16777216 * (b[3] as int)
  {
    FromToLe(n);
  }

  /** A payload that may be framed. */
  predicate Fits(payload: Bytes) {
    |payload| <= MAX_FRAME_SIZE
  }

  function FrameOf(payload: Bytes): Bytes
    requires Fits(payload)
    ensures |FrameOf(payload)| == HEADER_SIZE + |payload|
  {
    ToLe(|payload|) + payload
  }

  /** The layout: four bytes of the payload's length, which count the payload alone, and then the payload. */
  lemma FrameLayout(payload: Bytes)
    requires Fits(payload)
    ensures var f := FrameOf(payload);
            && |f| == 4 + |payload| && f[4..] == payload
            && |payload| == (f[0] as int) + 256 * (f[1] as int) + 65536 * (f[2] as int) + 16777216 * (f[3] as int)
  {
    LittleEndian(|payload|);
  }

  function Stream(payloads: seq<Bytes>): Bytes
    requires forall i :: 0 <= i < |payloads| ==> Fits(payloads[i])
  {
    if payloads == [] then [] else FrameOf(payloads[0]) + Stream(payloads[1..])
  }

  datatype Decoded =
    | Payload(payload: Bytes, rest: Bytes)
    | EndOfStream                   // not a byte of the part that was due
    | Truncated                     // some bytes of it, but not all
    | Oversized                     // a header beyond the limit

  function DecodeFrame(s: Bytes): Decoded {
    if s == [] then EndOfStream
    else if |s| < HEADER_SIZE then Truncated
    else
      var len := FromLe(s[..HEADER_SIZE]);
      if len > MAX_FRAME_SIZE then Oversized
      else if |s| < HEADER_SIZE + len then if |s| == HEADER_SIZE then EndOfStream else Truncated
      else Payload(s[HEADER_SIZE..HEADER_SIZE + len], s[HEADER_SIZE + len..])
  }

  /** What a peer makes of a stream: its payloads, up to the first part that is not a whole frame. */
  function DecodeAll(s: Bytes): (seq<Bytes>, Bytes)
    decreases |s|
  {
    match DecodeFrame(s)
    case Payload(payload, rest) =>
      var (payloads, tail) := DecodeAll(rest);
      ([payload] + payloads, tail)
    case _ => ([], s)
  }

  // ----- Round trips -----

  /** Whatever follows a frame, its payload comes back and the rest is untouched. */
  lemma DecodesFrame(payload: Bytes, rest: Bytes)
    requires Fits(payload)
    ensures DecodeFrame(FrameOf(payload) + rest) == Payload(payload, rest)
  {
    var s := FrameOf(payload) + rest;
    assert s[..HEADER_SIZE] == ToLe(|payload|);
    FromToLe(|payload|);
  }

  /** Only a frame decodes to a payload: decoding loses and invents nothing. */
  lemma DecodesOnlyFrames(s: Bytes)
    requires DecodeFrame(s).Payload?
    ensures var d := DecodeFrame(s); Fits(d.payload) && s == FrameOf(d.payload) + d.rest
  {
    ToFromLe(s[..HEADER_SIZE]);
    assert s == s[..HEADER_SIZE] + s[HEADER_SIZE..];
  }

  /** No proper part of a frame yields a payload. */
  lemma CutFrameYieldsNothing(payload: Bytes, n: nat)
    requires Fits(payload) && n < |FrameOf(payload)|
    ensures DecodeFrame(FrameOf(payload)[..n]) == if n == 0 || n == HEADER_SIZE then EndOfStream else Truncated
  {
    if n >= HEADER_SIZE {
      assert FrameOf(payload)[..n][..HEADER_SIZE] == ToLe(|payload|);
      FromToLe(|payload|);
    }
  }

  /** A header that announces more than the limit is refused, whatever follows it. */
  lemma OversizedIsRefused(n: nat, rest: Bytes)
    requires n < 0x1_0000_0000
    ensures DecodeFrame(ToLe(n) + rest) == Oversized <==> n > MAX_FRAME_SIZE
  {
    assert (ToLe(n) + rest)[..HEADER_SIZE] == ToLe(n);
    FromToLe(n);
  }

  ghost predicate AllFit(payloads: seq<Bytes>) {
    forall i :: 0 <= i < |payloads| ==> Fits(payloads[i])
  }

  lemma DecodeAllStep(payload: Bytes, rest: Bytes)
    requires Fits(payload)
    ensures DecodeAll(FrameOf(payload) + rest) == ([payload] + DecodeAll(rest).0, DecodeAll(rest).1)
  {
    DecodesFrame(payload, rest);
  }

  lemma DecodeAllOne(s: Bytes)
    requires DecodeFrame(s).Payload?
    ensures DecodeAll(s).0 == [DecodeFrame(s).payload] + DecodeAll(DecodeFrame(s).rest).0
    ensures |DecodeFrame(s).rest| < |s|
  {
  }

  lemma UndecodedTail(tail: Bytes)
    requires !DecodeFrame(tail).Payload?
    ensures DecodeAll(tail) == ([], tail)
  {
  }

  lemma FirstFrame(payloads: seq<Bytes>, tail: Bytes)
    requires AllFit(payloads) && payloads != []
    ensures Stream(payloads) + tail == FrameOf(payloads[0]) + (Stream(payloads[1..]) + tail)
  {
    Associative(FrameOf(payloads[0]), Stream(payloads[1..]), tail);
  }

  lemma Associative(a: Bytes, b: Bytes, c: Bytes)
    ensures (a + b) + c == a + (b + c)
  {
  }

  /** A stream of frames decodes to their payloads, and a cut-off frame at its end to nothing. */
  lemma {:induction false} DecodesStream(payloads: seq<Bytes>, tail: Bytes)
    requires AllFit(payloads) && !DecodeFrame(tail).Payload?
    ensures DecodeAll(Stream(payloads) + tail) == (payloads, tail)
  {
    if payloads == [] {
      assert Stream(payloads) + tail == tail;
      UndecodedTail(tail);
    } else {
      var rest := Stream(payloads[1..]) + tail;
      FirstFrame(payloads, tail);
      DecodesStream(payloads[1..], tail);
      DecodeAllStep(payloads[0], rest);
      assert [payloads[0]] + payloads[1..] == payloads;
    }
  }

  lemma {:induction false} StreamAppend(payloads: seq<Bytes>, payload: Bytes)
    requires AllFit(payloads) && Fits(payload)
    ensures Stream(payloads + [payload]) == Stream(payloads) + FrameOf(payload)
  {
    if payloads == [] {
    } else {
      assert (payloads + [payload])[1..] == payloads[1..] + [payload];
      StreamAppend(payloads[1..], payload);
    }
  }

  // ----- Encoding and reading -----

  datatype Encoded = Frame(bytes: Bytes) | TooLarge

  method Encode(payload: Bytes) returns (r: Encoded)
    ensures r == if Fits(payload) then Frame(FrameOf(payload)) else TooLarge
  {
    if |payload| > MAX_FRAME_SIZE {
      return TooLarge;
    }
    var frame: Bytes := [];
    frame := frame + ToLe(|payload|);
    frame := frame + payload;
    return Frame(frame);
  }

  function Concat(chunks: seq<Bytes>): Bytes {
    if chunks == [] then [] else chunks[0] + Concat(chunks[1..])
  }

  /** A connection's bytes as they arrive, cut anywhere. */
  class ChunkReader {
    var chunks: seq<Bytes>

    constructor (chunks: seq<Bytes>)
      ensures this.chunks == chunks
    {
      this.chunks := chunks;
    }

    ghost function Left(): Bytes
      reads this
    {
      Concat(chunks)
    }

    /** One read: at most room bytes, from the chunk that has arrived; none at the end of the stream. */
    method Read(room: nat) returns (got: Bytes)
      requires room > 0
      modifies this
      ensures |got| <= room && old(Left()) == got + Left()
      ensures got == [] ==> Left() == []
      ensures |Left()| <= |old(Left())|
    {
      while chunks != [] && chunks[0] == []
        invariant Left() == old(Left())
        decreases |chunks|
      {
        chunks := chunks[1..];
      }
      if chunks == [] {
        return [];
      }
      var n := if |chunks[0]| <= room then |chunks[0]| else room;
      got := chunks[0][..n];
      var rest := chunks[0][n..];
      assert chunks[0] == got + rest;
      assert Left() == got + (rest + Concat(chunks[1..]));
      chunks := [rest] + chunks[1..];
    }

    /** Reads until n bytes are there or the stream ends. */
    method ReadFull(n: nat) returns (got: Bytes)
      modifies this
      ensures got == if |old(Left())| >= n then old(Left())[..n] else old(Left())
      ensures Left() == old(Left())[|got|..]
    {
      got := [];
      while |got| < n
        invariant |got| <= n && old(Left()) == got + Left()
        decreases n - |got|
      {
        var part := this.Read(n - |got|);
        if part == [] {
          return;
        }
        got := got + part;
      }
    }

    /** Reads one frame. The answer depends on the bytes alone, not on how they were cut. */
    method ReadFrame() returns (r: Answer)
      modifies this
      ensures r == AnswerOf(DecodeFrame(old(Left())))
      ensures r.Got? ==> Left() == DecodeFrame(old(Left())).rest
    {
      ghost var s := Left();
      var header := ReadFull(HEADER_SIZE);
      if |header| < HEADER_SIZE {
        return if header == [] then NoMore else CutOff;
      }
      var len := FromLe(header);
      if len > MAX_FRAME_SIZE {
        return Refused;
      }
      var payload := ReadFull(len);
      if |payload| < len {
        return if payload == [] then NoMore else CutOff;
      }
      assert payload == s[HEADER_SIZE..HEADER_SIZE + len];
      r := Got(payload);
    }

    /** Reads frame after frame until one does not come. */
    method ReadAll() returns (payloads: seq<Bytes>)
      modifies this
      ensures payloads == DecodeAll(old(Left())).0
    {
      payloads := [];
      ghost var s := Left();
      while true
        invariant DecodeAll(s).0 == payloads + DecodeAll(Left()).0
        decreases |Left()|
      {
        ghost var before := Left();
        var r := ReadFrame();
        if !r.Got? {
          return;
        }
        DecodeAllOne(before);
        payloads := payloads + [r.got];
      }
    }
  }

  datatype Answer = Got(got: Bytes) | NoMore | CutOff | Refused

  function AnswerOf(d: Decoded): Answer {
    match d
    case Payload(payload, _) => Got(payload)
    case EndOfStream => NoMore
    case Truncated => CutOff
    case Oversized => Refused
  }

  /** However a stream of frames is cut into chunks, and wherever it breaks off inside one more frame, the reader
      gets exactly the payloads of the whole frames, in order. */
  method ReadsWhatWasFramed(ghost payloads: seq<Bytes>, ghost tail: Bytes, chunks: seq<Bytes>) returns (got: seq<Bytes>)
    requires AllFit(payloads) && !DecodeFrame(tail).Payload?
    requires Concat(chunks) == Stream(payloads) + tail
    ensures got == payloads
  {
    var reader := new ChunkReader(chunks);
    DecodesStream(payloads, tail);
    got := reader.ReadAll();
  }
}
