/** The Core's side of the stream: writes that may stop anywhere, resumed or given up so that the peer never
    reads a torn frame. */
module FrameWriter {
  import opened FrameCodec

  /** How a write of the connection ends. */
  datatype ConnError = Fine | Timeout | Hard

  datatype Outcome = Outcome(n: nat, error: ConnError)

  datatype WriteError = NoError | ConnFailed(error: ConnError) | ShortWrite | FrameTooLarge

  function FromConn(error: ConnError): WriteError {
    if error == Fine then NoError else ConnFailed(error)
  }

  /** What can go wrong on a connection; a stall is noted with the bytes on the wire by then. */
  datatype Trouble = HardError | NothingWritten | Stalled(at: nat) | NotResumed

  /** A connection. script is what the system will do with its next writes, deadlines whether the next deadlines
      can be set; once they run out the peer is gone. wire is what has reached the peer's end, log what went wrong. */
  class Conn {
    var script: seq<Outcome>
    var deadlines: seq<bool>
    var wire: Bytes
    var closed: bool
    ghost var log: seq<Trouble>

    constructor (script: seq<Outcome>, deadlines: seq<bool>)
      ensures this.script == script && wire == [] && !closed && log == []
    {
      this.script, this.deadlines, wire, closed, log := script, deadlines, [], false, [];
    }

    method Write(data: Bytes) returns (n: nat, error: ConnError)
      modifies this`script, this`wire, this`log
      ensures n <= |data| && wire == old(wire) + data[..n]
      ensures log == old(log) + TroubleOf(n, error, |wire|)
      ensures if old(script) == [] then n == 0 && error == Hard && script == []
              else |script| < |old(script)| && error == old(script)[0].error
    {
      if script == [] {
        log := log + [HardError];
        return 0, Hard;
      }
      n := if script[0].n <= |data| then script[0].n else |data|;
      error := script[0].error;
      wire := wire + data[..n];
      log := log + TroubleOf(n, error, |wire|);
      script := script[1..];
    }

    method SetWriteDeadline() returns (ok: bool)
      modifies this`deadlines
      ensures ok <==> old(deadlines) != [] && old(deadlines)[0]
    {
      ok := deadlines != [] && deadlines[0];
      if deadlines != [] {
        deadlines := deadlines[1..];
      }
    }

    method Close()
      modifies this`closed
      ensures closed
    {
      closed := true;
    }
  }

  function TroubleOf(n: nat, error: ConnError, at: nat): seq<Trouble> {
    match error
    case Hard => [HardError]
    case Timeout => [Stalled(at)]
    case Fine => if n == 0 then [NothingWritten] else []
  }

  /** The trouble was noted after the first from entries. */
  ghost predicate Since(log: seq<Trouble>, from: nat, trouble: Trouble) {
    exists i :: from <= i < |log| && log[i] == trouble
  }

  /** Waits out a stall once part of a frame is on the wire. */
  class ResumingWriter {
    const conn: Conn
    var written: nat

    constructor (conn: Conn)
      ensures this.conn == conn && written == 0
    {
      this.conn := conn;
      written := 0;
    }

    method Resume(error: ConnError) returns (ok: bool)
      modifies conn`deadlines, conn`log
      ensures ok <==> written > 0 && error == Timeout && old(conn.deadlines) != [] && old(conn.deadlines)[0]
      ensures ok ==> conn.log == old(conn.log)
      ensures !ok && written > 0 && error == Timeout ==> conn.log == old(conn.log) + [NotResumed]
      ensures written == 0 || error != Timeout ==> !ok && conn.log == old(conn.log)
    {
      if written == 0 || error != Timeout {
        return false;
      }
      ok := conn.SetWriteDeadline();
      if !ok {
        conn.log := conn.log + [NotResumed];
      }
    }

    /** Why a write reports this error. */
    ghost predicate Excuses(from: nat, error: ConnError, whole: bool)
      reads this, conn
    {
      && (error == Hard ==> Since(conn.log, from, HardError))
      && (error == Timeout && !whole && written > 0 ==> Since(conn.log, from, NotResumed))
      && (error == Timeout && (whole || written == 0) ==> Since(conn.log, from, Stalled(|conn.wire|)))
    }

    /** What is accepted is on the wire and counted. A stall with some of the frame written and some of the data not
        is waited out unless no new deadline can be set. */
    method Write(data: Bytes) returns (accepted: nat, error: ConnError)
      modifies this`written, conn`script, conn`wire, conn`deadlines, conn`log
      ensures accepted <= |data|
      ensures conn.wire == old(conn.wire) + data[..accepted]
      ensures written == old(written) + accepted
      ensures old(conn.log) <= conn.log && Excuses(|old(conn.log)|, error, accepted == |data|)
      ensures error == Fine && accepted == 0 ==> Since(conn.log, |old(conn.log)|, NothingWritten)
    {
      accepted := 0;
      while true
        invariant accepted <= |data|
        invariant conn.wire == old(conn.wire) + data[..accepted]
        invariant written == old(written) + accepted
        invariant old(conn.log) <= conn.log
        decreases |conn.script|
      {
        ghost var before := accepted;
        ghost var noted := |conn.log|;
        var n;
        n, error := conn.Write(data[accepted..]);
        assert data[..before] + data[before..][..n] == data[..before + n];
        accepted := accepted + n;
        written := written + n;
        assert error != Fine ==> conn.log[noted] == (if error == Hard then HardError else Stalled(|conn.wire|));
        assert error == Fine && n == 0 ==> conn.log[noted] == NothingWritten;
        if error == Fine {
          return;
        }
        if accepted >= |data| {
          return;
        }
        ghost var failed := conn.log;
        var resumed := Resume(error);
        if !resumed {
          assert conn.log[noted] == failed[noted];
          assert error == Timeout && written > 0 ==> conn.log[|failed|] == NotResumed;
          return;
        }
      }
    }

    /** Why not all of the data was written without error. */
    ghost predicate Explains(from: nat, error: WriteError, whole: bool)
      reads this, conn
    {
      && error != FrameTooLarge
      && (error.ConnFailed? ==> error.error != Fine && Excuses(from, error.error, whole))
      && (error == ShortWrite ==> Since(conn.log, from, NothingWritten))
    }

    method WriteAll(data: Bytes) returns (done: nat, error: WriteError)
      modifies this`written, conn`script, conn`wire, conn`deadlines, conn`log
      ensures done <= |data| && conn.wire == old(conn.wire) + data[..done]
      ensures written == old(written) + done
      ensures error == NoError ==> done == |data|
      ensures old(conn.log) <= conn.log && Explains(|old(conn.log)|, error, done == |data|)
    {
      done := 0;
      var left := data;
      while |left| > 0
        invariant done <= |data| && left == data[done..]
        invariant conn.wire == old(conn.wire) + data[..done]
        invariant written == old(written) + done
        invariant old(conn.log) <= conn.log
        decreases |left|
      {
        ghost var before := done;
        var n, connError := Write(left);
        assert data[..before] + left[..n] == data[..before + n];
        done := done + n;
        if connError != Fine {
          return done, FromConn(connError);
        }
        if n == 0 {
          return done, ShortWrite;
        }
        left := left[n..];
      }
      error := NoError;
    }

    /** The wire grows by a part of the frame, by all of it when no error is reported, and by nothing for a payload
        that is too large. */
    method WriteFrame(data: Bytes) returns (done: nat, error: WriteError)
      requires written == 0
      modifies this`written, conn`script, conn`wire, conn`deadlines, conn`log
      ensures !Fits(data) ==> done == 0 && error == FrameTooLarge && conn.wire == old(conn.wire)
      ensures Fits(data) ==> done <= |FrameOf(data)| && conn.wire == old(conn.wire) + FrameOf(data)[..done]
      ensures Fits(data) && error == NoError ==> done == |FrameOf(data)|
      ensures old(conn.log) <= conn.log
      ensures Fits(data) && error != NoError ==> Excused(conn.log, |old(conn.log)|, |old(conn.wire)|, |data|)
    {
      if |data| > MAX_FRAME_SIZE {
        return 0, FrameTooLarge;
      }
      var header := ToLe(|data|);
      done, error := WriteAll(header);
      assert FrameOf(data)[..done] == header[..done];
      if error != NoError {
        return;
      }
      var n;
      n, error := WriteAll(data);
      assert FrameOf(data)[..HEADER_SIZE + n] == header + data[..n];
      done := done + n;
    }
  }

  /** What explains that a frame of this size, begun with this much on the wire, was not written without error: the
      connection broke, took nothing, could not be given a new deadline, or stalled before, right behind or at the
      end of the header and the payload, never in the middle of either. */
  ghost predicate Excused(log: seq<Trouble>, from: nat, base: nat, size: nat) {
    || Since(log, from, HardError) || Since(log, from, NothingWritten) || Since(log, from, NotResumed)
    || Since(log, from, Stalled(base)) || Since(log, from, Stalled(base + HEADER_SIZE))
    || Since(log, from, Stalled(base + HEADER_SIZE + size))
  }

  /** The process's one connection to its host. whole lists the payloads put on it whole. */
  class Server {
    var conn: Conn?
    ghost var whole: seq<Bytes>

    /** A live connection carries whole frames and nothing else. */
    ghost predicate InSync()
      reads this, conn
    {
      conn != null ==> !conn.closed && AllFit(whole) && conn.wire == Stream(whole)
    }

    constructor (dialed: Conn)
      requires dialed.wire == [] && !dialed.closed
      ensures InSync() && conn == dialed && whole == []
    {
      conn, whole := dialed, [];
    }

    /** A send that reports no error put its frame on the wire whole; one that wrote nothing left the stream alone;
        any other one drops the connection after a part of its frame, possibly all of it. */
    method Send(data: Bytes) returns (ok: bool)
      requires InSync()
      modifies this, conn
      ensures InSync()
      ensures ok ==> Fits(data) && old(conn) != null && conn == old(conn) && whole == old(whole) + [data]
      ensures !ok && conn != null ==> conn == old(conn) && whole == old(whole) && conn.wire == old(conn.wire)
      ensures !ok && conn == null && old(conn) != null ==>
                && old(conn).closed && Fits(data) && whole == old(whole)
                && exists k: nat :: 0 < k <= |FrameOf(data)|
                                    && old(conn).wire == Stream(old(whole)) + FrameOf(data)[..k]
      ensures old(conn) == null ==> !ok && conn == null && whole == old(whole)
      ensures !ok && old(conn) != null && Fits(data) ==>
        Excused(old(conn).log, |old(conn.log)|, |old(conn.wire)|, |data|)
    {
      var c := conn;
      if c == null {
        return false;
      }
      // A deadline that cannot be set is only logged.
      var _ := c.SetWriteDeadline();
      var writer := new ResumingWriter(c);
      var done, error := writer.WriteFrame(data);
      if error == NoError {
        StreamAppend(whole, data);
        assert FrameOf(data)[..done] == FrameOf(data);
        whole := whole + [data];
        return true;
      }
      if done == 0 {
        assert Fits(data) ==> FrameOf(data)[..0] == [];
        return false;
      }
      conn := null;
      c.Close();
      return false;
    }
  }

  // ----- What the peer reads -----

  /** The payloads whose sends reported no error. */
  function Kept(payloads: seq<Bytes>, oks: seq<bool>): seq<Bytes>
    requires |oks| == |payloads|
  {
    if payloads == [] then []
    else Kept(payloads[..|payloads| - 1], oks[..|payloads| - 1]) +
         (if oks[|payloads| - 1] then [payloads[|payloads| - 1]] else [])
  }

  /** The peer reads the payloads that were sent without error, in order; on a connection that was dropped, it may
      also have read all of the one whose failure dropped it, and no later send reported success. */
  ghost predicate PeerReads(wire: Bytes, payloads: seq<Bytes>, oks: seq<bool>) {
    && |oks| == |payloads|
    && (|| DecodeAll(wire).0 == Kept(payloads, oks)
        || exists j :: 0 <= j < |payloads| && !oks[j]
                       && (forall i :: j < i < |oks| ==> !oks[i])
                       && DecodeAll(wire).0 == Kept(payloads, oks) + [payloads[j]])
  }

  lemma PartOfFrame(whole: seq<Bytes>, data: Bytes, k: nat)
    requires AllFit(whole) && Fits(data) && k <= |FrameOf(data)|
    ensures DecodeAll(Stream(whole) + FrameOf(data)[..k]).0 ==
            if k == |FrameOf(data)| then whole + [data] else whole
  {
    if k == |FrameOf(data)| {
      assert FrameOf(data)[..k] == FrameOf(data);
      StreamAppend(whole, data);
      assert Stream(whole + [data]) + [] == Stream(whole + [data]);
      DecodesStream(whole + [data], []);
    } else {
      CutFrameYieldsNothing(data, k);
      DecodesStream(whole, FrameOf(data)[..k]);
    }
  }

  lemma KeptAppend(payloads: seq<Bytes>, oks: seq<bool>, payload: Bytes, ok: bool)
    requires |oks| == |payloads|
    ensures Kept(payloads + [payload], oks + [ok]) == Kept(payloads, oks) + (if ok then [payload] else [])
  {
    assert (payloads + [payload])[..|payloads|] == payloads;
    assert (oks + [ok])[..|oks|] == oks;
  }

  lemma FailedSendKeepsReading(wire: Bytes, payloads: seq<Bytes>, oks: seq<bool>, payload: Bytes)
    requires PeerReads(wire, payloads, oks)
    ensures PeerReads(wire, payloads + [payload], oks + [false])
  {
    KeptAppend(payloads, oks, payload, false);
    if DecodeAll(wire).0 != Kept(payloads, oks) {
      var j :| 0 <= j < |payloads| && !oks[j] && (forall i :: j < i < |oks| ==> !oks[i])
               && DecodeAll(wire).0 == Kept(payloads, oks) + [payloads[j]];
      var payloads', oks' := payloads + [payload], oks + [false];
      assert !oks'[j] && payloads'[j] == payloads[j];
    }
  }

  /** Frame sync over a whole session: whatever the writes do, the peer decodes the sends in order, never a torn
      frame, and every send that reported no error. */
  method Session(dialed: Conn, payloads: seq<Bytes>) returns (oks: seq<bool>)
    requires dialed.wire == [] && !dialed.closed
    modifies dialed
    ensures PeerReads(dialed.wire, payloads, oks)
  {
    var server := new Server(dialed);
    oks := [];
    DecodesStream([], []);
    assert Stream([]) + [] == [];
    for i := 0 to |payloads|
      invariant fresh(server) && server.InSync()
      invariant |oks| == i
      invariant server.conn == dialed || server.conn == null
      invariant server.conn != null ==> server.whole == Kept(payloads[..i], oks)
      invariant PeerReads(dialed.wire, payloads[..i], oks)
    {
      assert payloads[..i + 1] == payloads[..i] + [payloads[i]];
      ghost var kept := Kept(payloads[..i], oks);
      ghost var wire, live := dialed.wire, server.conn != null;
      var ok := server.Send(payloads[i]);
      KeptAppend(payloads[..i], oks, payloads[i], ok);
      if ok || (live && server.conn != null) {
        assert Stream(server.whole) + [] == Stream(server.whole);
        DecodesStream(server.whole, []);
      } else if live {
        ghost var k: nat :| 0 < k <= |FrameOf(payloads[i])| && dialed.wire == Stream(kept) + FrameOf(payloads[i])[..k];
        PartOfFrame(kept, payloads[i], k);
        DroppedWhileSending(dialed.wire, payloads[..i], oks, payloads[i]);
      } else {
        FailedSendKeepsReading(wire, payloads[..i], oks, payloads[i]);
      }
      oks := oks + [ok];
    }
    assert payloads[..|payloads|] == payloads;
  }

  lemma DroppedWhileSending(wire: Bytes, payloads: seq<Bytes>, oks: seq<bool>, payload: Bytes)
    requires |oks| == |payloads|
    requires DecodeAll(wire).0 == Kept(payloads, oks) || DecodeAll(wire).0 == Kept(payloads, oks) + [payload]
    ensures PeerReads(wire, payloads + [payload], oks + [false])
  {
    KeptAppend(payloads, oks, payload, false);
    var payloads', oks' := payloads + [payload], oks + [false];
    assert !oks'[|payloads|] && payloads'[|payloads|] == payload;
  }
}
