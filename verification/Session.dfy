/** The session object, whose methods compute what SessionModel says. */
module Sessions {
  import opened Wrappers
  import opened Bytes
  import opened Wire
  import opened Payloads
  import opened Bitfields
  import M = SessionModel
  import opened SessionCalls

  /** A connection together with the world around it: unread input, the world's answers, how many were
      used, and what happened during the current FetchPiece call. */
  class Connection {
    const reader: Reader
    const world: M.World
    var clock: nat
    var trace: seq<M.Event>

    constructor (reader: Reader, world: M.World)
      ensures this.reader == reader && this.world == world && clock == 0 && trace == []
    {
      this.reader, this.world := reader, world;
      clock, trace := 0, [];
    }

    /** A context check, a SetDeadline call, or any other question to the world. */
    method Ask() returns (ok: bool)
      modifies this
      ensures ok == world(old(clock)) && clock == old(clock) + 1 && trace == old(trace)
    {
      ok := world(clock);
      clock := clock + 1;
    }

    method Log(e: M.Event)
      modifies this
      ensures trace == old(trace) + [e] && clock == old(clock)
    {
      trace := trace + [e];
    }

    method Send(m: Message) returns (ok: bool)
      modifies this
      ensures ok == world(old(clock)) && clock == old(clock) + 1
      ensures trace == old(trace) + [if ok then M.Sent(m) else M.SendFailed(m)]
    {
      ok := Ask();
      Log(if ok then M.Sent(m) else M.SendFailed(m));
    }
  }

  // --- The block callback -------------------------------------------------------------------------

  /** A file after WriteAt: the bytes before and after stay, and a gap is filled with zeros. */
  function Patch(file: seq<byte>, offset: nat, data: seq<byte>): seq<byte> {
    if offset > |file| then file + seq(offset - |file|, _ => 0) + data
    else if offset + |data| <= |file| then file[..offset] + data + file[offset + |data|..]
    else file[..offset] + data
  }

  /** Byte by byte: the block where it was written, zeros in a gap before it, and the rest as it was. */
  lemma PatchedByte(file: seq<byte>, offset: nat, data: seq<byte>, i: nat)
    ensures |Patch(file, offset, data)| == if offset + |data| > |file| then offset + |data| else |file|
    ensures i < |Patch(file, offset, data)| ==>
              Patch(file, offset, data)[i] == if offset <= i < offset + |data| then data[i - offset]
                                              else if i < |file| then file[i] else 0
  {
  }

  /** A file after the delivered blocks of a trace were written to it in order. */
  ghost function Replay(file: seq<byte>, t: seq<M.Event>): seq<byte> {
    if t == [] then file else
      var before, e := Replay(file, t[..|t| - 1]), t[|t| - 1];
      if e.Delivered? then Patch(before, e.offset, e.data) else before
  }

  /** Nothing was delivered between the two traces: they leave the same file. */
  ghost predicate Silent(t: seq<M.Event>, t': seq<M.Event>) {
    forall file :: Replay(file, t') == Replay(file, t)
  }

  lemma LogReplays(t: seq<M.Event>, e: M.Event)
    ensures !e.Delivered? ==> Silent(t, t + [e])
    ensures e.Delivered? ==> forall file :: Replay(file, t + [e]) == Patch(Replay(file, t), e.offset, e.data)
  {
    assert (t + [e])[..|t|] == t;
  }

  class TempFile {
    var contents: seq<byte>

    constructor ()
      ensures contents == []
    {
      contents := [];
    }

    /** os.File.WriteAt; a failing or short write may still have written some of the block. */
    method WriteAt(conn: Connection, offset: nat, data: seq<byte>) returns (ok: bool)
      modifies this, conn
      ensures ok == conn.world(old(conn.clock)) && conn.clock == old(conn.clock) + 1 && conn.trace == old(conn.trace)
      ensures ok ==> contents == Patch(old(contents), offset, data)
      ensures exists n :: 0 <= n <= |data| && contents == Patch(old(contents), offset, data[..n])
    {
      ok := conn.Ask();
      var n: nat := |data|;
      if !ok {
        n :| 0 <= n <= |data|;
      }
      assert data[..|data|] == data;
      contents := Patch(contents, offset, data[..n]);
    }
  }

  // --- Session ------------------------------------------------------------------------------------

  class Session {
    const conn: Connection
    const pieceCount: nat
    var choked: bool
    var peerPieces: Bitfield
    var bitfieldAllowed: bool

    ghost predicate Valid()
      reads this, peerPieces.bits
    {
      peerPieces.Valid() && peerPieces.pieceCount == pieceCount && M.Coherent(State())
    }

    ghost function State(): M.SessState
      reads this, peerPieces.bits
    {
      M.SessState(choked, pieceCount, peerPieces.bits[..], bitfieldAllowed)
    }

    ghost function View(): (r: M.Run)
      requires Valid()
      reads this, peerPieces.bits, conn, conn.reader
      ensures r.Valid()
    {
      M.Run(State(), conn.reader.input, conn.clock, conn.trace)
    }

    constructor (conn: Connection, bitfield: Bitfield)
      requires bitfield.Valid() && bitfield.Set() == {}
      ensures Valid() && this.conn == conn && pieceCount == bitfield.pieceCount && peerPieces == bitfield
      ensures choked && bitfieldAllowed
    {
      this.conn, pieceCount := conn, bitfield.pieceCount;
      choked, peerPieces, bitfieldAllowed := true, bitfield, true;
      new;
      assert forall i :: 0 <= i < pieceCount ==> (State().Has(i) <==> i in bitfield.Set());
    }

    /** NewSession. */
    static method NewSession(conn: Connection, pieceCount: int) returns (r: Result<Session>)
      ensures r.Ok? <==> ValidPieceCount(pieceCount)
      ensures r.Ok? ==>
                && fresh(r.value) && fresh(r.value.peerPieces.bits) && r.value.conn == conn
                && r.value.Valid() && r.value.State() == M.Initial(pieceCount)
    {
      var bitfield := NewBitfield(pieceCount);
      if bitfield.Err? {
        return Err(bitfield.error);
      }
      var s := new Session(conn, bitfield.value);
      r := Ok(s);
    }

    predicate HasPiece(index: nat)
      requires Valid()
      reads this, peerPieces.bits
      ensures HasPiece(index) == State().Has(index)
    {
      peerPieces.HasPiece(index)
    }

    /** Read. */
    method Read() returns (received: M.Received)
      requires Valid()
      modifies this, conn.reader, peerPieces.bits
      ensures Valid()
      ensures peerPieces.bits == old(peerPieces.bits) || fresh(peerPieces.bits)
      ensures M.ReadOutcome(received, State(), conn.reader.input) == M.Read(old(State()), old(conn.reader.input))
    {
      while true
        invariant Valid() && State() == old(State()) && peerPieces == old(peerPieces)
        invariant M.Read(State(), conn.reader.input) == M.Read(old(State()), old(conn.reader.input))
        decreases |conn.reader.input|
      {
        var frame := ReadFrame(conn.reader, pieceCount);
        if frame.Err? {
          return M.Failure(M.WireError(frame.error));
        }
        if frame.value.KeepAlive? {
          continue;
        }
        if frame.value.Unsupported? {
          continue;
        }
        received := Process(frame.value.message);
        return;
      }
    }

    /** What Read does once it has a message. */
    method Process(m: Message) returns (received: M.Received)
      requires Valid()
      modifies this, peerPieces.bits
      ensures Valid()
      ensures peerPieces.bits == old(peerPieces.bits) || fresh(peerPieces.bits)
      ensures var v := M.Accept(old(State()), m);
        && State() == v.state
        && received == if v.error.Some? then M.Failure(v.error.value) else M.Received.Message(m)
    {
      if m.id == BITFIELD && !bitfieldAllowed {
        return M.Failure(M.Protocol);
      }
      bitfieldAllowed := false;
      if m.id == CHOKE {
        choked := true;
      } else if m.id == UNCHOKE {
        choked := false;
      } else if m.id == BITFIELD {
        var bitfield := ParseBitfield(m.payload, pieceCount);
        if bitfield.Err? {
          return M.Failure(M.WireError(bitfield.error));
        }
        peerPieces := bitfield.value;
      } else if m.id == HAVE {
        var index := ParseHave(m);
        if index.Err? {
          return M.Failure(M.WireError(index.error));
        }
        if index.value >= pieceCount {
          return M.Failure(M.Protocol);
        }
        // The session's Bitfield has pieceCount pieces, so the call cannot fail.
        var ok := SetPiece(peerPieces, index.value);
        assert ok;
      }
      received := M.Received.Message(m);
    }

    /** readWithContext. */
    method ReadWithContext() returns (received: M.Received)
      requires Valid()
      modifies this, conn, conn.reader, peerPieces.bits
      ensures Valid()
      ensures peerPieces.bits == old(peerPieces.bits) || fresh(peerPieces.bits)
      ensures M.Reading(received, View()) == M.ReadWithContext(conn.world, old(View()))
      ensures Silent(old(conn.trace), conn.trace)
    {
      received := Read();
      if received.Message? {
        LogReplays(conn.trace, M.Got(received.message));
        conn.Log(M.Got(received.message));
      } else {
        var e := ContextOr(received.error);
        received := M.Failure(e);
      }
    }

    /** contextIOError. */
    method ContextOr(e: M.SessionError) returns (error: M.SessionError)
      requires Valid()
      modifies conn
      ensures Valid()
      ensures M.Outcome(Some(error), View()) == M.ContextOr(conn.world, old(View()), e)
    {
      var live := conn.Ask();
      error := if live then e else M.ContextEnded;
    }

    /** WriteInterested or WriteRequest, with contextIOError on failure. */
    method Send(m: Message) returns (error: Option<M.SessionError>)
      requires Valid()
      modifies conn
      ensures Valid()
      ensures M.Outcome(error, View()) == M.Send(conn.world, old(View()), m)
      ensures Silent(old(conn.trace), conn.trace)
    {
      LogReplays(conn.trace, M.Sent(m));
      var sent := conn.Send(m);
      if sent {
        return None;
      }
      var e := ContextOr(M.WriteFailed);
      error := Some(e);
    }

    /** waitUntilReady. */
    method WaitUntilReady(index: nat) returns (error: Option<M.SessionError>)
      requires Valid()
      modifies this, conn, conn.reader, peerPieces.bits
      ensures Valid()
      ensures peerPieces.bits == old(peerPieces.bits) || fresh(peerPieces.bits)
      ensures M.Outcome(error, View()) == M.WaitUntilReady(conn.world, old(View()), index)
      ensures error.None? ==> Silent(old(conn.trace), conn.trace)
    {
      hide M.Prepare;
      var watching := conn.Ask();
      if !watching {
        return Some(M.WatchFailed);
      }
      LogReplays(conn.trace, M.Watch);
      conn.Log(M.Watch);
      error := Prepare(index);
      LogReplays(conn.trace, M.Unwatch);
      conn.Log(M.Unwatch);
    }

    /** waitUntilReady between watchContext and the deferred stop function. */
    method Prepare(index: nat) returns (error: Option<M.SessionError>)
      requires Valid()
      modifies this, conn, conn.reader, peerPieces.bits
      ensures Valid()
      ensures peerPieces.bits == old(peerPieces.bits) || fresh(peerPieces.bits)
      ensures M.Outcome(error, View()) == M.Prepare(conn.world, old(View()), index)
      ensures error.None? ==> Silent(old(conn.trace), conn.trace)
    {
      hide M.AwaitPiece, M.AwaitUnchoke;
      error := AwaitPiece(index);
      if error.Some? {
        return;
      }
      error := Send(M.INTERESTED_MESSAGE);
      if error.Some? {
        return;
      }
      error := AwaitUnchoke();
      if error.Some? {
        return;
      }
      var live := conn.Ask();
      error := if live then None else Some(M.ContextEnded);
    }

    method AwaitPiece(index: nat) returns (error: Option<M.SessionError>)
      requires Valid()
      modifies this, conn, conn.reader, peerPieces.bits
      ensures Valid()
      ensures peerPieces.bits == old(peerPieces.bits) || fresh(peerPieces.bits)
      ensures M.Outcome(error, View()) == M.AwaitPiece(conn.world, old(View()), index)
      ensures error.None? ==> Silent(old(conn.trace), conn.trace)
    {
      while !HasPiece(index)
        invariant Valid()
        invariant peerPieces.bits == old(peerPieces.bits) || fresh(peerPieces.bits)
        invariant M.AwaitPiece(conn.world, View(), index) == M.AwaitPiece(conn.world, old(View()), index)
        invariant Silent(old(conn.trace), conn.trace)
        decreases |conn.reader.input|
      {
        var received := ReadWithContext();
        if received.Failure? {
          return Some(received.error);
        }
        if received.message.id == BITFIELD {
          if !HasPiece(index) {
            return Some(M.Unavailable);
          }
        } else if received.message.id == PIECE {
          return Some(M.Protocol);
        }
      }
      error := None;
    }

    method AwaitUnchoke() returns (error: Option<M.SessionError>)
      requires Valid()
      modifies this, conn, conn.reader, peerPieces.bits
      ensures Valid()
      ensures peerPieces.bits == old(peerPieces.bits) || fresh(peerPieces.bits)
      ensures M.Outcome(error, View()) == M.AwaitUnchoke(conn.world, old(View()))
      ensures error.None? ==> Silent(old(conn.trace), conn.trace)
    {
      while choked
        invariant Valid()
        invariant peerPieces.bits == old(peerPieces.bits) || fresh(peerPieces.bits)
        invariant M.AwaitUnchoke(conn.world, View()) == M.AwaitUnchoke(conn.world, old(View()))
        invariant Silent(old(conn.trace), conn.trace)
        decreases |conn.reader.input|
      {
        var received := ReadWithContext();
        if received.Failure? {
          return Some(received.error);
        }
        if received.message.id == PIECE {
          return Some(M.Protocol);
        }
      }
      error := None;
    }

    /** What FetchPiece does with a Piece message: parse, match, check the context, call back. */
    method TakeBlock(q: Request, m: Message, file: TempFile) returns (error: Option<M.SessionError>)
      requires Valid()
      modifies conn, file
      ensures Valid()
      ensures M.Outcome(error, View()) == M.TakeBlock(conn.world, old(View()), q, m)
      ensures forall f :: error.None? && old(file.contents) == Replay(f, old(conn.trace)) ==>
                file.contents == Replay(f, conn.trace)
    {
      var parsed := ParsePiece(m);
      if parsed.Err? {
        return Some(M.WireError(parsed.error));
      }
      var b := parsed.value;
      if b.index != q.index || b.begin != q.begin || |b.data| != q.length {
        return Some(M.Protocol);
      }
      var live := conn.Ask();
      if !live {
        return Some(M.ContextEnded);
      }
      var accepted := file.WriteAt(conn, q.begin, b.data);
      if !accepted {
        conn.Log(M.Refused(q.begin, b.data));
        return Some(M.BlockRefused);
      }
      LogReplays(conn.trace, M.Delivered(q.begin, b.data));
      conn.Log(M.Delivered(q.begin, b.data));
      error := None;
    }

    /** The inner loop of FetchPiece. */
    method AwaitBlock(q: Request, file: TempFile) returns (error: Option<M.SessionError>)
      requires Valid()
      modifies this, conn, conn.reader, peerPieces.bits, file
      ensures Valid()
      ensures peerPieces.bits == old(peerPieces.bits) || fresh(peerPieces.bits)
      ensures M.Outcome(error, View()) == M.AwaitBlock(conn.world, old(View()), q)
      ensures forall f :: error.None? && old(file.contents) == Replay(f, old(conn.trace)) ==>
                file.contents == Replay(f, conn.trace)
    {
      while true
        invariant Valid() && file.contents == old(file.contents)
        invariant peerPieces.bits == old(peerPieces.bits) || fresh(peerPieces.bits)
        invariant M.AwaitBlock(conn.world, View(), q) == M.AwaitBlock(conn.world, old(View()), q)
        invariant Silent(old(conn.trace), conn.trace)
        decreases |conn.reader.input|
      {
        var received := ReadWithContext();
        if received.Failure? {
          return Some(received.error);
        }
        var m := received.message;
        if m.id == CHOKE {
          return Some(M.Choked);
        } else if m.id == PIECE {
          error := TakeBlock(q, m, file);
          return;
        }
      }
    }

    /** One block between watchContext and the deferred stop function. */
    method RequestBlock(q: Request, file: TempFile) returns (error: Option<M.SessionError>)
      requires Valid()
      modifies this, conn, conn.reader, peerPieces.bits, file
      ensures Valid()
      ensures peerPieces.bits == old(peerPieces.bits) || fresh(peerPieces.bits)
      ensures M.Outcome(error, View()) == M.RequestBlock(conn.world, old(View()), q)
      ensures forall f :: error.None? && old(file.contents) == Replay(f, old(conn.trace)) ==>
                file.contents == Replay(f, conn.trace)
    {
      hide M.AwaitBlock;
      var live := conn.Ask();
      if !live {
        return Some(M.ContextEnded);
      }
      var m := NewRequest(q);
      if m.Err? {
        var e := ContextOr(M.WireError(m.error));
        return Some(e);
      }
      error := Send(m.value);
      if error.Some? {
        return;
      }
      error := AwaitBlock(q, file);
    }

    /** The function literal of FetchPiece. */
    method FetchBlock(q: Request, file: TempFile) returns (error: Option<M.SessionError>)
      requires Valid()
      modifies this, conn, conn.reader, peerPieces.bits, file
      ensures Valid()
      ensures peerPieces.bits == old(peerPieces.bits) || fresh(peerPieces.bits)
      ensures M.Outcome(error, View()) == M.FetchBlock(conn.world, old(View()), q)
      ensures forall f :: error.None? && old(file.contents) == Replay(f, old(conn.trace)) ==>
                file.contents == Replay(f, conn.trace)
    {
      hide M.RequestBlock;
      var watching := conn.Ask();
      if !watching {
        return Some(M.WatchFailed);
      }
      LogReplays(conn.trace, M.Watch);
      conn.Log(M.Watch);
      error := RequestBlock(q, file);
      LogReplays(conn.trace, M.Unwatch);
      conn.Log(M.Unwatch);
    }

    /** The block loop of FetchPiece. */
    method FetchBlocks(piece: M.PieceSpec, file: TempFile) returns (error: Option<M.SessionError>)
      requires Valid()
      modifies this, conn, conn.reader, peerPieces.bits, file
      ensures Valid()
      ensures peerPieces.bits == old(peerPieces.bits) || fresh(peerPieces.bits)
      ensures M.Outcome(error, View()) == M.FetchBlocks(conn.world, old(View()), piece, 0)
      ensures forall f :: error.None? && old(file.contents) == Replay(f, old(conn.trace)) ==>
                file.contents == Replay(f, conn.trace)
    {
      hide M.FetchBlock, M.FetchBlocks;
      var blockOffset: uint32 := 0;
      while blockOffset < piece.length
        invariant Valid()
        invariant peerPieces.bits == old(peerPieces.bits) || fresh(peerPieces.bits)
        invariant blockOffset <= piece.length
        invariant M.FetchBlocks(conn.world, View(), piece, blockOffset) ==
                  M.FetchBlocks(conn.world, old(View()), piece, 0)
        invariant forall f :: old(file.contents) == Replay(f, old(conn.trace)) ==>
                    file.contents == Replay(f, conn.trace)
      {
        M.FetchBlocksUnfolds(conn.world, View(), piece, blockOffset);
        var length := M.BlockLength(piece.length, blockOffset);
        error := FetchBlock(Request(piece.index, blockOffset, length), file);
        if error.Some? {
          return;
        }
        blockOffset := blockOffset + length;
      }
      M.FetchBlocksEnds(conn.world, View(), piece);
      error := None;
    }

    /** FetchPiece: the session's outcome, and on success the file that the delivered blocks leave. */
    method FetchPiece(piece: M.PieceSpec, file: TempFile) returns (error: Option<M.SessionError>)
      requires Valid()
      modifies this, conn, conn.reader, peerPieces.bits, file
      ensures Valid()
      ensures peerPieces.bits == old(peerPieces.bits) || fresh(peerPieces.bits)
      ensures M.Outcome(error, View()) == M.FetchPiece(conn.world, old(View()).(trace := []), piece)
      ensures FetchConforms(old(State()), piece, M.Outcome(error, View()))
      ensures error.None? ==> file.contents == Replay(old(file.contents), conn.trace)
    {
      hide M.WaitUntilReady, M.FetchBlocks, M.Coherent, FetchConforms;
      conn.trace := [];
      if piece.index >= pieceCount || piece.length == 0 {
        error := Some(M.BadPiece);
      } else {
        var live := conn.Ask();
        if !live {
          error := Some(M.ContextEnded);
        } else {
          error := WaitUntilReady(piece.index);
          if error.None? {
            error := FetchBlocks(piece, file);
          }
        }
      }
      FetchPieceConforms(conn.world, old(View()).(trace := []), piece);
    }
  }
}
