/** The exact condition of FetchSuccess for every world: the peer serves the piece, and nothing else fails. */
module AnyWorld {
  import opened Wrappers
  import opened Bytes
  import opened Wire
  import opened Payloads
  import opened SessionModel
  import opened FetchTheorems
  import opened FetchSuccess

  /** The world in which nothing fails. */
  ghost function Kind(): World {
    (k: nat) => true
  }

  /** The world says yes to each question from number `lo` up to `hi`. */
  ghost predicate AllWell(w: World, lo: nat, hi: nat) {
    forall k :: lo <= k < hi ==> w(k)
  }

  /** In `w` the outcome is a success exactly if it is one in the kind world and `w` fails none of the questions
      asked there; and then it is the same outcome. */
  ghost predicate Agrees(w: World, r: Run, out: Outcome, kind: Outcome) {
    && (kind.error.None? ==> r.clock <= kind.run.clock)
    && (out.error.None? <==> kind.error.None? && AllWell(w, r.clock, kind.run.clock))
    && (out.error.None? ==> out == kind)
  }

  /** Two phases, the second one from where a successful first one ended. */
  lemma AgreesThen(w: World, r: Run, mid: Outcome, kindMid: Outcome, next: Outcome, out: Outcome, kind: Outcome)
    requires Agrees(w, r, mid, kindMid)
    requires kindMid.error.None? ==> Agrees(w, kindMid.run, next, kind)
    requires kindMid.error.Some? ==> kind.error.Some?
    requires mid.error.Some? ==> out.error.Some?
    requires mid.error.None? ==> out == next
    ensures Agrees(w, r, out, kind)
  {
  }

  /** A question first, and then a phase. */
  lemma AgreesAfter(w: World, r: Run, r': Run, next: Outcome, out: Outcome, kind: Outcome)
    requires r'.clock == r.clock + 1 && Agrees(w, r', next, kind)
    requires if w(r.clock) then out == next else out.error.Some?
    ensures Agrees(w, r, out, kind)
  {
    assert kind.error.None? ==>
      (AllWell(w, r.clock, kind.run.clock) <==> w(r.clock) && AllWell(w, r'.clock, kind.run.clock));
  }

  ghost function Logged(out: Outcome, e: Event): Outcome {
    Outcome(out.error, out.run.Log(e))
  }

  lemma LogAgrees(w: World, r: Run, out: Outcome, kind: Outcome, e: Event)
    requires Agrees(w, r, out, kind)
    ensures Agrees(w, r, Logged(out, e), Logged(kind, e))
  {
  }

  lemma {:induction false} AwaitPieceAgrees(w: World, r: Run, i: nat)
    requires r.Valid()
    ensures Agrees(w, r, AwaitPiece(w, r, i), AwaitPiece(Kind(), r, i))
    ensures AwaitPiece(Kind(), r, i).error.None? ==> AwaitPiece(Kind(), r, i).run.clock == r.clock
    decreases |r.rest|
  {
    if !r.state.Has(i) {
      var reading := ReadWithContext(w, r);
      if reading.received.Message? {
        AwaitPieceAgrees(w, reading.run, i);
      }
    }
  }

  lemma {:induction false} AwaitUnchokeAgrees(w: World, r: Run)
    requires r.Valid()
    ensures Agrees(w, r, AwaitUnchoke(w, r), AwaitUnchoke(Kind(), r))
    ensures AwaitUnchoke(Kind(), r).error.None? ==> AwaitUnchoke(Kind(), r).run.clock == r.clock
    decreases |r.rest|
  {
    if r.state.choked {
      var reading := ReadWithContext(w, r);
      if reading.received.Message? {
        AwaitUnchokeAgrees(w, reading.run);
      }
    }
  }

  lemma SendAgrees(w: World, r: Run, m: Message)
    ensures Agrees(w, r, Send(w, r, m), Send(Kind(), r, m))
    ensures Send(Kind(), r, m).error.None? && Send(Kind(), r, m).run.clock == r.clock + 1
  {
  }

  lemma TakeBlockAgrees(w: World, r: Run, q: Request, m: Message)
    requires r.Valid()
    ensures Agrees(w, r, TakeBlock(w, r, q, m), TakeBlock(Kind(), r, q, m))
  {
    hide ParsePiece;
    assert Kind()(r.clock) && Kind()(r.clock + 1);
    assert AllWell(w, r.clock, r.clock + 2) <==> w(r.clock) && w(r.clock + 1);
  }

  lemma {:induction false} AwaitBlockAgrees(w: World, r: Run, q: Request)
    requires r.Valid()
    ensures Agrees(w, r, AwaitBlock(w, r, q), AwaitBlock(Kind(), r, q))
    decreases |r.rest|
  {
    hide TakeBlock;
    var reading := ReadWithContext(w, r);
    if reading.received.Message? {
      TakeBlockAgrees(w, reading.run, q, reading.received.message);
      if reading.received.message.id != CHOKE && reading.received.message.id != PIECE {
        AwaitBlockAgrees(w, reading.run, q);
      }
    }
  }

  /** A check that passes, as an outcome. */
  ghost function Check(w: World, r: Run): Outcome {
    Outcome(if w(r.clock) then None else Some(ContextEnded), r.Tick())
  }

  lemma CheckAgrees(w: World, r: Run)
    ensures Agrees(w, r, Check(w, r), Check(Kind(), r))
  {
  }

  // --- Setup ----------------------------------------------------------------------------------------------

  lemma PrepareAgrees(w: World, r: Run, i: nat)
    requires r.Valid()
    ensures Agrees(w, r, Prepare(w, r, i), Prepare(Kind(), r, i))
  {
    var v := Kind();
    var o1, k1 := AwaitPiece(w, r, i), AwaitPiece(v, r, i);
    var o2 := if o1.error.Some? then o1 else Send(w, o1.run, INTERESTED_MESSAGE);
    var k2 := if k1.error.Some? then k1 else Send(v, k1.run, INTERESTED_MESSAGE);
    var o3 := if o2.error.Some? then o2 else AwaitUnchoke(w, o2.run);
    var k3 := if k2.error.Some? then k2 else AwaitUnchoke(v, k2.run);
    var o4 := if o3.error.Some? then o3 else Check(w, o3.run);
    var k4 := if k3.error.Some? then k3 else Check(v, k3.run);
    assert Prepare(w, r, i) == o4 && Prepare(v, r, i) == k4;
    AwaitPieceAgrees(w, r, i);
    SendAgrees(w, k1.run, INTERESTED_MESSAGE);
    AwaitUnchokeAgrees(w, k2.run);
    CheckAgrees(w, k3.run);
    hide Agrees, Prepare, AwaitPiece, AwaitUnchoke, Send, Check;
    AgreesThen(w, r, o1, k1, Send(w, k1.run, INTERESTED_MESSAGE), o2, k2);
    AgreeingMid(w, r, o1, k1);
    AgreesThen(w, r, o2, k2, AwaitUnchoke(w, k2.run), o3, k3);
    AgreeingMid(w, r, o2, k2);
    AgreesThen(w, r, o3, k3, Check(w, k3.run), o4, k4);
    AgreeingMid(w, r, o3, k3);
  }

  lemma AgreeingMid(w: World, r: Run, out: Outcome, kind: Outcome)
    requires Agrees(w, r, out, kind)
    ensures out.error.None? ==> out == kind
  {
  }

  lemma WaitUntilReadyAgrees(w: World, r: Run, i: nat)
    requires r.Valid()
    ensures Agrees(w, r, WaitUntilReady(w, r, i), WaitUntilReady(Kind(), r, i))
  {
    var r1 := r.Tick().Log(Watch);
    PrepareAgrees(w, r1, i);
    var out, kind := Prepare(w, r1, i), Prepare(Kind(), r1, i);
    LogAgrees(w, r1, out, kind, Unwatch);
    assert Kind()(r.clock);
    hide Prepare, Agrees;
    AgreesAfter(w, r, r1, Logged(out, Unwatch), WaitUntilReady(w, r, i), Logged(kind, Unwatch));
  }

  // --- Blocks ---------------------------------------------------------------------------------------------

  lemma RequestBlockAgrees(w: World, r: Run, q: Request)
    requires r.Valid()
    ensures Agrees(w, r, RequestBlock(w, r, q), RequestBlock(Kind(), r, q))
  {
    var v := Kind();
    assert v(r.clock);
    if NewRequest(q).Ok? {
      var m := NewRequest(q).value;
      var r1 := r.Tick();
      var o1, k1 := Send(w, r1, m), Send(v, r1, m);
      SendAgrees(w, r1, m);
      AwaitBlockAgrees(w, k1.run, q);
      var o2 := if o1.error.Some? then o1 else AwaitBlock(w, o1.run, q);
      hide Agrees, AwaitBlock, Send;
      AgreeingMid(w, r1, o1, k1);
      AgreesThen(w, r1, o1, k1, AwaitBlock(w, k1.run, q), o2, AwaitBlock(v, k1.run, q));
      AgreesAfter(w, r, r1, o2, RequestBlock(w, r, q), AwaitBlock(v, k1.run, q));
    }
  }

  lemma FetchBlockAgrees(w: World, r: Run, q: Request)
    requires r.Valid()
    ensures Agrees(w, r, FetchBlock(w, r, q), FetchBlock(Kind(), r, q))
  {
    var r1 := r.Tick().Log(Watch);
    RequestBlockAgrees(w, r1, q);
    var out, kind := RequestBlock(w, r1, q), RequestBlock(Kind(), r1, q);
    LogAgrees(w, r1, out, kind, Unwatch);
    assert Kind()(r.clock);
    hide RequestBlock, Agrees;
    AgreesAfter(w, r, r1, Logged(out, Unwatch), FetchBlock(w, r, q), Logged(kind, Unwatch));
  }

  lemma {:induction false} FetchBlocksAgrees(
      w: World, r: Run, piece: PieceSpec, offset: uint32, out: Outcome, kind: Outcome)
    requires r.Valid() && offset <= piece.length
    requires out == FetchBlocks(w, r, piece, offset) && kind == FetchBlocks(Kind(), r, piece, offset)
    ensures Agrees(w, r, out, kind)
    decreases piece.length - offset
  {
    hide FetchBlock, FetchBlocks;
    if offset == piece.length {
      FetchBlocksEnds(w, r, piece);
      FetchBlocksEnds(Kind(), r, piece);
    } else {
      hide Agrees, AllWell;
      var next := offset + BlockLength(piece.length, offset);
      var q := BlockAt(piece, offset);
      var o1, k1 := FetchBlock(w, r, q), FetchBlock(Kind(), r, q);
      FetchBlocksUnfolds(w, r, piece, offset);
      FetchBlocksUnfolds(Kind(), r, piece, offset);
      FetchBlockAgrees(w, r, q);
      AgreeingMid(w, r, o1, k1);
      var out' := FetchBlocks(w, k1.run, piece, next);
      if k1.error.None? {
        FetchBlocksAgrees(w, k1.run, piece, next, out', FetchBlocks(Kind(), k1.run, piece, next));
      }
      AgreesThen(w, r, o1, k1, out', out, kind);
    }
  }

  // --- The whole piece --------------------------------------------------------------------------------------

  /** FetchPiece succeeds exactly if it would with nothing but the peer to fail it, and none of the questions it
      then asks the world is answered with a failure; and then it does the same. */
  lemma FetchPieceAgrees(w: World, r: Run, piece: PieceSpec)
    requires r.Valid()
    ensures Agrees(w, r, FetchPiece(w, r, piece), FetchPiece(Kind(), r, piece))
  {
    var v := Kind();
    assert v(r.clock);
    if piece.index < r.state.pieceCount && piece.length > 0 {
      var r1 := r.Tick();
      var o1, k1 := WaitUntilReady(w, r1, piece.index), WaitUntilReady(v, r1, piece.index);
      WaitUntilReadyAgrees(w, r1, piece.index);
      FetchBlocksAgrees(w, k1.run, piece, 0, FetchBlocks(w, k1.run, piece, 0), FetchBlocks(v, k1.run, piece, 0));
      var o2 := if o1.error.Some? then o1 else FetchBlocks(w, o1.run, piece, 0);
      var k2 := if k1.error.Some? then k1 else FetchBlocks(v, k1.run, piece, 0);
      hide Agrees, WaitUntilReady, FetchBlocks;
      AgreeingMid(w, r1, o1, k1);
      AgreesThen(w, r1, o1, k1, FetchBlocks(w, k1.run, piece, 0), o2, k2);
      AgreesAfter(w, r, r1, o2, FetchPiece(w, r, piece), k2);
    }
  }

  // --- How many questions -----------------------------------------------------------------------------------

  lemma {:induction false} AwaitBlockAsksTwo(r: Run, q: Request)
    requires r.Valid() && AwaitBlock(Kind(), r, q).error.None?
    ensures AwaitBlock(Kind(), r, q).run.clock == r.clock + 2
    decreases |r.rest|
  {
    hide ParsePiece;
    var reading := ReadWithContext(Kind(), r);
    if reading.received.message.id != PIECE {
      AwaitBlockAsksTwo(reading.run, q);
    }
  }

  lemma FetchBlockAsksFive(r: Run, q: Request)
    requires r.Valid() && FetchBlock(Kind(), r, q).error.None?
    ensures FetchBlock(Kind(), r, q).run.clock == r.clock + 5
  {
    hide AwaitBlock;
    var r2 := r.Tick().Log(Watch).Tick().Tick().Log(Sent(NewRequest(q).value));
    AwaitBlockAsksTwo(r2, q);
  }

  lemma {:induction false} FetchBlocksAskFiveEach(r: Run, piece: PieceSpec, offset: uint32, kind: Outcome)
    requires r.Valid() && offset <= piece.length && kind == FetchBlocks(Kind(), r, piece, offset) && kind.error.None?
    ensures kind.run.clock == r.clock + 5 * |BlocksFrom(piece.length, offset)|
    decreases piece.length - offset
  {
    hide FetchBlock, FetchBlocks;
    if offset == piece.length {
      FetchBlocksEnds(Kind(), r, piece);
    } else {
      var next := offset + BlockLength(piece.length, offset);
      var q := BlockAt(piece, offset);
      FetchBlocksUnfolds(Kind(), r, piece, offset);
      FetchBlockAsksFive(r, q);
      FetchBlocksAskFiveEach(FetchBlock(Kind(), r, q).run, piece, next, kind);
    }
  }

  /** A successful FetchPiece asks the world four questions, and five more for each block. */
  lemma FetchPieceAsks(r: Run, piece: PieceSpec)
    requires r.Valid() && FetchPiece(Kind(), r, piece).error.None?
    ensures FetchPiece(Kind(), r, piece).run.clock == r.clock + 4 + 5 * |BlocksFrom(piece.length, 0)|
  {
    hide AwaitPiece, AwaitUnchoke, FetchBlocks;
    var v := Kind();
    var r1 := r.Tick().Tick().Log(Watch);
    AwaitPieceAgrees(v, r1, piece.index);
    var r2 := AwaitPiece(v, r1, piece.index).run;
    var r3 := r2.Tick().Log(Sent(INTERESTED_MESSAGE));
    AwaitUnchokeAgrees(v, r3);
    var r5 := AwaitUnchoke(v, r3).run.Tick().Log(Unwatch);
    FetchBlocksAskFiveEach(r5, piece, 0, FetchBlocks(v, r5, piece, 0));
  }

  /** For every world: FetchPiece succeeds with `data`, leaving `rest` unread, exactly if the peer's input reads as
      a transfer of `data` and the world fails none of the next 4 + 5 * (number of blocks) questions. */
  lemma FetchSucceedsInWorld(w: World, r: Run, piece: PieceSpec, data: seq<byte>, rest: seq<byte>)
    requires r.Valid()
    ensures (var out := FetchPiece(w, r, piece);
             out.error.None? && out.run.rest == rest && Content(out.run.trace) == Content(r.trace) + data)
       <==> && piece.index < r.state.pieceCount && piece.length > 0
            && (exists advert, ready, bs ::
                  && Transfer(r.state, piece, data, advert, ready, bs)
                  && Reads(r.state, r.rest, advert + (ready + Flat(bs)), rest))
            && AllWell(w, r.clock, r.clock + 4 + 5 * |BlocksFrom(piece.length, 0)|)
  {
    FetchPieceAgrees(w, r, piece);
    hide FetchPiece, Transfer, Reads, Content, AllWell;
    FetchSucceedsExactly(Kind(), r, piece, data, rest);
    if FetchPiece(Kind(), r, piece).error.None? {
      FetchPieceAsks(r, piece);
    }
  }
}
