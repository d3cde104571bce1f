/** Exactly which peers FetchPiece succeeds with, when no context ends and nothing else fails. */
module FetchSuccess {
  import opened Bytes
  import opened Wire
  import opened Payloads
  import opened Bitfields
  import opened SessionModel
  import opened SessionTrace
  import opened SessionHistory
  import opened FetchTheorems

  /** No context ends, no deadline or write fails, and each block is accepted. */
  ghost predicate Fair(w: World) {
    forall k: nat :: w(k)
  }

  // --- What the session hears -------------------------------------------------------------------------

  /** Reading message after message from `input` gives `ms` and leaves `rest`. */
  ghost predicate Reads(st: SessState, input: seq<byte>, ms: seq<Message>, rest: seq<byte>)
    requires |st.bits| == BitfieldBytes(st.pieceCount)
    decreases |ms|
  {
    if ms == [] then input == rest
    else
      var read := Read(st, input);
      read.received == Received.Message(ms[0]) && Reads(read.state, read.rest, ms[1..], rest)
  }

  lemma ReadsFirst(st: SessState, input: seq<byte>, m: Message, ms: seq<Message>, rest: seq<byte>)
    requires |st.bits| == BitfieldBytes(st.pieceCount)
    ensures Reads(st, input, [m] + ms, rest) <==>
              var read := Read(st, input);
              read.received == Received.Message(m) && Reads(read.state, read.rest, ms, rest)
  {
    assert ([m] + ms)[1..] == ms;
  }

  lemma ReadsNothing(st: SessState, input: seq<byte>, rest: seq<byte>)
    requires |st.bits| == BitfieldBytes(st.pieceCount)
    ensures Reads(st, input, [], rest) <==> input == rest
    ensures SessionHistory.After(st, []) == st
  {
  }

  lemma {:induction false} ReadsAccepted(st: SessState, input: seq<byte>, ms: seq<Message>, rest: seq<byte>)
    requires |st.bits| == BitfieldBytes(st.pieceCount) && Reads(st, input, ms, rest)
    ensures AllAccepted(st, ms)
    decreases |ms|
  {
    if ms != [] {
      hide Reads, Read, SessionHistory.After, AllAccepted, Accept;
      var m, tail := ms[0], ms[1..];
      assert ms == [m] + tail;
      ReadsFirst(st, input, m, tail, rest);
      ReadAccepts(st, input);
      ReadsAccepted(Read(st, input).state, Read(st, input).rest, tail, rest);
      AfterCons(st, m, tail);
    }
  }

  lemma {:induction false} ReadsSplit(
      st: SessState, input: seq<byte>, a: seq<Message>, b: seq<Message>, rest: seq<byte>)
      returns (mid: seq<byte>)
    requires |st.bits| == BitfieldBytes(st.pieceCount) && Reads(st, input, a + b, rest)
    ensures Reads(st, input, a, mid) && Reads(SessionHistory.After(st, a), mid, b, rest)
    decreases |a|
  {
    if a == [] {
      mid := input;
      assert a + b == b;
    } else {
      hide Reads, Read, SessionHistory.After;
      var m, tail := a[0], a[1..];
      assert a == [m] + tail && a + b == [m] + (tail + b);
      ReadsFirst(st, input, m, tail + b, rest);
      ReadAccepts(st, input);
      mid := ReadsSplit(Read(st, input).state, Read(st, input).rest, tail, b, rest);
      AfterCons(st, m, tail);
      ReadsFirst(st, input, m, tail, mid);
    }
  }

  lemma {:induction false} ReadsJoin(
      st: SessState, input: seq<byte>, a: seq<Message>, mid: seq<byte>, b: seq<Message>, rest: seq<byte>)
    requires |st.bits| == BitfieldBytes(st.pieceCount)
    requires Reads(st, input, a, mid) && Reads(SessionHistory.After(st, a), mid, b, rest)
    ensures Reads(st, input, a + b, rest)
    decreases |a|
  {
    hide Reads, Read, SessionHistory.After;
    if a == [] {
      ReadsNothing(st, input, mid);
      assert a + b == b;
    } else {
      var m, tail := a[0], a[1..];
      assert a == [m] + tail && a + b == [m] + (tail + b);
      ReadsFirst(st, input, m, tail, mid);
      ReadAccepts(st, input);
      AfterCons(st, m, tail);
      ReadsJoin(Read(st, input).state, Read(st, input).rest, tail, mid, b, rest);
      ReadsFirst(st, input, m, tail + b, rest);
    }
  }

  // --- Waiting for the session to reach a state ---------------------------------------------------------

  /** The state fulfils `p` after all of `ms`, and not before. */
  ghost predicate FirstTime(st: SessState, ms: seq<Message>, p: SessState -> bool)
    requires |st.bits| == BitfieldBytes(st.pieceCount)
  {
    forall k :: 0 <= k <= |ms| ==> (p(SessionHistory.After(st, ms[..k])) <==> k == |ms|)
  }

  lemma FirstTimeAt(st: SessState, ms: seq<Message>, p: SessState -> bool, k: nat)
    requires |st.bits| == BitfieldBytes(st.pieceCount) && FirstTime(st, ms, p) && k <= |ms|
    ensures p(SessionHistory.After(st, ms[..k])) <==> k == |ms|
  {
  }

  lemma FirstTimeNow(st: SessState, p: SessState -> bool)
    requires |st.bits| == BitfieldBytes(st.pieceCount)
    ensures FirstTime(st, [], p) <==> p(st)
  {
    var none: seq<Message> := [];
    assert none[..0] == [];
    assert SessionHistory.After(st, none[..0]) == st;
  }

  lemma FirstTimeEmpty(st: SessState, ms: seq<Message>, p: SessState -> bool)
    requires |st.bits| == BitfieldBytes(st.pieceCount) && FirstTime(st, ms, p)
    ensures p(st) <==> ms == []
  {
    assert ms[..0] == [] && SessionHistory.After(st, ms[..0]) == st;
  }

  lemma FirstTimeCons(st: SessState, m: Message, ms: seq<Message>, p: SessState -> bool)
    requires |st.bits| == BitfieldBytes(st.pieceCount) && Accept(st, m).error.None?
    ensures FirstTime(st, [m] + ms, p) <==> !p(st) && FirstTime(Accept(st, m).state, ms, p)
  {
    var all := [m] + ms;
    var st' := Accept(st, m).state;
    assert all[..0] == [] && SessionHistory.After(st, all[..0]) == st;
    forall k | 0 <= k <= |ms| ensures SessionHistory.After(st, all[..k + 1]) == SessionHistory.After(st', ms[..k]) {
      AfterCons(st, m, ms[..k]);
      assert all[..k + 1] == [m] + ms[..k];
    }
    if FirstTime(st, all, p) {
      forall k | 0 <= k <= |ms| ensures p(SessionHistory.After(st', ms[..k])) <==> k == |ms| {
        assert p(SessionHistory.After(st, all[..k + 1])) <==> k + 1 == |all|;
      }
    }
    if !p(st) && FirstTime(st', ms, p) {
      forall k | 0 <= k <= |all| ensures p(SessionHistory.After(st, all[..k])) <==> k == |all| {
        if k > 0 {
          assert p(SessionHistory.After(st', ms[..k - 1])) <==> k - 1 == |ms|;
        }
      }
    }
  }

  /** No message of this kind. */
  ghost predicate Without(ms: seq<Message>, id: byte) {
    forall m :: m in ms ==> m.id != id
  }

  lemma WithoutCons(m: Message, ms: seq<Message>, id: byte)
    ensures Without([m] + ms, id) <==> m.id != id && Without(ms, id)
  {
    assert ([m] + ms)[0] == m && forall k :: 0 <= k < |ms| ==> ([m] + ms)[k + 1] == ms[k];
  }

  /** A Bitfield only as the last message. */
  ghost predicate BitfieldOnlyLast(ms: seq<Message>) {
    forall k :: 0 <= k < |ms| && ms[k].id == BITFIELD ==> k + 1 == |ms|
  }

  lemma BitfieldOnlyLastCons(m: Message, ms: seq<Message>)
    ensures BitfieldOnlyLast([m] + ms) <==> (m.id == BITFIELD ==> ms == []) && BitfieldOnlyLast(ms)
  {
    var all := [m] + ms;
    assert all[0] == m && forall k :: 0 <= k < |ms| ==> all[k + 1] == ms[k];
    if BitfieldOnlyLast(all) {
      forall k | 0 <= k < |ms| && ms[k].id == BITFIELD ensures k + 1 == |ms| {
        assert all[k + 1].id == BITFIELD;
      }
    }
  }

  ghost function HasIt(i: nat): SessState -> bool {
    (st: SessState) => |st.bits| == BitfieldBytes(st.pieceCount) && st.Has(i)
  }

  ghost function Unchokes(): SessState -> bool {
    (st: SessState) => !st.choked
  }

  /** The last message is the first to advertise the piece; no block comes, and no Bitfield without the piece. */
  ghost predicate Advertises(st: SessState, ms: seq<Message>, i: nat)
    requires |st.bits| == BitfieldBytes(st.pieceCount)
  {
    && FirstTime(st, ms, HasIt(i))
    && Without(ms, PIECE)
    && BitfieldOnlyLast(ms)
  }

  lemma AdvertisesCons(st: SessState, m: Message, ms: seq<Message>, i: nat)
    requires |st.bits| == BitfieldBytes(st.pieceCount) && Accept(st, m).error.None?
    ensures Advertises(st, [m] + ms, i) <==>
              && !st.Has(i) && m.id != PIECE && (m.id == BITFIELD ==> Accept(st, m).state.Has(i))
              && Advertises(Accept(st, m).state, ms, i)
  {
    FirstTimeCons(st, m, ms, HasIt(i));
    WithoutCons(m, ms, PIECE);
    BitfieldOnlyLastCons(m, ms);
    var st' := Accept(st, m).state;
    if FirstTime(st', ms, HasIt(i)) {
      FirstTimeEmpty(st', ms, HasIt(i));
    }
    hide Accept, FirstTime, Without, BitfieldOnlyLast;
  }

  lemma {:induction false} PieceHeard(w: World, r: Run, i: nat, ms: seq<Message>, rest: seq<byte>)
    requires r.Valid() && Reads(r.state, r.rest, ms, rest) && Advertises(r.state, ms, i)
    ensures var out := AwaitPiece(w, r, i);
      && out.error.None? && out.run.clock == r.clock && out.run.rest == rest
      && out.run.state == SessionHistory.After(r.state, ms)
      && Content(out.run.trace) == Content(r.trace)
    decreases |ms|
  {
    if ms == [] {
      FirstTimeNow(r.state, HasIt(i));
    } else {
      assert ms == [ms[0]] + ms[1..];
      ReadAccepts(r.state, r.rest);
      AdvertisesCons(r.state, ms[0], ms[1..], i);
      AfterCons(r.state, ms[0], ms[1..]);
      var r' := ReadWithContext(w, r).run;
      GotKeepsContent(w, r);
      PieceHeard(w, r', i, ms[1..], rest);
    }
  }

  lemma ContentLog(r: Run, e: Event)
    ensures Content(r.Log(e).trace) == if e.Delivered? then Content(r.trace) + e.data else Content(r.trace)
  {
    assert (r.trace + [e])[..|r.trace|] == r.trace;
  }

  lemma GotKeepsContent(w: World, r: Run)
    requires r.Valid() && ReadWithContext(w, r).received.Message?
    ensures Content(ReadWithContext(w, r).run.trace) == Content(r.trace)
  {
    ContentLog(r, Got(ReadWithContext(w, r).received.message));
  }

  lemma {:induction false} PieceHears(w: World, r: Run, i: nat) returns (ms: seq<Message>)
    requires r.Valid() && AwaitPiece(w, r, i).error.None?
    ensures Reads(r.state, r.rest, ms, AwaitPiece(w, r, i).run.rest) && Advertises(r.state, ms, i)
    decreases |r.rest|
  {
    if r.state.Has(i) {
      ms := [];
      FirstTimeNow(r.state, HasIt(i));
    } else {
      var reading := ReadWithContext(w, r);
      var m := reading.received.message;
      ReadAccepts(r.state, r.rest);
      var tail := PieceHears(w, reading.run, i);
      AdvertisesCons(r.state, m, tail, i);
      ReadsFirst(r.state, r.rest, m, tail, AwaitPiece(w, r, i).run.rest);
      ms := [m] + tail;
    }
  }

  // --- Waiting for Unchoke ------------------------------------------------------------------------------

  ghost predicate Readies(st: SessState, ms: seq<Message>)
    requires |st.bits| == BitfieldBytes(st.pieceCount)
  {
    FirstTime(st, ms, Unchokes()) && Without(ms, PIECE)
  }

  lemma ReadiesCons(st: SessState, m: Message, ms: seq<Message>)
    requires |st.bits| == BitfieldBytes(st.pieceCount) && Accept(st, m).error.None?
    ensures Readies(st, [m] + ms) <==> st.choked && m.id != PIECE && Readies(Accept(st, m).state, ms)
  {
    FirstTimeCons(st, m, ms, Unchokes());
    WithoutCons(m, ms, PIECE);
  }

  lemma {:induction false} UnchokeHeard(w: World, r: Run, ms: seq<Message>, rest: seq<byte>)
    requires r.Valid() && Reads(r.state, r.rest, ms, rest) && Readies(r.state, ms)
    ensures var out := AwaitUnchoke(w, r);
      && out.error.None? && out.run.clock == r.clock && out.run.rest == rest
      && out.run.state == SessionHistory.After(r.state, ms)
      && Content(out.run.trace) == Content(r.trace)
    decreases |ms|
  {
    if ms == [] {
      FirstTimeNow(r.state, Unchokes());
    } else {
      assert ms == [ms[0]] + ms[1..];
      ReadAccepts(r.state, r.rest);
      ReadiesCons(r.state, ms[0], ms[1..]);
      AfterCons(r.state, ms[0], ms[1..]);
      GotKeepsContent(w, r);
      UnchokeHeard(w, ReadWithContext(w, r).run, ms[1..], rest);
    }
  }

  lemma {:induction false} UnchokeHears(w: World, r: Run) returns (ms: seq<Message>)
    requires r.Valid() && AwaitUnchoke(w, r).error.None?
    ensures Reads(r.state, r.rest, ms, AwaitUnchoke(w, r).run.rest) && Readies(r.state, ms)
    decreases |r.rest|
  {
    if !r.state.choked {
      ms := [];
      FirstTimeNow(r.state, Unchokes());
    } else {
      var reading := ReadWithContext(w, r);
      var m := reading.received.message;
      ReadAccepts(r.state, r.rest);
      var tail := UnchokeHears(w, reading.run);
      ReadiesCons(r.state, m, tail);
      ReadsFirst(r.state, r.rest, m, tail, AwaitUnchoke(w, r).run.rest);
      ms := [m] + tail;
    }
  }

  // --- One block ------------------------------------------------------------------------------------------

  /** The last message is the block asked for; before it, neither Choke nor any block. */
  ghost predicate Answers(ms: seq<Message>, q: Request, data: seq<byte>) {
    && ms != []
    && Without(ms[..|ms| - 1], PIECE) && Without(ms[..|ms| - 1], CHOKE)
    && ms[|ms| - 1].id == PIECE
    && ParsePiece(ms[|ms| - 1]) == Ok(Block(q.index, q.begin, data))
    && |data| == q.length
  }

  lemma AnswersCons(m: Message, ms: seq<Message>, q: Request, data: seq<byte>)
    requires ms != []
    ensures Answers([m] + ms, q, data) <==> m.id != CHOKE && m.id != PIECE && Answers(ms, q, data)
  {
    var all := [m] + ms;
    var init := ms[..|ms| - 1];
    assert all[..|all| - 1] == [m] + init && all[|all| - 1] == ms[|ms| - 1];
    WithoutCons(m, init, PIECE);
    WithoutCons(m, init, CHOKE);
    hide Without, ParsePiece;
  }

  lemma BlockTaken(w: World, r: Run, q: Request, m: Message, data: seq<byte>)
    requires Fair(w) && r.Valid() && ParsePiece(m) == Ok(Block(q.index, q.begin, data)) && |data| == q.length
    ensures var out := TakeBlock(w, r, q, m);
      && out.error.None? && out.run.rest == r.rest && out.run.state == r.state
      && Content(out.run.trace) == Content(r.trace) + data
  {
    ContentLog(r.Tick().Tick(), Delivered(q.begin, data));
  }

  lemma {:induction false} AnswerHeard(
      w: World, r: Run, q: Request, data: seq<byte>, ms: seq<Message>, rest: seq<byte>)
    requires Fair(w) && r.Valid() && Reads(r.state, r.rest, ms, rest) && Answers(ms, q, data)
    ensures var out := AwaitBlock(w, r, q);
      && out.error.None? && out.run.rest == rest && out.run.state == SessionHistory.After(r.state, ms)
      && Content(out.run.trace) == Content(r.trace) + data
    decreases |ms|
  {
    assert ms == [ms[0]] + ms[1..];
    ReadAccepts(r.state, r.rest);
    AfterCons(r.state, ms[0], ms[1..]);
    GotKeepsContent(w, r);
    var r' := ReadWithContext(w, r).run;
    hide TakeBlock, Content, ParsePiece;
    if |ms| == 1 {
      BlockTaken(w, r', q, ms[0], data);
    } else {
      AnswersCons(ms[0], ms[1..], q, data);
      AnswerHeard(w, r', q, data, ms[1..], rest);
    }
  }

  lemma {:induction false} AnswerHears(w: World, r: Run, q: Request) returns (ms: seq<Message>, data: seq<byte>)
    requires r.Valid() && AwaitBlock(w, r, q).error.None?
    ensures Reads(r.state, r.rest, ms, AwaitBlock(w, r, q).run.rest) && Answers(ms, q, data)
    decreases |r.rest|
  {
    var reading := ReadWithContext(w, r);
    var m := reading.received.message;
    if m.id == PIECE {
      ms, data := [m], ParsePiece(m).value.data;
      ReadsFirst(r.state, r.rest, m, [], reading.run.rest);
      assert [m] + [] == [m];
    } else {
      var tail;
      tail, data := AnswerHears(w, reading.run, q);
      AnswersCons(m, tail, q, data);
      ReadsFirst(r.state, r.rest, m, tail, AwaitBlock(w, r, q).run.rest);
      ms := [m] + tail;
    }
  }

  lemma BlockHeard(w: World, r: Run, q: Request, data: seq<byte>, ms: seq<Message>, rest: seq<byte>)
    requires Fair(w) && r.Valid() && Reads(r.state, r.rest, ms, rest) && Answers(ms, q, data) && NewRequest(q).Ok?
    ensures var out := FetchBlock(w, r, q);
      && out.error.None? && out.run.rest == rest && out.run.state == SessionHistory.After(r.state, ms)
      && Content(out.run.trace) == Content(r.trace) + data
  {
    hide AwaitBlock, Content;
    var m := NewRequest(q).value;
    var r1 := r.Tick().Log(Watch);
    ContentLog(r.Tick(), Watch);
    var r2 := r1.Tick().Tick().Log(Sent(m));
    ContentLog(r1.Tick().Tick(), Sent(m));
    AnswerHeard(w, r2, q, data, ms, rest);
    ContentLog(AwaitBlock(w, r2, q).run, Unwatch);
  }

  lemma BlockHears(w: World, r: Run, q: Request) returns (ms: seq<Message>, data: seq<byte>)
    requires r.Valid() && FetchBlock(w, r, q).error.None?
    ensures Reads(r.state, r.rest, ms, FetchBlock(w, r, q).run.rest) && Answers(ms, q, data) && NewRequest(q).Ok?
  {
    hide AwaitBlock;
    var r2 := r.Tick().Log(Watch).Tick().Tick().Log(Sent(NewRequest(q).value));
    ms, data := AnswerHears(w, r2, q);
  }

  // --- All blocks -----------------------------------------------------------------------------------------

  function Flat(bs: seq<seq<Message>>): seq<Message> {
    if bs == [] then [] else bs[0] + Flat(bs[1..])
  }

  function BlockAt(piece: PieceSpec, offset: uint32): Request
    requires offset <= piece.length
  {
    Request(piece.index, offset, BlockLength(piece.length, offset))
  }

  /** One stretch of messages for each block from `offset` on, which together carry `data`. */
  ghost predicate Serves(bs: seq<seq<Message>>, piece: PieceSpec, offset: uint32, data: seq<byte>)
    requires offset <= piece.length
    decreases piece.length - offset
  {
    && |data| == piece.length - offset
    && if offset == piece.length then bs == []
       else
         var length := BlockLength(piece.length, offset);
         && bs != []
         && Answers(bs[0], BlockAt(piece, offset), data[..length])
         && Serves(bs[1..], piece, offset + length, data[length..])
  }

  lemma NextBlockHeard(
      w: World, r: Run, piece: PieceSpec, offset: uint32, data: seq<byte>, bs: seq<seq<Message>>, rest: seq<byte>,
      end: Outcome)
      returns (r': Run, next: uint32)
    requires Fair(w) && r.Valid() && offset < piece.length && end == FetchBlocks(w, r, piece, offset)
    requires Reads(r.state, r.rest, Flat(bs), rest) && Serves(bs, piece, offset, data)
    ensures r'.Valid() && offset < next <= piece.length && next - offset <= |data| && bs != []
    ensures end == FetchBlocks(w, r', piece, next)
    ensures Reads(r'.state, r'.rest, Flat(bs[1..]), rest) && Serves(bs[1..], piece, next, data[next - offset..])
    ensures Content(r'.trace) == Content(r.trace) + data[..next - offset]
  {
    hide FetchBlock, FetchBlocks, Content, Answers, Reads;
    next := offset + BlockLength(piece.length, offset);
    var q := BlockAt(piece, offset);
    var mid := ReadsSplit(r.state, r.rest, bs[0], Flat(bs[1..]), rest);
    BlockHeard(w, r, q, data[..q.length], bs[0], mid);
    FetchBlocksUnfolds(w, r, piece, offset);
    r' := FetchBlock(w, r, q).run;
  }

  lemma BlocksEndHeard(
      w: World, r: Run, piece: PieceSpec, data: seq<byte>, bs: seq<seq<Message>>, rest: seq<byte>, end: Outcome)
    requires r.Valid() && end == FetchBlocks(w, r, piece, piece.length)
    requires Reads(r.state, r.rest, Flat(bs), rest) && Serves(bs, piece, piece.length, data)
    ensures end.error.None? && end.run.rest == rest && Content(end.run.trace) == Content(r.trace) + data
  {
    hide FetchBlocks, Content, Answers;
    FetchBlocksEnds(w, r, piece);
    assert Content(r.trace) + data == Content(r.trace);
  }

  lemma {:induction false} BlocksHeard(
      w: World, r: Run, piece: PieceSpec, offset: uint32, data: seq<byte>, bs: seq<seq<Message>>, rest: seq<byte>,
      end: Outcome)
    requires Fair(w) && r.Valid() && offset <= piece.length && end == FetchBlocks(w, r, piece, offset)
    requires Reads(r.state, r.rest, Flat(bs), rest) && Serves(bs, piece, offset, data)
    ensures end.error.None? && end.run.rest == rest && Content(end.run.trace) == Content(r.trace) + data
    decreases piece.length - offset
  {
    hide *;
    if offset == piece.length {
      BlocksEndHeard(w, r, piece, data, bs, rest, end);
    } else {
      var r', next := NextBlockHeard(w, r, piece, offset, data, bs, rest, end);
      BlocksHeard(w, r', piece, next, data[next - offset..], bs[1..], rest, end);
      assert Content(r.trace) + data[..next - offset] + data[next - offset..] == Content(r.trace) + data;
    }
  }

  lemma NextBlockHears(w: World, r: Run, piece: PieceSpec, offset: uint32, end: Outcome)
      returns (ms: seq<Message>, block: seq<byte>, r': Run, next: uint32)
    requires Fair(w) && r.Valid() && offset < piece.length
    requires end == FetchBlocks(w, r, piece, offset) && end.error.None?
    ensures r'.Valid() && offset < next <= piece.length && end == FetchBlocks(w, r', piece, next)
    ensures next == offset + BlockLength(piece.length, offset)
    ensures Reads(r.state, r.rest, ms, r'.rest) && Answers(ms, BlockAt(piece, offset), block)
    ensures r'.state == SessionHistory.After(r.state, ms)
  {
    hide FetchBlock, FetchBlocks, Content, Answers, Reads;
    next := offset + BlockLength(piece.length, offset);
    var q := BlockAt(piece, offset);
    FetchBlocksUnfolds(w, r, piece, offset);
    r' := FetchBlock(w, r, q).run;
    ms, block := BlockHears(w, r, q);
    BlockHeard(w, r, q, block, ms, r'.rest);
  }

  lemma {:induction false} BlocksHear(w: World, r: Run, piece: PieceSpec, offset: uint32, end: Outcome)
      returns (bs: seq<seq<Message>>, data: seq<byte>)
    requires Fair(w) && r.Valid() && offset <= piece.length
    requires end == FetchBlocks(w, r, piece, offset) && end.error.None?
    ensures Reads(r.state, r.rest, Flat(bs), end.run.rest) && Serves(bs, piece, offset, data)
    decreases piece.length - offset
  {
    if offset == piece.length {
      bs, data := [], [];
      FetchBlocksEnds(w, r, piece);
    } else {
      hide *;
      var ms, block, r', next := NextBlockHears(w, r, piece, offset, end);
      var bs', data' := BlocksHear(w, r', piece, next, end);
      ReadsJoin(r.state, r.rest, ms, r'.rest, Flat(bs'), end.run.rest);
      ServesCons(ms, bs', piece, offset, block, data');
      bs, data := [ms] + bs', block + data';
    }
  }

  lemma ServesCons(
      ms: seq<Message>, bs: seq<seq<Message>>, piece: PieceSpec, offset: uint32, block: seq<byte>, data: seq<byte>)
    requires offset < piece.length && Answers(ms, BlockAt(piece, offset), block)
    requires Serves(bs, piece, offset + BlockLength(piece.length, offset), data)
    ensures Serves([ms] + bs, piece, offset, block + data) && Flat([ms] + bs) == ms + Flat(bs)
  {
    hide Answers;
    var length := BlockLength(piece.length, offset);
    assert |block| == length by { AnswerLength(ms, BlockAt(piece, offset), block); }
    assert (block + data)[..length] == block && (block + data)[length..] == data;
    assert ([ms] + bs)[0] == ms && ([ms] + bs)[1..] == bs;
  }

  lemma AnswerLength(ms: seq<Message>, q: Request, data: seq<byte>)
    requires Answers(ms, q, data)
    ensures |data| == q.length
  {
  }

  // --- The whole piece ------------------------------------------------------------------------------------

  /** A peer's conversation in which a session in state `st` gets the piece: the peer advertises it, unchokes,
      and answers each request before it sends another block or chokes. Anything else may come in between. */
  ghost predicate Transfer(
      st: SessState, piece: PieceSpec, data: seq<byte>,
      advert: seq<Message>, ready: seq<Message>, bs: seq<seq<Message>>)
    requires |st.bits| == BitfieldBytes(st.pieceCount)
  {
    && Advertises(st, advert, piece.index)
    && Readies(SessionHistory.After(st, advert), ready)
    && Serves(bs, piece, 0, data)
  }

  lemma TransferHeard(
      w: World, r: Run, piece: PieceSpec, data: seq<byte>,
      advert: seq<Message>, ready: seq<Message>, bs: seq<seq<Message>>, rest: seq<byte>)
    requires Fair(w) && r.Valid() && piece.index < r.state.pieceCount && piece.length > 0
    requires Reads(r.state, r.rest, advert + (ready + Flat(bs)), rest)
    requires Transfer(r.state, piece, data, advert, ready, bs)
    ensures var out := FetchPiece(w, r, piece);
      out.error.None? && out.run.rest == rest && Content(out.run.trace) == Content(r.trace) + data
  {
    hide Reads, AwaitPiece, AwaitUnchoke, FetchBlocks, Content, Serves, Advertises, Readies;
    var r1 := r.Tick().Tick().Log(Watch);
    ContentLog(r.Tick().Tick(), Watch);
    var in2 := ReadsSplit(r.state, r.rest, advert, ready + Flat(bs), rest);
    PieceHeard(w, r1, piece.index, advert, in2);
    var r2 := AwaitPiece(w, r1, piece.index).run;
    var r3 := r2.Tick().Log(Sent(INTERESTED_MESSAGE));
    ContentLog(r2.Tick(), Sent(INTERESTED_MESSAGE));
    var in3 := ReadsSplit(r3.state, in2, ready, Flat(bs), rest);
    UnchokeHeard(w, r3, ready, in3);
    var r4 := AwaitUnchoke(w, r3).run;
    ContentLog(r4.Tick(), Unwatch);
    var r5 := r4.Tick().Log(Unwatch);
    BlocksHeard(w, r5, piece, 0, data, bs, rest, FetchBlocks(w, r5, piece, 0));
  }

  lemma TransferHears(w: World, r: Run, piece: PieceSpec)
      returns (data: seq<byte>, advert: seq<Message>, ready: seq<Message>, bs: seq<seq<Message>>)
    requires Fair(w) && r.Valid() && FetchPiece(w, r, piece).error.None?
    ensures piece.index < r.state.pieceCount && piece.length > 0
    ensures Reads(r.state, r.rest, advert + (ready + Flat(bs)), FetchPiece(w, r, piece).run.rest)
    ensures Transfer(r.state, piece, data, advert, ready, bs)
  {
    hide Reads, AwaitPiece, AwaitUnchoke, FetchBlocks, Content, Serves, Advertises, Readies;
    var r1 := r.Tick().Tick().Log(Watch);
    advert := PieceHears(w, r1, piece.index);
    var r2 := AwaitPiece(w, r1, piece.index).run;
    PieceHeard(w, r1, piece.index, advert, r2.rest);
    var r3 := r2.Tick().Log(Sent(INTERESTED_MESSAGE));
    ready := UnchokeHears(w, r3);
    var r4 := AwaitUnchoke(w, r3).run;
    UnchokeHeard(w, r3, ready, r4.rest);
    var r5 := r4.Tick().Log(Unwatch);
    var end := FetchBlocks(w, r5, piece, 0);
    bs, data := BlocksHear(w, r5, piece, 0, end);
    ReadsJoin(r3.state, r3.rest, ready, r4.rest, Flat(bs), end.run.rest);
    ReadsJoin(r.state, r.rest, advert, r2.rest, ready + Flat(bs), end.run.rest);
  }

  /** FetchPiece succeeds with `data`, leaving `rest` unread, exactly if what the peer sends reads as such a
      conversation. */
  lemma FetchSucceedsExactly(w: World, r: Run, piece: PieceSpec, data: seq<byte>, rest: seq<byte>)
    requires Fair(w) && r.Valid()
    ensures (var out := FetchPiece(w, r, piece);
             out.error.None? && out.run.rest == rest && Content(out.run.trace) == Content(r.trace) + data)
       <==> && piece.index < r.state.pieceCount && piece.length > 0
            && exists advert, ready, bs ::
                 && Transfer(r.state, piece, data, advert, ready, bs)
                 && Reads(r.state, r.rest, advert + (ready + Flat(bs)), rest)
  {
    hide FetchPiece, Reads, Transfer, Content;
    var out := FetchPiece(w, r, piece);
    if out.error.None? {
      var data', advert, ready, bs := TransferHears(w, r, piece);
      TransferHeard(w, r, piece, data', advert, ready, bs, out.run.rest);
      if Content(out.run.trace) == Content(r.trace) + data {
        SameTail(Content(r.trace), data, data');
      }
    }
    forall advert, ready, bs |
      && piece.index < r.state.pieceCount && piece.length > 0
      && Transfer(r.state, piece, data, advert, ready, bs)
      && Reads(r.state, r.rest, advert + (ready + Flat(bs)), rest)
      ensures out.error.None? && out.run.rest == rest && Content(out.run.trace) == Content(r.trace) + data
    {
      TransferHeard(w, r, piece, data, advert, ready, bs, rest);
    }
  }

  lemma SameTail(a: seq<byte>, b: seq<byte>, c: seq<byte>)
    requires a + b == a + c
    ensures b == c
  {
    assert b == (a + b)[|a|..] && c == (a + c)[|a|..];
  }

  lemma {:induction false} AfterJoin(st: SessState, a: seq<Message>, b: seq<Message>)
    requires |st.bits| == BitfieldBytes(st.pieceCount)
    ensures SessionHistory.After(st, a + b) == SessionHistory.After(SessionHistory.After(st, a), b)
    decreases |b|
  {
    if b == [] {
      assert a + b == a;
    } else {
      assert (a + b)[..|a + b| - 1] == a + b[..|b| - 1];
      AfterJoin(st, a, b[..|b| - 1]);
    }
  }

  /** What a prefix of an acceptable history decides. */
  lemma FreshPrefix(n: nat, ms: seq<Message>, k: nat, i: nat)
    requires i < n <= MAX_PIECES && k <= |ms| && Acceptable(ms, n)
    ensures var st := SessionHistory.After(Initial(n), ms[..k]);
      && st.choked == ChokedBy(ms[..k])
      && (HasIt(i)(st) <==> i in Opening(ms[..k], n) + Announced(ms[..k], n))
  {
    assert Acceptable(ms[..k], n) by {
      assert forall j :: 0 <= j < k ==> ms[..k][j] == ms[j];
    }
    AcceptedIffAcceptable(n, ms[..k]);
    HistoryDecidesState(n, ms[..k]);
    var st := SessionHistory.After(Initial(n), ms[..k]);
    assert HasIt(i)(st) <==> i in Pieces(st.bits, n);
  }

  lemma FreshAdvert(n: nat, i: nat, advert: seq<Message>, k: nat)
    requires i < n <= MAX_PIECES && k <= |advert| && Acceptable(advert, n)
    requires FirstTime(Initial(n), advert, HasIt(i))
    ensures i in Opening(advert[..k], n) + Announced(advert[..k], n) <==> k == |advert|
  {
    hide FirstTime, SessionHistory.After, Opening, Announced, ChokedBy;
    FreshPrefix(n, advert, k, i);
    FirstTimeAt(Initial(n), advert, HasIt(i), k);
  }

  lemma FreshReady(n: nat, advert: seq<Message>, ready: seq<Message>, k: nat)
    requires 0 < n <= MAX_PIECES && k <= |ready| && Acceptable(advert + ready, n)
    requires FirstTime(SessionHistory.After(Initial(n), advert), ready, Unchokes())
    ensures !ChokedBy(advert + ready[..k]) <==> k == |ready|
  {
    hide FirstTime, SessionHistory.After, Opening, Announced, ChokedBy, HasIt;
    var all := advert + ready;
    assert all[..|advert| + k] == advert + ready[..k];
    FreshPrefix(n, all, |advert| + k, 0);
    AfterJoin(Initial(n), advert, ready[..k]);
    FirstTimeAt(SessionHistory.After(Initial(n), advert), ready, Unchokes(), k);
  }

  lemma AcceptablePrefix(ms: seq<Message>, more: seq<Message>, n: nat)
    requires Acceptable(ms + more, n)
    ensures Acceptable(ms, n)
  {
    assert forall j :: 0 <= j < |ms| ==> (ms + more)[j] == ms[j];
  }

  /** On a fresh session the conditions are about the history alone: it is acceptable, its first part is the
      shortest that announces the piece by an opening Bitfield or a Have, and its second part is the shortest
      after which the peer unchokes. */
  lemma FreshTransfer(
      n: nat, piece: PieceSpec, data: seq<byte>, advert: seq<Message>, ready: seq<Message>, bs: seq<seq<Message>>,
      input: seq<byte>, rest: seq<byte>)
    requires piece.index < n <= MAX_PIECES
    requires Transfer(Initial(n), piece, data, advert, ready, bs)
    requires Reads(Initial(n), input, advert + (ready + Flat(bs)), rest)
    ensures Acceptable(advert + (ready + Flat(bs)), n)
    ensures forall k :: 0 <= k <= |advert| ==>
              (piece.index in Opening(advert[..k], n) + Announced(advert[..k], n) <==> k == |advert|)
    ensures forall k :: 0 <= k <= |ready| ==> (!ChokedBy(advert + ready[..k]) <==> k == |ready|)
  {
    hide Reads, Acceptable, FirstTime, Serves, Without, BitfieldOnlyLast, AllAccepted, SessionHistory.After;
    hide Opening, Announced, ChokedBy, Flat, BitfieldBytes;
    var all := advert + (ready + Flat(bs));
    ReadsAccepted(Initial(n), input, all, rest);
    AcceptedIffAcceptable(n, all);
    AcceptablePrefix(advert, ready + Flat(bs), n);
    assert advert + ready + Flat(bs) == all;
    AcceptablePrefix(advert + ready, Flat(bs), n);
    forall k | 0 <= k <= |advert|
      ensures piece.index in Opening(advert[..k], n) + Announced(advert[..k], n) <==> k == |advert|
    {
      FreshAdvert(n, piece.index, advert, k);
    }
    forall k | 0 <= k <= |ready| ensures !ChokedBy(advert + ready[..k]) <==> k == |ready| {
      FreshReady(n, advert, ready, k);
    }
  }
}
