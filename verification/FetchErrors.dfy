/** How every FetchPiece call ends, for every peer and every world: the story the peer's input tells, and the first
    thing that goes wrong in it. */
module FetchErrors {
  import opened Wrappers
  import opened Bytes
  import opened Wire
  import opened Payloads
  import opened SessionModel
  import opened SessionTrace
  import opened SessionHistory
  import opened FetchSuccess
  import opened AnyWorld

  // --- Stories --------------------------------------------------------------------------------------------------

  /** What a peer's input amounts to for one piece. `end` is what the session reads after all the messages of the
      story: the message that ends the attempt, or the failure of Read. */
  datatype Story =
    | NoAdvert(ms: seq<Message>, end: Received)
    | NoUnchoke(advert: seq<Message>, ms: seq<Message>, end: Received)
    | NoBlock(advert: seq<Message>, ready: seq<Message>, bs: seq<seq<Message>>, ms: seq<Message>, end: Received)
    | Whole(advert: seq<Message>, ready: seq<Message>, bs: seq<seq<Message>>)

  /** Reading gives `ms`, and then `end`. */
  ghost predicate Ends(st: SessState, input: seq<byte>, ms: seq<Message>, end: Received)
    requires |st.bits| == BitfieldBytes(st.pieceCount)
  {
    exists rest :: Reads(st, input, ms, rest) && Read(SessionHistory.After(st, ms), rest).received == end
  }

  /** `p` holds at no point of the history. */
  ghost predicate NeverYet(st: SessState, ms: seq<Message>, p: SessState -> bool)
    requires |st.bits| == BitfieldBytes(st.pieceCount)
  {
    forall k :: 0 <= k <= |ms| ==> !p(SessionHistory.After(st, ms[..k]))
  }

  /** The piece is not advertised; the end, if a message, is a block or a Bitfield without the piece. */
  ghost predicate AdvertStalls(st: SessState, ms: seq<Message>, end: Received, i: nat)
    requires |st.bits| == BitfieldBytes(st.pieceCount)
  {
    && NeverYet(st, ms, HasIt(i))
    && Without(ms, PIECE) && Without(ms, BITFIELD)
    && (end.Message? ==>
          || end.message.id == PIECE
          || (end.message.id == BITFIELD && !Accept(SessionHistory.After(st, ms), end.message).state.Has(i)))
  }

  /** The peer keeps choking; the end, if a message, is a block. */
  ghost predicate ReadyStalls(st: SessState, ms: seq<Message>, end: Received)
    requires |st.bits| == BitfieldBytes(st.pieceCount)
  {
    NeverYet(st, ms, Unchokes()) && Without(ms, PIECE) && (end.Message? ==> end.message.id == PIECE)
  }

  ghost predicate IsAnswer(m: Message, q: Request) {
    m.id == PIECE && exists data :: |data| == q.length && ParsePiece(m) == Ok(Block(q.index, q.begin, data))
  }

  /** The request is not answered; the end, if a message, is a Choke or a block other than the one asked for. */
  ghost predicate BlockStalls(ms: seq<Message>, end: Received, q: Request) {
    && Without(ms, PIECE) && Without(ms, CHOKE)
    && (end.Message? ==>
          || end.message.id == CHOKE
          || (end.message.id == PIECE && !IsAnswer(end.message, q)))
  }

  /** One stretch of messages for each block from `lo` on, up to where the block at `hi` begins. */
  ghost predicate Served(bs: seq<seq<Message>>, piece: PieceSpec, lo: uint32, hi: uint32)
    requires lo <= piece.length
    decreases |bs|
  {
    if bs == [] then lo == hi
    else
      && lo < piece.length
      && (exists data :: Answers(bs[0], BlockAt(piece, lo), data))
      && Served(bs[1..], piece, lo + BlockLength(piece.length, lo), hi)
  }

  ghost predicate Tells(st: SessState, input: seq<byte>, piece: PieceSpec, story: Story)
    requires |st.bits| == BitfieldBytes(st.pieceCount)
  {
    match story
    case NoAdvert(ms, end) => AdvertStalls(st, ms, end, piece.index) && Ends(st, input, ms, end)
    case NoUnchoke(advert, ms, end) =>
      && Advertises(st, advert, piece.index)
      && ReadyStalls(SessionHistory.After(st, advert), ms, end)
      && Ends(st, input, advert + ms, end)
    case NoBlock(advert, ready, bs, ms, end) =>
      && Advertises(st, advert, piece.index)
      && Readies(SessionHistory.After(st, advert), ready)
      && (exists offset: uint32 ::
            offset < piece.length && Served(bs, piece, 0, offset) && BlockStalls(ms, end, BlockAt(piece, offset)))
      && Ends(st, input, advert + (ready + (Flat(bs) + ms)), end)
    case Whole(advert, ready, bs) =>
      && Advertises(st, advert, piece.index)
      && Readies(SessionHistory.After(st, advert), ready)
      && Served(bs, piece, 0, piece.length)
      && exists rest :: Reads(st, input, advert + (ready + Flat(bs)), rest)
  }

  // --- Verdicts -------------------------------------------------------------------------------------------------

  /** How many questions FetchPiece asks the world before the end of the story: whether the context is live and the
      deadline can be set; whether Interested is sent, and the context still live afterwards; and for each block
      whether the deadline can be set, the context is live, the request is sent, the context is still live when the
      block has come, and the callback accepts it. */
  function Asked(story: Story): nat {
    match story
    case NoAdvert(_, _) => 2
    case NoUnchoke(_, _, _) => 3
    case NoBlock(_, _, bs, _, _) => 4 + 5 * |bs| + 3
    case Whole(_, _, bs) => 4 + 5 * |bs|
  }

  /** The error if question `p` is the first one answered with a failure. A failed write is put down to the context
      if that has ended by the next question. */
  function QuestionError(p: nat, next: bool): SessionError {
    var q := if p < 4 then p else 10 + (p - 4) % 5;
    if q == 1 || q == 10 then WatchFailed
    else if q == 2 || q == 12 then (if next then WriteFailed else ContextEnded)
    else if q == 14 then BlockRefused
    else ContextEnded
  }

  /** The first question from number `lo` up to `hi` that the world answers with a failure. */
  ghost function FirstNo(w: World, lo: nat, hi: nat): (k: Option<nat>)
    ensures k.Some? ==> lo <= k.value < hi
    decreases if lo < hi then hi - lo else 0
  {
    if lo >= hi then None else if !w(lo) then Some(lo) else FirstNo(w, lo + 1, hi)
  }

  /** The error for a message that ends the attempt. */
  function MessageError(m: Message): SessionError {
    if m.id == CHOKE then Choked else if m.id == BITFIELD then Unavailable else Protocol
  }

  /** The error for the end of a story; a failure of Read is put down to the context if that has ended. */
  function EndError(w: World, clock: nat, end: Received): SessionError {
    match end
    case Message(m) => MessageError(m)
    case Failure(e) => if w(clock) then e else ContextEnded
  }

  ghost function Verdict(w: World, clock: nat, story: Story): Option<SessionError> {
    match FirstNo(w, clock, clock + Asked(story))
    case Some(k) => Some(QuestionError(k - clock, w(k + 1)))
    case None => if story.Whole? then None else Some(EndError(w, clock + Asked(story), story.end))
  }

  lemma {:induction false} FirstNoSplit(w: World, lo: nat, mid: nat, hi: nat)
    requires lo <= mid <= hi
    ensures FirstNo(w, lo, hi) == if FirstNo(w, lo, mid).Some? then FirstNo(w, lo, mid) else FirstNo(w, mid, hi)
    decreases mid - lo
  {
    if lo < mid && w(lo) {
      FirstNoSplit(w, lo + 1, mid, hi);
    }
  }

  lemma {:induction false} FirstNoRange(w: World, lo: nat, hi: nat)
    ensures FirstNo(w, lo, hi).Some? ==>
              var k := FirstNo(w, lo, hi).value;
              lo <= k < hi && !w(k) && forall j :: lo <= j < k ==> w(j)
    ensures FirstNo(w, lo, hi).None? ==> forall j :: lo <= j < hi ==> w(j)
    decreases if lo < hi then hi - lo else 0
  {
    if lo < hi && w(lo) {
      FirstNoRange(w, lo + 1, hi);
    }
  }

  // --- The setup phase stalls ---------------------------------------------------------------------------------

  lemma NeverYetCons(st: SessState, m: Message, ms: seq<Message>, p: SessState -> bool)
    requires |st.bits| == BitfieldBytes(st.pieceCount) && Accept(st, m).error.None?
    ensures NeverYet(st, [m] + ms, p) <==> !p(st) && NeverYet(Accept(st, m).state, ms, p)
  {
    var all := [m] + ms;
    var st' := Accept(st, m).state;
    assert all[..0] == [] && SessionHistory.After(st, all[..0]) == st;
    forall k | 0 <= k <= |ms| ensures SessionHistory.After(st, all[..k + 1]) == SessionHistory.After(st', ms[..k]) {
      AfterCons(st, m, ms[..k]);
      assert all[..k + 1] == [m] + ms[..k];
    }
    if NeverYet(st, all, p) {
      forall k | 0 <= k <= |ms| ensures !p(SessionHistory.After(st', ms[..k])) {
        assert !p(SessionHistory.After(st, all[..k + 1]));
      }
    }
    if !p(st) && NeverYet(st', ms, p) {
      forall k | 0 <= k <= |all| ensures !p(SessionHistory.After(st, all[..k])) {
        assert k > 0 ==> !p(SessionHistory.After(st', ms[..k - 1]));
      }
    }
  }

  lemma NeverYetNow(st: SessState, p: SessState -> bool)
    requires |st.bits| == BitfieldBytes(st.pieceCount)
    ensures NeverYet(st, [], p) <==> !p(st)
  {
    var none: seq<Message> := [];
    assert none[..0] == [];
    assert SessionHistory.After(st, none[..0]) == st;
  }

  lemma AdvertStallsCons(st: SessState, m: Message, ms: seq<Message>, end: Received, i: nat)
    requires |st.bits| == BitfieldBytes(st.pieceCount) && Accept(st, m).error.None?
    ensures AdvertStalls(st, [m] + ms, end, i) <==>
              !st.Has(i) && m.id != PIECE && m.id != BITFIELD && AdvertStalls(Accept(st, m).state, ms, end, i)
  {
    NeverYetCons(st, m, ms, HasIt(i));
    WithoutCons(m, ms, PIECE);
    WithoutCons(m, ms, BITFIELD);
    AfterCons(st, m, ms);
    hide NeverYet, Without, Accept, SessionHistory.After;
  }

  /** The run after one message was read. */
  ghost function Heard(r: Run, m: Message): (r': Run)
    requires r.Valid()
    ensures r'.Valid() && r'.clock == r.clock
  {
    r.(state := Read(r.state, r.rest).state, rest := Read(r.state, r.rest).rest).Log(Got(m))
  }

  lemma HeardState(r: Run, m: Message, tail: seq<Message>, rest: seq<byte>)
    requires r.Valid() && Reads(r.state, r.rest, [m] + tail, rest)
    ensures Read(r.state, r.rest).received == Received.Message(m)
    ensures Reads(Heard(r, m).state, Heard(r, m).rest, tail, rest)
    ensures SessionHistory.After(Heard(r, m).state, tail) == SessionHistory.After(r.state, [m] + tail)
  {
    ReadsFirst(r.state, r.rest, m, tail, rest);
    ReadAccepts(r.state, r.rest);
    AfterCons(r.state, m, tail);
  }

  lemma AwaitPieceStep(w: World, r: Run, i: nat, m: Message)
    requires r.Valid() && Read(r.state, r.rest).received == Received.Message(m)
    requires !r.state.Has(i) && m.id != BITFIELD && m.id != PIECE
    ensures AwaitPiece(w, r, i) == AwaitPiece(w, Heard(r, m), i)
  {
  }

  lemma {:induction false} AdvertStallHeard(
      w: World, r: Run, i: nat, ms: seq<Message>, rest: seq<byte>, end: Received)
    requires r.Valid() && Reads(r.state, r.rest, ms, rest)
    requires Read(SessionHistory.After(r.state, ms), rest).received == end && AdvertStalls(r.state, ms, end, i)
    ensures AwaitPiece(w, r, i).error == Some(EndError(w, r.clock, end))
    decreases |ms|
  {
    if ms == [] {
      ReadsNothing(r.state, r.rest, rest);
      NeverYetNow(r.state, HasIt(i));
      if end.Message? {
        ReadAccepts(r.state, r.rest);
      }
    } else {
      var m, tail := ms[0], ms[1..];
      assert ms == [m] + tail;
      ReadAccepts(r.state, r.rest);
      hide AwaitPiece, Reads, Read, SessionHistory.After, AdvertStalls, Accept;
      HeardState(r, m, tail, rest);
      AdvertStallsCons(r.state, m, tail, end, i);
      AwaitPieceStep(w, r, i, m);
      AdvertStallHeard(w, Heard(r, m), i, tail, rest, end);
    }
  }

  lemma {:induction false} AdvertStallHears(w: World, r: Run, i: nat)
      returns (ms: seq<Message>, rest: seq<byte>, end: Received)
    requires r.Valid() && AwaitPiece(w, r, i).error.Some?
    ensures Reads(r.state, r.rest, ms, rest) && Read(SessionHistory.After(r.state, ms), rest).received == end
    ensures AdvertStalls(r.state, ms, end, i)
    decreases |r.rest|
  {
    var reading := ReadWithContext(w, r);
    NeverYetNow(r.state, HasIt(i));
    var read := Read(r.state, r.rest);
    if read.received.Failure? {
      ms, rest, end := [], r.rest, read.received;
    } else {
      var m := read.received.message;
      ReadAccepts(r.state, r.rest);
      if (m.id == BITFIELD && !read.state.Has(i)) || m.id == PIECE {
        ms, rest, end := [], r.rest, read.received;
      } else {
        var tail;
        tail, rest, end := AdvertStallHears(w, reading.run, i);
        if m.id == BITFIELD {
          StallsNeverHas(read.state, tail, end, i);
        }
        AdvertStallsCons(r.state, m, tail, end, i);
        AfterCons(r.state, m, tail);
        ReadsFirst(r.state, r.rest, m, tail, rest);
        ms := [m] + tail;
      }
    }
  }

  lemma StallsNeverHas(st: SessState, ms: seq<Message>, end: Received, i: nat)
    requires |st.bits| == BitfieldBytes(st.pieceCount) && AdvertStalls(st, ms, end, i)
    ensures !st.Has(i)
  {
    assert ms[..0] == [] && SessionHistory.After(st, ms[..0]) == st;
    assert !HasIt(i)(SessionHistory.After(st, ms[..0]));
  }

  lemma ReadyStallsCons(st: SessState, m: Message, ms: seq<Message>, end: Received)
    requires |st.bits| == BitfieldBytes(st.pieceCount) && Accept(st, m).error.None?
    ensures ReadyStalls(st, [m] + ms, end) <==>
              st.choked && m.id != PIECE && ReadyStalls(Accept(st, m).state, ms, end)
  {
    NeverYetCons(st, m, ms, Unchokes());
    WithoutCons(m, ms, PIECE);
    hide NeverYet, Without, Accept;
  }

  lemma {:induction false} ReadyStallHeard(w: World, r: Run, ms: seq<Message>, rest: seq<byte>, end: Received)
    requires r.Valid() && Reads(r.state, r.rest, ms, rest)
    requires Read(SessionHistory.After(r.state, ms), rest).received == end && ReadyStalls(r.state, ms, end)
    ensures AwaitUnchoke(w, r).error == Some(EndError(w, r.clock, end))
    decreases |ms|
  {
    if ms == [] {
      ReadsNothing(r.state, r.rest, rest);
      NeverYetNow(r.state, Unchokes());
    } else {
      var m, tail := ms[0], ms[1..];
      assert ms == [m] + tail;
      ReadAccepts(r.state, r.rest);
      ReadyStallsCons(r.state, m, tail, end);
      AfterCons(r.state, m, tail);
      ReadyStallHeard(w, ReadWithContext(w, r).run, tail, rest, end);
    }
  }

  lemma {:induction false} ReadyStallHears(w: World, r: Run)
      returns (ms: seq<Message>, rest: seq<byte>, end: Received)
    requires r.Valid() && AwaitUnchoke(w, r).error.Some?
    ensures Reads(r.state, r.rest, ms, rest) && Read(SessionHistory.After(r.state, ms), rest).received == end
    ensures ReadyStalls(r.state, ms, end)
    decreases |r.rest|
  {
    var reading := ReadWithContext(w, r);
    NeverYetNow(r.state, Unchokes());
    var read := Read(r.state, r.rest);
    if read.received.Failure? || read.received.message.id == PIECE {
      ms, rest, end := [], r.rest, read.received;
    } else {
      var m := read.received.message;
      ReadAccepts(r.state, r.rest);
      var tail;
      tail, rest, end := ReadyStallHears(w, reading.run);
      ReadyStallsCons(r.state, m, tail, end);
      AfterCons(r.state, m, tail);
      ReadsFirst(r.state, r.rest, m, tail, rest);
      ms := [m] + tail;
    }
  }

  // --- A block stalls -----------------------------------------------------------------------------------------

  lemma BlockStallsCons(m: Message, ms: seq<Message>, end: Received, q: Request)
    ensures BlockStalls([m] + ms, end, q) <==> m.id != PIECE && m.id != CHOKE && BlockStalls(ms, end, q)
  {
    WithoutCons(m, ms, PIECE);
    WithoutCons(m, ms, CHOKE);
  }

  /** A block parses, as every message Read returns does. */
  ghost predicate Parses(end: Received) {
    end.Message? && end.message.id == PIECE ==> ParsePiece(end.message).Ok?
  }

  lemma AnswerTaken(r: Run, q: Request, m: Message)
    requires r.Valid() && m.id == PIECE
    ensures IsAnswer(m, q) ==> TakeBlock(Kind(), r, q, m).error.None?
  {
  }

  lemma WrongBlock(w: World, r: Run, q: Request, m: Message)
    requires r.Valid() && m.id == PIECE && ParsePiece(m).Ok? && !IsAnswer(m, q)
    ensures TakeBlock(w, r, q, m).error == Some(Protocol)
  {
    var b := ParsePiece(m).value;
    assert b == Block(b.index, b.begin, b.data);
  }

  lemma {:induction false} BlockStallHeard(
      w: World, r: Run, q: Request, ms: seq<Message>, rest: seq<byte>, end: Received)
    requires r.Valid() && Reads(r.state, r.rest, ms, rest)
    requires Read(SessionHistory.After(r.state, ms), rest).received == end && BlockStalls(ms, end, q) && Parses(end)
    ensures AwaitBlock(w, r, q).error == Some(EndError(w, r.clock, end))
    decreases |ms|
  {
    hide TakeBlock, IsAnswer, ParsePiece;
    if ms == [] {
      ReadsNothing(r.state, r.rest, rest);
      if end.Message? && end.message.id == PIECE {
        WrongBlock(w, ReadWithContext(w, r).run, q, end.message);
      }
    } else {
      var m, tail := ms[0], ms[1..];
      assert ms == [m] + tail;
      ReadAccepts(r.state, r.rest);
      BlockStallsCons(m, tail, end, q);
      AfterCons(r.state, m, tail);
      BlockStallHeard(w, ReadWithContext(w, r).run, q, tail, rest, end);
    }
  }

  /** Waiting for a block ends with its answer, or stalls. */
  lemma {:induction false} BlockStallHears(r: Run, q: Request)
      returns (ms: seq<Message>, rest: seq<byte>, end: Received)
    requires r.Valid() && AwaitBlock(Kind(), r, q).error.Some?
    ensures Reads(r.state, r.rest, ms, rest) && Read(SessionHistory.After(r.state, ms), rest).received == end
    ensures BlockStalls(ms, end, q)
    decreases |r.rest|
  {
    var reading := ReadWithContext(Kind(), r);
    var read := Read(r.state, r.rest);
    if read.received.Failure? || read.received.message.id == CHOKE {
      ms, rest, end := [], r.rest, read.received;
    } else if read.received.message.id == PIECE {
      AnswerTaken(reading.run, q, read.received.message);
      ms, rest, end := [], r.rest, read.received;
    } else {
      var m := read.received.message;
      ReadAccepts(r.state, r.rest);
      var tail;
      tail, rest, end := BlockStallHears(reading.run, q);
      BlockStallsCons(m, tail, end, q);
      AfterCons(r.state, m, tail);
      ReadsFirst(r.state, r.rest, m, tail, rest);
      ms := [m] + tail;
    }
  }

  // --- Blocks in any world ------------------------------------------------------------------------------------

  /** The context check and the callback decide; if both succeed the state is `st` and `rest` is unread. */
  ghost predicate TakenOr(w: World, clock: nat, out: Outcome, st: SessState, rest: seq<byte>) {
    if !w(clock) then out.error == Some(ContextEnded)
    else if !w(clock + 1) then out.error == Some(BlockRefused)
    else out.error.None? && out.run.rest == rest && out.run.state == st && out.run.clock == clock + 2
  }

  lemma TakenInWorld(w: World, r: Run, q: Request, m: Message, data: seq<byte>)
    requires r.Valid() && ParsePiece(m) == Ok(Block(q.index, q.begin, data)) && |data| == q.length
    ensures TakenOr(w, r.clock, TakeBlock(w, r, q, m), r.state, r.rest)
  {
  }

  lemma AwaitBlockStep(w: World, r: Run, q: Request, m: Message)
    requires r.Valid() && Read(r.state, r.rest).received == Received.Message(m) && m.id != CHOKE
    ensures AwaitBlock(w, r, q) ==
              if m.id == PIECE then TakeBlock(w, Heard(r, m), q, m) else AwaitBlock(w, Heard(r, m), q)
  {
  }

  lemma LastAnswers(m: Message, q: Request, data: seq<byte>)
    requires Answers([m], q, data)
    ensures m.id == PIECE && m.id != CHOKE && ParsePiece(m) == Ok(Block(q.index, q.begin, data)) && |data| == q.length
  {
  }

  lemma {:induction false} AnswerInWorld(
      w: World, r: Run, q: Request, data: seq<byte>, ms: seq<Message>, rest: seq<byte>)
    requires r.Valid() && Reads(r.state, r.rest, ms, rest) && Answers(ms, q, data)
    ensures TakenOr(w, r.clock, AwaitBlock(w, r, q), SessionHistory.After(r.state, ms), rest)
    decreases |ms|
  {
    assert ms != [];
    hide *;
    var m, tail := ms[0], ms[1..];
    assert ms == [m] + tail;
    HeardState(r, m, tail, rest);
    if tail == [] {
      assert ms == [m];
      LastAnswers(m, q, data);
      AwaitBlockStep(w, r, q, m);
      ReadsNothing(Heard(r, m).state, Heard(r, m).rest, rest);
      TakenInWorld(w, Heard(r, m), q, m, data);
    } else {
      AnswersCons(m, tail, q, data);
      AwaitBlockStep(w, r, q, m);
      AnswerInWorld(w, Heard(r, m), q, data, tail, rest);
    }
  }

  lemma FirstOfFive(w: World, c: nat)
    ensures FirstNo(w, c, c + 3) == if !w(c) then Some(c) else if !w(c + 1) then Some(c + 1)
                                    else if !w(c + 2) then Some(c + 2) else None
    ensures FirstNo(w, c, c + 5) == if FirstNo(w, c, c + 3).Some? then FirstNo(w, c, c + 3)
                                    else if !w(c + 3) then Some(c + 3) else if !w(c + 4) then Some(c + 4) else None
  {
    FirstNoSplit(w, c, c + 1, c + 3);
    FirstNoSplit(w, c + 1, c + 2, c + 3);
    FirstNoSplit(w, c, c + 3, c + 5);
    FirstNoSplit(w, c + 3, c + 4, c + 5);
  }

  lemma BlockInWorld(w: World, r: Run, q: Request, data: seq<byte>, ms: seq<Message>, rest: seq<byte>)
    requires r.Valid() && Reads(r.state, r.rest, ms, rest) && Answers(ms, q, data) && NewRequest(q).Ok?
    ensures var out := FetchBlock(w, r, q);
      match FirstNo(w, r.clock, r.clock + 5)
      case Some(k) => out.error == Some(QuestionError(4 + (k - r.clock), w(k + 1)))
      case None =>
        && out.error.None? && out.run.rest == rest && out.run.clock == r.clock + 5
        && out.run.state == SessionHistory.After(r.state, ms)
  {
    hide AwaitBlock, Reads, Answers, SessionHistory.After;
    var r1 := r.Tick().Log(Watch).Tick().Tick().Log(Sent(NewRequest(q).value));
    AnswerInWorld(w, r1, q, data, ms, rest);
    FirstOfFive(w, r.clock);
    hide FirstNo;
  }

  lemma StalledBlockInWorld(w: World, r: Run, q: Request, ms: seq<Message>, rest: seq<byte>, end: Received)
    requires r.Valid() && Reads(r.state, r.rest, ms, rest) && NewRequest(q).Ok?
    requires Read(SessionHistory.After(r.state, ms), rest).received == end && BlockStalls(ms, end, q) && Parses(end)
    ensures FetchBlock(w, r, q).error ==
              match FirstNo(w, r.clock, r.clock + 3)
              case Some(k) => Some(QuestionError(4 + (k - r.clock), w(k + 1)))
              case None => Some(EndError(w, r.clock + 3, end))
  {
    hide AwaitBlock, Reads, BlockStalls, Read, SessionHistory.After, Parses, EndError;
    var r1 := r.Tick().Log(Watch).Tick().Tick().Log(Sent(NewRequest(q).value));
    BlockStallHeard(w, r1, q, ms, rest, end);
    FirstOfFive(w, r.clock);
    hide FirstNo;
  }

  lemma RequestOk(piece: PieceSpec, offset: uint32)
    requires offset < piece.length
    ensures NewRequest(BlockAt(piece, offset)).Ok?
  {
  }

  /** The served blocks, in any world: the first failing question decides, or the loop goes on behind them. */
  lemma {:induction false} BlocksInWorld(
      w: World, r: Run, piece: PieceSpec, lo: uint32, hi: uint32, bs: seq<seq<Message>>, rest: seq<byte>, out: Outcome)
      returns (r': Run)
    requires r.Valid() && lo <= hi <= piece.length && Served(bs, piece, lo, hi)
    requires Reads(r.state, r.rest, Flat(bs), rest) && out == FetchBlocks(w, r, piece, lo)
    ensures match FirstNo(w, r.clock, r.clock + 5 * |bs|)
            case Some(k) => out.error == Some(QuestionError(4 + (k - r.clock), w(k + 1)))
            case None =>
              && r'.Valid() && r'.rest == rest && r'.clock == r.clock + 5 * |bs|
              && r'.state == SessionHistory.After(r.state, Flat(bs)) && out == FetchBlocks(w, r', piece, hi)
    decreases |bs|
  {
    hide FetchBlock, FetchBlocks, Answers, Reads, SessionHistory.After, QuestionError, FirstNo;
    if bs == [] {
      ReadsNothing(r.state, r.rest, rest);
      FirstNoRange(w, r.clock, r.clock);
      r' := r;
    } else {
      var q := BlockAt(piece, lo);
      var data :| Answers(bs[0], q, data);
      var mid := ReadsSplit(r.state, r.rest, bs[0], Flat(bs[1..]), rest);
      RequestOk(piece, lo);
      BlockInWorld(w, r, q, data, bs[0], mid);
      FetchBlocksUnfolds(w, r, piece, lo);
      FirstNoSplit(w, r.clock, r.clock + 5, r.clock + 5 * |bs|);
      var r1 := FetchBlock(w, r, q).run;
      if FirstNo(w, r.clock, r.clock + 5).None? {
        ServedBounds(bs[1..], piece, lo + q.length, hi);
        r' := BlocksInWorld(w, r1, piece, lo + q.length, hi, bs[1..], rest, out);
        AfterJoin(r.state, bs[0], Flat(bs[1..]));
        if FirstNo(w, r1.clock, r.clock + 5 * |bs|).Some? {
          var k := FirstNo(w, r1.clock, r.clock + 5 * |bs|).value;
          Periodic(4 + (k - r1.clock), w(k + 1));
        }
      } else {
        r' := r;
      }
    }
  }

  lemma {:induction false} ServedBounds(bs: seq<seq<Message>>, piece: PieceSpec, lo: uint32, hi: uint32)
    requires lo <= piece.length && Served(bs, piece, lo, hi)
    ensures lo <= hi <= piece.length
    decreases |bs|
  {
    if bs != [] {
      ServedBounds(bs[1..], piece, lo + BlockLength(piece.length, lo), hi);
    }
  }

  /** Questions of the same kind for different blocks. */
  lemma Periodic(p: nat, next: bool)
    requires p >= 4
    ensures QuestionError(p + 5, next) == QuestionError(p, next)
  {
    assert (p + 5 - 4) % 5 == (p - 4) % 5;
  }

  lemma PeriodicMany(p: nat, n: nat, next: bool)
    requires p >= 4
    ensures QuestionError(p + 5 * n, next) == QuestionError(p, next)
  {
    assert (p + 5 * n - 4) % 5 == (p - 4 + 5 * n) % 5 == (p - 4) % 5;
  }

  // --- The setup in any world ---------------------------------------------------------------------------------

  lemma FirstOfFour(w: World, c: nat)
    ensures FirstNo(w, c, c + 2) == if !w(c) then Some(c) else if !w(c + 1) then Some(c + 1) else None
    ensures FirstNo(w, c, c + 3) == if FirstNo(w, c, c + 2).Some? then FirstNo(w, c, c + 2)
                                    else if !w(c + 2) then Some(c + 2) else None
    ensures FirstNo(w, c, c + 4) == if FirstNo(w, c, c + 3).Some? then FirstNo(w, c, c + 3)
                                    else if !w(c + 3) then Some(c + 3) else None
  {
    FirstNoSplit(w, c, c + 1, c + 2);
    FirstNoSplit(w, c, c + 2, c + 3);
    FirstNoSplit(w, c, c + 3, c + 4);
  }

  lemma NoAdvertInWorld(w: World, r: Run, piece: PieceSpec, ms: seq<Message>, rest: seq<byte>, end: Received)
    requires r.Valid() && piece.index < r.state.pieceCount && piece.length > 0
    requires Reads(r.state, r.rest, ms, rest)
    requires Read(SessionHistory.After(r.state, ms), rest).received == end
    requires AdvertStalls(r.state, ms, end, piece.index)
    ensures FetchPiece(w, r, piece).error ==
              match FirstNo(w, r.clock, r.clock + 2)
              case Some(k) => Some(QuestionError(k - r.clock, w(k + 1)))
              case None => Some(EndError(w, r.clock + 2, end))
  {
    hide Reads, AwaitPiece, Read, SessionHistory.After, AdvertStalls, FetchBlocks, EndError;
    AdvertStallHeard(w, r.Tick().Tick().Log(Watch), piece.index, ms, rest, end);
    FirstOfFour(w, r.clock);
    hide FirstNo;
  }

  lemma NoUnchokeInWorld(
      w: World, r: Run, piece: PieceSpec, advert: seq<Message>, mid: seq<byte>, ms: seq<Message>, rest: seq<byte>,
      end: Received)
    requires r.Valid() && piece.index < r.state.pieceCount && piece.length > 0
    requires Reads(r.state, r.rest, advert, mid) && Advertises(r.state, advert, piece.index)
    requires var st := SessionHistory.After(r.state, advert);
      Reads(st, mid, ms, rest) && Read(SessionHistory.After(st, ms), rest).received == end && ReadyStalls(st, ms, end)
    ensures FetchPiece(w, r, piece).error ==
              match FirstNo(w, r.clock, r.clock + 3)
              case Some(k) => Some(QuestionError(k - r.clock, w(k + 1)))
              case None => Some(EndError(w, r.clock + 3, end))
  {
    hide Reads, AwaitPiece, AwaitUnchoke, Read, SessionHistory.After, Advertises, ReadyStalls, FetchBlocks, EndError;
    var r1 := r.Tick().Tick().Log(Watch);
    PieceHeard(w, r1, piece.index, advert, mid);
    var r3 := AwaitPiece(w, r1, piece.index).run.Tick().Log(Sent(INTERESTED_MESSAGE));
    ReadyStallHeard(w, r3, ms, rest, end);
    FirstOfFour(w, r.clock);
    hide FirstNo;
  }

  lemma PrepareInWorld(
      w: World, r: Run, i: nat, advert: seq<Message>, mid: seq<byte>, ready: seq<Message>, rest: seq<byte>)
      returns (r': Run)
    requires r.Valid() && Reads(r.state, r.rest, advert, mid) && Advertises(r.state, advert, i)
    requires Reads(SessionHistory.After(r.state, advert), mid, ready, rest)
    requires Readies(SessionHistory.After(r.state, advert), ready)
    ensures r'.Valid() && r'.clock == r.clock + 2 && r'.rest == rest
    ensures r'.state == SessionHistory.After(SessionHistory.After(r.state, advert), ready)
    ensures if !w(r.clock) then
              Prepare(w, r, i).error == Some(if w(r.clock + 1) then WriteFailed else ContextEnded)
            else if !w(r.clock + 1) then Prepare(w, r, i).error == Some(ContextEnded)
            else Prepare(w, r, i) == Outcome(None, r')
  {
    hide Reads, AwaitPiece, AwaitUnchoke, Read, SessionHistory.After, Advertises, Readies;
    PieceHeard(w, r, i, advert, mid);
    var r2 := AwaitPiece(w, r, i).run.Tick().Log(Sent(INTERESTED_MESSAGE));
    UnchokeHeard(w, r2, ready, rest);
    r' := AwaitUnchoke(w, r2).run.Tick();
  }

  /** The peer is ready: the first failing question decides, or the blocks are next. */
  lemma ReadyInWorld(
      w: World, r: Run, piece: PieceSpec, advert: seq<Message>, mid: seq<byte>, ready: seq<Message>, rest: seq<byte>)
      returns (r': Run)
    requires r.Valid() && piece.index < r.state.pieceCount && piece.length > 0
    requires Reads(r.state, r.rest, advert, mid) && Advertises(r.state, advert, piece.index)
    requires Reads(SessionHistory.After(r.state, advert), mid, ready, rest)
    requires Readies(SessionHistory.After(r.state, advert), ready)
    ensures match FirstNo(w, r.clock, r.clock + 4)
            case Some(k) => FetchPiece(w, r, piece).error == Some(QuestionError(k - r.clock, w(k + 1)))
            case None =>
              && r'.Valid() && r'.clock == r.clock + 4 && r'.rest == rest
              && r'.state == SessionHistory.After(SessionHistory.After(r.state, advert), ready)
              && FetchPiece(w, r, piece) == FetchBlocks(w, r', piece, 0)
  {
    hide Reads, Prepare, SessionHistory.After, Advertises, Readies, FetchBlocks;
    var prepared := PrepareInWorld(w, r.Tick().Tick().Log(Watch), piece.index, advert, mid, ready, rest);
    r' := prepared.Log(Unwatch);
    FirstOfFour(w, r.clock);
    hide FirstNo;
  }

  // --- Every call follows its story -----------------------------------------------------------------------------

  lemma {:induction false} ReadsKeepValid(st: SessState, input: seq<byte>, ms: seq<Message>, rest: seq<byte>)
    requires st.Valid() && Reads(st, input, ms, rest)
    ensures SessionHistory.After(st, ms).Valid()
    decreases |ms|
  {
    if ms != [] {
      var m, tail := ms[0], ms[1..];
      assert ms == [m] + tail;
      ReadAccepts(st, input);
      AcceptKeepsValid(st, m);
      AfterCons(st, m, tail);
      ReadsKeepValid(Accept(st, m).state, Read(st, input).rest, tail, rest);
    }
  }

  lemma EndParses(st: SessState, input: seq<byte>, ms: seq<Message>, rest: seq<byte>, end: Received)
    requires st.Valid() && Reads(st, input, ms, rest) && Read(SessionHistory.After(st, ms), rest).received == end
    ensures Parses(end)
  {
    ReadsKeepValid(st, input, ms, rest);
    if end.Message? {
      ReturnedMessagesParse(SessionHistory.After(st, ms), rest);
    }
  }

  lemma NoAdvertVerdict(w: World, r: Run, piece: PieceSpec, story: Story)
    requires r.state.Valid() && piece.index < r.state.pieceCount && piece.length > 0
    requires story.NoAdvert? && Tells(r.state, r.rest, piece, story)
    ensures FetchPiece(w, r, piece).error == Verdict(w, r.clock, story)
  {
    hide FetchPiece, Reads, Read, SessionHistory.After, AdvertStalls, FirstNo, QuestionError, EndError;
    var rest :| Reads(r.state, r.rest, story.ms, rest)
                && Read(SessionHistory.After(r.state, story.ms), rest).received == story.end;
    NoAdvertInWorld(w, r, piece, story.ms, rest, story.end);
  }

  lemma NoUnchokeVerdict(w: World, r: Run, piece: PieceSpec, story: Story)
    requires r.state.Valid() && piece.index < r.state.pieceCount && piece.length > 0
    requires story.NoUnchoke? && Tells(r.state, r.rest, piece, story)
    ensures FetchPiece(w, r, piece).error == Verdict(w, r.clock, story)
  {
    hide FetchPiece, Reads, Read, SessionHistory.After, ReadyStalls, Advertises, FirstNo, QuestionError, EndError;
    var all := story.advert + story.ms;
    var rest :| Reads(r.state, r.rest, all, rest)
                && Read(SessionHistory.After(r.state, all), rest).received == story.end;
    var mid := ReadsSplit(r.state, r.rest, story.advert, story.ms, rest);
    AfterJoin(r.state, story.advert, story.ms);
    NoUnchokeInWorld(w, r, piece, story.advert, mid, story.ms, rest, story.end);
  }

  /** What the blocks of a story that is not cut off before come to. */
  lemma BlocksVerdict(
      w: World, r: Run, piece: PieceSpec, advert: seq<Message>, ready: seq<Message>, bs: seq<seq<Message>>,
      more: seq<Message>, hi: uint32, rest: seq<byte>)
      returns (r': Run, mid: seq<byte>)
    requires r.Valid() && piece.index < r.state.pieceCount && piece.length > 0
    requires Reads(r.state, r.rest, advert + (ready + (Flat(bs) + more)), rest)
    requires Advertises(r.state, advert, piece.index) && Readies(SessionHistory.After(r.state, advert), ready)
    requires hi <= piece.length && Served(bs, piece, 0, hi)
    ensures match FirstNo(w, r.clock, r.clock + (4 + 5 * |bs|))
            case Some(k) => FetchPiece(w, r, piece).error == Some(QuestionError(k - r.clock, w(k + 1)))
            case None =>
              && r'.Valid() && r'.clock == r.clock + (4 + 5 * |bs|)
              && r'.state == SessionHistory.After(r.state, advert + (ready + Flat(bs)))
              && Reads(r'.state, r'.rest, more, rest)
              && FetchPiece(w, r, piece) == FetchBlocks(w, r', piece, hi)
  {
    hide FetchPiece, FetchBlocks, Reads, SessionHistory.After, Advertises, Readies, FirstNo, QuestionError, Flat;
    hide Served;
    var in2 := ReadsSplit(r.state, r.rest, advert, ready + (Flat(bs) + more), rest);
    var in3 := ReadsSplit(SessionHistory.After(r.state, advert), in2, ready, Flat(bs) + more, rest);
    var st := SessionHistory.After(SessionHistory.After(r.state, advert), ready);
    mid := ReadsSplit(st, in3, Flat(bs), more, rest);
    AfterJoin(r.state, advert, ready + Flat(bs));
    AfterJoin(SessionHistory.After(r.state, advert), ready, Flat(bs));
    FirstNoSplit(w, r.clock, r.clock + 4, r.clock + (4 + 5 * |bs|));
    r' := ReadyInWorld(w, r, piece, advert, in2, ready, in3);
    if FirstNo(w, r.clock, r.clock + 4).None? {
      r' := BlocksInWorld(w, r', piece, 0, hi, bs, mid, FetchBlocks(w, r', piece, 0));
    }
  }

  lemma NoBlockVerdict(w: World, r: Run, piece: PieceSpec, story: Story)
    requires r.state.Valid() && piece.index < r.state.pieceCount && piece.length > 0
    requires story.NoBlock? && Tells(r.state, r.rest, piece, story)
    ensures FetchPiece(w, r, piece).error == Verdict(w, r.clock, story)
  {
    hide FetchPiece, FetchBlock, FetchBlocks, Reads, Read, SessionHistory.After, Advertises, Readies, BlockStalls;
    hide FirstNo, QuestionError, EndError, Flat, Served, Parses;
    var bs, ms, end := story.bs, story.ms, story.end;
    var all := story.advert + (story.ready + (Flat(bs) + ms));
    var offset: uint32 :| offset < piece.length && Served(bs, piece, 0, offset)
                          && BlockStalls(ms, end, BlockAt(piece, offset));
    var rest :| Reads(r.state, r.rest, all, rest) && Read(SessionHistory.After(r.state, all), rest).received == end;
    EndParses(r.state, r.rest, all, rest, end);
    var r', mid := BlocksVerdict(w, r, piece, story.advert, story.ready, bs, ms, offset, rest);
    var c := r.clock + (4 + 5 * |bs|);
    FirstNoSplit(w, r.clock, c, c + 3);
    if FirstNo(w, r.clock, c).None? {
      assert all == story.advert + (story.ready + Flat(bs)) + ms;
      AfterJoin(r.state, story.advert + (story.ready + Flat(bs)), ms);
      RequestOk(piece, offset);
      StalledBlockInWorld(w, r', BlockAt(piece, offset), ms, rest, end);
      FetchBlocksUnfolds(w, r', piece, offset);
      if FirstNo(w, c, c + 3).Some? {
        var k := FirstNo(w, c, c + 3).value;
        PeriodicMany(4 + (k - c), |bs|, w(k + 1));
      }
    }
  }

  lemma WholeVerdict(w: World, r: Run, piece: PieceSpec, story: Story)
    requires r.state.Valid() && piece.index < r.state.pieceCount && piece.length > 0
    requires story.Whole? && Tells(r.state, r.rest, piece, story)
    ensures FetchPiece(w, r, piece).error == Verdict(w, r.clock, story)
  {
    hide FetchPiece, FetchBlocks, Reads, SessionHistory.After, Advertises, Readies, FirstNo, QuestionError, Flat;
    hide Served;
    var all := story.advert + (story.ready + Flat(story.bs));
    var rest :| Reads(r.state, r.rest, all, rest);
    assert Flat(story.bs) + [] == Flat(story.bs);
    var r', mid := BlocksVerdict(w, r, piece, story.advert, story.ready, story.bs, [], piece.length, rest);
    if FirstNo(w, r.clock, r.clock + (4 + 5 * |story.bs|)).None? {
      FetchBlocksEnds(w, r', piece);
    }
  }

  /** For every session, peer and world: FetchPiece returns the error of the first thing that goes wrong, or none,
      in the story that the peer's input tells. */
  lemma FetchFollowsStory(w: World, r: Run, piece: PieceSpec, story: Story)
    requires r.state.Valid() && piece.index < r.state.pieceCount && piece.length > 0
    requires Tells(r.state, r.rest, piece, story)
    ensures FetchPiece(w, r, piece).error == Verdict(w, r.clock, story)
  {
    hide Tells, Verdict, FetchPiece;
    match story
    case NoAdvert(_, _) => NoAdvertVerdict(w, r, piece, story);
    case NoUnchoke(_, _, _) => NoUnchokeVerdict(w, r, piece, story);
    case NoBlock(_, _, _, _, _) => NoBlockVerdict(w, r, piece, story);
    case Whole(_, _, _) => WholeVerdict(w, r, piece, story);
  }

  // --- Every input tells a story --------------------------------------------------------------------------------

  /** From the block at `lo` on: the blocks up to `hi` are answered, and then all are, or the next one is not. */
  ghost predicate BlocksTold(
      st: SessState, input: seq<byte>, piece: PieceSpec, lo: uint32,
      bs: seq<seq<Message>>, hi: uint32, ms: seq<Message>, rest: seq<byte>, end: Received)
    requires |st.bits| == BitfieldBytes(st.pieceCount) && lo <= piece.length
  {
    && hi <= piece.length && Served(bs, piece, lo, hi) && Reads(st, input, Flat(bs) + ms, rest)
    && (hi == piece.length ==> ms == [])
    && (hi < piece.length ==>
          && BlockStalls(ms, end, BlockAt(piece, hi))
          && Read(SessionHistory.After(st, Flat(bs) + ms), rest).received == end)
  }

  lemma NoMoreBlocks(st: SessState, input: seq<byte>, piece: PieceSpec)
    requires |st.bits| == BitfieldBytes(st.pieceCount)
    ensures BlocksTold(st, input, piece, piece.length, [], piece.length, [], input, Failure(BadPiece))
  {
  }

  lemma NextBlockStalls(
      st: SessState, input: seq<byte>, piece: PieceSpec, lo: uint32, ms: seq<Message>, rest: seq<byte>, end: Received)
    requires |st.bits| == BitfieldBytes(st.pieceCount) && lo < piece.length
    requires Reads(st, input, ms, rest) && Read(SessionHistory.After(st, ms), rest).received == end
    requires BlockStalls(ms, end, BlockAt(piece, lo))
    ensures BlocksTold(st, input, piece, lo, [], lo, ms, rest, end)
  {
    hide Reads, Read, SessionHistory.After, BlockStalls;
    assert Flat([]) + ms == ms;
  }

  lemma NextBlockServed(
      st: SessState, input: seq<byte>, piece: PieceSpec, lo: uint32, first: seq<Message>, data: seq<byte>,
      mid: seq<byte>, bs: seq<seq<Message>>, hi: uint32, ms: seq<Message>, rest: seq<byte>, end: Received)
    requires |st.bits| == BitfieldBytes(st.pieceCount) && lo < piece.length
    requires Reads(st, input, first, mid) && Answers(first, BlockAt(piece, lo), data)
    requires var next := lo + BlockLength(piece.length, lo);
      BlocksTold(SessionHistory.After(st, first), mid, piece, next, bs, hi, ms, rest, end)
    ensures BlocksTold(st, input, piece, lo, [first] + bs, hi, ms, rest, end)
  {
    hide Reads, Read, SessionHistory.After, BlockStalls, Answers, Flat, Served;
    ReadsJoin(st, input, first, mid, Flat(bs) + ms, rest);
    AfterJoin(st, first, Flat(bs) + ms);
    FirstServed(first, bs, piece, lo, hi, data);
    assert Flat([first] + bs) + ms == first + (Flat(bs) + ms);
  }

  lemma {:induction false} BlocksTell(st: SessState, input: seq<byte>, piece: PieceSpec, lo: uint32)
      returns (bs: seq<seq<Message>>, hi: uint32, ms: seq<Message>, rest: seq<byte>, end: Received)
    requires |st.bits| == BitfieldBytes(st.pieceCount) && lo <= piece.length
    ensures BlocksTold(st, input, piece, lo, bs, hi, ms, rest, end)
    decreases piece.length - lo
  {
    hide Reads, Read, Answers, SessionHistory.After, BlockStalls, AwaitBlock, BlocksTold;
    if lo == piece.length {
      bs, hi, ms, rest, end := [], lo, [], input, Failure(BadPiece);
      NoMoreBlocks(st, input, piece);
    } else {
      var q := BlockAt(piece, lo);
      var r := Run(st, input, 0, []);
      if AwaitBlock(Kind(), r, q).error.Some? {
        ms, rest, end := BlockStallHears(r, q);
        bs, hi := [], lo;
        NextBlockStalls(st, input, piece, lo, ms, rest, end);
      } else {
        var first, data := AnswerHears(Kind(), r, q);
        var mid := AwaitBlock(Kind(), r, q).run.rest;
        bs, hi, ms, rest, end := BlocksTell(SessionHistory.After(st, first), mid, piece, lo + q.length);
        NextBlockServed(st, input, piece, lo, first, data, mid, bs, hi, ms, rest, end);
        bs := [first] + bs;
      }
    }
  }

  lemma FirstServed(
      first: seq<Message>, bs: seq<seq<Message>>, piece: PieceSpec, lo: uint32, hi: uint32, data: seq<byte>)
    requires lo < piece.length && Answers(first, BlockAt(piece, lo), data)
    requires Served(bs, piece, lo + BlockLength(piece.length, lo), hi)
    ensures Served([first] + bs, piece, lo, hi) && Flat([first] + bs) == first + Flat(bs)
  {
    hide Answers;
    assert ([first] + bs)[0] == first && ([first] + bs)[1..] == bs;
  }

  /** Whatever a peer sends, it tells a story: so FetchFollowsStory is about every call. */
  lemma EveryInputTells(st: SessState, input: seq<byte>, piece: PieceSpec) returns (story: Story)
    requires |st.bits| == BitfieldBytes(st.pieceCount)
    ensures Tells(st, input, piece, story)
  {
    hide Reads, Read, SessionHistory.After, Advertises, Readies, AdvertStalls, ReadyStalls, BlockStalls, Served, Flat;
    hide AwaitPiece, AwaitUnchoke;
    var v := Kind();
    var r := Run(st, input, 0, []);
    if AwaitPiece(v, r, piece.index).error.Some? {
      var ms, rest, end := AdvertStallHears(v, r, piece.index);
      story := NoAdvert(ms, end);
    } else {
      var advert := PieceHears(v, r, piece.index);
      var in2 := AwaitPiece(v, r, piece.index).run.rest;
      PieceHeard(v, r, piece.index, advert, in2);
      var r2 := AwaitPiece(v, r, piece.index).run;
      if AwaitUnchoke(v, r2).error.Some? {
        var ms, rest, end := ReadyStallHears(v, r2);
        ReadsJoin(st, input, advert, in2, ms, rest);
        AfterJoin(st, advert, ms);
        story := NoUnchoke(advert, ms, end);
      } else {
        var ready := UnchokeHears(v, r2);
        var in3 := AwaitUnchoke(v, r2).run.rest;
        var st3 := SessionHistory.After(r2.state, ready);
        var bs, hi, ms, rest, end := BlocksTell(st3, in3, piece, 0);
        ReadsJoin(r2.state, in2, ready, in3, Flat(bs) + ms, rest);
        ReadsJoin(st, input, advert, in2, ready + (Flat(bs) + ms), rest);
        AfterJoin(st, advert, ready + (Flat(bs) + ms));
        AfterJoin(r2.state, ready, Flat(bs) + ms);
        assert Flat(bs) + [] == Flat(bs);
        story := if hi == piece.length then Whole(advert, ready, bs) else NoBlock(advert, ready, bs, ms, end);
      }
    }
  }

  // --- Each error, exactly ----------------------------------------------------------------------------------------

  /** For every error and every world: FetchPiece fails with it exactly if that is the verdict on a story that the
      input tells; and a piece that does not exist or is empty is refused before anything is asked or read. */
  lemma FailsExactly(w: World, r: Run, piece: PieceSpec, e: SessionError)
    requires r.state.Valid()
    ensures piece.index < r.state.pieceCount && piece.length > 0 ==>
              (FetchPiece(w, r, piece).error == Some(e) <==>
               exists story :: Tells(r.state, r.rest, piece, story) && Verdict(w, r.clock, story) == Some(e))
    ensures piece.index >= r.state.pieceCount || piece.length == 0 ==>
              FetchPiece(w, r, piece) == Outcome(Some(BadPiece), r)
  {
    hide Tells, Verdict;
    if piece.index < r.state.pieceCount && piece.length > 0 {
      hide FetchPiece;
      var story := EveryInputTells(r.state, r.rest, piece);
      FetchFollowsStory(w, r, piece, story);
      forall other | Tells(r.state, r.rest, piece, other)
        ensures FetchPiece(w, r, piece).error == Verdict(w, r.clock, other)
      {
        FetchFollowsStory(w, r, piece, other);
      }
    }
  }

  /** The end of the story that a failing call was told. */
  ghost predicate EndsBadly(st: SessState, input: seq<byte>, piece: PieceSpec, story: Story, end: Received)
    requires |st.bits| == BitfieldBytes(st.pieceCount)
  {
    !story.Whole? && story.end == end && Tells(st, input, piece, story)
  }

  lemma FairVerdict(w: World, clock: nat, story: Story)
    requires Fair(w)
    ensures Verdict(w, clock, story) ==
              if story.Whole? then None
              else match story.end { case Message(m) => Some(MessageError(m)) case Failure(e) => Some(e) }
  {
    FirstNoRange(w, clock, clock + Asked(story));
  }

  lemma FairError(w: World, r: Run, piece: PieceSpec, e: SessionError)
    requires Fair(w) && r.state.Valid() && piece.index < r.state.pieceCount && piece.length > 0
    ensures FetchPiece(w, r, piece).error == Some(e) <==>
              || (exists story :: EndsBadly(r.state, r.rest, piece, story, Failure(e)))
              || (exists story, m :: MessageError(m) == e
                                     && EndsBadly(r.state, r.rest, piece, story, Received.Message(m)))
  {
    hide FetchPiece, Tells, MessageError;
    FailsExactly(w, r, piece, e);
    forall story ensures Verdict(w, r.clock, story) ==
                           if story.Whole? then None
                           else match story.end { case Message(m) => Some(MessageError(m)) case Failure(e) => Some(e) }
    {
      FairVerdict(w, r.clock, story);
    }
    hide Verdict;
    forall story | Tells(r.state, r.rest, piece, story) && Verdict(w, r.clock, story) == Some(e)
      ensures EndsBadly(r.state, r.rest, piece, story, story.end)
    {
    }
  }

  lemma FailureEnds(st: SessState, input: seq<byte>, piece: PieceSpec, story: Story, e: SessionError)
    requires st.Valid() && EndsBadly(st, input, piece, story, Failure(e))
    ensures e in {WireError(IOFailure), WireError(Malformed), Protocol}
  {
    hide Reads, Read, SessionHistory.After, Advertises, Readies, AdvertStalls, ReadyStalls, BlockStalls, Served, Flat;
    var ms := match story
      case NoAdvert(ms, _) => ms
      case NoUnchoke(advert, ms, _) => advert + ms
      case NoBlock(advert, ready, bs, ms, _) => advert + (ready + (Flat(bs) + ms))
      case Whole(_, _, _) => [];
    assert Ends(st, input, ms, Failure(e));
    var rest :| Reads(st, input, ms, rest) && Read(SessionHistory.After(st, ms), rest).received == Failure(e);
    ReadsKeepValid(st, input, ms, rest);
    ReadErrors(SessionHistory.After(st, ms), rest);
  }

  /** The messages that can end a story: a Bitfield before the piece is advertised, a block at any time it was not
      asked for, a Choke while a block is awaited. */
  lemma MessageEnds(st: SessState, input: seq<byte>, piece: PieceSpec, story: Story, m: Message)
    requires |st.bits| == BitfieldBytes(st.pieceCount)
    requires EndsBadly(st, input, piece, story, Received.Message(m))
    ensures m.id == BITFIELD ==> story.NoAdvert?
    ensures m.id == CHOKE ==> story.NoBlock?
    ensures m.id in {CHOKE, BITFIELD, PIECE}
  {
    hide Reads, Ends, NeverYet, Served, Flat, Advertises, Readies;
  }

  /** When nothing else fails, FetchPiece returns ErrPeerChoked exactly if the peer advertised the piece, unchoked,
      answered some requests, and chokes instead of answering the next one. */
  lemma ChokedExactly(w: World, r: Run, piece: PieceSpec)
    requires Fair(w) && r.state.Valid() && piece.index < r.state.pieceCount && piece.length > 0
    ensures FetchPiece(w, r, piece).error == Some(Choked) <==>
              exists advert, ready, bs, ms, m: Message :: m.id == CHOKE
                && Tells(r.state, r.rest, piece, NoBlock(advert, ready, bs, ms, Received.Message(m)))
  {
    hide FetchPiece, Tells;
    FairError(w, r, piece, Choked);
    forall story | EndsBadly(r.state, r.rest, piece, story, Failure(Choked)) ensures false {
      FailureEnds(r.state, r.rest, piece, story, Choked);
    }
    forall story, m: Message |
      MessageError(m) == Choked && EndsBadly(r.state, r.rest, piece, story, Received.Message(m))
      ensures m.id == CHOKE && story.NoBlock?
      ensures story == NoBlock(story.advert, story.ready, story.bs, story.ms, Received.Message(m))
    {
      MessageEnds(r.state, r.rest, piece, story, m);
    }
    forall advert, ready, bs, ms, m: Message |
      m.id == CHOKE && Tells(r.state, r.rest, piece, NoBlock(advert, ready, bs, ms, Received.Message(m)))
      ensures var end := Received.Message(m);
        EndsBadly(r.state, r.rest, piece, NoBlock(advert, ready, bs, ms, end), end)
    {
    }
  }

  /** ... ErrPieceUnavailable exactly if its Bitfield comes, without the piece. */
  lemma UnavailableExactly(w: World, r: Run, piece: PieceSpec)
    requires Fair(w) && r.state.Valid() && piece.index < r.state.pieceCount && piece.length > 0
    ensures FetchPiece(w, r, piece).error == Some(Unavailable) <==>
              exists ms, m: Message ::
                m.id == BITFIELD && Tells(r.state, r.rest, piece, NoAdvert(ms, Received.Message(m)))
  {
    hide FetchPiece, Tells;
    FairError(w, r, piece, Unavailable);
    forall story | EndsBadly(r.state, r.rest, piece, story, Failure(Unavailable)) ensures false {
      FailureEnds(r.state, r.rest, piece, story, Unavailable);
    }
    forall story, m: Message |
      MessageError(m) == Unavailable && EndsBadly(r.state, r.rest, piece, story, Received.Message(m))
      ensures m.id == BITFIELD && story.NoAdvert? && story == NoAdvert(story.ms, Received.Message(m))
    {
      MessageEnds(r.state, r.rest, piece, story, m);
    }
    forall ms, m: Message | m.id == BITFIELD && Tells(r.state, r.rest, piece, NoAdvert(ms, Received.Message(m)))
      ensures EndsBadly(r.state, r.rest, piece, NoAdvert(ms, Received.Message(m)), Received.Message(m))
    {
    }
  }

  /** ... ErrPeerProtocol exactly if a block comes that was not asked for, or Read finds a violation itself; and a
      wire error exactly if Read finds that. */
  lemma OtherErrorsExactly(w: World, r: Run, piece: PieceSpec, e: Error)
    requires Fair(w) && r.state.Valid() && piece.index < r.state.pieceCount && piece.length > 0
    ensures FetchPiece(w, r, piece).error == Some(Protocol) <==>
              || (exists story :: EndsBadly(r.state, r.rest, piece, story, Failure(Protocol)))
              || (exists story, m: Message ::
                    m.id == PIECE && EndsBadly(r.state, r.rest, piece, story, Received.Message(m)))
    ensures FetchPiece(w, r, piece).error == Some(WireError(e)) <==>
              exists story :: EndsBadly(r.state, r.rest, piece, story, Failure(WireError(e)))
  {
    hide FetchPiece, Tells;
    FairError(w, r, piece, Protocol);
    FairError(w, r, piece, WireError(e));
    forall story, m: Message | EndsBadly(r.state, r.rest, piece, story, Received.Message(m))
      ensures MessageError(m) == Protocol <==> m.id == PIECE
      ensures !MessageError(m).WireError?
    {
      MessageEnds(r.state, r.rest, piece, story, m);
    }
    hide EndsBadly;
  }
}
