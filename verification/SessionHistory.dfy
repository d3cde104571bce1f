/** A session's state is decided by the messages it accepted, and by nothing else. */
module SessionHistory {
  import opened Wrappers
  import opened Bytes
  import opened Wire
  import opened Payloads
  import opened Bitfields
  import opened SessionModel
  import opened SessionTrace

  // --- Layered validation -------------------------------------------------------------------------

  /** Of a message that ReadFrame let through, only three things can still be wrong in a session: a Bitfield
      that comes too late, a Bitfield with spare bits set, a Have for a piece that does not exist. The payloads
      of Have and Piece always parse, and an existing piece always has its bit in the session's Bitfield. */
  lemma LayeredValidation(st: SessState, input: seq<byte>, m: Message)
    requires st.Valid() && ReadStep(input, st.pieceCount).result == Ok(Enclosed(m))
    ensures Accept(st, m).error ==
              if m.id == BITFIELD && !st.bitfieldAllowed then Some(Protocol)
              else if m.id == BITFIELD && !ValidBits(m.payload, st.pieceCount) then Some(WireError(Malformed))
              else if m.id == HAVE && Uint32(m.payload) >= st.pieceCount then Some(Protocol)
              else None
    ensures m.id == HAVE ==> ParseHave(m) == Ok(Uint32(m.payload))
    ensures m.id == HAVE && Uint32(m.payload) < st.pieceCount ==> Uint32(m.payload) < 8 * |st.bits|
    ensures m.id == PIECE ==> ParsePiece(m).Ok?
  {
    WriteAfterRead(input, st.pieceCount);
    ParseAcceptsValidBits(m.payload, st.pieceCount);
  }

  /** A rejected message changes nothing but that it closes the window for a Bitfield. */
  lemma RejectionKeepsState(st: SessState, m: Message)
    requires |st.bits| == BitfieldBytes(st.pieceCount) && Accept(st, m).error.Some?
    ensures Accept(st, m).state == st.(bitfieldAllowed := false)
  {
  }

  /** So what Read returns never fails to parse in FetchPiece. */
  lemma {:induction false} ReturnedMessagesParse(st: SessState, input: seq<byte>)
    requires st.Valid() && Read(st, input).received.Message?
    ensures var m := Read(st, input).received.message;
      (m.id == HAVE ==> ParseHave(m).Ok?) && (m.id == PIECE ==> ParsePiece(m).Ok?)
    decreases |input|
  {
    var step := ReadStep(input, st.pieceCount);
    if step.result.value.Enclosed? {
      LayeredValidation(st, input, step.result.value.message);
    } else {
      WriteAfterRead(input, st.pieceCount);
      ReturnedMessagesParse(st, step.rest);
    }
  }

  /** Read itself fails only on a broken stream, a malformed frame or a protocol violation. */
  lemma {:induction false} ReadErrors(st: SessState, input: seq<byte>)
    requires st.Valid()
    ensures var received := Read(st, input).received;
      received.Failure? ==> received.error in {WireError(IOFailure), WireError(Malformed), Protocol}
    decreases |input|
  {
    var step := ReadStep(input, st.pieceCount);
    if step.result.Ok? {
      WriteAfterRead(input, st.pieceCount);
      if step.result.value.Enclosed? {
        LayeredValidation(st, input, step.result.value.message);
      } else {
        ReadErrors(st, step.rest);
      }
    }
  }

  // --- The state as a function of the history -------------------------------------------------------

  ghost function After(st: SessState, ms: seq<Message>): (st': SessState)
    requires |st.bits| == BitfieldBytes(st.pieceCount)
    ensures |st'.bits| == BitfieldBytes(st'.pieceCount) && st'.pieceCount == st.pieceCount
  {
    if ms == [] then st else Accept(After(st, ms[..|ms| - 1]), ms[|ms| - 1]).state
  }

  ghost predicate AllAccepted(st: SessState, ms: seq<Message>)
    requires |st.bits| == BitfieldBytes(st.pieceCount)
  {
    ms == [] || (AllAccepted(st, ms[..|ms| - 1]) && Accept(After(st, ms[..|ms| - 1]), ms[|ms| - 1]).error.None?)
  }

  /** Decided by the last Choke or Unchoke; choked before any. */
  ghost function ChokedBy(ms: seq<Message>): bool {
    if ms == [] then true
    else if ms[|ms| - 1].id == CHOKE then true
    else if ms[|ms| - 1].id == UNCHOKE then false
    else ChokedBy(ms[..|ms| - 1])
  }

  /** The pieces of an opening Bitfield. */
  ghost function Opening(ms: seq<Message>, n: nat): set<nat> {
    if ms != [] && ms[0].id == BITFIELD && |ms[0].payload| == BitfieldBytes(n) then Pieces(ms[0].payload, n) else {}
  }

  /** The pieces announced by Have messages. */
  ghost function Announced(ms: seq<Message>, n: nat): set<nat>
    requires n <= MAX_PIECES
  {
    set i | 0 <= i < n && NewHave(i) in ms
  }

  /** Which histories a session of `n` pieces accepts: a Bitfield only first and without spare bits, Have
      messages only for existing pieces. */
  ghost predicate Acceptable(ms: seq<Message>, n: nat) {
    forall j :: 0 <= j < |ms| ==>
      && (ms[j].id == BITFIELD ==> j == 0 && ValidBits(ms[j].payload, n))
      && (ms[j].id == HAVE ==> |ms[j].payload| == 4 && Uint32(ms[j].payload) < n)
  }

  lemma {:induction false} AfterIsValid(n: nat, ms: seq<Message>)
    requires n <= MAX_PIECES
    ensures After(Initial(n), ms).Valid()
  {
    if ms == [] {
      InitialIsCoherent(n);
    } else {
      AfterIsValid(n, ms[..|ms| - 1]);
      AcceptKeepsValid(After(Initial(n), ms[..|ms| - 1]), ms[|ms| - 1]);
    }
  }

  lemma AnnouncedSnoc(ms: seq<Message>, m: Message, n: nat)
    requires n <= MAX_PIECES
    ensures Announced(ms + [m], n) ==
              Announced(ms, n)
              + if m.id == HAVE && ParseHave(m).Ok? && ParseHave(m).value < n then {ParseHave(m).value} else {}
  {
    forall i | 0 <= i < n ensures m == NewHave(i) <==> ParseHave(m) == Ok(i) {
      HaveRoundTrip(m, i);
    }
  }

  /** One accepted message changes the advertised set by exactly what it says. */
  lemma AcceptAdvertises(st: SessState, m: Message)
    requires st.Valid() && Accept(st, m).error.None?
    ensures Pieces(Accept(st, m).state.bits, st.pieceCount) ==
              if m.id == BITFIELD then Pieces(m.payload, st.pieceCount)
              else if m.id == HAVE then Pieces(st.bits, st.pieceCount) + {ParseHave(m).value}
              else Pieces(st.bits, st.pieceCount)
  {
    if m.id == HAVE {
      SetBitAddsPiece(st.bits, st.pieceCount, ParseHave(m).value);
    }
  }

  /** One more message, accepted after the history `ms`. */
  lemma AcceptAdds(st: SessState, ms: seq<Message>, m: Message)
    requires st.Valid() && Accept(st, m).error.None? && st.bitfieldAllowed == (ms == [])
    requires Pieces(st.bits, st.pieceCount) == Opening(ms, st.pieceCount) + Announced(ms, st.pieceCount)
    ensures Pieces(Accept(st, m).state.bits, st.pieceCount)
         == Opening(ms + [m], st.pieceCount) + Announced(ms + [m], st.pieceCount)
  {
    AcceptAdvertises(st, m);
    AnnouncedSnoc(ms, m, st.pieceCount);
    hide Pieces, Announced;
    if ms == [] {
      NothingAnnounced(st.pieceCount);
    }
  }

  lemma NothingAnnounced(n: nat)
    requires n <= MAX_PIECES
    ensures Announced([], n) == {}
  {
  }

  /** After any accepted history, choking is decided by its last Choke or Unchoke, the advertised pieces are
      those of the opening Bitfield and of all Haves, and a Bitfield may come only if it is empty. */
  lemma {:induction false} HistoryDecidesState(n: nat, ms: seq<Message>)
    requires n <= MAX_PIECES && AllAccepted(Initial(n), ms)
    ensures var st := After(Initial(n), ms);
      && st.choked == ChokedBy(ms)
      && st.bitfieldAllowed == (ms == [])
      && Pieces(st.bits, n) == Opening(ms, n) + Announced(ms, n)
  {
    if ms == [] {
      InitialIsCoherent(n);
    } else {
      var init, m := ms[..|ms| - 1], ms[|ms| - 1];
      assert ms == init + [m];
      HistoryDecidesState(n, init);
      AfterIsValid(n, init);
      AcceptAdds(After(Initial(n), init), init, m);
    }
  }

  /** The accepted histories are exactly the acceptable ones. */
  lemma {:induction false} AcceptedIffAcceptable(n: nat, ms: seq<Message>)
    requires n <= MAX_PIECES
    ensures AllAccepted(Initial(n), ms) <==> Acceptable(ms, n)
  {
    if ms != [] {
      var init, m := ms[..|ms| - 1], ms[|ms| - 1];
      AcceptedIffAcceptable(n, init);
      assert Acceptable(ms, n) ==> Acceptable(init, n);
      if AllAccepted(Initial(n), init) {
        HistoryDecidesState(n, init);
        ParseAcceptsValidBits(m.payload, n);
        assert Acceptable(ms, n) <==>
          && (m.id == BITFIELD ==> init == [] && ValidBits(m.payload, n))
          && (m.id == HAVE ==> |m.payload| == 4 && Uint32(m.payload) < n)
        by {
          assert forall j :: 0 <= j < |init| ==> init[j] == ms[j];
        }
      }
    }
  }

  /** Availability never shrinks, although a Bitfield replaces the whole set. */
  lemma AvailabilityNeverShrinks(st: SessState, m: Message)
    requires Coherent(st) && Accept(st, m).error.None?
    ensures Pieces(st.bits, st.pieceCount) <= Pieces(Accept(st, m).state.bits, st.pieceCount)
  {
    AcceptAdvertises(st, m);
    assert forall i :: 0 <= i < st.pieceCount ==> (st.Has(i) <==> i in Pieces(st.bits, st.pieceCount));
  }

  /** Repeated Read calls until one fails: the messages returned, and the state before the failing call. */
  datatype Conversation = Conversation(messages: seq<Message>, state: SessState)

  ghost function ReadUntilFailure(st: SessState, input: seq<byte>): Conversation
    requires |st.bits| == BitfieldBytes(st.pieceCount)
    decreases |input|
  {
    var read := Read(st, input);
    if read.received.Failure? then Conversation([], st)
    else
      var more := ReadUntilFailure(read.state, read.rest);
      more.(messages := [read.received.message] + more.messages)
  }

  lemma {:induction false} AfterCons(st: SessState, m: Message, ms: seq<Message>)
    requires |st.bits| == BitfieldBytes(st.pieceCount) && Accept(st, m).error.None?
    ensures After(st, [m] + ms) == After(Accept(st, m).state, ms)
    ensures AllAccepted(st, [m] + ms) <==> AllAccepted(Accept(st, m).state, ms)
  {
    var all := [m] + ms;
    if ms == [] {
      assert all[..0] == [] && all[0] == m;
      assert After(st, all[..0]) == st;
    } else {
      assert all[..|all| - 1] == [m] + ms[..|ms| - 1];
      AfterCons(st, m, ms[..|ms| - 1]);
    }
  }

  /** Whatever the peer sends, the state of a session is the one its returned messages decide. */
  lemma {:induction false} ReadingFoldsHistory(st: SessState, input: seq<byte>)
    requires |st.bits| == BitfieldBytes(st.pieceCount)
    ensures var c := ReadUntilFailure(st, input);
      AllAccepted(st, c.messages) && After(st, c.messages) == c.state
    decreases |input|
  {
    var read := Read(st, input);
    if read.received.Message? {
      ReadAccepts(st, input);
      ReadingFoldsHistory(read.state, read.rest);
      AfterCons(st, read.received.message, ReadUntilFailure(read.state, read.rest).messages);
    }
  }
}
