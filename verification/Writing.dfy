/** Writing frames through a writer that may accept less than it is given. */
module Writing {
  import opened Wrappers
  import opened Bytes
  import opened Wire

  /** How a writer answers one Write call: the bytes it accepts at most, and whether it fails. */
  datatype Answer = Answer(accepts: nat, fails: bool)

  /** Every answer makes progress and none fails. */
  ghost predicate Progressing(answers: seq<Answer>) {
    forall i :: 0 <= i < |answers| ==> answers[i].accepts > 0 && !answers[i].fails
  }

  /** The answer that makes writeFull give up with this error. */
  ghost predicate Explains(a: Answer, e: Error) {
    if a.fails then e == IOFailure else a.accepts == 0 && e == NoProgress
  }

  /** What a run of Write calls must report, by the answers it used up: success exactly if every one of them made
      progress and none failed; otherwise the last one, the first to go wrong, is the reason. */
  ghost predicate Reports(before: seq<Answer>, after: seq<Answer>, error: Option<Error>) {
    && |after| <= |before| && after == before[|before| - |after|..]
    && var used := before[..|before| - |after|];
       match error
       case None => Progressing(used)
       case Some(e) => used != [] && Progressing(used[..|used| - 1]) && Explains(used[|used| - 1], e)
  }

  /** An io.Writer. `answers` lists how it will answer; after them it accepts everything. */
  class Writer {
    var written: seq<byte>
    var answers: seq<Answer>

    constructor (answers: seq<Answer>)
      ensures written == [] && this.answers == answers
    {
      written := [];
      this.answers := answers;
    }

    /** io.Writer.Write: accepts a prefix of `data`. */
    method Write(data: seq<byte>) returns (n: nat, failed: bool)
      modifies this
      ensures n <= |data| && written == old(written) + data[..n]
      ensures old(answers) == [] ==> n == |data| && !failed && answers == []
      ensures old(answers) != [] ==>
                && n == (if old(answers)[0].accepts < |data| then old(answers)[0].accepts else |data|)
                && failed == old(answers)[0].fails
                && answers == old(answers)[1..]
    {
      n, failed := |data|, false;
      if answers != [] {
        if answers[0].accepts < |data| {
          n := answers[0].accepts;
        }
        failed := answers[0].fails;
        answers := answers[1..];
      }
      written := written + data[..n];
    }
  }

  lemma PrefixGrows(data: seq<byte>, count: nat, n: nat)
    requires count + n <= |data|
    ensures data[..count] + data[count..][..n] == data[..count + n]
  {
  }

  lemma OneMoreAnswer(before: seq<Answer>, unused: seq<Answer>)
    requires Reports(before, unused, None) && unused != []
    ensures var a, rest := unused[0], unused[1..];
      && (a.accepts > 0 && !a.fails ==> Reports(before, rest, None))
      && (forall e :: Explains(a, e) ==> Reports(before, rest, Some(e)))
  {
    var rest := unused[1..];
    var used := before[..|before| - |rest|];
    assert used[..|used| - 1] == before[..|before| - |unused|] && used[|used| - 1] == unused[0];
    assert rest == before[|before| - |rest|..];
  }

  /** writeFull: what reached the writer is always the first `count` bytes, all of them on success; a
      failure is reported only when the writer failed or accepted nothing. */
  method WriteFull(w: Writer, data: seq<byte>) returns (count: nat, error: Option<Error>)
    modifies w
    ensures count <= |data| && w.written == old(w.written) + data[..count]
    ensures error.None? ==> count == |data|
    ensures error == Some(NoProgress) ==> count < |data|
    ensures Reports(old(w.answers), w.answers, error)
    ensures Progressing(old(w.answers)) ==> error.None? && Progressing(w.answers)
  {
    ghost var before := w.answers;
    count := 0;
    while count < |data|
      invariant count <= |data|
      invariant w.written == old(w.written) + data[..count]
      invariant Reports(before, w.answers, None)
    {
      ghost var unused := w.answers;
      var n, failed := w.Write(data[count..]);
      PrefixGrows(data, count, n);
      count := count + n;
      if unused != [] {
        OneMoreAnswer(before, unused);
      }
      if failed {
        return count, Some(IOFailure);
      }
      if n == 0 {
        return count, Some(NoProgress);
      }
    }
    error := None;
  }

  /** Message.WriteTo. */
  method WriteTo(w: Writer, m: Message) returns (count: nat, error: Option<Error>)
    modifies w
    ensures |m.payload| >= MAX_MESSAGE ==> error == Some(BadArgument) && count == 0 && w.written == old(w.written)
    ensures |m.payload| < MAX_MESSAGE ==>
              && count <= |Encode(m)|
              && w.written == old(w.written) + Encode(m)[..count]
              && (error.None? ==> count == |Encode(m)|)
              && Reports(old(w.answers), w.answers, error)
              && (Progressing(old(w.answers)) ==> error.None?)
    ensures Progressing(old(w.answers)) ==> Progressing(w.answers)
  {
    if |m.payload| >= MAX_MESSAGE {
      return 0, Some(BadArgument);
    }
    var length := 1 + |m.payload|;
    var buf := new byte[4 + length];
    var prefix := PutUint32(length);
    buf[0], buf[1], buf[2], buf[3] := prefix[0], prefix[1], prefix[2], prefix[3];
    buf[4] := m.id;
    forall i | 0 <= i < |m.payload| {
      buf[5 + i] := m.payload[i];
    }
    assert buf[..] == Encode(m);
    count, error := WriteFull(w, buf[..]);
  }

  /** WriteKeepAlive. */
  method WriteKeepAlive(w: Writer) returns (count: nat, error: Option<Error>)
    modifies w
    ensures count <= 4 && w.written == old(w.written) + KEEP_ALIVE[..count]
    ensures error.None? ==> count == 4
    ensures Reports(old(w.answers), w.answers, error)
    ensures Progressing(old(w.answers)) ==> error.None? && Progressing(w.answers)
  {
    count, error := WriteFull(w, KEEP_ALIVE);
  }

  lemma {:induction false} EncodeAllSnoc(fs: seq<Frame>, f: Frame, n: nat)
    requires Sendable(f, n) && forall i :: 0 <= i < |fs| ==> Sendable(fs[i], n)
    ensures EncodeAll(fs + [f], n) == EncodeAll(fs, n) + EncodeFrame(f, n)
  {
    if fs == [] {
      assert fs + [f] == [f];
    } else {
      hide EncodeFrame, Sendable;
      assert (fs + [f])[0] == fs[0] && (fs + [f])[1..] == fs[1..] + [f];
      EncodeAllSnoc(fs[1..], f, n);
    }
  }

  method WriteFrame(w: Writer, f: Frame, n: nat) returns (error: Option<Error>)
    requires Sendable(f, n)
    modifies w
    ensures error.None? ==> w.written == old(w.written) + EncodeFrame(f, n)
    ensures Progressing(old(w.answers)) ==> error.None? && Progressing(w.answers)
  {
    var count;
    if f.KeepAlive? {
      count, error := WriteKeepAlive(w);
    } else {
      count, error := WriteTo(w, f.message);
    }
  }

  /** Frame after frame through one writer: on success all of them, in order. */
  method WriteFrames(w: Writer, fs: seq<Frame>, n: nat) returns (error: Option<Error>)
    requires ValidPieceCount(n) && forall i :: 0 <= i < |fs| ==> Sendable(fs[i], n)
    requires w.written == []
    modifies w
    ensures error.None? ==> w.written == EncodeAll(fs, n)
    ensures Progressing(old(w.answers)) ==> error.None?
  {
    hide EncodeFrame, Sendable;
    for i := 0 to |fs|
      invariant w.written == EncodeAll(fs[..i], n)
      invariant Progressing(old(w.answers)) ==> Progressing(w.answers)
    {
      error := WriteFrame(w, fs[i], n);
      if error.Some? {
        return;
      }
      EncodeAllSnoc(fs[..i], fs[i], n);
      assert fs[..i + 1] == fs[..i] + [fs[i]];
    }
    assert fs[..|fs|] == fs;
    error := None;
  }

  /** Written by any progressing writer and read back: the same frames, and `unread` is empty. */
  method SendAndReceive(w: Writer, fs: seq<Frame>, n: nat)
      returns (received: seq<Frame>, unread: seq<byte>, error: Option<Error>)
    requires ValidPieceCount(n) && forall i :: 0 <= i < |fs| ==> Sendable(fs[i], n)
    requires w.written == []
    modifies w
    ensures error.None? ==> received == fs && unread == [] && w.written == EncodeAll(fs, n)
    ensures Progressing(old(w.answers)) ==> error.None?
  {
    received, unread := [], [];
    error := WriteFrames(w, fs, n);
    if error.None? {
      StreamRoundTrip(fs, n);
      var r := new Reader(w.written);
      received, error := ReceiveAll(r, n);
      unread := r.input;
    }
  }

  /** Repeated ReadFrame calls, until one fails or the input is used up. */
  method ReceiveAll(r: Reader, n: int) returns (frames: seq<Frame>, error: Option<Error>)
    modifies r
    ensures Transcript(frames, error, r.input) == ReadAll(old(r.input), n)
  {
    frames := [];
    while r.input != []
      invariant var more := ReadAll(r.input, n);
        more.(frames := frames + more.frames) == ReadAll(old(r.input), n)
      decreases |r.input|
    {
      ghost var before := r.input;
      var result := ReadFrame(r, n);
      if result.Err? {
        return frames, Some(result.error);
      }
      ghost var more := ReadAll(r.input, n).frames;
      assert frames + ([result.value] + more) == frames + [result.value] + more;
      frames := frames + [result.value];
    }
    error := None;
  }
}
