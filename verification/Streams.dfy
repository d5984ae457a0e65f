// Conservation of bytes over whole runs of one solution, and the end of its output.
module Streams {
  import opened Basics
  import opened Tokenizers
  import opened Sessions
  import opened Runs

  // ---- inside communicate ------------------------------------------------------------

  lemma SplitAt(s: Bytes, n: nat)
    requires n <= |s|
    ensures s == s[..n] + s[n..]
  {
  }

  lemma Gained(s: Bytes, more: Bytes)
    ensures s <= s + more && (s + more)[|s|..] == more
  {
  }

  // Where the bytes read are divided between result and outbuf.
  lemma CutAt(s: Session, unread: Bytes, io: IO) returns (cut: nat)
    requires Ready(s) && s.verdict == Continue && Transfers(s, unread, io)
    ensures var s' := CommFn(s, io);
            && cut <= |io.read| && s'.inbuf == s.inbuf[|io.written|..]
            && s'.result == s.result + io.read[..cut]
            && s'.outbuf == s.outbuf + (if s'.verdict == Accepted then io.read[cut..] else [])
            && (s'.verdict == Continue ==> cut == |io.read|)
            && (s'.verdict == Accepted ==> |io.read| - cut < 8192)
            && (s'.verdict == Fail ==> cut == |io.read| - io.last)
  {
    var r := Feed(s.tokenizer.value, io.read);
    hide Feed;
    cut := if r.verdict == Fail then |io.read| - io.last else r.accepted;
    assert r.verdict == Continue ==> io.read[..cut] == io.read;
    assert s.outbuf + [] == s.outbuf;
  }

  // Byte conservation, at every loop head and at every return of communicate: the input is
  // what was written and what is left; unless the tokenizer failed, the bytes read are what
  // result and outbuf have gained, in that order, and less than one chunk is read ahead; if it
  // failed, exactly the last chunk is lost.
  lemma CommunicateConserves(s: Session, unread: Bytes, io: IO)
    requires Ready(s) && s.verdict == Continue && Transfers(s, unread, io)
    ensures var s' := CommFn(s, io);
            && s.inbuf == io.written + s'.inbuf
            && s.result <= s'.result && s.outbuf <= s'.outbuf
            && var kept, ahead := s'.result[|s.result|..], s'.outbuf[|s.outbuf|..];
               && (s'.verdict != Fail ==> io.read == kept + ahead && |ahead| < 8192)
               && (s'.verdict == Continue ==> ahead == [])
               && (s'.verdict == Fail ==> ahead == [] && io.read == kept + io.read[|io.read| - io.last..])
  {
    hide Feed, CommFn;
    var cut := CutAt(s, unread, io);
    SplitAt(s.inbuf, |io.written|);
    SplitAt(io.read, cut);
    Gained(s.result, io.read[..cut]);
    Gained(s.outbuf, io.read[cut..]);
    Gained(s.outbuf, []);
    assert io.read[..|io.read|] == io.read && s.outbuf + [] == s.outbuf;
  }

  // ---- output: every byte is returned once, in order ---------------------------------

  function Data(results: seq<Result>): Bytes
    decreases |results|
  {
    if results == [] then [] else Data(Front(results)) + Last(results).data
  }

  predicate AllOK(results: seq<Result>) {
    forall i | 0 <= i < |results| :: results[i].status == OK
  }

  lemma DataSnoc(results: seq<Result>, r: Result)
    ensures Data(results + [r]) == Data(results) + r.data
    ensures AllOK(results + [r]) <==> AllOK(results) && r.status == OK
  {
    assert Front(results + [r]) == results && Last(results + [r]) == r;
    if AllOK(results + [r]) {
      assert forall i | 0 <= i < |results| :: results[i] == (results + [r])[i];
      assert (results + [r])[|results|] == r;
    }
  }

  lemma ReaderStepConserves(lib: Library, rd: Reader, call: SessionCall)
    requires !rd.jammed && AllOK(ReadStep(lib, rd, call).results)
    ensures var rd' := ReadStep(lib, rd, call);
            !rd'.jammed && AllOK(rd.results) && Data(rd'.results) + rd'.rest == Data(rd.results) + rd.rest
  {
    var rd' := ReadStep(lib, rd, call);
    if rd'.results != rd.results {
      var r := Feed(Fresh(lib, rd.current.value), rd.rest);
      DataSnoc(rd.results, Last(rd'.results));
      assert rd'.results == rd.results + [Last(rd'.results)];
      assert rd.rest == rd.rest[..r.accepted] + rd.rest[r.accepted..];
    }
  }

  lemma {:induction false} JammedHasError(lib: Library, stream: Bytes, calls: seq<SessionCall>)
    ensures ReadStream(lib, stream, calls).jammed ==> !AllOK(ReadStream(lib, stream, calls).results)
    decreases |calls|
  {
    if calls != [] {
      JammedHasError(lib, stream, Front(calls));
      var before := ReadStream(lib, stream, Front(calls));
      var after := ReadStream(lib, stream, calls);
      if after.jammed && !before.jammed {
        assert Last(after.results).status == TOKENIZER_ERROR;
      }
    }
  }

  lemma {:induction false} ReaderConserves(lib: Library, stream: Bytes, calls: seq<SessionCall>)
    requires AllOK(ReadStream(lib, stream, calls).results)
    ensures var rd := ReadStream(lib, stream, calls);
            !rd.jammed && Data(rd.results) + rd.rest == stream
    decreases |calls|
  {
    if calls != [] {
      var before := ReadStream(lib, stream, Front(calls));
      JammedHasError(lib, stream, Front(calls));
      assert !before.jammed;
      ReaderStepConserves(lib, before, Last(calls));
      ReaderConserves(lib, stream, Front(calls));
    }
  }

  // If every session ended OK, the answers concatenated, followed by what the broker still
  // buffers and what it has not read, are the solution's output: nothing is lost,
  // duplicated or reordered.
  lemma AnswersAreTheStream(lib: Library, limits: Limits, stream: Bytes, ops: seq<Op>)
    requires Run(lib, Start(limits, stream), ops).Some? && NothingDropped(lib, Start(limits, stream), ops)
    requires AllOK(Answers(lib, Start(limits, stream), ops))
    ensures Data(Answers(lib, Start(limits, stream), ops)) +
            Pending(Run(lib, Start(limits, stream), ops).value) == stream
  {
    RunRefinesReader(lib, limits, stream, ops);
    var rd := ReadStream(lib, stream, Calls(ops));
    var answers := Answers(lib, Start(limits, stream), ops);
    assert forall i | 0 <= i < |rd.results| :: rd.results[i] == answers[i];
    ReaderConserves(lib, stream, Calls(ops));
  }

  // The answer of a session that was neither timed out nor cut short.
  lemma DoneAnswersPending(lib: Library, w: World, arg: Bytes, op: Op)
    requires Coupled(lib, Some(arg), w.session) && Legal(lib, w, op) && op.End? && op.io.outcome == Done
    ensures ArgumentOk(lib, arg)
    ensures var r := Feed(Fresh(lib, arg), Pending(w));
            match r.verdict
            case Accepted =>
              && AnswerOf(lib, w, op) == [Result(OK, Pending(w)[..r.accepted])]
              && Accepts(Fresh(lib, arg), Pending(w)[..r.accepted])
            case Fail => AnswerOf(lib, w, op) == [Result(TOKENIZER_ERROR, What(r.tok))]
            case Continue => AnswerOf(lib, w, op) == [Result(EOF_ERROR, [])]
  {
    EndScansPending(lib, arg, w, op.io);
    EndEffect(lib, w, op);
    var r := Feed(Fresh(lib, arg), Pending(w));
    FeedFindsTheToken(Fresh(lib, arg), Pending(w), r.accepted);
  }

  // A timeout is answered as such and without data, and a thrown error not at all. Otherwise an
  // OK answer is the one prefix of the bytes not yet returned that a fresh tokenizer accepts.
  lemma AnswerIsTheNextToken(lib: Library, limits: Limits, stream: Bytes, ops: seq<Op>)
    requires ops != [] && Run(lib, Start(limits, stream), ops).Some? && Last(ops).End?
    ensures LastArg(ops).Some? && ArgumentOk(lib, LastArg(ops).value)
    ensures var w := Run(lib, Start(limits, stream), Front(ops)).value;
            var answer := AnswerOf(lib, w, Last(ops));
            var t := Fresh(lib, LastArg(ops).value);
            match Last(ops).io.outcome
            case TimedOut => answer == [Result(REAL_TIME_LIMIT_EXCEEDED, [])]
            case Broken => answer == []
            case Done =>
              && |answer| == 1
              && match answer[0].status
                 case OK => answer[0].data <= Pending(w) && Accepts(t, answer[0].data)
                 case TOKENIZER_ERROR =>
                   Feed(t, Pending(w)).verdict == Fail && answer[0].data == What(Feed(t, Pending(w)).tok)
                 case EOF_ERROR => Feed(t, Pending(w)).verdict == Continue && answer[0].data == []
                 case TIME_LIMIT_EXCEEDED => false
                 case REAL_TIME_LIMIT_EXCEEDED => false
    ensures var w := Run(lib, Start(limits, stream), Front(ops)).value;
            var answer := AnswerOf(lib, w, Last(ops));
            Last(ops).io.outcome == Done && answer[0].status != OK ==>
              forall k | 0 <= k <= |Pending(w)| :: !Accepts(Fresh(lib, LastArg(ops).value), Pending(w)[..k])
  {
    var w := Run(lib, Start(limits, stream), Front(ops)).value;
    ReachableIsCoupled(lib, limits, stream, Front(ops));
    assert LastArg(ops) == LastArg(Front(ops));
    if Last(ops).io.outcome == Done {
      var t := Fresh(lib, LastArg(ops).value);
      DoneAnswersPending(lib, w, LastArg(ops).value, Last(ops));
      forall k | 0 <= k <= |Pending(w)|
        ensures Accepts(t, Pending(w)[..k]) ==> Feed(t, Pending(w)).verdict == Accepted
      {
        FeedFindsTheToken(t, Pending(w), k);
      }
    }
  }

  // ---- end of output -----------------------------------------------------------------

  predicate Exhausted(w: World) {
    && w.unread == [] && w.session.outbuf == []
    && (w.session.tokenizer.Some? ==> w.session.verdict == Continue && w.session.result == [])
  }

  // The run is legal, and its last step is an end() that returned EOF_ERROR.
  ghost predicate EndsInEof(lib: Library, w0: World, ops: seq<Op>) {
    && ops != [] && Last(ops).End? && Run(lib, w0, ops).Some?
    && AnswerOf(lib, Run(lib, w0, Front(ops)).value, Last(ops)) == [Result(EOF_ERROR, [])]
  }

  lemma EofExhausts(lib: Library, limits: Limits, stream: Bytes, ops: seq<Op>)
    requires EndsInEof(lib, Start(limits, stream), ops)
    ensures Exhausted(Run(lib, Start(limits, stream), ops).value)
  {
    ReachableIsCoupled(lib, limits, stream, Front(ops));
    EndScansPending(lib, LastArg(ops).value, Run(lib, Start(limits, stream), Front(ops)).value, Last(ops).io);
  }

  predicate NoData(results: seq<Result>) {
    forall i | 0 <= i < |results| ::
      results[i] == Result(EOF_ERROR, []) || results[i] == Result(REAL_TIME_LIMIT_EXCEEDED, [])
  }

  // The answers go on from first without any more data.
  predicate NoMoreData(first: seq<Result>, answers: seq<Result>) {
    first <= answers && NoData(answers[|first|..])
  }

  lemma NoMoreDataGrows(first: seq<Result>, answers: seq<Result>, more: seq<Result>)
    requires NoMoreData(first, answers) && NoData(more)
    ensures NoMoreData(first, answers + more)
  {
    assert (answers + more)[|first|..] == answers[|first|..] + more;
  }

  lemma ExhaustedStep(lib: Library, w: World, op: Op)
    requires Legal(lib, w, op) && Exhausted(w)
    ensures Exhausted(Exec(lib, w, op)) && NoData(AnswerOf(lib, w, op))
  {
    match op
    case Begin(_, _) =>
    case Send(_) =>
    case Terminate =>
    case End(discard, io) => assert io.read == [];
  }

  lemma {:induction false} StaysExhausted(lib: Library, w0: World, limits: Limits, ops: seq<Op>, n: nat)
    requires w0.session == Idle(limits) && n <= |ops|
    requires Run(lib, w0, ops).Some? && Run(lib, w0, ops[..n]).Some?
    requires Exhausted(Run(lib, w0, ops[..n]).value)
    ensures Exhausted(Run(lib, w0, ops).value)
    ensures NoMoreData(Answers(lib, w0, ops[..n]), Answers(lib, w0, ops))
    decreases |ops|
  {
    hide Legal, Exec, AnswerOf, Exhausted;
    if n == |ops| {
      assert ops[..n] == ops;
    } else {
      assert Front(ops)[..n] == ops[..n];
      StaysExhausted(lib, w0, limits, Front(ops), n);
      var w := Run(lib, w0, Front(ops)).value;
      ExhaustedStep(lib, w, Last(ops));
      NoMoreDataGrows(Answers(lib, w0, ops[..n]), Answers(lib, w0, Front(ops)), AnswerOf(lib, w, Last(ops)));
    }
  }

  // EOF is sticky: after an EOF_ERROR, no later session of that solution returns any data;
  // each ends with EOF_ERROR or runs out of time, whatever is sent and however it is split.
  lemma EofIsSticky(lib: Library, limits: Limits, stream: Bytes, before: seq<Op>, after: seq<Op>)
    requires EndsInEof(lib, Start(limits, stream), before)
    requires Run(lib, Start(limits, stream), before + after).Some?
    ensures NoMoreData(Answers(lib, Start(limits, stream), before), Answers(lib, Start(limits, stream), before + after))
  {
    EofExhausts(lib, limits, stream, before);
    assert (before + after)[..|before|] == before;
    StaysExhausted(lib, Start(limits, stream), limits, before + after, |before|);
  }

  // ---- input -------------------------------------------------------------------------

  // The bytes that went into the solution's standard input, in order.
  function Delivered(ops: seq<Op>): Bytes
    decreases |ops|
  {
    if ops == [] then []
    else Delivered(Front(ops)) + (if Last(ops).End? then Last(ops).io.written else [])
  }

  lemma DeliveredSnoc(ops: seq<Op>, op: Op)
    ensures Delivered(ops + [op]) == Delivered(ops) + (if op.End? then op.io.written else [])
  {
    assert Front(ops + [op]) == ops && Last(ops + [op]) == op;
  }

  function Sent(ops: seq<Op>): Bytes
    decreases |ops|
  {
    if ops == [] then []
    else Sent(Front(ops)) + (if Last(ops).Send? then Last(ops).msg else [])
  }

  // Operations that throw the undelivered input away: terminate, a timeout, and an end that
  // discards (unless a system error cut it short).
  predicate Clears(op: Op) {
    op.Terminate? ||
    (op.End? && (op.io.outcome == TimedOut || (op.discard && op.io.outcome == Done)))
  }

  // The sent bytes without those pending at each clearing point: a clearing operation cuts
  // the sequence down to what has been delivered.
  function Surviving(ops: seq<Op>): Bytes
    decreases |ops|
  {
    if ops == [] then []
    else
      var before := Surviving(Front(ops));
      if Last(ops).Send? then before + Last(ops).msg
      else if Clears(Last(ops)) then before[..Min(|before|, |Delivered(ops)|)]
      else before
  }

  lemma InputStep(lib: Library, w: World, op: Op)
    requires Legal(lib, w, op)
    ensures var left := Exec(lib, w, op).session.inbuf;
            && (op.Send? ==> left == w.session.inbuf + op.msg)
            && (Clears(op) ==> left == [])
            && (op.End? ==> op.io.written <= w.session.inbuf)
            && (op.End? && !Clears(op) ==> w.session.inbuf == op.io.written + left)
            && (op.Begin? ==> left == w.session.inbuf)
  {
    if op.End? {
      assert w.session.inbuf == op.io.written + w.session.inbuf[|op.io.written|..];
    }
  }

  // Input FIFO: the delivered bytes followed by inbuf are the surviving bytes, in every
  // reachable state and across sessions that end before draining their input.
  lemma {:induction false} InputIsFifo(lib: Library, limits: Limits, stream: Bytes, ops: seq<Op>)
    requires Run(lib, Start(limits, stream), ops).Some?
    ensures Surviving(ops) == Delivered(ops) + Run(lib, Start(limits, stream), ops).value.session.inbuf
    decreases |ops|
  {
    if ops != [] {
      var w := Run(lib, Start(limits, stream), Front(ops)).value;
      InputIsFifo(lib, limits, stream, Front(ops));
      InputStep(lib, w, Last(ops));
    }
  }

  lemma {:induction false} AllSurvive(ops: seq<Op>)
    requires forall i | 0 <= i < |ops| :: !Clears(ops[i])
    ensures Surviving(ops) == Sent(ops)
    decreases |ops|
  {
    if ops != [] {
      AllSurvive(Front(ops));
      assert !Clears(ops[|ops| - 1]);
    }
  }

  lemma NothingClearedNothingLost(lib: Library, limits: Limits, stream: Bytes, ops: seq<Op>)
    requires Run(lib, Start(limits, stream), ops).Some?
    requires forall i | 0 <= i < |ops| :: !Clears(ops[i])
    ensures Sent(ops) == Delivered(ops) + Run(lib, Start(limits, stream), ops).value.session.inbuf
  {
    InputIsFifo(lib, limits, stream, ops);
    AllSurvive(ops);
  }
}
