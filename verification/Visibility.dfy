// When can the judge notice how the kernel scheduled and chunked the I/O? As long as no
// terminate drops bytes read ahead: exactly when the tokenizer library can fail. If terminate
// may drop them: exactly when the library can decide at all.
module Visibility {
  import opened Basics
  import opened Tokenizers
  import opened Sessions
  import opened Runs

  ghost predicate NeverFails(lib: Library) {
    forall arg: Bytes, data: Bytes | ArgumentOk(lib, arg) :: Feed(Fresh(lib, arg), data).verdict != Fail
  }

  // Two runs of the same calls against the same solution output in which nothing read ahead
  // is dropped. They may differ in every transfer size, in read-ahead, and in how much input
  // was delivered when.
  ghost predicate SameCalls(lib: Library, limits: Limits, stream: Bytes, ops1: seq<Op>, ops2: seq<Op>) {
    && Run(lib, Start(limits, stream), ops1).Some? && NothingDropped(lib, Start(limits, stream), ops1)
    && Run(lib, Start(limits, stream), ops2).Some? && NothingDropped(lib, Start(limits, stream), ops2)
    && Calls(ops1) == Calls(ops2)
  }

  ghost predicate SchedulingIsInvisible(lib: Library) {
    forall limits: Limits, stream: Bytes, ops1: seq<Op>, ops2: seq<Op> ::
      SameCalls(lib, limits, stream, ops1, ops2) ==>
        Answers(lib, Start(limits, stream), ops1) == Answers(lib, Start(limits, stream), ops2)
  }

  lemma {:induction false} ReaderNeverJams(lib: Library, stream: Bytes, calls: seq<SessionCall>)
    requires NeverFails(lib)
    ensures !ReadStream(lib, stream, calls).jammed
    decreases |calls|
  {
    if calls != [] {
      ReaderNeverJams(lib, stream, Front(calls));
    }
  }

  lemma SameCallsSameAnswers(lib: Library, limits: Limits, stream: Bytes, ops1: seq<Op>, ops2: seq<Op>)
    requires NeverFails(lib) && SameCalls(lib, limits, stream, ops1, ops2)
    ensures Answers(lib, Start(limits, stream), ops1) == Answers(lib, Start(limits, stream), ops2)
            == ReadStream(lib, stream, Calls(ops1)).results
  {
    RunRefinesReader(lib, limits, stream, ops1);
    RunRefinesReader(lib, limits, stream, ops2);
    ReaderNeverJams(lib, stream, Calls(ops1));
  }

  // ---- building runs -----------------------------------------------------------------

  // No session timed out and no system error was thrown; terminate may drop what it likes.
  predicate Timely(ops: seq<Op>) {
    forall i | 0 <= i < |ops| :: ops[i].End? ==> ops[i].io.outcome == Done
  }

  lemma RunSnoc(lib: Library, w0: World, ops: seq<Op>, op: Op)
    requires Run(lib, w0, ops).Some? && Legal(lib, Run(lib, w0, ops).value, op)
    ensures Run(lib, w0, ops + [op]) == Some(Exec(lib, Run(lib, w0, ops).value, op))
    ensures Answers(lib, w0, ops + [op]) == Answers(lib, w0, ops) + AnswerOf(lib, Run(lib, w0, ops).value, op)
    ensures Calls(ops + [op]) == Calls(ops) + [CallOf(op)]
    ensures LastArg(ops + [op]) == if op.Begin? then Some(op.arg) else LastArg(ops)
    ensures NothingDropped(lib, w0, ops + [op]) <==>
            NothingDropped(lib, w0, ops) && DropsNothing(Run(lib, w0, ops).value, op)
    ensures Timely(ops) && (op.End? ==> op.io.outcome == Done) ==> Timely(ops + [op])
  {
    assert Front(ops + [op]) == ops && Last(ops + [op]) == op;
  }

  // What one scan of data decides, as an answer of end().
  function ScanResult(t: Tokenizer, data: Bytes): Result
    requires Live(t)
  {
    var r := Feed(t, data);
    match r.verdict
    case Accepted => Result(OK, data[..r.accepted])
    case Continue => Result(EOF_ERROR, [])
    case Fail => Result(TOKENIZER_ERROR, What(r.tok))
  }

  // ops' continues ops by one session with argument arg, which leaves the world w.
  ghost predicate GoesOn(lib: Library, w0: World, ops: seq<Op>, arg: Bytes, ops': seq<Op>, result: Result, w: World)
    requires Run(lib, w0, ops).Some?
  {
    && Run(lib, w0, ops') == Some(w) && w.session.tokenizer.None?
    && Answers(lib, w0, ops') == Answers(lib, w0, ops) + [result]
    && Calls(ops') == Calls(ops) + [CallBegin(arg), CallEnd]
    && (NothingDropped(lib, w0, ops) ==> NothingDropped(lib, w0, ops'))
    && (Timely(ops) ==> Timely(ops'))
  }

  // A session that starts with nothing buffered, with the given transfers.
  lemma OneSession(lib: Library, w0: World, ops: seq<Op>, arg: Bytes, limits: Limits, io: IO)
    returns (ops': seq<Op>)
    requires Run(lib, w0, ops).Some? && ArgumentOk(lib, arg)
    requires var w := Run(lib, w0, ops).value;
             && w.session.tokenizer.None? && w.session.outbuf == []
             && IOLegal(BeginFn(lib, w.session, arg, limits), w.unread, io) && io.outcome == Done
    ensures var w := Run(lib, w0, ops).value;
            var s' := CommFn(BeginFn(lib, w.session, arg, limits), io);
            GoesOn(lib, w0, ops, arg, ops', Verdicted(s'), World(s'.(tokenizer := None), w.unread[|io.read|..]))
  {
    hide Feed, CommFn, BeginFn, IOLegal, Run, Answers, NothingDropped;
    var w, begin, end := Run(lib, w0, ops).value, Begin(arg, limits), End(false, io);
    var w1 := Exec(lib, w, begin);
    BeginCouples(lib, w.session, arg, limits);
    CoupledIsReady(lib, Some(arg), w1.session);
    RunSnoc(lib, w0, ops, begin);
    EndEffect(lib, w1, end);
    RunSnoc(lib, w0, ops + [begin], end);
    var before := Answers(lib, w0, ops);
    assert before + [] == before;
    ops' := ops + [begin] + [end];
    assert Calls(ops') == Calls(ops) + [CallBegin(arg), CallEnd];
  }

  lemma StopsAtDecision(t: Tokenizer, data: Bytes)
    requires Live(t)
    ensures Feed(t, data[..Feed(t, data).accepted]) == Feed(t, data)
  {
    hide Feed;
    var n := Feed(t, data).accepted;
    if n == |data| {
      assert data[..n] == data;
    } else {
      FeedConcat(t, data[..n], data[n..]);
      assert data == data[..n] + data[n..];
    }
  }

  // Transfers up to the decision, or up to the end of the output if there is none.
  lemma LastTransfer(t: Tokenizer, unread: Bytes) returns (io: IO)
    requires Live(t)
    ensures io.ran && io.written == [] && io.outcome == Done && io.read <= unread
    ensures Feed(t, io.read) == Feed(t, unread) && Feed(t, io.read).accepted == |io.read|
    ensures Feed(t, io.read).verdict != Continue ==> io.last == 1
    ensures Feed(t, io.read).verdict == Continue ==> io.read == unread
  {
    StopsAtDecision(t, unread);
    io := IO(true, [], unread[..Feed(t, unread).accepted], 1, Done);
    assert unread[..|unread|] == unread;
  }

  lemma SparingIsLegal(t: Tokenizer, s: Session, unread: Bytes, io: IO)
    requires Live(t) && s.tokenizer == Some(t) && s.verdict == Continue && s.result == [] && s.outbuf == []
    requires io.ran && io.written == [] && io.outcome == Done && io.read <= unread
    requires Feed(t, io.read) == Feed(t, unread) && Feed(t, io.read).accepted == |io.read|
    requires Feed(t, io.read).verdict != Continue ==> io.last == 1
    requires Feed(t, io.read).verdict == Continue ==> io.read == unread
    ensures Ready(s) && IOLegal(s, unread, io) && Verdicted(CommFn(s, io)) == ScanResult(t, unread)
  {
    hide Feed;
    assert [] + io.read[..|io.read|] == unread[..|io.read|];
  }

  // A session that reads no more than it needs decides what a scan of the unread bytes does.
  lemma SparingSession(lib: Library, w0: World, ops: seq<Op>, arg: Bytes, limits: Limits)
    returns (ops': seq<Op>, w: World)
    requires Run(lib, w0, ops).Some? && ArgumentOk(lib, arg)
    requires Run(lib, w0, ops).value.session.tokenizer.None? && Run(lib, w0, ops).value.session.outbuf == []
    ensures GoesOn(lib, w0, ops, arg, ops', ScanResult(Fresh(lib, arg), Run(lib, w0, ops).value.unread), w)
  {
    var before := Run(lib, w0, ops).value;
    var s := BeginFn(lib, before.session, arg, limits);
    var io := LastTransfer(Fresh(lib, arg), before.unread);
    SparingIsLegal(Fresh(lib, arg), s, before.unread, io);
    hide Run, GoesOn, Fresh, Feed, BeginFn, CommFn, IOLegal;
    ops' := OneSession(lib, w0, ops, arg, limits, io);
    w := World(CommFn(s, io).(tokenizer := None), before.unread[|io.read|..]);
  }

  // The tokenizer decides exactly at the last byte of p.
  predicate DecidesAtEnd(t: Tokenizer, p: Bytes)
    requires Live(t)
  {
    Feed(t, p).verdict != Continue && Feed(t, p).accepted == |p|
  }

  lemma Pieces(p: Bytes, more: Bytes)
    ensures [] + (p + more)[..|p|] == p[..|p|]
    ensures [] + (p + more)[|p|..] == more
  {
  }

  // A session may read one byte more than its decision takes.
  lemma GreedyIsLegal(t: Tokenizer, s: Session, p: Bytes, more: Bytes, unread: Bytes, io: IO)
    requires Live(t) && s.tokenizer == Some(t) && s.verdict == Continue && s.result == [] && s.outbuf == []
    requires DecidesAtEnd(t, p) && |more| <= 1 && p + more <= unread
    requires io == IO(true, [], p + more, |more| + 1, Done)
    ensures IOLegal(s, unread, io) && Verdicted(CommFn(s, io)) == ScanResult(t, p)
    ensures CommFn(s, io).outbuf == if Feed(t, p).verdict == Accepted then more else []
  {
    FeedConcat(t, p, more);
    hide Feed;
    Pieces(p, more);
  }

  // A first session on the output p + p whose last chunk holds k bytes more than p.
  lemma GreedySession(lib: Library, arg: Bytes, p: Bytes, k: nat, limits: Limits) returns (ops: seq<Op>, w: World)
    requires ArgumentOk(lib, arg) && DecidesAtEnd(Fresh(lib, arg), p) && k <= 1
    ensures Run(lib, Start(limits, p + p), ops) == Some(w) && w.session.tokenizer.None? && w.unread == p[k..]
    ensures NothingDropped(lib, Start(limits, p + p), ops) && Timely(ops) && Calls(ops) == [CallBegin(arg), CallEnd]
    ensures Answers(lib, Start(limits, p + p), ops) == [ScanResult(Fresh(lib, arg), p)]
    ensures w.session.outbuf == if Feed(Fresh(lib, arg), p).verdict == Accepted then p[..k] else []
  {
    var w0, s := Start(limits, p + p), BeginFn(lib, Idle(limits), arg, limits);
    var io := IO(true, [], p + p[..k], k + 1, Done);
    assert p + p == p + p[..k] + p[k..];
    assert (p + p)[|io.read|..] == p[k..] && io.read <= p + p;
    GreedyIsLegal(Fresh(lib, arg), s, p, p[..k], p + p, io);
    hide Fresh, Feed, BeginFn, CommFn, IOLegal;
    ops := OneSession(lib, w0, [], arg, limits, io);
    w := World(CommFn(s, io).(tokenizer := None), (p + p)[|io.read|..]);
  }

  // ---- a failing library gives itself away -------------------------------------------

  function TwoSessions(arg: Bytes): seq<SessionCall> {
    [CallBegin(arg), CallEnd, CallBegin(arg), CallEnd]
  }

  // A shortest failing input fails at its end, and not if its first byte is missing.
  lemma {:induction false} ShortestFailure(t: Tokenizer, data: Bytes) returns (p: Bytes)
    requires Live(t) && Feed(t, data).verdict == Fail
    ensures DecidesAtEnd(t, p) && Feed(t, p).verdict == Fail && Feed(t, p[1..]).verdict != Fail
    decreases |data|
  {
    if q: Bytes :| |q| < |data| && Feed(t, q).verdict == Fail {
      p := ShortestFailure(t, q);
    } else {
      p := data;
      StopsAtDecision(t, data);
    }
  }

  // Two runs of the same four calls on the same output that the judge can tell apart: the
  // failing chunk ends with the failing byte, or it also contains the next byte, which is lost.
  lemma FailureShowsChunking(lib: Library, arg: Bytes, p: Bytes, limits: Limits)
    returns (ops1: seq<Op>, ops2: seq<Op>)
    requires ArgumentOk(lib, arg) && DecidesAtEnd(Fresh(lib, arg), p)
    requires Feed(Fresh(lib, arg), p).verdict == Fail && Feed(Fresh(lib, arg), p[1..]).verdict != Fail
    ensures SameCalls(lib, limits, p + p, ops1, ops2) && Calls(ops1) == TwoSessions(arg)
    ensures var first, second := ScanResult(Fresh(lib, arg), p), ScanResult(Fresh(lib, arg), p[1..]);
            && first.status == TOKENIZER_ERROR != second.status
            && Answers(lib, Start(limits, p + p), ops1) == [first, first]
            && Answers(lib, Start(limits, p + p), ops2) == [first, second]
  {
    hide Fresh, Feed, Run, Answers, Calls, NothingDropped, Timely;
    assert p[0..] == p;
    var w;
    ops1, w := GreedySession(lib, arg, p, 0, limits);
    ops1, w := SparingSession(lib, Start(limits, p + p), ops1, arg, limits);
    ops2, w := GreedySession(lib, arg, p, 1, limits);
    ops2, w := SparingSession(lib, Start(limits, p + p), ops2, arg, limits);
  }

  // The exact theorem: as long as no terminate drops bytes read ahead, chunking, read-ahead and
  // event order are invisible to the judge if and only if the tokenizer library never fails.
  lemma InvisibleIffNeverFails(lib: Library)
    ensures SchedulingIsInvisible(lib) <==> NeverFails(lib)
  {
    if NeverFails(lib) {
      forall limits: Limits, stream: Bytes, ops1: seq<Op>, ops2: seq<Op>
        | SameCalls(lib, limits, stream, ops1, ops2)
        ensures Answers(lib, Start(limits, stream), ops1) == Answers(lib, Start(limits, stream), ops2)
      {
        SameCallsSameAnswers(lib, limits, stream, ops1, ops2);
      }
    } else {
      var arg: Bytes, data: Bytes :| ArgumentOk(lib, arg) && Feed(Fresh(lib, arg), data).verdict == Fail;
      var p := ShortestFailure(Fresh(lib, arg), data);
      var ops1, ops2 := FailureShowsChunking(lib, arg, p, Limits(0, 0));
    }
  }

  lemma {:induction false} ShippedInstanceNeverFails(t: Tokenizer, data: Bytes)
    requires Live(t) && !t.Machine?
    ensures Feed(t, data).verdict != Fail
    decreases |data|
  {
    if data != [] && Step(t, data[0]).verdict == Continue {
      ShippedInstanceNeverFails(Step(t, data[0]).tok, data[1..]);
    }
  }

  lemma ShippedNeverFails(lib: Library)
    requires !lib.Other?
    ensures NeverFails(lib)
  {
    forall arg: Bytes, data: Bytes | ArgumentOk(lib, arg)
      ensures Feed(Fresh(lib, arg), data).verdict != Fail
    {
      ShippedInstanceNeverFails(Fresh(lib, arg), data);
    }
  }

  lemma ShippedLibrariesHideScheduling(lib: Library)
    requires !lib.Other?
    ensures SchedulingIsInvisible(lib)
  {
    ShippedNeverFails(lib);
    InvisibleIffNeverFails(lib);
  }

  // ---- terminate drops what was read ahead -------------------------------------------

  ghost predicate NeverDecides(lib: Library) {
    forall arg: Bytes, data: Bytes | ArgumentOk(lib, arg) :: Feed(Fresh(lib, arg), data).verdict == Continue
  }

  // As SameCalls, but a terminate may find bytes read ahead.
  ghost predicate SameTimelyCalls(lib: Library, limits: Limits, stream: Bytes, ops1: seq<Op>, ops2: seq<Op>) {
    && Run(lib, Start(limits, stream), ops1).Some? && Timely(ops1)
    && Run(lib, Start(limits, stream), ops2).Some? && Timely(ops2)
    && Calls(ops1) == Calls(ops2)
  }

  ghost predicate InvisibleAcrossTerminate(lib: Library) {
    forall limits: Limits, stream: Bytes, ops1: seq<Op>, ops2: seq<Op> ::
      SameTimelyCalls(lib, limits, stream, ops1, ops2) ==>
        Answers(lib, Start(limits, stream), ops1) == Answers(lib, Start(limits, stream), ops2)
  }

  // The answers to calls if no session ever decides.
  function Undecided(calls: seq<SessionCall>): seq<Result>
    decreases |calls|
  {
    if calls == [] then []
    else Undecided(Front(calls)) + (if Last(calls).CallEnd? then [Result(EOF_ERROR, [])] else [])
  }

  lemma {:induction false} NeverDecidingAnswers(lib: Library, limits: Limits, stream: Bytes, ops: seq<Op>)
    requires NeverDecides(lib) && Run(lib, Start(limits, stream), ops).Some? && Timely(ops)
    ensures Answers(lib, Start(limits, stream), ops) == Undecided(Calls(ops))
    decreases |ops|
  {
    if ops != [] {
      var w0 := Start(limits, stream);
      var w, op := Run(lib, w0, Front(ops)).value, Last(ops);
      assert op == ops[|ops| - 1];
      NeverDecidingAnswers(lib, limits, stream, Front(ops));
      assert Front(Calls(ops)) == Calls(Front(ops)) && Last(Calls(ops)) == CallOf(op);
      if op.End? {
        ReachableIsCoupled(lib, limits, stream, Front(ops));
        var arg := LastArg(Front(ops)).value;
        EndScansPending(lib, arg, w, op.io);
        EndEffect(lib, w, op);
        assert Feed(Fresh(lib, arg), Pending(w)).verdict == Continue;
      }
    }
  }

  // A shortest decided input is decided at its end, and undecided if its first byte is missing.
  lemma {:induction false} ShortestDecision(t: Tokenizer, data: Bytes) returns (p: Bytes)
    requires Live(t) && Feed(t, data).verdict != Continue
    ensures DecidesAtEnd(t, p) && Feed(t, p[1..]).verdict == Continue
    decreases |data|
  {
    if q: Bytes :| |q| < |data| && Feed(t, q).verdict != Continue {
      p := ShortestDecision(t, q);
    } else {
      p := data;
      StopsAtDecision(t, data);
    }
  }

  function SessionsAroundTerminate(arg: Bytes): seq<SessionCall> {
    [CallBegin(arg), CallEnd, CallTerminate, CallBegin(arg), CallEnd]
  }

  lemma TerminateStep(lib: Library, w0: World, ops: seq<Op>) returns (ops': seq<Op>)
    requires Run(lib, w0, ops).Some? && Timely(ops)
    ensures var w := Run(lib, w0, ops).value;
            Run(lib, w0, ops') == Some(w.(session := TerminateFn(w.session)))
    ensures Answers(lib, w0, ops') == Answers(lib, w0, ops)
    ensures Timely(ops') && Calls(ops') == Calls(ops) + [CallTerminate]
  {
    RunSnoc(lib, w0, ops, Terminate);
    ops' := ops + [Terminate];
    assert Answers(lib, w0, ops) + [] == Answers(lib, w0, ops);
  }

  // begin, end, terminate, begin, end on the output p + p, where the first session reads k
  // bytes past its decision.
  lemma AroundTerminate(lib: Library, arg: Bytes, p: Bytes, k: nat, limits: Limits) returns (ops: seq<Op>)
    requires ArgumentOk(lib, arg) && DecidesAtEnd(Fresh(lib, arg), p) && k <= 1
    ensures Run(lib, Start(limits, p + p), ops).Some? && Timely(ops) && Calls(ops) == SessionsAroundTerminate(arg)
    ensures Answers(lib, Start(limits, p + p), ops) ==
            [ScanResult(Fresh(lib, arg), p), ScanResult(Fresh(lib, arg), p[k..])]
  {
    hide Fresh, Feed, NothingDropped;
    hide Run, Answers, Calls, Timely, ScanResult, DecidesAtEnd;
    var w0 := Start(limits, p + p);
    var w;
    ops, w := GreedySession(lib, arg, p, k, limits);
    ops := TerminateStep(lib, w0, ops);
    ops, w := SparingSession(lib, w0, ops, arg, limits);
  }

  // With k = 0 the second session decides as the first did; with k = 1 a byte is missing and it
  // cannot decide.
  lemma TerminateShowsReadAhead(lib: Library, arg: Bytes, p: Bytes, limits: Limits)
    returns (ops1: seq<Op>, ops2: seq<Op>)
    requires ArgumentOk(lib, arg) && DecidesAtEnd(Fresh(lib, arg), p)
    requires Feed(Fresh(lib, arg), p[1..]).verdict == Continue
    ensures SameTimelyCalls(lib, limits, p + p, ops1, ops2) && Calls(ops1) == SessionsAroundTerminate(arg)
    ensures var first := ScanResult(Fresh(lib, arg), p);
            && first.status != EOF_ERROR
            && Answers(lib, Start(limits, p + p), ops1) == [first, first]
            && Answers(lib, Start(limits, p + p), ops2) == [first, Result(EOF_ERROR, [])]
  {
    hide Fresh, Feed;
    ops1 := AroundTerminate(lib, arg, p, 0, limits);
    ops2 := AroundTerminate(lib, arg, p, 1, limits);
    assert p[0..] == p;
  }

  // The instance with the shipped split_char: on the output "aa", two sessions around a
  // terminate return "a" twice, or "a" and then nothing.
  lemma TerminateShowsReadAheadOfSplitChar(limits: Limits) returns (ops1: seq<Op>, ops2: seq<Op>)
    ensures SameTimelyCalls(SplitCharLib, limits, "aa", ops1, ops2) && Calls(ops1) == SessionsAroundTerminate("a")
    ensures Answers(SplitCharLib, Start(limits, "aa"), ops1) == [Result(OK, "a"), Result(OK, "a")]
    ensures Answers(SplitCharLib, Start(limits, "aa"), ops2) == [Result(OK, "a"), Result(EOF_ERROR, [])]
  {
    var p := "a";
    assert p[1..] == [] && p[..1] == p && p + p == "aa";
    ops1, ops2 := TerminateShowsReadAhead(SplitCharLib, p, p, limits);
  }

  // The exact theorem over runs in which terminate may drop bytes read ahead: scheduling is
  // invisible if and only if the library neither fails nor accepts.
  lemma InvisibleAcrossTerminateIffNeverDecides(lib: Library)
    ensures InvisibleAcrossTerminate(lib) <==> NeverDecides(lib)
  {
    if NeverDecides(lib) {
      forall limits: Limits, stream: Bytes, ops1: seq<Op>, ops2: seq<Op>
        | SameTimelyCalls(lib, limits, stream, ops1, ops2)
        ensures Answers(lib, Start(limits, stream), ops1) == Answers(lib, Start(limits, stream), ops2)
      {
        NeverDecidingAnswers(lib, limits, stream, ops1);
        NeverDecidingAnswers(lib, limits, stream, ops2);
      }
    } else {
      var arg: Bytes, data: Bytes :| ArgumentOk(lib, arg) && Feed(Fresh(lib, arg), data).verdict != Continue;
      var p := ShortestDecision(Fresh(lib, arg), data);
      var ops1, ops2 := TerminateShowsReadAhead(lib, arg, p, Limits(0, 0));
    }
  }

  // ---- every permitted sequence of calls has a run -----------------------------------

  predicate Active(calls: seq<SessionCall>)
    decreases |calls|
  {
    calls != [] && (Last(calls).CallBegin? || (Last(calls).CallSend? && Active(Front(calls))))
  }

  // The calls the broker's assertions permit: begin only when idle and with an argument the
  // tokenizer takes, send and end only in between, terminate always.
  predicate Permitted(lib: Library, calls: seq<SessionCall>)
    decreases |calls|
  {
    calls == [] ||
    (Permitted(lib, Front(calls)) &&
     match Last(calls)
     case CallBegin(arg) => !Active(Front(calls)) && ArgumentOk(lib, arg)
     case CallSend(_) => Active(Front(calls))
     case CallEnd => Active(Front(calls))
     case CallTerminate => true)
  }

  // Every legal run makes permitted calls, and its session is open exactly while they are active.
  lemma {:induction false} LegalIsPermitted(lib: Library, w0: World, ops: seq<Op>)
    requires w0.session.tokenizer.None? && Run(lib, w0, ops).Some?
    ensures Permitted(lib, Calls(ops))
    ensures Run(lib, w0, ops).value.session.tokenizer.Some? <==> Active(Calls(ops))
    decreases |ops|
  {
    hide Feed;
    if ops != [] {
      LegalIsPermitted(lib, w0, Front(ops));
      assert Front(Calls(ops)) == Calls(Front(ops)) && Last(Calls(ops)) == CallOf(Last(ops));
      var w := Run(lib, w0, Front(ops)).value;
      match Last(ops)
      case Begin(_, _) =>
      case Send(_) =>
      case End(_, _) =>
      case Terminate =>
    }
  }

  // Nothing has been read ahead: an open session has everything before it.
  predicate NothingAhead(s: Session) {
    s.outbuf == [] && (s.tokenizer.Some? ==> s.verdict == Continue && s.result == [])
  }

  predicate StepPermitted(lib: Library, s: Session, call: SessionCall) {
    match call
    case CallBegin(arg) => s.tokenizer.None? && ArgumentOk(lib, arg)
    case CallSend(_) => s.tokenizer.Some?
    case CallEnd => s.tokenizer.Some?
    case CallTerminate => true
  }

  lemma PermittedStep(lib: Library, current: Option<Bytes>, w: World, limits: Limits, call: SessionCall)
    returns (op: Op)
    requires Coupled(lib, current, w.session) && NothingAhead(w.session) && StepPermitted(lib, w.session, call)
    ensures Legal(lib, w, op) && CallOf(op) == call && DropsNothing(w, op)
    ensures NothingAhead(Exec(lib, w, op).session)
    ensures Exec(lib, w, op).session.tokenizer.Some? <==> call.CallBegin? || call.CallSend?
  {
    match call
    case CallBegin(arg) => op := Begin(arg, limits);
    case CallSend(msg) => op := Send(msg);
    case CallTerminate => op := Terminate;
    case CallEnd =>
      var t := w.session.tokenizer.value;
      var io := LastTransfer(t, w.unread);
      SparingIsLegal(t, w.session, w.unread, io);
      op := End(false, io);
      EndEffect(lib, w, op);
      hide Feed;
  }

  lemma OneMoreCall(lib: Library, limits: Limits, stream: Bytes, ops: seq<Op>, call: SessionCall)
    returns (ops': seq<Op>)
    requires var w0 := Start(limits, stream);
             && Run(lib, w0, ops).Some? && NothingDropped(lib, w0, ops)
             && NothingAhead(Run(lib, w0, ops).value.session)
             && StepPermitted(lib, Run(lib, w0, ops).value.session, call)
    ensures var w0 := Start(limits, stream);
            && Run(lib, w0, ops').Some? && NothingDropped(lib, w0, ops') && Calls(ops') == Calls(ops) + [call]
            && NothingAhead(Run(lib, w0, ops').value.session)
            && (Run(lib, w0, ops').value.session.tokenizer.Some? <==> call.CallBegin? || call.CallSend?)
  {
    hide Run, Answers, Exec, Legal, AnswerOf, Coupled, StepPermitted, NothingAhead, NothingDropped, DropsNothing;
    ReachableIsCoupled(lib, limits, stream, ops);
    var op := PermittedStep(lib, LastArg(ops), Run(lib, Start(limits, stream), ops).value, limits, call);
    RunSnoc(lib, Start(limits, stream), ops, op);
    ops' := ops + [op];
  }

  // Whatever the solution writes, every permitted sequence of calls, terminate included, has a
  // run in which nothing is dropped, so the theorems about such runs speak of all of them.
  lemma {:induction false} PermittedCallsHaveARun(lib: Library, limits: Limits, stream: Bytes, calls: seq<SessionCall>)
    returns (ops: seq<Op>)
    requires Permitted(lib, calls)
    ensures var w0 := Start(limits, stream);
            && Run(lib, w0, ops).Some? && NothingDropped(lib, w0, ops) && Calls(ops) == calls
            && NothingAhead(Run(lib, w0, ops).value.session)
            && (Run(lib, w0, ops).value.session.tokenizer.Some? <==> Active(calls))
    decreases |calls|
  {
    ops := [];
    if calls != [] {
      hide Run, NothingDropped, NothingAhead, Calls;
      ops := PermittedCallsHaveARun(lib, limits, stream, Front(calls));
      ops := OneMoreCall(lib, limits, stream, ops, Last(calls));
      assert calls == Front(calls) + [Last(calls)];
    }
  }
}
