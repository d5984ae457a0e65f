// Whole runs of the broker for one solution: what every reachable state keeps, and what
// the judge can observe of the way the kernel cuts the byte streams into chunks.
module Runs {
  import opened Basics
  import opened Tokenizers
  import opened Sessions

  function Last<T>(s: seq<T>): T
    requires s != []
  {
    s[|s| - 1]
  }

  function Front<T>(s: seq<T>): seq<T>
    requires s != []
  {
    s[..|s| - 1]
  }

  // The world after ops, if every step was legal.
  function Run(lib: Library, w0: World, ops: seq<Op>): Option<World>
    decreases |ops|
  {
    if ops == [] then Some(w0)
    else
      match Run(lib, w0, Front(ops))
      case None => None
      case Some(w) => if Legal(lib, w, Last(ops)) then Some(Exec(lib, w, Last(ops))) else None
  }

  // Everything end() returned along the run, in order.
  function Answers(lib: Library, w0: World, ops: seq<Op>): seq<Result>
    requires Run(lib, w0, ops).Some?
    decreases |ops|
  {
    if ops == [] then []
    else
      Answers(lib, w0, Front(ops)) + AnswerOf(lib, Run(lib, w0, Front(ops)).value, Last(ops))
  }

  function Start(limits: Limits, stream: Bytes): World {
    World(Idle(limits), stream)
  }

  // ---- the coupling of buffers and tokenizer ----------------------------------------

  function LastArg(ops: seq<Op>): Option<Bytes>
    decreases |ops|
  {
    if ops == [] then None
    else if Last(ops).Begin? then Some(Last(ops).arg)
    else LastArg(Front(ops))
  }

  // An undecided session has nothing buffered and its tokenizer is where a fresh one gets
  // by consuming result; an accepted session holds exactly one complete token.
  ghost predicate Coupled(lib: Library, arg: Option<Bytes>, s: Session) {
    s.tokenizer.Some? ==>
      && arg.Some? && ArgumentOk(lib, arg.value)
      && var t := Fresh(lib, arg.value);
         match s.verdict
         case Continue => s.outbuf == [] && Feed(t, s.result) == Reply(Continue, |s.result|, s.tokenizer.value)
         case Accepted => Accepts(t, s.result)
         case Fail =>
           s.result == [] && Feed(t, s.outbuf).verdict == Fail && Feed(t, s.outbuf).tok == s.tokenizer.value
  }

  lemma BeginCouples(lib: Library, s: Session, arg: Bytes, limits: Limits)
    requires ArgumentOk(lib, arg)
    ensures BeginFn(lib, s, arg, limits).tokenizer.Some?
    ensures Coupled(lib, Some(arg), BeginFn(lib, s, arg, limits))
  {
    if s.outbuf != [] {
      var t := Fresh(lib, arg);
      var r := Feed(t, s.outbuf);
      FeedFindsTheToken(t, s.outbuf, r.accepted);
    }
  }

  // Every loop step of communicate keeps the coupling, as long as the tokenizer has not failed.
  lemma CommunicateKeepsCoupling(lib: Library, arg: Bytes, s: Session, unread: Bytes, io: IO)
    requires Coupled(lib, Some(arg), s) && Ready(s) && s.verdict == Continue
    requires Transfers(s, unread, io)
    ensures var s' := CommFn(s, io);
            s'.verdict != Fail ==> Coupled(lib, Some(arg), s')
  {
    var t := Fresh(lib, arg);
    FeedConcat(t, s.result, io.read);
    var all := s.result + io.read;
    var s' := CommFn(s, io);
    if s'.verdict == Accepted {
      var n := Feed(t, all).accepted;
      FeedFindsTheToken(t, all, n);
      assert all[..n] == s'.result;
    }
  }

  lemma CoupledIsReady(lib: Library, arg: Option<Bytes>, s: Session)
    requires Coupled(lib, arg, s) && s.tokenizer.Some?
    ensures Ready(s)
  {
  }

  // The coupling holds in every reachable state, whatever the environment does.
  lemma {:induction false} ReachableIsCoupled(lib: Library, limits: Limits, stream: Bytes, ops: seq<Op>)
    requires Run(lib, Start(limits, stream), ops).Some?
    ensures Coupled(lib, LastArg(ops), Run(lib, Start(limits, stream), ops).value.session)
    decreases |ops|
  {
    if ops != [] {
      var w := Run(lib, Start(limits, stream), Front(ops)).value;
      ReachableIsCoupled(lib, limits, stream, Front(ops));
      match Last(ops)
      case Begin(arg, l) => BeginCouples(lib, w.session, arg, l);
      case Send(_) =>
      case End(_, _) =>
      case Terminate =>
    }
  }

  // ---- the judge's view: a reader of one byte stream --------------------------------

  // A call as the judge makes it, without anything the environment contributes.
  datatype SessionCall = CallBegin(arg: Bytes) | CallSend(msg: Bytes) | CallEnd | CallTerminate

  function CallOf(op: Op): SessionCall {
    match op
    case Begin(arg, _) => CallBegin(arg)
    case Send(msg) => CallSend(msg)
    case End(_, _) => CallEnd
    case Terminate => CallTerminate
  }

  function Calls(ops: seq<Op>): seq<SessionCall>
    decreases |ops|
  {
    if ops == [] then [] else Calls(Front(ops)) + [CallOf(Last(ops))]
  }

  // The reference: cut one token after another off a byte stream. It knows no buffers, no
  // chunks and no clock. terminate closes its session; it jams when the tokenizer fails.
  datatype Reader = Reader(current: Option<Bytes>, rest: Bytes, results: seq<Result>, jammed: bool)

  function ReadStep(lib: Library, rd: Reader, call: SessionCall): (rd': Reader)
    ensures rd.results <= rd'.results
  {
    if rd.jammed then rd
    else
      match call
      case CallBegin(arg) => rd.(current := Some(arg))
      case CallSend(_) => rd
      case CallTerminate => rd.(current := None)
      case CallEnd =>
        if rd.current.None? || !ArgumentOk(lib, rd.current.value) then rd
        else
          var r := Feed(Fresh(lib, rd.current.value), rd.rest);
          match r.verdict
          case Accepted =>
            Reader(None, rd.rest[r.accepted..], rd.results + [Result(OK, rd.rest[..r.accepted])], false)
          case Continue => Reader(None, [], rd.results + [Result(EOF_ERROR, [])], false)
          case Fail => rd.(results := rd.results + [Result(TOKENIZER_ERROR, What(r.tok))], jammed := true)
  }

  function ReadStream(lib: Library, stream: Bytes, calls: seq<SessionCall>): Reader
    decreases |calls|
  {
    if calls == [] then Reader(None, stream, [], false)
    else ReadStep(lib, ReadStream(lib, stream, Front(calls)), Last(calls))
  }

  // The bytes the judge has not been given yet.
  function Pending(w: World): Bytes {
    (if w.session.tokenizer.Some? then w.session.result else []) + w.session.outbuf + w.unread
  }

  predicate DropsNothing(w: World, op: Op) {
    && (op.End? ==> op.io.outcome == Done)
    && (op.Terminate? ==> Pending(w) == w.unread)
  }

  // No session timed out, no system error was thrown, and every terminate found nothing read
  // ahead that it could drop.
  predicate NothingDropped(lib: Library, w0: World, ops: seq<Op>)
    decreases |ops|
  {
    ops == [] ||
    (NothingDropped(lib, w0, Front(ops)) && Run(lib, w0, Front(ops)).Some? &&
     DropsNothing(Run(lib, w0, Front(ops)).value, Last(ops)))
  }

  ghost predicate Simulates(w: World, arg: Option<Bytes>, answers: seq<Result>, rd: Reader) {
    if rd.jammed then rd.results <= answers
    else
      && rd.results == answers
      && rd.rest == Pending(w)
      && rd.current == if w.session.tokenizer.Some? then arg else None
  }

  // The session s, with later still unread, has decided what the scan r of pending decides.
  ghost predicate DecidedAs(r: Reply, pending: Bytes, s: Session, later: Bytes) {
    && s.verdict == r.verdict && s.tokenizer.Some? && r.accepted <= |pending|
    && match r.verdict
       case Accepted => s.result == pending[..r.accepted] && s.outbuf + later == pending[r.accepted..]
       case Continue => s.outbuf == [] && later == []
       case Fail => s.tokenizer.value == r.tok
  }

  lemma Cut(before: Bytes, read: Bytes, later: Bytes, n: nat)
    requires n <= |read|
    ensures (before + (read + later))[..|before| + n] == before + read[..n]
    ensures (before + (read + later))[|before| + n..] == [] + read[n..] + later
  {
  }

  lemma CommunicateScans(t: Tokenizer, s: Session, unread: Bytes, io: IO)
    requires Live(t) && Ready(s) && s.verdict == Continue && s.outbuf == []
    requires Feed(t, s.result) == Reply(Continue, |s.result|, s.tokenizer.value)
    requires IOLegal(s, unread, io) && io.outcome == Done
    ensures DecidedAs(Feed(t, s.result + unread), s.result + unread, CommFn(s, io), unread[|io.read|..])
  {
    hide Feed;
    var later := unread[|io.read|..];
    assert unread == io.read + later;
    FeedConcat(t, s.result, unread);
    FeedConcat(s.tokenizer.value, io.read, later);
    var n := Feed(s.tokenizer.value, io.read).accepted;
    Cut(s.result, io.read, later, n);
  }

  // Whatever was read ahead, in begin or in communicate, and however it was cut, the session
  // ends as one scan of the bytes not yet returned would.
  lemma EndScansPending(lib: Library, arg: Bytes, w: World, io: IO)
    requires Coupled(lib, Some(arg), w.session) && Ready(w.session)
    requires IOLegal(w.session, w.unread, io) && io.outcome == Done
    ensures DecidedAs(Feed(Fresh(lib, arg), Pending(w)), Pending(w), CommFn(w.session, io), w.unread[|io.read|..])
  {
    hide Feed, Fresh;
    var t := Fresh(lib, arg);
    var s := w.session;
    match s.verdict
    case Accepted =>
      assert Pending(w) == s.result + (s.outbuf + w.unread);
      FeedConcat(t, s.result, s.outbuf + w.unread);
    case Fail =>
      assert Pending(w) == s.outbuf + w.unread;
      FeedConcat(t, s.outbuf, w.unread);
    case Continue =>
      assert Pending(w) == s.result + w.unread;
      CommunicateScans(t, s, w.unread, io);
  }

  lemma BeginKeepsPending(lib: Library, w: World, arg: Bytes, limits: Limits)
    requires w.session.tokenizer.None? && ArgumentOk(lib, arg)
    ensures Pending(w.(session := BeginFn(lib, w.session, arg, limits))) == Pending(w)
  {
    var s := w.session;
    if s.outbuf != [] {
      var n := Feed(Fresh(lib, arg), s.outbuf).accepted;
      assert s.outbuf == s.outbuf[..n] + s.outbuf[n..];
    }
  }

  // What a completed end leaves and returns, in terms of what communicate left.
  lemma EndEffect(lib: Library, w: World, op: Op)
    requires Legal(lib, w, op) && op.End? && op.io.outcome == Done
    ensures var s' := CommFn(w.session, op.io);
            var w' := Exec(lib, w, op);
            && s'.tokenizer.Some? && w'.session.tokenizer.None?
            && w'.session.outbuf == s'.outbuf && w'.unread == w.unread[|op.io.read|..]
            && AnswerOf(lib, w, op) == [Verdicted(s')]
  {
    hide Feed;
  }

  // The reader's end, in terms of a session that has decided as it does.
  lemma ReaderEnds(lib: Library, arg: Bytes, rd: Reader, s: Session, later: Bytes)
    requires ArgumentOk(lib, arg) && !rd.jammed && rd.current == Some(arg)
    requires DecidedAs(Feed(Fresh(lib, arg), rd.rest), rd.rest, s, later)
    ensures var rd' := ReadStep(lib, rd, CallEnd);
            && rd'.results == rd.results + [Verdicted(s)]
            && (rd'.jammed <==> s.verdict == Fail)
            && (!rd'.jammed ==> rd'.current == None && rd'.rest == s.outbuf + later)
  {
    hide Feed, Fresh;
  }

  lemma EndSimulates(lib: Library, w: World, arg: Option<Bytes>, answers: seq<Result>, rd: Reader, op: Op)
    requires Legal(lib, w, op) && Coupled(lib, arg, w.session) && Simulates(w, arg, answers, rd)
    requires op.End? && op.io.outcome == Done && !rd.jammed
    ensures Simulates(Exec(lib, w, op), arg, answers + AnswerOf(lib, w, op), ReadStep(lib, rd, CallEnd))
  {
    assert Ready(w.session) && IOLegal(w.session, w.unread, op.io) && arg.Some? && ArgumentOk(lib, arg.value);
    EndScansPending(lib, arg.value, w, op.io);
    EndEffect(lib, w, op);
    hide Feed, CommFn, Exec, AnswerOf, Legal, IOLegal, Coupled, Fresh, ArgumentOk, DecidedAs, ReadStep;
    ReaderEnds(lib, arg.value, rd, CommFn(w.session, op.io), w.unread[|op.io.read|..]);
    var w' := Exec(lib, w, op);
    assert Pending(w') == w'.session.outbuf + w'.unread;
  }

  lemma StepSimulates(lib: Library, w: World, arg: Option<Bytes>, answers: seq<Result>, rd: Reader, op: Op)
    requires Legal(lib, w, op) && Coupled(lib, arg, w.session) && Simulates(w, arg, answers, rd)
    requires DropsNothing(w, op)
    ensures Simulates(Exec(lib, w, op), if op.Begin? then Some(op.arg) else arg,
                      answers + AnswerOf(lib, w, op), ReadStep(lib, rd, CallOf(op)))
  {
    if rd.jammed {
      assert rd.results <= answers <= answers + AnswerOf(lib, w, op);
    } else {
      match op
      case Begin(a, l) => BeginKeepsPending(lib, w, a, l);
      case Send(_) => assert answers + [] == answers;
      case End(_, _) => EndSimulates(lib, w, arg, answers, rd, op);
      case Terminate => assert answers + [] == answers;
    }
  }

  // Whole-run token refinement: the judge gets exactly what the stream reader gets, up to
  // the first tokenizer error, and all of it if there is none.
  lemma {:induction false} RunRefinesReader(lib: Library, limits: Limits, stream: Bytes, ops: seq<Op>)
    requires Run(lib, Start(limits, stream), ops).Some? && NothingDropped(lib, Start(limits, stream), ops)
    ensures Simulates(Run(lib, Start(limits, stream), ops).value, LastArg(ops),
                      Answers(lib, Start(limits, stream), ops), ReadStream(lib, stream, Calls(ops)))
    decreases |ops|
  {
    var w0 := Start(limits, stream);
    if ops == [] {
      assert Pending(w0) == stream;
    } else {
      RunRefinesReader(lib, limits, stream, Front(ops));
      ReachableIsCoupled(lib, limits, stream, Front(ops));
      assert Front(Calls(ops)) == Calls(Front(ops));
      StepSimulates(lib, Run(lib, w0, Front(ops)).value, LastArg(Front(ops)),
                    Answers(lib, w0, Front(ops)), ReadStream(lib, stream, Calls(Front(ops))), Last(ops));
    }
  }
}
