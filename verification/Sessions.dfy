// The state the broker keeps for one solution and what each broker operation does to it,
// as functions of the operation and of what the pipes and the clock let happen.
module Sessions {
  import opened Basics
  import opened Tokenizers

  // Largest transfer of one read or write (BUFSIZ of <cstdio> in glibc).
  const BUFSIZ: nat := 8192

  // In milliseconds. The broker carries the user time limit but never enforces it.
  datatype Limits = Limits(userTimeLimit: int, realTimeLimit: int)

  datatype Status = OK | TOKENIZER_ERROR | EOF_ERROR | TIME_LIMIT_EXCEEDED | REAL_TIME_LIMIT_EXCEEDED

  datatype Result = Result(status: Status, data: Bytes)

  // BrokerImpl::Solution without its process.
  datatype Session = Session(
    tokenizer: Option<Tokenizer>,
    verdict: Verdict,
    result: Bytes,
    inbuf: Bytes,
    outbuf: Bytes,
    limits: Limits)

  // A session and every byte that the solution will still write and the broker has not read.
  datatype World = World(session: Session, unread: Bytes)

  // How communicate ended: OK, real time limit exceeded, or a thrown SystemError.
  datatype Outcome = Done | TimedOut | Broken

  // What the environment did during one end(): whether communicate ran at all, the bytes
  // that went through the two pipes, and the size of the last chunk read.
  datatype IO = IO(ran: bool, written: Bytes, read: Bytes, last: nat, outcome: Outcome)

  const NO_IO := IO(false, [], [], 0, Done)

  datatype Answer = Returned(result: Result) | Thrown

  function Idle(limits: Limits): Session {
    Session(None, Continue, [], [], [], limits)
  }

  // ---- begin, send, terminate ------------------------------------------------------

  function BeginFn(lib: Library, s: Session, arg: Bytes, limits: Limits): Session
    requires ArgumentOk(lib, arg)
  {
    var t := Fresh(lib, arg);
    if s.outbuf == [] then
      s.(tokenizer := Some(t), verdict := Continue, result := [], limits := limits)
    else
      var r := Feed(t, s.outbuf);
      var s' := s.(tokenizer := Some(r.tok), verdict := r.verdict, limits := limits);
      match r.verdict
      case Fail => s'.(result := [])
      case Accepted => s'.(result := s.outbuf[..r.accepted], outbuf := s.outbuf[r.accepted..])
      case Continue => s'.(result := s.outbuf, outbuf := [])
  }

  function SendFn(s: Session, msg: Bytes): Session {
    s.(inbuf := s.inbuf + msg)
  }

  function TerminateFn(s: Session): Session {
    s.(tokenizer := None, inbuf := [], outbuf := [])
  }

  // ---- communicate -----------------------------------------------------------------

  // The session can go on parsing: begin was called and the tokenizer is usable.
  predicate Ready(s: Session) {
    s.tokenizer.Some? && (s.verdict == Continue ==> Live(s.tokenizer.value))
  }

  // Transfers that communicate can have made so far, with the tokenizer deciding,
  // if it did, within the last chunk.
  predicate Transfers(s: Session, unread: Bytes, io: IO)
    requires Ready(s) && s.verdict == Continue
  {
    var r := Feed(s.tokenizer.value, io.read);
    && io.ran
    && io.written <= s.inbuf
    && io.read <= unread
    && (r.verdict != Continue ==>
          0 < io.last <= BUFSIZ && io.last <= |io.read| && |io.read| - io.last < r.accepted)
  }

  // Everything communicate can have done by the time it returns or throws.
  predicate IOLegal(s: Session, unread: Bytes, io: IO)
    requires Ready(s)
  {
    if s.verdict != Continue then io == NO_IO
    else
      && Transfers(s, unread, io)
      && var v := Feed(s.tokenizer.value, io.read).verdict;
         && (v != Continue ==> io.outcome == Done)
         && (v == Continue && io.outcome == Done ==> io.read == unread)
  }

  // A failing tokenizer loses the whole chunk it failed in.
  function CommFn(s: Session, io: IO): Session
    requires Ready(s)
    requires s.verdict == Continue ==>
               |io.written| <= |s.inbuf| &&
               (Feed(s.tokenizer.value, io.read).verdict == Fail ==> io.last <= |io.read|)
  {
    if s.verdict != Continue then s
    else
      var r := Feed(s.tokenizer.value, io.read);
      var s' := s.(tokenizer := Some(r.tok), verdict := r.verdict, inbuf := s.inbuf[|io.written|..]);
      match r.verdict
      case Fail => s'.(result := s.result + io.read[..|io.read| - io.last])
      case Continue => s'.(result := s.result + io.read)
      case Accepted =>
        s'.(result := s.result + io.read[..r.accepted], outbuf := s.outbuf + io.read[r.accepted..])
  }

  // ---- end -------------------------------------------------------------------------

  function Verdicted(s: Session): Result
    requires s.tokenizer.Some?
  {
    match s.verdict
    case Fail => Result(TOKENIZER_ERROR, What(s.tokenizer.value))
    case Continue => Result(EOF_ERROR, [])
    case Accepted => Result(OK, s.result)
  }

  // What end() does after communicate, or at once if the session was already decided.
  function ConcludeFn(s: Session, discard: bool, outcome: Outcome): (Session, Answer)
    requires s.tokenizer.Some?
  {
    if outcome == Broken then (s.(tokenizer := None), Thrown)
    else
      var s' := if discard then s.(inbuf := []) else s;
      if outcome == TimedOut then
        (TerminateFn(s'), Returned(Result(REAL_TIME_LIMIT_EXCEEDED, [])))
      else
        (s'.(tokenizer := None), Returned(Verdicted(s')))
  }

  function EndFn(s: Session, discard: bool, io: IO): (Session, Answer)
    requires Ready(s) && io.written <= s.inbuf
    requires s.verdict == Continue && Feed(s.tokenizer.value, io.read).verdict == Fail ==> io.last <= |io.read|
  {
    ConcludeFn(CommFn(s, io), discard, io.outcome)
  }

  // ---- one step of a run -----------------------------------------------------------

  datatype Op =
    | Begin(arg: Bytes, limits: Limits)
    | Send(msg: Bytes)
    | End(discard: bool, io: IO)
    | Terminate

  // What the broker's assertions demand of the caller, and what the environment can do.
  predicate Legal(lib: Library, w: World, op: Op) {
    match op
    case Begin(arg, _) => w.session.tokenizer.None? && ArgumentOk(lib, arg)
    case Send(_) => w.session.tokenizer.Some?
    case End(_, io) => Ready(w.session) && IOLegal(w.session, w.unread, io)
    case Terminate => true
  }

  function Exec(lib: Library, w: World, op: Op): World
    requires Legal(lib, w, op)
  {
    match op
    case Begin(arg, limits) => w.(session := BeginFn(lib, w.session, arg, limits))
    case Send(msg) => w.(session := SendFn(w.session, msg))
    case End(discard, io) =>
      World(EndFn(w.session, discard, io).0, w.unread[|io.read|..])
    case Terminate => w.(session := TerminateFn(w.session))
  }

  // What the caller of end() gets, if it gets anything.
  function AnswerOf(lib: Library, w: World, op: Op): seq<Result>
    requires Legal(lib, w, op)
  {
    match op
    case End(discard, io) =>
      (match EndFn(w.session, discard, io).1
       case Returned(r) => [r]
       case Thrown => [])
    case Begin(_, _) => []
    case Send(_) => []
    case Terminate => []
  }
}
