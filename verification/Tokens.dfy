// What end() returns, in terms of the argument of begin and the bytes not yet returned, without
// any tokenizer: separators that end tokens, and for other libraries the folded automaton.
module Tokens {
  import opened Basics
  import opened Tokenizers
  import opened SplitTokenizer
  import opened SplitCharTokenizer
  import opened Sessions
  import opened Runs
  import opened Streams
  import opened Visibility
  import opened Fleet

  // ---- other automata ----------------------------------------------------------------

  // The state of an automaton after data, byte by byte.
  function StateAfter(step: (nat, char) -> Move, state: nat, data: Bytes): nat
    decreases |data|
  {
    if data == [] then state else step(StateAfter(step, state, Front(data)), Last(data)).state
  }

  // What the automaton says of the last byte of data.
  function SaysAt(step: (nat, char) -> Move, state: nat, data: Bytes): Verdict
    requires data != []
  {
    step(StateAfter(step, state, Front(data)), Last(data)).verdict
  }

  predicate UndecidedUpTo(step: (nat, char) -> Move, state: nat, data: Bytes, n: nat) {
    n <= |data| && forall k | 0 < k <= n :: SaysAt(step, state, data[..k]) == Continue
  }

  // The automaton decides, for the first time, at the n-th byte of data.
  predicate DecidesAfter(step: (nat, char) -> Move, state: nat, data: Bytes, n: nat, verdict: Verdict) {
    && 0 < n <= |data| && verdict != Continue
    && SaysAt(step, state, data[..n]) == verdict && UndecidedUpTo(step, state, data, n - 1)
  }

  lemma PrefixIsUndecided(step: (nat, char) -> Move, state: nat, before: Bytes, data: Bytes, n: nat)
    requires before <= data && n <= |before|
    ensures UndecidedUpTo(step, state, before, n) <==> UndecidedUpTo(step, state, data, n)
  {
    assert forall k | 0 < k <= n :: before[..k] == data[..k];
  }

  lemma {:induction false} ScanFolds(step: (nat, char) -> Move, what: nat -> Bytes, state: nat, data: Bytes)
    ensures var r := Feed(Machine(step, what, state), data);
            && r.tok == Machine(step, what, StateAfter(step, state, data[..r.accepted]))
            && if r.verdict == Continue then UndecidedUpTo(step, state, data, |data|)
               else DecidesAfter(step, state, data, r.accepted, r.verdict)
    decreases |data|
  {
    var t := Machine(step, what, state);
    if data != [] {
      var before, last := Front(data), Last(data);
      assert data == before + [last];
      ScanFolds(step, what, state, before);
      FeedConcat(t, before, [last]);
      var r := Feed(t, before);
      if r.verdict == Continue {
        assert data[..|data|] == data && before[..|before|] == before;
        assert Feed(r.tok, [last]) == Step(r.tok, last) by {
          assert [last][1..] == [];
        }
        PrefixIsUndecided(step, state, before, data, |before|);
      } else {
        assert before[..r.accepted] == data[..r.accepted];
        PrefixIsUndecided(step, state, before, data, r.accepted - 1);
      }
    }
  }

  // ---- answers -----------------------------------------------------------------------

  // arg[..n] is the C string that starts at arg.
  predicate CStringEndsAt(arg: Bytes, n: nat) {
    n <= |arg| && '\0' !in arg[..n] && (n == |arg| || arg[n] == '\0')
  }

  // The arguments that tokenizer_new and the first tokenizer_parse take.
  lemma ArgumentOkIffUsable(lib: Library, arg: Bytes)
    ensures ArgumentOk(lib, arg) <==>
            match lib
            case SplitLib => exists n: nat :: CStringEndsAt(arg, n) && n > 0
            case SplitCharLib => |arg| == 1
            case Other(_, _, _) => true
  {
    if lib == SplitLib {
      var n: nat := |CString(arg)|;
      assert arg[..n] == CString(arg) && CStringEndsAt(arg, n);
      assert forall m: nat :: CStringEndsAt(arg, m) && m > 0 ==> arg[..m][0] == arg[0];
    }
  }

  // token begins pending and ends with sep, and is the shortest that does if the search for sep
  // is exact.
  ghost predicate EndedBy(sep: Bytes, pending: Bytes, token: Bytes) {
    && token <= pending && EndsWith(token, sep)
    && (OverlapSafe(sep) ==> FirstOccurrenceEndsAt(sep, pending, |token|))
  }

  // A token of pending under the argument arg.
  ghost predicate IsToken(lib: Library, arg: Bytes, pending: Bytes, token: Bytes) {
    match lib
    case SplitLib => exists n: nat :: CStringEndsAt(arg, n) && n > 0 && EndedBy(arg[..n], pending, token)
    case SplitCharLib =>
      |arg| == 1 && token <= pending && EndsWith(token, arg) && arg[0] !in token[..|token| - 1]
    case Other(start, step, _) =>
      token <= pending && DecidesAfter(step, start(arg), pending, |token|, Accepted)
  }

  // pending holds no token and no error.
  ghost predicate NoToken(lib: Library, arg: Bytes, pending: Bytes) {
    match lib
    case SplitLib =>
      exists n: nat :: CStringEndsAt(arg, n) && n > 0 && (OverlapSafe(arg[..n]) ==> NoOccurrence(arg[..n], pending))
    case SplitCharLib => |arg| == 1 && arg[0] !in pending
    case Other(start, step, _) => UndecidedUpTo(step, start(arg), pending, |pending|)
  }

  // The error of a third-party automaton, with its explanation.
  predicate IsError(lib: Library, arg: Bytes, pending: Bytes, data: Bytes) {
    lib.Other? &&
    exists n | 0 <= n <= |pending| ::
      && DecidesAfter(lib.step, lib.start(arg), pending, n, Fail)
      && data == lib.what(StateAfter(lib.step, lib.start(arg), pending[..n]))
  }

  // What end() may return when pending has not been returned yet.
  ghost predicate IsAnswer(lib: Library, arg: Bytes, pending: Bytes, answer: Result) {
    match answer.status
    case OK => IsToken(lib, arg, pending, answer.data)
    case TOKENIZER_ERROR => IsError(lib, arg, pending, answer.data)
    case EOF_ERROR => answer.data == [] && NoToken(lib, arg, pending)
    case TIME_LIMIT_EXCEEDED => false
    case REAL_TIME_LIMIT_EXCEEDED => answer.data == []
  }

  lemma SearchDecides(sep: Bytes, pending: Bytes)
    requires sep != []
    ensures var r := Search(sep, pending);
            match r.verdict
            case Accepted => EndedBy(sep, pending, pending[..r.accepted])
            case Fail => false
            case Continue => OverlapSafe(sep) ==> NoOccurrence(sep, pending)
  {
    hide Feed, EndsWith, OccurrenceEndsAt, OverlapSafe;
    ShippedInstanceNeverFails(Split(sep, 0), pending);
    if Search(sep, pending).verdict == Accepted {
      AcceptsOnlySeparators(sep, pending);
    }
    if OverlapSafe(sep) {
      NothingSeenYet(sep);
      ScanIsExact(sep, 0, [], pending, pending);
    }
  }

  lemma SplitDecides(arg: Bytes, pending: Bytes)
    requires ArgumentOk(SplitLib, arg)
    ensures var r := Feed(Fresh(SplitLib, arg), pending);
            match r.verdict
            case Accepted => IsToken(SplitLib, arg, pending, pending[..r.accepted])
            case Fail => false
            case Continue => NoToken(SplitLib, arg, pending)
  {
    hide Feed, EndedBy, NoOccurrence, OverlapSafe;
    var sep := CString(arg);
    var n: nat := |sep|;
    assert arg[..n] == sep && CStringEndsAt(arg, n) && n > 0;
    SearchDecides(sep, pending);
  }

  lemma SplitCharDecides(arg: Bytes, pending: Bytes)
    requires ArgumentOk(SplitCharLib, arg)
    ensures var r := Feed(Fresh(SplitCharLib, arg), pending);
            match r.verdict
            case Accepted => IsToken(SplitCharLib, arg, pending, pending[..r.accepted])
            case Fail => false
            case Continue => NoToken(SplitCharLib, arg, pending)
  {
    hide Feed, StateAfter, SaysAt, DecidesAfter, UndecidedUpTo;
    SearchIsScan(arg[0], pending);
    var pos := Memchr(pending, arg[0]);
    if pos.Some? {
      var token := pending[..pos.value + 1];
      assert token[..|token| - 1] == pending[..pos.value];
      assert token[|token| - 1] == pending[pos.value] == arg[0];
      assert token[|token| - 1..] == [arg[0]] == arg;
    }
  }

  lemma OtherDecides(lib: Library, arg: Bytes, pending: Bytes)
    requires lib.Other?
    ensures var r := Feed(Fresh(lib, arg), pending);
            match r.verdict
            case Accepted => IsToken(lib, arg, pending, pending[..r.accepted])
            case Fail => IsError(lib, arg, pending, What(r.tok))
            case Continue => NoToken(lib, arg, pending)
  {
    ScanFolds(lib.step, lib.what, lib.start(arg), pending);
  }

  lemma ScanAnswers(lib: Library, arg: Bytes, pending: Bytes)
    requires ArgumentOk(lib, arg)
    ensures var r := Feed(Fresh(lib, arg), pending);
            match r.verdict
            case Accepted => IsToken(lib, arg, pending, pending[..r.accepted])
            case Fail => IsError(lib, arg, pending, What(r.tok))
            case Continue => NoToken(lib, arg, pending)
  {
    hide IsToken, NoToken;
    match lib
    case SplitLib => SplitDecides(arg, pending);
    case SplitCharLib => SplitCharDecides(arg, pending);
    case Other(start, step, what) => OtherDecides(lib, arg, pending);
  }

  lemma TimeoutIsAnswer(lib: Library, arg: Bytes, pending: Bytes)
    ensures IsAnswer(lib, arg, pending, Result(REAL_TIME_LIMIT_EXCEEDED, []))
  {
  }

  // ---- over whole runs ---------------------------------------------------------------

  // ops[k] is the last begin.
  predicate LastBegin(ops: seq<Op>, k: nat) {
    k < |ops| && ops[k].Begin? && forall i | k < i < |ops| :: !ops[i].Begin?
  }

  lemma {:induction false} BeginOfLastArg(ops: seq<Op>) returns (k: nat)
    requires LastArg(ops).Some?
    ensures LastBegin(ops, k) && ops[k].arg == LastArg(ops).value
    decreases |ops|
  {
    if Last(ops).Begin? {
      k := |ops| - 1;
    } else {
      k := BeginOfLastArg(Front(ops));
      assert forall i | 0 <= i < |ops| - 1 :: Front(ops)[i] == ops[i];
    }
  }

  // Whatever the environment does: a session that ends has a begin, and its answer is the token
  // of the bytes not yet returned under the argument of that begin, or says why there is none.
  lemma EveryAnswerFits(lib: Library, limits: Limits, stream: Bytes, ops: seq<Op>) returns (k: nat)
    requires ops != [] && Run(lib, Start(limits, stream), ops).Some? && Last(ops).End?
    ensures LastBegin(ops, k) && LastArg(ops) == Some(ops[k].arg)
    ensures var w := Run(lib, Start(limits, stream), Front(ops)).value;
            var answer := AnswerOf(lib, w, Last(ops));
            match Last(ops).io.outcome
            case Broken => answer == []
            case TimedOut => answer == [Result(REAL_TIME_LIMIT_EXCEEDED, [])]
            case Done =>
              |answer| == 1 && answer[0].status != REAL_TIME_LIMIT_EXCEEDED &&
              IsAnswer(lib, ops[k].arg, Pending(w), answer[0])
  {
    hide IsToken, NoToken, IsError, Feed, Fresh;
    var w := Run(lib, Start(limits, stream), Front(ops)).value;
    AnswerIsTheNextToken(lib, limits, stream, ops);
    k := BeginOfLastArg(ops);
    if Last(ops).io.outcome == Done {
      ReachableIsCoupled(lib, limits, stream, Front(ops));
      DoneAnswersPending(lib, w, ops[k].arg, Last(ops));
      ScanAnswers(lib, ops[k].arg, Pending(w));
    }
  }

  // log[k] is the last begin of solution id.
  predicate LastBeginFor(log: seq<Entry>, id: nat, k: nat) {
    && k < |log| && log[k].id == id && log[k].op.Begin?
    && forall i | k < i < |log| :: !(log[i].id == id && log[i].op.Begin?)
  }

  lemma {:induction false} BeginInLog(log: seq<Entry>, id: nat) returns (k: nat)
    requires LastArg(Project(log, id)).Some?
    ensures LastBeginFor(log, id, k) && log[k].op.arg == LastArg(Project(log, id)).value
    decreases |log|
  {
    var e, alone := Last(log), Project(Front(log), id);
    if e.id == id {
      assert Front(alone + [e.op]) == alone && Last(alone + [e.op]) == e.op;
    } else {
      assert Project(log, id) == alone;
    }
    if e.id == id && e.op.Begin? {
      k := |log| - 1;
    } else {
      k := BeginInLog(Front(log), id);
      assert forall i | 0 <= i < |log| - 1 :: Front(log)[i] == log[i];
    }
  }

  // The same for one solution of an interleaved run.
  lemma AnswerFitsItsBegin(lib: Library, ws: seq<World>, log: seq<Entry>, id: nat, op: Op) returns (k: nat)
    requires id < |ws| && ws[id] == Start(ws[id].session.limits, ws[id].unread) && RunAll(lib, ws, log).Some?
    requires op.End? && Legal(lib, RunAll(lib, ws, log).value[id], op)
    ensures LastBeginFor(log, id, k)
    ensures var w := RunAll(lib, ws, log).value[id];
            op.io.outcome != Broken ==>
              && |AnswerOf(lib, w, op)| == 1
              && IsAnswer(lib, log[k].op.arg, Pending(w), AnswerOf(lib, w, op)[0])
  {
    hide RunAll, Legal, Exec, IsAnswer;
    var alone := Project(log, id);
    Projection(lib, ws, log, id);
    RunSnoc(lib, ws[id], alone, op);
    assert Front(alone + [op]) == alone && Last(alone + [op]) == op;
    var i := EveryAnswerFits(lib, ws[id].session.limits, ws[id].unread, alone + [op]);
    k := BeginInLog(log, id);
    TimeoutIsAnswer(lib, log[k].op.arg, Pending(RunAll(lib, ws, log).value[id]));
  }
}
