// Which calls can a judge make without ever noticing the scheduling, whatever the solution
// writes? Those that do not end a session both before and after a terminate.
module Terminations {
  import opened Basics
  import opened Tokenizers
  import opened Sessions
  import opened Runs
  import opened Visibility
  import opened Restarts

  predicate IsCut(calls: seq<SessionCall>, i: nat, j: nat, k: nat) {
    i < j < k < |calls| && calls[i] == CallEnd && calls[j] == CallTerminate && calls[k] == CallEnd
  }

  // A session is ended, later the solution is terminated, and later a session is ended again.
  ghost predicate EndsAroundTerminate(calls: seq<SessionCall>) {
    exists i: nat, j: nat, k: nat :: IsCut(calls, i, j, k)
  }

  // All timely runs of calls give the same answers, on every output.
  ghost predicate AnswersAreCertain(lib: Library, calls: seq<SessionCall>) {
    forall limits: Limits, stream: Bytes, ops1: seq<Op>, ops2: seq<Op> ::
      SameTimelyCalls(lib, limits, stream, ops1, ops2) && Calls(ops1) == calls ==>
        Answers(lib, Start(limits, stream), ops1) == Answers(lib, Start(limits, stream), ops2)
  }

  ghost predicate CanDecide(t: Tokenizer)
    requires Live(t)
  {
    exists data: Bytes :: Feed(t, data).verdict != Continue
  }

  // For every argument there is an output on which the tokenizer decides.
  ghost predicate AlwaysCanDecide(lib: Library) {
    forall arg: Bytes | ArgumentOk(lib, arg) :: CanDecide(Fresh(lib, arg))
  }

  // ---- calls without such a terminate ------------------------------------------------

  lemma {:induction false} NothingReadBeforeEnd(lib: Library, limits: Limits, stream: Bytes, ops: seq<Op>)
    requires Run(lib, Start(limits, stream), ops).Some? && CallEnd !in Calls(ops)
    ensures NothingAhead(Run(lib, Start(limits, stream), ops).value.session)
    decreases |ops|
  {
    hide Feed;
    if ops != [] {
      assert Last(Calls(ops)) == CallOf(Last(ops)) && Front(Calls(ops)) == Calls(Front(ops));
      NothingReadBeforeEnd(lib, limits, stream, Front(ops));
    }
  }

  ghost predicate TerminatesAfterEnd(calls: seq<SessionCall>) {
    exists i: nat, j: nat :: i < j < |calls| && calls[i] == CallEnd && calls[j] == CallTerminate
  }

  // A call that can end no session changes no answer.
  lemma QuietAnswers(lib: Library, w: World, rd: Reader, op: Op)
    requires Legal(lib, w, op) && !op.End?
    ensures AnswerOf(lib, w, op) == [] && ReadStep(lib, rd, CallOf(op)).results == rd.results
  {
  }

  lemma LateCallIsQuiet(before: seq<SessionCall>, call: SessionCall)
    requires TerminatesAfterEnd(before) && !EndsAroundTerminate(before + [call])
    ensures call != CallEnd
  {
    var i: nat, j: nat :| i < j < |before| && before[i] == CallEnd && before[j] == CallTerminate;
    var all, k: nat := before + [call], |before|;
    assert IsCut(all, i, j, k) <==> call == CallEnd;
  }

  lemma TerminateAfterEnd(before: seq<SessionCall>, call: SessionCall)
    requires (CallEnd in before && call == CallTerminate) || TerminatesAfterEnd(before)
    ensures TerminatesAfterEnd(before + [call])
  {
    var all := before + [call];
    if TerminatesAfterEnd(before) {
      var i: nat, j: nat :| i < j < |before| && before[i] == CallEnd && before[j] == CallTerminate;
      assert all[i] == CallEnd && all[j] == CallTerminate;
    } else {
      var i :| 0 <= i < |before| && before[i] == CallEnd;
      assert all[i] == CallEnd && all[|before|] == CallTerminate;
    }
  }

  lemma FrontIsUncut(before: seq<SessionCall>, call: SessionCall)
    requires !EndsAroundTerminate(before + [call])
    ensures !EndsAroundTerminate(before)
  {
    assert forall i: nat, j: nat, k: nat :: IsCut(before, i, j, k) ==> IsCut(before + [call], i, j, k);
  }

  // Even if a terminate drops bytes: no session is ended any more.
  lemma {:induction false} UncutRunIsRead(lib: Library, limits: Limits, stream: Bytes, ops: seq<Op>)
    requires NeverFails(lib) && Run(lib, Start(limits, stream), ops).Some? && Timely(ops)
    requires !EndsAroundTerminate(Calls(ops))
    ensures Answers(lib, Start(limits, stream), ops) == ReadStream(lib, stream, Calls(ops)).results
    ensures NothingDropped(lib, Start(limits, stream), ops) || TerminatesAfterEnd(Calls(ops))
    decreases |ops|
  {
    hide Legal, Exec, AnswerOf, ReadStep, NeverFails, EndsAroundTerminate, TerminatesAfterEnd;
    var w0 := Start(limits, stream);
    if ops != [] {
      var before, op := Front(ops), Last(ops);
      var w := Run(lib, w0, before).value;
      assert Calls(ops) == Calls(before) + [CallOf(op)];
      FrontIsUncut(Calls(before), CallOf(op));
      assert forall i | 0 <= i < |before| :: before[i] == ops[i];
      UncutRunIsRead(lib, limits, stream, before);
      if NothingDropped(lib, w0, before) && DropsNothing(w, op) {
        SameCallsSameAnswers(lib, limits, stream, ops, ops);
      } else {
        if NothingDropped(lib, w0, before) {
          assert op == ops[|ops| - 1] && op.Terminate? && Pending(w) != w.unread;
          if CallEnd !in Calls(before) {
            NothingReadBeforeEnd(lib, limits, stream, before);
          }
        } else {
          LateCallIsQuiet(Calls(before), CallOf(op));
        }
        TerminateAfterEnd(Calls(before), CallOf(op));
        QuietAnswers(lib, w, ReadStream(lib, stream, Calls(before)), op);
        assert Front(Calls(ops)) == Calls(before) && Last(Calls(ops)) == CallOf(op);
        assert Answers(lib, w0, before) + [] == Answers(lib, w0, before);
      }
    }
  }

  // ---- a run in which every session reads exactly its token --------------------------

  // The argument of the open session.
  function OpenArg(calls: seq<SessionCall>): Option<Bytes>
    decreases |calls|
  {
    if calls == [] then None
    else
      match Last(calls)
      case CallBegin(arg) => Some(arg)
      case CallSend(_) => OpenArg(Front(calls))
      case CallEnd => None
      case CallTerminate => None
  }

  lemma PermittedFront(lib: Library, calls: seq<SessionCall>)
    requires Permitted(lib, calls) && calls != []
    ensures Permitted(lib, Front(calls)) && (Last(calls) == CallEnd ==> Active(Front(calls)))
  {
  }

  lemma {:induction false} ActiveHasArg(lib: Library, calls: seq<SessionCall>)
    requires Permitted(lib, calls)
    ensures Active(calls) <==> OpenArg(calls).Some?
    ensures Active(calls) ==> ArgumentOk(lib, OpenArg(calls).value)
    decreases |calls|
  {
    if calls != [] {
      ActiveHasArg(lib, Front(calls));
    }
  }

  // After calls, nothing has been read ahead, and the open session is as its begin left it.
  ghost predicate Untouched(lib: Library, calls: seq<SessionCall>, s: Session) {
    && s.outbuf == []
    && match OpenArg(calls)
       case None => s.tokenizer.None?
       case Some(arg) =>
         && ArgumentOk(lib, arg) && s.tokenizer == Some(Fresh(lib, arg))
         && s.verdict == Continue && s.result == []
  }

  lemma OtherStep(lib: Library, limits: Limits, w: World, calls: seq<SessionCall>, call: SessionCall) returns (op: Op)
    requires Untouched(lib, calls, w.session) && Permitted(lib, calls + [call]) && call != CallEnd
    ensures Legal(lib, w, op) && !op.End? && CallOf(op) == call
    ensures Untouched(lib, calls + [call], Exec(lib, w, op).session) && Exec(lib, w, op).unread == w.unread
  {
    assert Front(calls + [call]) == calls && Last(calls + [call]) == call;
    ActiveHasArg(lib, calls);
    match call
    case CallBegin(arg) => op := Begin(arg, limits);
    case CallSend(msg) => op := Send(msg);
    case CallTerminate => op := Terminate;
  }

  // The open session reads p, on which it decides, and more with it.
  lemma EndAtDecision(lib: Library, w0: World, ops: seq<Op>, arg: Bytes, p: Bytes, more: Bytes, rest: Bytes)
    returns (ops': seq<Op>)
    requires Run(lib, w0, ops).Some? && Timely(ops) && ArgumentOk(lib, arg) && DecidesAtEnd(Fresh(lib, arg), p)
    requires OpenArg(Calls(ops)) == Some(arg) && Untouched(lib, Calls(ops), Run(lib, w0, ops).value.session)
    requires Run(lib, w0, ops).value.unread == p + more + rest && |more| <= 1
    ensures Run(lib, w0, ops').Some? && Timely(ops') && Calls(ops') == Calls(ops) + [CallEnd]
    ensures var w := Run(lib, w0, ops').value;
            w.unread == rest && w.session.tokenizer.None? && (more == [] ==> w.session.outbuf == [])
    ensures Answers(lib, w0, ops') == Answers(lib, w0, ops) + [ScanResult(Fresh(lib, arg), p)]
  {
    hide Feed, Fresh, Run, Answers, Calls, Timely, NothingDropped;
    var w := Run(lib, w0, ops).value;
    var io := IO(true, [], p + more, |more| + 1, Done);
    GreedyIsLegal(Fresh(lib, arg), w.session, p, more, w.unread, io);
    EndEffect(lib, w, End(false, io));
    RunSnoc(lib, w0, ops, End(false, io));
    ops' := ops + [End(false, io)];
    assert w.unread[|p + more|..] == rest;
  }

  lemma Decision(lib: Library, arg: Bytes) returns (p: Bytes)
    requires AlwaysCanDecide(lib) && ArgumentOk(lib, arg)
    ensures DecidesAtEnd(Fresh(lib, arg), p) && Feed(Fresh(lib, arg), p[1..]).verdict == Continue
  {
    assert CanDecide(Fresh(lib, arg));
    var data: Bytes :| Feed(Fresh(lib, arg), data).verdict != Continue;
    p := ShortestDecision(Fresh(lib, arg), data);
  }

  // An output and a run of calls that leaves exactly rest unread.
  lemma {:induction false} ExactRun(lib: Library, limits: Limits, calls: seq<SessionCall>, rest: Bytes)
    returns (stream: Bytes, ops: seq<Op>)
    requires AlwaysCanDecide(lib) && Permitted(lib, calls)
    ensures Run(lib, Start(limits, stream), ops).Some? && Timely(ops) && Calls(ops) == calls
    ensures var w := Run(lib, Start(limits, stream), ops).value;
            w.unread == rest && Untouched(lib, calls, w.session)
    decreases |calls|
  {
    stream, ops := rest, [];
    if calls != [] {
      hide Run, Answers, Exec, Legal, Timely, Fresh, ArgumentOk, AlwaysCanDecide, Permitted, Active, Calls;
      hide NothingDropped, DropsNothing;
      var before, call := Front(calls), Last(calls);
      assert calls == before + [call];
      assert Permitted(lib, before) && (call == CallEnd ==> Active(before)) by {
        PermittedFront(lib, calls);
      }
      if call == CallEnd {
        ActiveHasArg(lib, before);
        var arg := OpenArg(before).value;
        var p := Decision(lib, arg);
        stream, ops := ExactRun(lib, limits, before, p + rest);
        assert p + [] + rest == p + rest;
        ops := EndAtDecision(lib, Start(limits, stream), ops, arg, p, [], rest);
      } else {
        stream, ops := ExactRun(lib, limits, before, rest);
        var op := OtherStep(lib, limits, Run(lib, Start(limits, stream), ops).value, before, call);
        RunSnoc(lib, Start(limits, stream), ops, op);
        ops := ops + [op];
      }
    }
  }

  // ---- two runs that differ by one byte ----------------------------------------------

  lemma {:induction false} DroplessIsTimely(lib: Library, w0: World, ops: seq<Op>)
    requires NothingDropped(lib, w0, ops)
    ensures Timely(ops)
    decreases |ops|
  {
    if ops != [] {
      DroplessIsTimely(lib, w0, Front(ops));
      forall i | 0 <= i < |ops|
        ensures ops[i].End? ==> ops[i].io.outcome == Done
      {
        assert i < |ops| - 1 ==> Front(ops)[i] == ops[i];
      }
    }
  }

  lemma {:induction false} PermittedParts(lib: Library, before: seq<SessionCall>, after: seq<SessionCall>)
    requires Permitted(lib, before + after)
    ensures Permitted(lib, before)
    decreases |after|
  {
    if after == [] {
      assert before + after == before;
    } else {
      assert Front(before + after) == before + Front(after);
      PermittedParts(lib, before, Front(after));
    }
  }

  // What is permitted after a terminate is permitted from the start.
  lemma {:induction false} TerminateForgets(lib: Library, before: seq<SessionCall>, after: seq<SessionCall>)
    requires Permitted(lib, before + [CallTerminate] + after)
    ensures Permitted(lib, after)
    ensures Active(before + [CallTerminate] + after) <==> Active(after)
    decreases |after|
  {
    var all := before + [CallTerminate] + after;
    if after == [] {
      assert Last(all) == CallTerminate;
    } else {
      assert Front(all) == before + [CallTerminate] + Front(after) && Last(all) == Last(after);
      TerminateForgets(lib, before, Front(after));
    }
  }

  lemma QuietStep(lib: Library, w0: World, ops: seq<Op>, limits: Limits, call: SessionCall) returns (ops': seq<Op>)
    requires w0.session.tokenizer.None? && Run(lib, w0, ops).Some? && Timely(ops)
    requires Permitted(lib, Calls(ops) + [call]) && call != CallEnd
    ensures Run(lib, w0, ops').Some? && Timely(ops') && Calls(ops') == Calls(ops) + [call]
    ensures Run(lib, w0, ops').value.unread == Run(lib, w0, ops).value.unread
    ensures Answers(lib, w0, ops') == Answers(lib, w0, ops)
  {
    hide Run, Answers, Timely, BeginFn, NothingDropped, DropsNothing, ArgumentOk, Calls;
    assert Front(Calls(ops) + [call]) == Calls(ops) && Last(Calls(ops) + [call]) == call;
    LegalIsPermitted(lib, w0, ops);
    var op :=
      match call
      case CallBegin(arg) => Begin(arg, limits)
      case CallSend(msg) => Send(msg)
      case CallTerminate => Terminate;
    RunSnoc(lib, w0, ops, op);
    ops' := ops + [op];
    assert Answers(lib, w0, ops) + [] == Answers(lib, w0, ops);
  }

  // Calls that end no session read nothing.
  lemma {:induction false} QuietRun(lib: Library, w0: World, ops: seq<Op>, limits: Limits, quiet: seq<SessionCall>)
    returns (ops': seq<Op>)
    requires w0.session.tokenizer.None? && Run(lib, w0, ops).Some? && Timely(ops)
    requires Permitted(lib, Calls(ops) + quiet) && CallEnd !in quiet
    ensures Run(lib, w0, ops').Some? && Timely(ops') && Calls(ops') == Calls(ops) + quiet
    ensures Run(lib, w0, ops').value.unread == Run(lib, w0, ops).value.unread
    ensures Answers(lib, w0, ops') == Answers(lib, w0, ops)
    decreases |quiet|
  {
    hide Run, Answers, Timely, Calls, Permitted;
    ops' := ops;
    if quiet == [] {
      assert Calls(ops) + quiet == Calls(ops);
    } else {
      var before := Calls(ops) + Front(quiet);
      assert Calls(ops) + quiet == before + [Last(quiet)];
      PermittedParts(lib, before, [Last(quiet)]);
      ops' := QuietRun(lib, w0, ops, limits, Front(quiet));
      ops' := QuietStep(lib, w0, ops', limits, Last(quiet));
    }
  }

  lemma {:induction false} CallsConcat(a: seq<Op>, b: seq<Op>)
    ensures Calls(a + b) == Calls(a) + Calls(b)
    decreases |b|
  {
    if b == [] {
      assert a + b == a;
    } else {
      assert Front(a + b) == a + Front(b) && Last(a + b) == Last(b);
      CallsConcat(a, Front(b));
    }
  }

  // From a run that has just terminated the solution, the calls go on as on a new solution.
  lemma GoOnAfterTerminate(lib: Library, limits: Limits, stream: Bytes, before: seq<Op>, calls: seq<SessionCall>)
    returns (ops: seq<Op>)
    requires NeverFails(lib) && Run(lib, Start(limits, stream), before).Some? && Timely(before)
    requires Blank(Run(lib, Start(limits, stream), before).value) && Permitted(lib, calls)
    ensures Run(lib, Start(limits, stream), ops).Some? && Timely(ops) && Calls(ops) == Calls(before) + calls
    ensures Answers(lib, Start(limits, stream), ops) ==
            Answers(lib, Start(limits, stream), before) +
            ReadStream(lib, Run(lib, Start(limits, stream), before).value.unread, calls).results
  {
    hide Run, Answers, NothingDropped, NeverFails, Permitted, Calls;
    var w := Run(lib, Start(limits, stream), before).value;
    var again := Start(limits, w.unread);
    var after := PermittedCallsHaveARun(lib, limits, w.unread, calls);
    DroplessIsTimely(lib, again, after);
    SameCallsSameAnswers(lib, limits, w.unread, after, after);
    AlikeRunsAnswerAlike(lib, Start(limits, stream), again, before, after);
    CallsConcat(before, after);
    ops := before + after;
  }

  lemma {:induction false} QuietReader(lib: Library, stream: Bytes, calls: seq<SessionCall>)
    requires CallEnd !in calls
    ensures ReadStream(lib, stream, calls) == Reader(OpenArg(calls), stream, [], false)
    decreases |calls|
  {
    if calls != [] {
      QuietReader(lib, stream, Front(calls));
    }
  }

  lemma {:induction false} ReaderKeepsResults(lib: Library, stream: Bytes, calls: seq<SessionCall>, n: nat)
    requires n <= |calls|
    ensures ReadStream(lib, stream, calls[..n]).results <= ReadStream(lib, stream, calls).results
    decreases |calls|
  {
    if n == |calls| {
      assert calls[..n] == calls;
    } else {
      assert Front(calls)[..n] == calls[..n];
      ReaderKeepsResults(lib, stream, Front(calls), n);
    }
  }

  // An end has a session to end.
  lemma EndedArg(lib: Library, calls: seq<SessionCall>, i: nat) returns (arg: Bytes)
    requires Permitted(lib, calls) && i < |calls| && calls[i] == CallEnd
    ensures Permitted(lib, calls[..i]) && OpenArg(calls[..i]) == Some(arg) && ArgumentOk(lib, arg)
  {
    var ended := calls[..i + 1];
    assert calls == ended + calls[i + 1..] && Front(ended) == calls[..i] && Last(ended) == CallEnd;
    PermittedParts(lib, ended, calls[i + 1..]);
    ActiveHasArg(lib, calls[..i]);
    arg := OpenArg(calls[..i]).value;
  }

  // The first result the reader gives is that of the first session that is ended.
  lemma FirstResult(lib: Library, stream: Bytes, calls: seq<SessionCall>, k: nat)
    requires Permitted(lib, calls) && k < |calls| && calls[k] == CallEnd && CallEnd !in calls[..k]
    ensures var arg, results := OpenArg(calls[..k]), ReadStream(lib, stream, calls).results;
            && arg.Some? && ArgumentOk(lib, arg.value)
            && results != [] && results[0] == ScanResult(Fresh(lib, arg.value), stream)
  {
    hide Feed, Fresh, ArgumentOk;
    var arg := EndedArg(lib, calls, k);
    assert Front(calls[..k + 1]) == calls[..k] && Last(calls[..k + 1]) == CallEnd;
    QuietReader(lib, stream, calls[..k]);
    ReaderKeepsResults(lib, stream, calls, k + 1);
  }

  // One session reads more with its token p, quiet calls and a terminate follow, and the later
  // calls are left with rest.
  lemma ThroughTerminate(lib: Library, limits: Limits, stream: Bytes, ops: seq<Op>, arg: Bytes, p: Bytes,
                         more: Bytes, rest: Bytes, quiet: seq<SessionCall>, later: seq<SessionCall>)
    returns (ops': seq<Op>)
    requires NeverFails(lib) && Run(lib, Start(limits, stream), ops).Some? && Timely(ops)
    requires ArgumentOk(lib, arg) && DecidesAtEnd(Fresh(lib, arg), p) && OpenArg(Calls(ops)) == Some(arg)
    requires var w := Run(lib, Start(limits, stream), ops).value;
             Untouched(lib, Calls(ops), w.session) && w.unread == p + more + rest && |more| <= 1
    requires Permitted(lib, Calls(ops) + [CallEnd] + quiet + [CallTerminate] + later) && CallEnd !in quiet
    ensures Run(lib, Start(limits, stream), ops').Some? && Timely(ops')
    ensures Calls(ops') == Calls(ops) + [CallEnd] + quiet + [CallTerminate] + later
    ensures Answers(lib, Start(limits, stream), ops') ==
            Answers(lib, Start(limits, stream), ops) + [ScanResult(Fresh(lib, arg), p)] +
            ReadStream(lib, rest, later).results
  {
    hide Run, Answers, Timely, Calls, NeverFails, Permitted, Untouched, OpenArg, Fresh, ReadStream, ScanResult;
    var w0 := Start(limits, stream);
    var ended := Calls(ops) + [CallEnd] + quiet;
    TerminateForgets(lib, ended, later);
    PermittedParts(lib, ended + [CallTerminate], later);
    PermittedParts(lib, ended, [CallTerminate]);
    ops' := EndAtDecision(lib, w0, ops, arg, p, more, rest);
    ops' := QuietRun(lib, w0, ops', limits, quiet);
    ops' := TerminateStep(lib, w0, ops');
    ops' := GoOnAfterTerminate(lib, limits, stream, ops', later);
  }

  // Of all such ends and terminates there are some with no end in between.
  lemma {:induction false} ClosestCut(calls: seq<SessionCall>, i: nat, j: nat, k: nat)
    returns (i': nat, j': nat, k': nat)
    requires IsCut(calls, i, j, k)
    ensures IsCut(calls, i', j', k') && CallEnd !in calls[i' + 1..j'] && CallEnd !in calls[j' + 1..k']
    decreases k - i
  {
    if x :| i < x < j && calls[x] == CallEnd {
      i', j', k' := ClosestCut(calls, x, j, k);
    } else if x :| j < x < k && calls[x] == CallEnd {
      i', j', k' := ClosestCut(calls, i, j, x);
    } else {
      i', j', k' := i, j, k;
    }
  }

  // Two runs of calls on the same output: the last session before the terminate reads just its
  // token, or it also reads the first byte of the next one, which is dropped.
  lemma CutShowsScheduling(lib: Library, limits: Limits, calls: seq<SessionCall>, i: nat, j: nat, k: nat)
    returns (stream: Bytes, ops1: seq<Op>, ops2: seq<Op>)
    requires NeverFails(lib) && AlwaysCanDecide(lib) && Permitted(lib, calls)
    requires IsCut(calls, i, j, k) && CallEnd !in calls[i + 1..j] && CallEnd !in calls[j + 1..k]
    ensures SameTimelyCalls(lib, limits, stream, ops1, ops2) && Calls(ops1) == calls
    ensures Answers(lib, Start(limits, stream), ops1) != Answers(lib, Start(limits, stream), ops2)
  {
    hide Run, Answers, Timely, Calls, NeverFails, AlwaysCanDecide, Permitted, Untouched, OpenArg, ReadStream;
    hide Feed, Fresh, ArgumentOk;
    var first, quiet, later := calls[..i], calls[i + 1..j], calls[j + 1..];
    assert calls == first + [CallEnd] + quiet + [CallTerminate] + later;
    var arg := EndedArg(lib, calls, i);
    var p := Decision(lib, arg);
    TerminateForgets(lib, first + [CallEnd] + quiet, later);
    assert later[..k - j - 1] == calls[j + 1..k];
    var arg' := EndedArg(lib, later, k - j - 1);
    var x := Decision(lib, arg');
    var ops;
    stream, ops := ExactRun(lib, limits, first, p + x);
    assert p + x == p + [] + x == p + x[..1] + x[1..];
    ops1 := ThroughTerminate(lib, limits, stream, ops, arg, p, [], x, quiet, later);
    ops2 := ThroughTerminate(lib, limits, stream, ops, arg, p, x[..1], x[1..], quiet, later);
    FirstResult(lib, x, later, k - j - 1);
    FirstResult(lib, x[1..], later, k - j - 1);
    var n := |Answers(lib, Start(limits, stream), ops)| + 1;
    assert Answers(lib, Start(limits, stream), ops1)[n] == ScanResult(Fresh(lib, arg'), x);
    assert Answers(lib, Start(limits, stream), ops2)[n] == ScanResult(Fresh(lib, arg'), x[1..]);
  }

  // The exact theorem for each sequence of calls: whatever the solution writes and however the
  // kernel schedules it, the answers are certain if and only if no session is ended both before
  // and after a terminate.
  lemma CertainIffNoEndsAroundTerminate(lib: Library, calls: seq<SessionCall>)
    requires NeverFails(lib) && AlwaysCanDecide(lib) && Permitted(lib, calls)
    ensures AnswersAreCertain(lib, calls) <==> !EndsAroundTerminate(calls)
  {
    if EndsAroundTerminate(calls) {
      var i: nat, j: nat, k: nat :| IsCut(calls, i, j, k);
      i, j, k := ClosestCut(calls, i, j, k);
      var stream, ops1, ops2 := CutShowsScheduling(lib, Limits(0, 0), calls, i, j, k);
    } else {
      forall limits: Limits, stream: Bytes, ops1: seq<Op>, ops2: seq<Op>
        | SameTimelyCalls(lib, limits, stream, ops1, ops2) && Calls(ops1) == calls
        ensures Answers(lib, Start(limits, stream), ops1) == Answers(lib, Start(limits, stream), ops2)
      {
        UncutRunIsRead(lib, limits, stream, ops1);
        UncutRunIsRead(lib, limits, stream, ops2);
      }
    }
  }

  // ---- the shipped libraries ---------------------------------------------------------

  // split.c decides on the rest of its separator.
  lemma {:induction false} SplitDecides(sep: Bytes, over: nat)
    requires over < |sep|
    ensures Feed(Split(sep, over), sep[over..]).verdict == Accepted
    decreases |sep| - over
  {
    if over + 1 < |sep| {
      SplitDecides(sep, over + 1);
      assert sep[over..][1..] == sep[over + 1..];
    }
  }

  lemma ShippedCanDecide(lib: Library)
    requires !lib.Other?
    ensures AlwaysCanDecide(lib)
  {
    forall arg: Bytes | ArgumentOk(lib, arg)
      ensures CanDecide(Fresh(lib, arg))
    {
      match Fresh(lib, arg)
      case Split(sep, over) => SplitDecides(sep, over);
      case SplitChar(c) => assert Feed(SplitChar(c), [c]).verdict == Accepted;
    }
  }

  lemma ShippedCertainIffNoEndsAroundTerminate(lib: Library, calls: seq<SessionCall>)
    requires !lib.Other? && Permitted(lib, calls)
    ensures AnswersAreCertain(lib, calls) <==> !EndsAroundTerminate(calls)
  {
    ShippedNeverFails(lib);
    ShippedCanDecide(lib);
    CertainIffNoEndsAroundTerminate(lib, calls);
  }
}
