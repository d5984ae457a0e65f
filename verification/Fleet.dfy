// Several solutions behind one broker: independence of their sessions, and which of their
// processes are thawed when.
module Fleet {
  import opened Basics
  import opened Kernel
  import opened Tokenizers
  import opened Sessions
  import opened Runs
  import opened Visibility

  // One broker operation on solution id.
  datatype Entry = Entry(id: nat, op: Op)

  function RunAll(lib: Library, ws: seq<World>, log: seq<Entry>): (r: Option<seq<World>>)
    ensures r.Some? ==> |r.value| == |ws|
    decreases |log|
  {
    if log == [] then Some(ws)
    else
      match RunAll(lib, ws, Front(log))
      case None => None
      case Some(before) =>
        var e := Last(log);
        if e.id < |ws| && Legal(lib, before[e.id], e.op) then
          Some(before[e.id := Exec(lib, before[e.id], e.op)])
        else None
  }

  // What end() returned for solution id along the interleaved run.
  function AnswersFor(lib: Library, ws: seq<World>, log: seq<Entry>, id: nat): seq<Result>
    requires id < |ws| && RunAll(lib, ws, log).Some?
    decreases |log|
  {
    if log == [] then []
    else
      AnswersFor(lib, ws, Front(log), id) +
      (if Last(log).id == id then AnswerOf(lib, RunAll(lib, ws, Front(log)).value[id], Last(log).op) else [])
  }

  // What end() returned along the interleaved run, for any solution.
  function AllAnswers(lib: Library, ws: seq<World>, log: seq<Entry>): seq<Result>
    requires RunAll(lib, ws, log).Some?
    decreases |log|
  {
    if log == [] then []
    else
      var e := Last(log);
      AllAnswers(lib, ws, Front(log)) + AnswerOf(lib, RunAll(lib, ws, Front(log)).value[e.id], e.op)
  }

  function Project(log: seq<Entry>, id: nat): seq<Op>
    decreases |log|
  {
    if log == [] then []
    else Project(Front(log), id) + (if Last(log).id == id then [Last(log).op] else [])
  }

  predicate InRange(log: seq<Entry>, n: nat) {
    forall i | 0 <= i < |log| :: log[i].id < n
  }

  // Non-interference: in a legal interleaved run, every solution has the state and the answers
  // it would have if it were alone.
  lemma {:induction false} Projection(lib: Library, ws: seq<World>, log: seq<Entry>, id: nat)
    requires id < |ws| && RunAll(lib, ws, log).Some?
    ensures Run(lib, ws[id], Project(log, id)) == Some(RunAll(lib, ws, log).value[id])
    ensures Answers(lib, ws[id], Project(log, id)) == AnswersFor(lib, ws, log, id)
    decreases |log|
  {
    if log != [] {
      Projection(lib, ws, Front(log), id);
      var alone := Project(Front(log), id);
      if Last(log).id == id {
        assert Front(Project(log, id)) == alone && Last(Project(log, id)) == Last(log).op;
      } else {
        assert Project(log, id) == alone;
      }
    }
  }

  // Conversely, runs that are legal for each solution alone can be interleaved in any order.
  lemma {:induction false} LegalAloneIsLegalTogether(lib: Library, ws: seq<World>, log: seq<Entry>)
    requires InRange(log, |ws|)
    requires forall i | 0 <= i < |ws| :: Run(lib, ws[i], Project(log, i)).Some?
    ensures RunAll(lib, ws, log).Some?
    decreases |log|
  {
    if log != [] {
      var e := Last(log);
      forall i | 0 <= i < |ws|
        ensures Run(lib, ws[i], Project(Front(log), i)).Some?
      {
        if e.id == i {
          assert Front(Project(log, i)) == Project(Front(log), i);
        } else {
          assert Project(log, i) == Project(Front(log), i);
        }
      }
      LegalAloneIsLegalTogether(lib, ws, Front(log));
      assert log[|log| - 1].id < |ws|;
      Projection(lib, ws, Front(log), e.id);
      assert Front(Project(log, e.id)) == Project(Front(log), e.id) && Last(Project(log, e.id)) == e.op;
    }
  }

  // Operations on distinct solutions commute: two logs that agree for every solution are
  // both legal or both illegal, and end in the same states with the same answers.
  lemma InterleavingIsInvisible(lib: Library, ws: seq<World>, log1: seq<Entry>, log2: seq<Entry>)
    requires InRange(log1, |ws|) && InRange(log2, |ws|)
    requires forall i | 0 <= i < |ws| :: Project(log1, i) == Project(log2, i)
    requires RunAll(lib, ws, log1).Some?
    ensures RunAll(lib, ws, log2) == RunAll(lib, ws, log1)
    ensures forall i | 0 <= i < |ws| :: AnswersFor(lib, ws, log1, i) == AnswersFor(lib, ws, log2, i)
  {
    forall i | 0 <= i < |ws|
      ensures Run(lib, ws[i], Project(log2, i)) == Some(RunAll(lib, ws, log1).value[i])
      ensures Answers(lib, ws[i], Project(log2, i)) == AnswersFor(lib, ws, log1, i)
    {
      Projection(lib, ws, log1, i);
    }
    LegalAloneIsLegalTogether(lib, ws, log2);
    forall i | 0 <= i < |ws|
      ensures RunAll(lib, ws, log2).value[i] == RunAll(lib, ws, log1).value[i]
      ensures AnswersFor(lib, ws, log2, i) == AnswersFor(lib, ws, log1, i)
    {
      Projection(lib, ws, log2, i);
    }
    assert RunAll(lib, ws, log2).value == RunAll(lib, ws, log1).value;
  }

  // The same of schedules: two interleavings may differ in the order of operations on distinct
  // solutions and in every transfer. If each solution is asked the same, nothing is dropped and
  // the tokenizer never fails, each gives the same answers.
  lemma SchedulesAreInvisiblePerSolution(lib: Library, ws: seq<World>, log1: seq<Entry>, log2: seq<Entry>)
    requires NeverFails(lib)
    requires forall i | 0 <= i < |ws| :: ws[i] == Start(ws[i].session.limits, ws[i].unread)
    requires RunAll(lib, ws, log1).Some? && RunAll(lib, ws, log2).Some?
    requires forall i | 0 <= i < |ws| ::
               && Calls(Project(log1, i)) == Calls(Project(log2, i))
               && NothingDropped(lib, ws[i], Project(log1, i))
               && NothingDropped(lib, ws[i], Project(log2, i))
    ensures forall i | 0 <= i < |ws| :: AnswersFor(lib, ws, log1, i) == AnswersFor(lib, ws, log2, i)
  {
    forall i | 0 <= i < |ws|
      ensures AnswersFor(lib, ws, log1, i) == AnswersFor(lib, ws, log2, i)
    {
      Projection(lib, ws, log1, i);
      Projection(lib, ws, log2, i);
      SameCallsSameAnswers(lib, ws[i].session.limits, ws[i].unread, Project(log1, i), Project(log2, i));
    }
  }

  // ---- freezing and thawing ----------------------------------------------------------

  // The thawed processes after calls that all succeed.
  function Thawed(start: set<nat>, calls: seq<KillerCall>): set<nat>
    decreases |calls|
  {
    if calls == [] then start
    else
      var before := Thawed(start, Front(calls));
      match Last(calls)
      case Freeze(p) => before - {p}
      case Thaw(p) => before + {p}
      case Kill(_) => before
  }

  // The killer calls of one broker operation. A system error skips the freeze.
  function KillerCallsOf(pid: nat, op: Op): seq<KillerCall> {
    match op
    case Begin(_, _) => []
    case Send(_) => []
    case Terminate => [Kill(pid)]
    case End(_, io) =>
      (if io.ran then [Thaw(pid)] + (if io.outcome == Broken then [] else [Freeze(pid)]) else []) +
      (if io.outcome == TimedOut then [Kill(pid)] else [])
  }

  function Construction(pids: seq<nat>): seq<KillerCall> {
    seq(|pids|, i requires 0 <= i < |pids| => Freeze(pids[i]))
  }

  function KillerCalls(pids: seq<nat>, log: seq<Entry>): seq<KillerCall>
    requires InRange(log, |pids|)
    decreases |log|
  {
    if log == [] then Construction(pids)
    else KillerCalls(pids, Front(log)) + KillerCallsOf(pids[log[|log| - 1].id], Last(log).op)
  }

  function All(pids: seq<nat>): set<nat> {
    set p | p in pids
  }

  predicate Crashes(op: Op) {
    op.End? && op.io.ran && op.io.outcome == Broken
  }

  predicate NoCrash(log: seq<Entry>) {
    forall i | 0 <= i < |log| :: !Crashes(log[i].op)
  }

  lemma RunAllSnoc(lib: Library, ws: seq<World>, log: seq<Entry>, id: nat, op: Op)
    requires id < |ws| && RunAll(lib, ws, log).Some? && Legal(lib, RunAll(lib, ws, log).value[id], op)
    ensures var w := RunAll(lib, ws, log).value;
            RunAll(lib, ws, log + [Entry(id, op)]) == Some(w[id := Exec(lib, w[id], op)])
  {
    hide Legal, Exec;
    var log' := log + [Entry(id, op)];
    assert Front(log') == log && Last(log') == Entry(id, op);
  }

  lemma KillerCallsSnoc(pids: seq<nat>, log: seq<Entry>, id: nat, op: Op)
    requires id < |pids| && InRange(log, |pids|)
    ensures InRange(log + [Entry(id, op)], |pids|)
    ensures KillerCalls(pids, log + [Entry(id, op)]) == KillerCalls(pids, log) + KillerCallsOf(pids[id], op)
  {
    hide KillerCallsOf;
    var log' := log + [Entry(id, op)];
    assert Front(log') == log && Last(log') == log'[|log'| - 1] == Entry(id, op);
    assert forall i | 0 <= i < |log| :: log'[i] == log[i];
  }

  lemma NoCrashSnoc(log: seq<Entry>, id: nat, op: Op)
    requires NoCrash(log)
    ensures Front(log + [Entry(id, op)]) == log
    ensures NoCrash(log + [Entry(id, op)]) <==> !Crashes(op)
  {
    var log' := log + [Entry(id, op)];
    assert log'[|log|] == Entry(id, op);
    assert forall i | 0 <= i < |log| :: log'[i] == log[i];
  }

  lemma ProjectSnoc(log: seq<Entry>, id: nat, op: Op, i: nat)
    ensures Project(log + [Entry(id, op)], i) == if i == id then Project(log, i) + [op] else Project(log, i)
  {
    var log' := log + [Entry(id, op)];
    assert Front(log') == log && Last(log') == Entry(id, op);
  }

  lemma AnswersSnoc(lib: Library, ws: seq<World>, log: seq<Entry>, id: nat, op: Op)
    requires id < |ws| && RunAll(lib, ws, log).Some? && Legal(lib, RunAll(lib, ws, log).value[id], op)
    requires RunAll(lib, ws, log + [Entry(id, op)]).Some?
    ensures AnswersFor(lib, ws, log + [Entry(id, op)], id) ==
            AnswersFor(lib, ws, log, id) + AnswerOf(lib, RunAll(lib, ws, log).value[id], op)
    ensures AllAnswers(lib, ws, log + [Entry(id, op)]) ==
            AllAnswers(lib, ws, log) + AnswerOf(lib, RunAll(lib, ws, log).value[id], op)
  {
    var log' := log + [Entry(id, op)];
    assert Front(log') == log && Last(log') == Entry(id, op);
  }

  lemma {:induction false} ThawedConcat(start: set<nat>, a: seq<KillerCall>, b: seq<KillerCall>)
    ensures Thawed(start, a + b) == Thawed(Thawed(start, a), b)
    decreases |b|
  {
    if b == [] {
      assert a + b == a;
    } else {
      assert Front(a + b) == a + Front(b);
      ThawedConcat(start, a, Front(b));
    }
  }

  lemma {:induction false} ConstructionFreezes(start: set<nat>, pids: seq<nat>)
    ensures Thawed(start, Construction(pids)) == start - All(pids)
    decreases |pids|
  {
    if pids != [] {
      ConstructionFreezes(start, Front(pids));
      assert Front(Construction(pids)) == Construction(Front(pids));
      assert All(pids) == All(Front(pids)) + {Last(pids)} by {
        assert pids == Front(pids) + [Last(pids)];
      }
    }
  }

  // Whatever part of an operation's killer calls has been made, at most its own process is
  // thawed, and only while communicate runs; nothing stays thawed unless it threw.
  lemma OperationThawsItsOwn(pid: nat, op: Op, k: nat)
    requires k <= |KillerCallsOf(pid, op)|
    ensures var thawed := Thawed({}, KillerCallsOf(pid, op)[..k]);
            && thawed <= {pid}
            && (thawed != {} ==> op.End? && op.io.ran && KillerCallsOf(pid, op)[..k] == [Thaw(pid)])
            && (k == |KillerCallsOf(pid, op)| && !Crashes(op) ==> thawed == {})
  {
    var one, kill := [Thaw(pid)], [Kill(pid)];
    var two := one + [Freeze(pid)];
    var three := two + kill;
    assert Front(one) == [] && Front(two) == one && Front(three) == two && Front(kill) == [];
    assert Thawed({}, one) == {pid} && Thawed({}, two) == {} && Thawed({}, kill) == {};
    assert Thawed({}, three) == Thawed({}, two);
    var calls := KillerCallsOf(pid, op)[..k];
    assert calls == [] || calls == one || calls == two || calls == three || calls == kill;
  }

  // Every solution is frozen after construction and between broker operations.
  lemma {:induction false} FrozenBetweenOperations(pids: seq<nat>, log: seq<Entry>)
    requires InRange(log, |pids|) && NoCrash(log)
    ensures Thawed(All(pids), KillerCalls(pids, log)) == {}
    decreases |log|
  {
    if log == [] {
      ConstructionFreezes(All(pids), pids);
    } else {
      var calls := KillerCallsOf(pids[log[|log| - 1].id], Last(log).op);
      FrozenBetweenOperations(pids, Front(log));
      ThawedConcat(All(pids), KillerCalls(pids, Front(log)), calls);
      assert !Crashes(log[|log| - 1].op);
      OperationThawsItsOwn(pids[log[|log| - 1].id], Last(log).op, |calls|);
      assert calls[..|calls|] == calls;
    }
  }

  // Between operations, one thaw thaws one process.
  lemma OneThawed(pids: seq<nat>, log: seq<Entry>, pid: nat)
    requires InRange(log, |pids|) && NoCrash(log)
    ensures Thawed(All(pids), KillerCalls(pids, log) + [Thaw(pid)]) == {pid}
  {
    FrozenBetweenOperations(pids, log);
    var calls := KillerCalls(pids, log) + [Thaw(pid)];
    assert Front(calls) == KillerCalls(pids, log) && Last(calls) == Thaw(pid);
  }

  // At no point of any run, not even inside an operation, is more than one solution thawed:
  // after any n killer calls past construction, the thawed ones are at most the process
  // whose session communicates.
  lemma {:induction false} AtMostOneThawed(pids: seq<nat>, log: seq<Entry>, n: nat)
    returns (who: Option<nat>)
    requires InRange(log, |pids|) && (log == [] || NoCrash(Front(log)))
    requires |pids| <= n <= |KillerCalls(pids, log)|
    ensures Thawed(All(pids), KillerCalls(pids, log)[..n]) == if who.None? then {} else {who.value}
    ensures who.Some? ==> KillerCalls(pids, log)[n - 1] == Thaw(who.value)
    decreases |log|
  {
    var calls := KillerCalls(pids, log);
    if log == [] {
      assert calls[..n] == calls;
      FrozenBetweenOperations(pids, log);
      who := None;
    } else {
      var before := KillerCalls(pids, Front(log));
      if n <= |before| {
        assert calls[..n] == before[..n];
        assert Front(log) == [] || NoCrash(Front(Front(log)));
        who := AtMostOneThawed(pids, Front(log), n);
      } else {
        var pid := pids[log[|log| - 1].id];
        var mine := KillerCallsOf(pid, Last(log).op);
        var k := n - |before|;
        assert calls[..n] == before + mine[..k];
        FrozenBetweenOperations(pids, Front(log));
        ThawedConcat(All(pids), before, mine[..k]);
        OperationThawsItsOwn(pid, Last(log).op, k);
        if Thawed({}, mine[..k]) == {} {
          who := None;
        } else {
          who := Some(pid);
          assert mine[..k][0] == Thaw(pid);
        }
      }
    }
  }

  predicate Terminates(op: Op) {
    op.Terminate? || (op.End? && op.io.outcome == TimedOut)
  }

  // Where the log terminates process pid: by terminate, or by an end that ran out of time.
  function TerminatedAt(pids: seq<nat>, log: seq<Entry>, pid: nat): set<nat>
    requires InRange(log, |pids|)
  {
    set i | 0 <= i < |log| && pids[log[i].id] == pid && Terminates(log[i].op)
  }

  lemma TerminatedSnoc(pids: seq<nat>, log: seq<Entry>, pid: nat)
    requires log != [] && InRange(log, |pids|)
    ensures InRange(Front(log), |pids|)
    ensures |TerminatedAt(pids, log, pid)| ==
            |TerminatedAt(pids, Front(log), pid)| +
            (if pids[Last(log).id] == pid && Terminates(Last(log).op) then 1 else 0)
  {
    var n: nat := |log| - 1;
    var before := Front(log);
    assert log[n] == Last(log) && forall i | 0 <= i < n :: log[i] == before[i];
    assert n !in TerminatedAt(pids, before, pid);
    assert TerminatedAt(pids, log, pid) ==
           TerminatedAt(pids, before, pid) + (if pids[log[n].id] == pid && Terminates(log[n].op) then {n} else {});
  }

  lemma NothingTerminated(pids: seq<nat>, pid: nat)
    ensures TerminatedAt(pids, [], pid) == {} && Kill(pid) !in multiset(Construction(pids))
  {
  }

  lemma KillsOfOne(own: nat, op: Op, pid: nat)
    ensures multiset(KillerCallsOf(own, op))[Kill(pid)] == if own == pid && Terminates(op) then 1 else 0
  {
  }

  // The killer is told to terminate a process as often as the log does.
  lemma {:induction false} KillsAreTerminations(pids: seq<nat>, log: seq<Entry>, pid: nat)
    requires InRange(log, |pids|)
    ensures multiset(KillerCalls(pids, log))[Kill(pid)] == |TerminatedAt(pids, log, pid)|
    decreases |log|
  {
    hide TerminatedAt, KillerCallsOf, Terminates, Construction;
    if log == [] {
      NothingTerminated(pids, pid);
    } else {
      TerminatedSnoc(pids, log, pid);
      KillsAreTerminations(pids, Front(log), pid);
      KillsOfOne(pids[log[|log| - 1].id], Last(log).op, pid);
    }
  }

  function SendAll(s: Session, msgs: seq<Bytes>): (r: Session)
    ensures r == s.(inbuf := r.inbuf)
    decreases |msgs|
  {
    if msgs == [] then s else SendFn(SendAll(s, Front(msgs)), Last(msgs))
  }

  // A session whose token was already complete in outbuf returns it without ever thawing
  // its solution or touching its pipes.
  lemma BufferedTokenNeverThaws(lib: Library, w: World, arg: Bytes, limits: Limits,
                                msgs: seq<Bytes>, discard: bool, io: IO, pid: nat)
    requires Legal(lib, w, Begin(arg, limits))
    requires Feed(Fresh(lib, arg), w.session.outbuf).verdict == Accepted
    requires var s := SendAll(BeginFn(lib, w.session, arg, limits), msgs);
             Legal(lib, World(s, w.unread), End(discard, io))
    ensures KillerCallsOf(pid, End(discard, io)) == []
    ensures var s := SendAll(BeginFn(lib, w.session, arg, limits), msgs);
            var n := Feed(Fresh(lib, arg), w.session.outbuf).accepted;
            && AnswerOf(lib, World(s, w.unread), End(discard, io)) == [Result(OK, w.session.outbuf[..n])]
            && Exec(lib, World(s, w.unread), End(discard, io)).unread == w.unread
  {
    assert w.session.outbuf != [];
  }
}
