// src/bin/broker.cpp: the broker process, which serves the judge's commands on a BrokerImpl
// until its input ends.
module Server {
  import opened Basics
  import opened Tokenizers
  import opened Sessions
  import opened TextCodec
  import opened Decimal
  import opened BrokerInterface
  import opened Judge
  import opened Runs
  import opened Fleet
  import opened Visibility
  import B = BrokerImpl

  // ---- calls and operations ----------------------------------------------------------

  // The operation e is what the broker does for call; the transfers of an end are up to the
  // environment.
  predicate Carries(defaultArgument: Bytes, defaultLimits: Limits, call: Call, e: Entry) {
    e.id == call.id &&
    match call
    case BeginDefault(_) => e.op.Begin? && e.op.arg == defaultArgument && e.op.limits == defaultLimits
    case BeginWith(_, arg) => e.op.Begin? && e.op.arg == arg && e.op.limits == defaultLimits
    case BeginLimited(_, arg, user, realTime) =>
      e.op.Begin? && e.op.arg == arg && e.op.limits == Limits(user, realTime)
    case SendMessage(_, msg) => e.op.Send? && e.op.msg == msg
    case EndDefault(_) => e.op.End? && !e.op.discard
    case EndWith(_, discard) => e.op.End? && e.op.discard == discard
    case Kill(_) => e.op.Terminate?
  }

  predicate CarriesAll(defaultArgument: Bytes, defaultLimits: Limits, calls: seq<Call>, log: seq<Entry>) {
    |log| == |calls| && forall i | 0 <= i < |calls| :: Carries(defaultArgument, defaultLimits, calls[i], log[i])
  }

  // ---- the server --------------------------------------------------------------------

  // The assertions of the broker hold for call: there is such a solution; begin finds it idle and
  // its argument is accepted; send and end find it in a session.
  ghost predicate Takes(broker: B.BrokerImpl, call: Call)
    reads broker, broker.Footprint()
  {
    && call.id < |broker.solutions|
    && var idle := broker.solutions[call.id].tokenizer.None?;
       match call
       case BeginDefault(_) => idle && ArgumentOk(broker.lib, broker.defaultArgument)
       case BeginWith(_, arg) => idle && ArgumentOk(broker.lib, arg)
       case BeginLimited(_, arg, _, _) => idle && ArgumentOk(broker.lib, arg)
       case SendMessage(_, _) => !idle
       case EndDefault(_) => !idle
       case EndWith(_, _) => !idle
       case Kill(_) => true
  }

  // end on the broker, if its assertion holds.
  method PerformEnd(broker: B.BrokerImpl, id: SolutionId, discard: bool)
    returns (r: Parsed<seq<Result>>, ghost e: Entry)
    requires broker.Valid() && broker.Running()
    modifies broker, broker.Footprint()
    ensures broker.Valid()
    ensures r.Ok? ==>
              && broker.Running() && broker.log == old(broker.log) + [e]
              && e.id == id && e.op.End? && e.op.discard == discard && |r.value| == 1
    ensures AllAnswers(broker.lib, broker.start, broker.log) ==
            old(AllAnswers(broker.lib, broker.start, broker.log)) + (if r.Ok? then r.value else [])
    ensures r == Error(AssertionFailed) <==> !old(Takes(broker, EndWith(id, discard)))
    ensures r == Error(AssertionFailed) ==> broker.log == old(broker.log)
    ensures r.Error? && r.fault != AssertionFailed ==> r.fault == SystemFailure && !broker.Running()
  {
    hide AllAnswers, AnswersFor, EndFn, IOLegal, BeginFn, CommFn;
    e := Entry(id, Terminate);
    if id >= |broker.solutions| || broker.solutions[id].tokenizer.None? {
      return Error(AssertionFailed), e;
    }
    assert broker.Follows(id);
    ghost var before := broker.log;
    var answer: Answer;
    ghost var io;
    answer, io := broker.End(id, discard);
    e := Entry(id, End(discard, io));
    AnswersSnoc(broker.lib, broker.start, before, id, e.op);
    match answer {
      case Thrown => return Error(SystemFailure), e;
      case Returned(result) => return Ok([result]), e;
    }
  }

  // begin on the broker, if its assertions hold.
  method PerformBegin(broker: B.BrokerImpl, call: Call) returns (r: Parsed<seq<Result>>, ghost e: Entry)
    requires broker.Valid() && broker.Running() && (call.BeginDefault? || call.BeginWith? || call.BeginLimited?)
    modifies broker, broker.Footprint()
    ensures broker.Valid()
    ensures r.Ok? ==>
              && broker.Running() && broker.log == old(broker.log) + [e] && r.value == []
              && Carries(broker.defaultArgument, broker.defaultLimits, call, e)
    ensures AllAnswers(broker.lib, broker.start, broker.log) == old(AllAnswers(broker.lib, broker.start, broker.log))
    ensures r.Ok? && call.BeginLimited? ==>
              && broker.solutions[call.id].resourceLimits.userTimeLimit == call.userLimit
              && broker.solutions[call.id].resourceLimits.realTimeLimit == call.realLimit
    ensures r == Error(AssertionFailed) <==> !old(Takes(broker, call))
    ensures r.Error? ==> r.fault == AssertionFailed && broker.log == old(broker.log)
  {
    hide AllAnswers, ArgumentOk, BeginFn;
    var arg := if call.BeginDefault? then broker.defaultArgument else call.arg;
    e := Entry(call.id, Terminate);
    if call.id >= |broker.solutions| || broker.solutions[call.id].tokenizer.Some? || !ArgumentOk(broker.lib, arg) {
      return Error(AssertionFailed), e;
    }
    assert broker.Follows(call.id);
    ghost var before := broker.log;
    match call {
      case BeginDefault(id) =>
        e := Entry(id, Begin(arg, broker.defaultLimits));
        broker.BeginDefault(id);
      case BeginWith(id, _) =>
        e := Entry(id, Begin(arg, broker.defaultLimits));
        broker.BeginWith(id, arg);
      case BeginLimited(id, _, user, realTime) =>
        e := Entry(id, Begin(arg, Limits(user, realTime)));
        broker.Begin(id, arg, Limits(user, realTime));
    }
    AnswersSnoc(broker.lib, broker.start, before, e.id, e.op);
    return Ok([]), e;
  }

  // send on the broker, if its assertion holds.
  method PerformSend(broker: B.BrokerImpl, id: SolutionId, msg: Bytes) returns (r: Parsed<seq<Result>>, ghost e: Entry)
    requires broker.Valid() && broker.Running()
    modifies broker, broker.Footprint()
    ensures broker.Valid()
    ensures r.Ok? ==>
              && broker.Running() && broker.log == old(broker.log) + [e]
              && e == Entry(id, Send(msg)) && r.value == []
    ensures AllAnswers(broker.lib, broker.start, broker.log) == old(AllAnswers(broker.lib, broker.start, broker.log))
    ensures r == Error(AssertionFailed) <==> !old(Takes(broker, SendMessage(id, msg)))
    ensures r.Error? ==> r.fault == AssertionFailed && broker.log == old(broker.log)
  {
    e := Entry(id, Send(msg));
    if id >= |broker.solutions| || broker.solutions[id].tokenizer.None? {
      return Error(AssertionFailed), e;
    }
    assert broker.Follows(id);
    ghost var before := broker.log;
    broker.Send(id, msg);
    AnswersSnoc(broker.lib, broker.start, before, id, e.op);
    return Ok([]), e;
  }

  // terminate on the broker, if there is such a solution.
  method PerformTerminate(broker: B.BrokerImpl, id: SolutionId) returns (r: Parsed<seq<Result>>, ghost e: Entry)
    requires broker.Valid() && broker.Running()
    modifies broker, broker.Footprint()
    ensures broker.Valid()
    ensures r.Ok? ==>
              && broker.Running() && broker.log == old(broker.log) + [e]
              && e == Entry(id, Terminate) && r.value == []
    ensures AllAnswers(broker.lib, broker.start, broker.log) == old(AllAnswers(broker.lib, broker.start, broker.log))
    ensures r == Error(AssertionFailed) <==> !old(Takes(broker, Kill(id)))
    ensures r.Error? ==> r.fault == AssertionFailed && broker.log == old(broker.log)
  {
    e := Entry(id, Terminate);
    if id >= |broker.solutions| {
      return Error(AssertionFailed), e;
    }
    assert broker.Follows(id);
    ghost var before := broker.log;
    broker.Terminate(id);
    AnswersSnoc(broker.lib, broker.start, before, id, e.op);
    return Ok([]), e;
  }

  // One call on the broker, and what is to be sent back. A failed assertion is a fault and leaves
  // the log as it was; the only other fault is a thrown SystemError.
  method Perform(broker: B.BrokerImpl, call: Call) returns (r: Parsed<seq<Result>>, ghost e: Entry)
    requires broker.Valid() && broker.Running()
    modifies broker, broker.Footprint()
    ensures broker.Valid()
    ensures r.Ok? ==>
              && broker.Running() && broker.log == old(broker.log) + [e]
              && |r.value| == if HasResult(call) then 1 else 0
    ensures r.Ok? ==>
              match call
              case BeginDefault(id) => e == Entry(id, Begin(broker.defaultArgument, broker.defaultLimits))
              case BeginWith(id, arg) => e == Entry(id, Begin(arg, broker.defaultLimits))
              case BeginLimited(id, arg, user, realTime) => e == Entry(id, Begin(arg, Limits(user, realTime)))
              case SendMessage(id, msg) => e == Entry(id, Send(msg))
              case EndDefault(id) => e.id == id && e.op.End? && !e.op.discard
              case EndWith(id, discard) => e.id == id && e.op.End? && e.op.discard == discard
              case Kill(id) => e == Entry(id, Terminate)
    ensures AllAnswers(broker.lib, broker.start, broker.log) ==
            old(AllAnswers(broker.lib, broker.start, broker.log)) + (if r.Ok? then r.value else [])
    ensures r.Ok? && call.BeginLimited? ==>
              && broker.solutions[call.id].resourceLimits.userTimeLimit == call.userLimit
              && broker.solutions[call.id].resourceLimits.realTimeLimit == call.realLimit
    ensures r == Error(AssertionFailed) <==> !old(Takes(broker, call))
    ensures r == Error(AssertionFailed) ==> broker.log == old(broker.log)
    ensures r.Error? && r.fault != AssertionFailed ==> r.fault == SystemFailure && !broker.Running()
  {
    hide AllAnswers, B.BrokerImpl.Valid, B.BrokerImpl.Running;
    match call {
      case BeginDefault(_) => r, e := PerformBegin(broker, call);
      case BeginWith(_, _) => r, e := PerformBegin(broker, call);
      case BeginLimited(_, _, _, _) => r, e := PerformBegin(broker, call);
      case EndDefault(id) => r, e := PerformEnd(broker, id, false);
      case EndWith(id, discard) => r, e := PerformEnd(broker, id, discard);
      case SendMessage(id, msg) => r, e := PerformSend(broker, id, msg);
      case Kill(id) => r, e := PerformTerminate(broker, id);
    }
  }

  // The result records of a list of results.
  function ResultLines(rs: seq<Result>): Bytes {
    if rs == [] then [] else ResultLine(rs[0]) + ResultLines(rs[1..])
  }

  lemma {:induction false} ResultLinesConcat(a: seq<Result>, b: seq<Result>)
    ensures ResultLines(a + b) == ResultLines(a) + ResultLines(b)
    decreases |a|
  {
    hide ResultLine;
    if a == [] {
      assert a + b == b;
    } else {
      assert (a + b)[1..] == a[1..] + b;
      ResultLinesConcat(a[1..], b);
    }
  }

  // The broker's log and output after serving calls: one entry for each, and one result record
  // for each result, in order.
  ghost predicate Served(broker: B.BrokerImpl, calls: seq<Call>, output: Bytes)
    reads broker, broker.Footprint()
  {
    && broker.Valid() && broker.Running()
    && CarriesAll(broker.defaultArgument, broker.defaultLimits, calls, broker.log)
    && output == ResultLines(AllAnswers(broker.lib, broker.start, broker.log))
  }

  lemma CarriesOneMore(defaultArgument: Bytes, defaultLimits: Limits,
                       calls: seq<Call>, call: Call, log: seq<Entry>, e: Entry)
    requires Carries(defaultArgument, defaultLimits, call, e)
    ensures CarriesAll(defaultArgument, defaultLimits, calls, log) ==>
              CarriesAll(defaultArgument, defaultLimits, calls + [call], log + [e])
  {
  }

  // The call of runOnce: what is to be sent continues the output.
  method PerformNext(broker: B.BrokerImpl, call: Call, ghost calls: seq<Call>, ghost output: Bytes)
    returns (r: Parsed<seq<Result>>)
    requires broker.Valid() && broker.Running()
    modifies broker, broker.Footprint()
    ensures broker.Valid()
    ensures r.Ok? ==> |r.value| == (if HasResult(call) then 1 else 0)
    ensures r == Error(AssertionFailed) <==> !old(Takes(broker, call))
    ensures r.Error? && r.fault != AssertionFailed ==> r.fault == SystemFailure && !broker.Running()
    ensures old(Served(broker, calls, output)) ==>
              && (r.Ok? ==> Served(broker, calls + [call], output + ResultLines(r.value)))
              && (r == Error(AssertionFailed) ==> Served(broker, calls, output))
              && (r.Error? ==> output == ResultLines(AllAnswers(broker.lib, broker.start, broker.log)))
  {
    hide ResultLines, AllAnswers, CarriesAll, Takes, KillerCalls, Thawed, Project;
    ghost var before := AllAnswers(broker.lib, broker.start, broker.log);
    ghost var log := broker.log;
    ghost var e;
    r, e := Perform(broker, call);
    if r.Ok? {
      ResultLinesConcat(before, r.value);
      CarriesOneMore(broker.defaultArgument, broker.defaultLimits, calls, call, log, e);
    } else {
      assert before + [] == before;
    }
  }

  lemma ServedIsValid(broker: B.BrokerImpl, calls: seq<Call>, output: Bytes)
    ensures Served(broker, calls, output) ==>
              && broker.Valid() && broker.Running()
              && output == ResultLines(AllAnswers(broker.lib, broker.start, broker.log))
  {
  }

  lemma NoResultLines()
    ensures ResultLines([]) == []
  {
  }

  lemma OneResultLine(r: Result)
    ensures ResultLines([r]) == ResultLine(r)
  {
    hide ResultLine;
    assert [r][1..] == [];
    assert ResultLine(r) + [] == ResultLine(r);
  }

  // ---- the calls the server takes ----------------------------------------------------

  // What call asks of its solution's session.
  function AskOf(defaultArgument: Bytes, call: Call): SessionCall {
    match call
    case BeginDefault(_) => CallBegin(defaultArgument)
    case BeginWith(_, arg) => CallBegin(arg)
    case BeginLimited(_, arg, _, _) => CallBegin(arg)
    case SendMessage(_, msg) => CallSend(msg)
    case EndDefault(_) => CallEnd
    case EndWith(_, _) => CallEnd
    case Kill(_) => CallTerminate
  }

  function Asked(defaultArgument: Bytes, calls: seq<Call>, id: nat): seq<SessionCall>
    decreases |calls|
  {
    if calls == [] then []
    else
      Asked(defaultArgument, Front(calls), id) +
      (if Last(calls).id == id then [AskOf(defaultArgument, Last(calls))] else [])
  }

  lemma FrontCarries(defaultArgument: Bytes, defaultLimits: Limits, calls: seq<Call>, log: seq<Entry>)
    requires CarriesAll(defaultArgument, defaultLimits, calls, log) && log != []
    ensures CarriesAll(defaultArgument, defaultLimits, Front(calls), Front(log))
    ensures Carries(defaultArgument, defaultLimits, Last(calls), Last(log))
  {
    assert forall i | 0 <= i < |log| - 1 :: Carries(defaultArgument, defaultLimits, calls[i], log[i]);
    assert Carries(defaultArgument, defaultLimits, calls[|log| - 1], log[|log| - 1]);
  }

  lemma {:induction false} AskedIsProjected(defaultArgument: Bytes, defaultLimits: Limits,
                                            calls: seq<Call>, log: seq<Entry>, id: nat)
    requires CarriesAll(defaultArgument, defaultLimits, calls, log)
    ensures Calls(Project(log, id)) == Asked(defaultArgument, calls, id)
    decreases |log|
  {
    if log != [] {
      FrontCarries(defaultArgument, defaultLimits, calls, log);
      AskedIsProjected(defaultArgument, defaultLimits, Front(calls), Front(log), id);
      var alone := Project(Front(log), id);
      if Last(log).id == id {
        assert Front(alone + [Last(log).op]) == alone && Last(alone + [Last(log).op]) == Last(log).op;
      } else {
        assert Project(log, id) == alone;
        assert Asked(defaultArgument, calls, id) == Asked(defaultArgument, Front(calls), id);
      }
    }
  }

  predicate ForSolutions(calls: seq<Call>, n: nat) {
    forall i | 0 <= i < |calls| :: calls[i].id < n
  }

  // The calls are for existing solutions, and permitted for each of them.
  predicate AllPermitted(lib: Library, defaultArgument: Bytes, calls: seq<Call>, n: nat) {
    ForSolutions(calls, n) && forall i: nat | i < n :: Permitted(lib, Asked(defaultArgument, calls, i))
  }

  lemma AskedSnoc(defaultArgument: Bytes, calls: seq<Call>, call: Call, id: nat)
    ensures var asked := Asked(defaultArgument, calls, id);
            Asked(defaultArgument, calls + [call], id) ==
            if call.id == id then asked + [AskOf(defaultArgument, call)] else asked
  {
    assert Front(calls + [call]) == calls && Last(calls + [call]) == call;
  }

  lemma PermittedSnoc(lib: Library, defaultArgument: Bytes, calls: seq<Call>, call: Call, n: nat)
    ensures AllPermitted(lib, defaultArgument, calls + [call], n) <==>
            && AllPermitted(lib, defaultArgument, calls, n) && call.id < n
            && Permitted(lib, Asked(defaultArgument, calls, call.id) + [AskOf(defaultArgument, call)])
  {
    var all := calls + [call];
    var asked, ask := Asked(defaultArgument, calls, call.id), AskOf(defaultArgument, call);
    assert Front(asked + [ask]) == asked;
    forall i: nat
      ensures Asked(defaultArgument, all, i) ==
              if call.id == i then asked + [ask] else Asked(defaultArgument, calls, i)
    {
      AskedSnoc(defaultArgument, calls, call, i);
    }
    assert ForSolutions(all, n) <==> ForSolutions(calls, n) && call.id < n by {
      assert all[|calls|] == call && forall i | 0 <= i < |calls| :: all[i] == calls[i];
    }
  }

  lemma {:induction false} PermittedPrefix(lib: Library, defaultArgument: Bytes, calls: seq<Call>, k: nat, n: nat)
    requires k <= |calls| && AllPermitted(lib, defaultArgument, calls, n)
    ensures AllPermitted(lib, defaultArgument, calls[..k], n)
    decreases |calls|
  {
    if k == |calls| {
      assert calls[..k] == calls;
    } else {
      assert calls == Front(calls) + [Last(calls)];
      PermittedSnoc(lib, defaultArgument, Front(calls), Last(calls), n);
      PermittedPrefix(lib, defaultArgument, Front(calls), k, n);
      assert Front(calls)[..k] == calls[..k];
    }
  }

  lemma SolutionIsPermitted(broker: B.BrokerImpl, calls: seq<Call>, i: nat)
    ensures broker.Valid() && CarriesAll(broker.defaultArgument, broker.defaultLimits, calls, broker.log) &&
            i < |broker.solutions| ==>
              && Permitted(broker.lib, Asked(broker.defaultArgument, calls, i))
              && (broker.solutions[i].tokenizer.Some? <==> Active(Asked(broker.defaultArgument, calls, i)))
  {
    hide CarriesAll;
    if broker.Valid() && CarriesAll(broker.defaultArgument, broker.defaultLimits, calls, broker.log) &&
       i < |broker.solutions| {
      Projection(broker.lib, broker.start, broker.log, i);
      assert broker.Follows(i);
      AskedIsProjected(broker.defaultArgument, broker.defaultLimits, calls, broker.log, i);
      LegalIsPermitted(broker.lib, broker.start[i], Project(broker.log, i));
    }
  }

  lemma CarriedInRange(defaultArgument: Bytes, defaultLimits: Limits, calls: seq<Call>, log: seq<Entry>, n: nat)
    requires CarriesAll(defaultArgument, defaultLimits, calls, log) && InRange(log, n)
    ensures ForSolutions(calls, n)
  {
    forall i | 0 <= i < |calls|
      ensures calls[i].id < n
    {
      assert Carries(defaultArgument, defaultLimits, calls[i], log[i]) && log[i].id < n;
    }
  }

  // After any calls that were served, the broker takes exactly the permitted ones.
  lemma TakesWhatIsPermitted(broker: B.BrokerImpl, calls: seq<Call>, output: Bytes, call: Call)
    ensures Served(broker, calls, output) ==>
              && AllPermitted(broker.lib, broker.defaultArgument, calls, |broker.solutions|)
              && (Takes(broker, call) <==>
                    AllPermitted(broker.lib, broker.defaultArgument, calls + [call], |broker.solutions|))
  {
    hide CarriesAll, ForSolutions;
    if Served(broker, calls, output) {
      var d, n := broker.defaultArgument, |broker.solutions|;
      forall i: nat | i < n
        ensures Permitted(broker.lib, Asked(d, calls, i))
      {
        SolutionIsPermitted(broker, calls, i);
      }
      CarriedInRange(d, broker.defaultLimits, calls, broker.log, n);
      PermittedSnoc(broker.lib, d, calls, call, n);
      if call.id < n {
        SolutionIsPermitted(broker, calls, call.id);
        var asked, ask := Asked(d, calls, call.id), AskOf(d, call);
        assert Front(asked + [ask]) == asked && Last(asked + [ask]) == ask;
      }
    }
  }

  // ---- serving -----------------------------------------------------------------------

  // recvCommand and the dispatch of runOnce.
  method Receive(iface: TextInterface) returns (r: Parsed<Call>)
    modifies iface.input
    ensures match Serve(old(iface.input.text))
            case Error(fault) => r == Error(fault)
            case Ok(got) => r == Ok(got.value) && iface.input.text == got.rest
  {
    var command :- iface.RecvCommand();
    var call :- Dispatch(command);
    return Ok(call);
  }

  // The rest of runOnce: make the call, and send back what end returned.
  method Execute(iface: TextInterface, broker: B.BrokerImpl, call: Call, ghost calls: seq<Call>)
    returns (r: Parsed<Call>)
    requires broker.Valid() && broker.Running()
    modifies iface.output, broker, broker.Footprint()
    ensures broker.Valid()
    ensures r.Error? && r.fault != AssertionFailed ==> r.fault == SystemFailure && !broker.Running()
    ensures r.Ok? ==> r == Ok(call)
    ensures old(Served(broker, calls, iface.output.text)) ==>
              && (r.Ok? ==> Served(broker, calls + [call], iface.output.text))
              && (r == Error(AssertionFailed) <==>
                    !AllPermitted(broker.lib, broker.defaultArgument, calls + [call], |broker.solutions|))
              && (r == Error(AssertionFailed) ==> Served(broker, calls, iface.output.text))
              && (r.Error? ==> iface.output.text == ResultLines(AllAnswers(broker.lib, broker.start, broker.log)))
  {
    hide ResultLines, ResultLine, AllAnswers, AllPermitted, Takes;
    hide B.BrokerImpl.Valid, B.BrokerImpl.Running, Served;
    ghost var output := iface.output.text;
    TakesWhatIsPermitted(broker, calls, output, call);
    var results :- PerformNext(broker, call, calls, output);
    NoResultLines();
    if results != [] {
      OneResultLine(results[0]);
      assert results == [results[0]];
      iface.SendResult(results[0]);
    } else {
      assert output + [] == output;
    }
    return Ok(call);
  }

  // runOnce on the broker object.
  method RunOnce(iface: TextInterface, broker: B.BrokerImpl, ghost calls: seq<Call>) returns (r: Parsed<Call>)
    requires iface.input != iface.output
    requires Served(broker, calls, iface.output.text)
    modifies iface.input, iface.output, broker, broker.Footprint()
    ensures broker.Valid()
    ensures match Serve(old(iface.input.text))
            case Error(fault) =>
              && r == Error(fault) && iface.output.text == old(iface.output.text)
              && Served(broker, calls, iface.output.text)
            case Ok(got) =>
              && (r.Ok? ==> r == Ok(got.value) && iface.input.text == got.rest)
              && (r.Ok? ==> Served(broker, calls + [got.value], iface.output.text))
              && (r == Error(AssertionFailed) <==>
                    !AllPermitted(broker.lib, broker.defaultArgument, calls + [got.value], |broker.solutions|))
              && (r == Error(AssertionFailed) ==> Served(broker, calls, iface.output.text))
              && (r.Error? && r.fault != AssertionFailed ==> r.fault == SystemFailure && !broker.Running())
              && (r.Error? ==> iface.output.text == ResultLines(AllAnswers(broker.lib, broker.start, broker.log)))
  {
    hide ResultLines, ResultLine, Serve, AllAnswers, AllPermitted, Takes;
    hide B.BrokerImpl.Valid, B.BrokerImpl.Running, Served;
    ServedIsValid(broker, calls, iface.output.text);
    var call :- Receive(iface);
    r := Execute(iface, broker, call, calls);
  }

  // ---- from the judge to the solutions and back --------------------------------------

  // What one more call makes a reader say.
  function Said(lib: Library, rd: Reader, ask: SessionCall): seq<Result> {
    ReadStep(lib, rd, ask).results[|rd.results|..]
  }

  // The results of calls if every solution were read by a plain reader of its output.
  function Expected(lib: Library, defaultArgument: Bytes, ws: seq<World>, calls: seq<Call>): seq<Result>
    requires ForSolutions(calls, |ws|)
    decreases |calls|
  {
    if calls == [] then []
    else
      var id := calls[|calls| - 1].id;
      Expected(lib, defaultArgument, ws, Front(calls)) +
      Said(lib, ReadStream(lib, ws[id].unread, Asked(defaultArgument, Front(calls), id)),
           AskOf(defaultArgument, Last(calls)))
  }

  // One operation returns what the reader of its solution says.
  lemma AnswerIsSaid(lib: Library, limits: Limits, stream: Bytes, ops: seq<Op>)
    requires NeverFails(lib) && ops != []
    requires Run(lib, Start(limits, stream), ops).Some? && NothingDropped(lib, Start(limits, stream), ops)
    ensures AnswerOf(lib, Run(lib, Start(limits, stream), Front(ops)).value, Last(ops)) ==
            Said(lib, ReadStream(lib, stream, Calls(Front(ops))), CallOf(Last(ops)))
  {
    RunRefinesReader(lib, limits, stream, Front(ops));
    RunRefinesReader(lib, limits, stream, ops);
    ReaderNeverJams(lib, stream, Calls(Front(ops)));
    ReaderNeverJams(lib, stream, Calls(ops));
    assert Front(Calls(ops)) == Calls(Front(ops)) && Last(Calls(ops)) == CallOf(Last(ops));
  }

  // Nothing of any solution's output has been dropped.
  predicate Undropped(lib: Library, ws: seq<World>, log: seq<Entry>) {
    forall i | 0 <= i < |ws| :: NothingDropped(lib, ws[i], Project(log, i))
  }

  // All solutions are as a new broker has them.
  ghost predicate New(ws: seq<World>) {
    forall i | 0 <= i < |ws| :: ws[i] == Start(ws[i].session.limits, ws[i].unread)
  }

  lemma FrontIsUndropped(lib: Library, ws: seq<World>, log: seq<Entry>)
    requires log != [] && Undropped(lib, ws, log)
    ensures Undropped(lib, ws, Front(log))
  {
    forall i | 0 <= i < |ws|
      ensures NothingDropped(lib, ws[i], Project(Front(log), i))
    {
      var alone := Project(Front(log), i);
      assert NothingDropped(lib, ws[i], Project(log, i));
      if Last(log).id == i {
        assert Project(log, i) == alone + [Last(log).op];
        assert Front(Project(log, i)) == alone;
      } else {
        assert Project(log, i) == alone;
      }
    }
  }

  lemma LastAnswerIsExpected(lib: Library, defaultArgument: Bytes, defaultLimits: Limits,
                             ws: seq<World>, calls: seq<Call>, log: seq<Entry>)
    requires NeverFails(lib) && New(ws) && Undropped(lib, ws, log) && log != []
    requires CarriesAll(defaultArgument, defaultLimits, calls, log) && RunAll(lib, ws, log).Some?
    ensures var e := Last(log);
            && e.id == Last(calls).id < |ws|
            && AnswerOf(lib, RunAll(lib, ws, Front(log)).value[e.id], e.op) ==
               Said(lib, ReadStream(lib, ws[e.id].unread, Asked(defaultArgument, Front(calls), e.id)),
                    AskOf(defaultArgument, Last(calls)))
  {
    var e := Last(log);
    var alone := Project(Front(log), e.id);
    FrontCarries(defaultArgument, defaultLimits, calls, log);
    AskedIsProjected(defaultArgument, defaultLimits, Front(calls), Front(log), e.id);
    Projection(lib, ws, Front(log), e.id);
    Projection(lib, ws, log, e.id);
    assert Project(log, e.id) == alone + [e.op];
    assert Front(alone + [e.op]) == alone && Last(alone + [e.op]) == e.op;
    hide RunAll, Run, NothingDropped, ReadStep, Said, AnswerOf, Exec, Legal;
    assert NothingDropped(lib, ws[e.id], Project(log, e.id));
    assert CallOf(e.op) == AskOf(defaultArgument, Last(calls));
    AnswerIsSaid(lib, ws[e.id].session.limits, ws[e.id].unread, alone + [e.op]);
  }

  // The results of a whole log, over all solutions and in the order of the calls, are the
  // expected ones.
  lemma {:induction false} AnswersAreExpected(lib: Library, defaultArgument: Bytes, defaultLimits: Limits,
                                              ws: seq<World>, calls: seq<Call>, log: seq<Entry>)
    requires NeverFails(lib) && New(ws) && Undropped(lib, ws, log) && ForSolutions(calls, |ws|)
    requires CarriesAll(defaultArgument, defaultLimits, calls, log) && RunAll(lib, ws, log).Some?
    ensures AllAnswers(lib, ws, log) == Expected(lib, defaultArgument, ws, calls)
    decreases |log|
  {
    if log != [] {
      FrontCarries(defaultArgument, defaultLimits, calls, log);
      FrontIsUndropped(lib, ws, log);
      assert ForSolutions(Front(calls), |ws|);
      AnswersAreExpected(lib, defaultArgument, defaultLimits, ws, Front(calls), Front(log));
      LastAnswerIsExpected(lib, defaultArgument, defaultLimits, ws, calls, log);
    }
  }

  // ---- the judge reads its results ---------------------------------------------------

  // The length of the line that readline returns.
  function LineLength(text: Bytes): (n: nat)
    ensures n <= |text|
  {
    if text == [] then 0 else if text[0] == '\n' then 1 else 1 + LineLength(text[1..])
  }

  // n results as the judge reads them: a line, split, each time.
  function JudgeReads(text: Bytes, n: nat): seq<Parsed<seq<Bytes>>> {
    if n == 0 then []
    else
      var k := LineLength(text);
      [SplitFrom(text[..k], Init, [], [])] + JudgeReads(text[k..], n - 1)
  }

  function StatusAndData(rs: seq<Result>): seq<Parsed<seq<Bytes>>> {
    if rs == [] then [] else [Parsed.Ok([StatusName(rs[0].status), rs[0].data])] + StatusAndData(rs[1..])
  }

  lemma {:induction false} LineEndsAtNewline(line: Bytes, rest: Bytes)
    requires OneLine(line)
    ensures LineLength(line + rest) == |line|
    decreases |line|
  {
    assert (line + rest)[1..] == line[1..] + rest;
    if |line| > 1 {
      RestIsOneLine(line);
      LineEndsAtNewline(line[1..], rest);
    }
  }

  lemma {:induction false} JudgeReadsResultLines(rs: seq<Result>)
    ensures JudgeReads(ResultLines(rs), |rs|) == StatusAndData(rs)
    decreases |rs|
  {
    hide ResultLine, SplitFrom, OneLine, LineLength;
    if rs != [] {
      var line, more := ResultLine(rs[0]), ResultLines(rs[1..]);
      ResultLineIsOneLine(rs[0]);
      LineEndsAtNewline(line, more);
      JudgeReadsResults(rs[0]);
      assert (line + more)[..|line|] == line && (line + more)[|line|..] == more;
      JudgeReadsResultLines(rs[1..]);
    }
  }

  // The judge has, in the order of its calls, the status and data that plain readers of the
  // solutions' outputs give.
  ghost predicate JudgeHas(lib: Library, defaultArgument: Bytes, ws: seq<World>, calls: seq<Call>, output: Bytes) {
    && ForSolutions(calls, |ws|)
    && var expected := Expected(lib, defaultArgument, ws, calls);
       JudgeReads(output, |expected|) == StatusAndData(expected)
  }

  // From the log of the calls to what the judge splits off the output, with a tokenizer that
  // never fails and nothing dropped.
  lemma JudgeGetsTheTokens(lib: Library, defaultArgument: Bytes, defaultLimits: Limits,
                           ws: seq<World>, calls: seq<Call>, log: seq<Entry>)
    requires NeverFails(lib) && New(ws) && Undropped(lib, ws, log)
    requires CarriesAll(defaultArgument, defaultLimits, calls, log)
    requires RunAll(lib, ws, log).Some? && InRange(log, |ws|)
    ensures JudgeHas(lib, defaultArgument, ws, calls, ResultLines(AllAnswers(lib, ws, log)))
  {
    CarriedInRange(defaultArgument, defaultLimits, calls, log, |ws|);
    AnswersAreExpected(lib, defaultArgument, defaultLimits, ws, calls, log);
    JudgeReadsResultLines(AllAnswers(lib, ws, log));
  }

  // ---- the broker process ------------------------------------------------------------

  // Everything the judge prints for a list of calls.
  function PrintedAll(calls: seq<Call>): Bytes {
    if calls == [] then [] else Printed(calls[0]) + PrintedAll(calls[1..])
  }

  lemma NothingToServe()
    ensures Serve([]) == Error(EndOfFile)
  {
  }

  // What the server receives after n calls.
  lemma NextIsUnderstood(calls: seq<Call>, n: nat)
    requires n <= |calls|
    ensures Serve(PrintedAll(calls[n..])) ==
            if n == |calls| then Error(EndOfFile) else Ok(Received(Made(calls[n]), PrintedAll(calls[n + 1..])))
    ensures var made := AllMade(calls);
            if n == |calls| then made[..n] == made else made[..n] + [Made(calls[n])] == made[..n + 1]
  {
    hide Serve, Printed, AllMade;
    if n == |calls| {
      NothingToServe();
    } else {
      assert calls[n..][1..] == calls[n + 1..];
      JudgeIsUnderstood(calls[n], PrintedAll(calls[n + 1..]));
    }
  }

  lemma ServedNothing(broker: B.BrokerImpl)
    requires broker.Valid() && broker.log == []
    ensures Served(broker, [], [])
  {
  }

  lemma ServedIsRead(broker: B.BrokerImpl, calls: seq<Call>, output: Bytes)
    ensures Served(broker, calls, output) ==>
              NeverFails(broker.lib) && Undropped(broker.lib, broker.start, broker.log) ==>
                JudgeHas(broker.lib, broker.defaultArgument, broker.start, calls, output)
  {
    if Served(broker, calls, output) && NeverFails(broker.lib) && Undropped(broker.lib, broker.start, broker.log) {
      JudgeGetsTheTokens(broker.lib, broker.defaultArgument, broker.defaultLimits, broker.start, calls, broker.log);
    }
  }

  // main: serve what the judge prints. The server reaches the end of its input if and only if
  // the calls are permitted and no SystemError is thrown; then every call has been made, in
  // order, and every result has been sent.
  method ServeJudge(iface: TextInterface, broker: B.BrokerImpl, ghost calls: seq<Call>) returns (fault: Fault)
    requires iface.input != iface.output && broker.Valid() && broker.log == []
    requires iface.input.text == PrintedAll(calls) && iface.output.text == []
    modifies iface.input, iface.output, broker, broker.Footprint()
    ensures broker.Valid()
    ensures iface.output.text == ResultLines(AllAnswers(broker.lib, broker.start, broker.log))
    ensures fault == EndOfFile ==> Served(broker, AllMade(calls), iface.output.text)
    // End to end: what the judge splits off its input is what plain readers give.
    ensures fault == EndOfFile && NeverFails(broker.lib) && Undropped(broker.lib, broker.start, broker.log) ==>
              JudgeHas(broker.lib, broker.defaultArgument, broker.start, AllMade(calls), iface.output.text)
    ensures fault == EndOfFile <==>
            && broker.Running()
            && AllPermitted(broker.lib, broker.defaultArgument, AllMade(calls), |broker.solutions|)
    ensures fault == SystemFailure <==> !broker.Running()
    ensures fault == EndOfFile || fault == AssertionFailed || fault == SystemFailure
  {
    hide Serve, PrintedAll, ResultLines, NeverFails, Undropped, JudgeHas, AllPermitted, AllAnswers, AllMade;
    hide B.BrokerImpl.Valid, B.BrokerImpl.Running, Served;
    ghost var n, made := 0, AllMade(calls);
    assert made[..0] == [] && calls[0..] == calls;
    ServedNothing(broker);
    while true
      invariant 0 <= n <= |calls| && iface.input.text == PrintedAll(calls[n..])
      invariant Served(broker, made[..n], iface.output.text)
      decreases |calls| - n
    {
      NextIsUnderstood(calls, n);
      TakesWhatIsPermitted(broker, made[..n], iface.output.text, Kill(0));
      var r := RunOnce(iface, broker, made[..n]);
      if r.Error? {
        ServedIsValid(broker, made[..n], iface.output.text);
        ServedIsRead(broker, made[..n], iface.output.text);
        if n < |calls| && AllPermitted(broker.lib, broker.defaultArgument, made, |broker.solutions|) {
          PermittedPrefix(broker.lib, broker.defaultArgument, made, n + 1, |broker.solutions|);
        }
        return r.fault;
      }
      n := n + 1;
    }
  }
}
