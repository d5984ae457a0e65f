// src/lib/BrokerInterface.cpp over src/lib/BrokerTextInterface.cpp: the client stubs and the
// server side of the remote broker.
module BrokerInterface {
  import opened Basics
  import opened Sessions
  import opened TextCodec
  import opened Archives
  import opened Decimal

  datatype Kind = BEGIN | SEND | END | TERMINATE

  datatype Command = Command(kind: Kind, id: SolutionId, args: seq<Bytes>)

  // A call as a client makes it. EndDefault leaves discardRemaining to its default.
  datatype Call =
    | BeginDefault(id: SolutionId)
    | BeginWith(id: SolutionId, arg: Bytes)
    | BeginLimited(id: SolutionId, arg: Bytes, userLimit: Millis, realLimit: Millis)
    | SendMessage(id: SolutionId, msg: Bytes)
    | EndDefault(id: SolutionId)
    | EndWith(id: SolutionId, discardRemaining: bool)
    | Kill(id: SolutionId)

  // The call that reaches the broker's virtual functions.
  function Made(call: Call): Call {
    if call.EndDefault? then EndWith(call.id, false) else call
  }

  predicate HasResult(call: Call) {
    call.EndDefault? || call.EndWith?
  }

  // Any broker: what end() returns is a function of the calls made so far.
  class Broker {
    const answer: seq<Call> -> Result
    var calls: seq<Call>

    constructor (answer: seq<Call> -> Result)
      ensures this.answer == answer && calls == []
    {
      this.answer, calls := answer, [];
    }

    method Invoke(call: Call) returns (r: Result)
      modifies this
      ensures calls == old(calls) + [call] && r == answer(calls)
    {
      calls := calls + [call];
      r := answer(calls);
    }
  }

  // ---- names of enumerators ----------------------------------------------------------

  function KindName(k: Kind): Bytes {
    match k
    case BEGIN => "BEGIN"
    case SEND => "SEND"
    case END => "END"
    case TERMINATE => "TERMINATE"
  }

  function CastKind(s: Bytes): Parsed<Kind> {
    if s == "BEGIN" then Ok(BEGIN)
    else if s == "SEND" then Ok(SEND)
    else if s == "END" then Ok(END)
    else if s == "TERMINATE" then Ok(TERMINATE)
    else Error(BadCast)
  }

  function StatusName(s: Status): Bytes {
    match s
    case OK => "OK"
    case TOKENIZER_ERROR => "TOKENIZER_ERROR"
    case EOF_ERROR => "EOF_ERROR"
    case TIME_LIMIT_EXCEEDED => "TIME_LIMIT_EXCEEDED"
    case REAL_TIME_LIMIT_EXCEEDED => "REAL_TIME_LIMIT_EXCEEDED"
  }

  function CastStatus(s: Bytes): Parsed<Status> {
    if s == "OK" then Ok(OK)
    else if s == "TOKENIZER_ERROR" then Ok(TOKENIZER_ERROR)
    else if s == "EOF_ERROR" then Ok(EOF_ERROR)
    else if s == "TIME_LIMIT_EXCEEDED" then Ok(TIME_LIMIT_EXCEEDED)
    else if s == "REAL_TIME_LIMIT_EXCEEDED" then Ok(REAL_TIME_LIMIT_EXCEEDED)
    else Error(BadCast)
  }

  // ---- records of the protocol -------------------------------------------------------

  function CommandLine(c: Command): Bytes {
    Line([KindName(c.kind), NatText(c.id)] + c.args)
  }

  function ResultLine(r: Result): Bytes {
    Line([StatusName(r.status), r.data])
  }

  datatype Received<T> = Received(value: T, rest: Bytes)

  // The id and the arguments of a command.
  function ReadTail(kind: Kind, input: Bytes): (r: Parsed<Received<Command>>)
    ensures r.Ok? ==> |r.value.rest| < |input|
  {
    var field :- ReadField(input, Init, []);
    var id :- CastId(field.text);
    if field.last then Ok(Received(Command(kind, id, []), field.rest))
    else
      var args :- ReadVector(field.rest, []);
      Ok(Received(Command(kind, id, args.list), args.rest))
  }

  function ReadCommand(input: Bytes): (r: Parsed<Received<Command>>)
    ensures r.Ok? ==> |r.value.rest| < |input|
  {
    var field :- ReadField(input, Init, []);
    var kind :- CastKind(field.text);
    if field.last then Error(EndOfFile) else ReadTail(kind, field.rest)
  }

  function ReadResult(input: Bytes): (r: Parsed<Received<Result>>)
    ensures r.Ok? ==> |r.value.rest| < |input|
  {
    var first :- ReadField(input, Init, []);
    var status :- CastStatus(first.text);
    if first.last then Error(EndOfFile)
    else
      var second :- ReadField(first.rest, Init, []);
      Ok(Received(Result(status, second.text), second.rest))
  }

  // ---- stubs and dispatch ------------------------------------------------------------

  function CommandOf(call: Call): Command {
    match call
    case BeginDefault(id) => Command(BEGIN, id, [])
    case BeginWith(id, arg) => Command(BEGIN, id, [arg])
    case BeginLimited(id, arg, user, realTime) => Command(BEGIN, id, [arg, IntText(user), IntText(realTime)])
    case SendMessage(id, msg) => Command(SEND, id, [msg])
    case EndDefault(id) => Command(END, id, [])
    case EndWith(id, discard) => Command(END, id, [BoolText(discard)])
    case Kill(id) => Command(TERMINATE, id, [])
  }

  function Dispatch(c: Command): Parsed<Call> {
    match c.kind
    case BEGIN =>
      if |c.args| == 0 then Ok(BeginDefault(c.id))
      else if |c.args| == 1 then Ok(BeginWith(c.id, c.args[0]))
      else if |c.args| == 3 then
        var user :- CastMillis(c.args[1]);
        var realTime :- CastMillis(c.args[2]);
        Ok(BeginLimited(c.id, c.args[0], user, realTime))
      else Error(AssertionFailed)
    case SEND =>
      if |c.args| == 1 then Ok(SendMessage(c.id, c.args[0])) else Error(AssertionFailed)
    case END =>
      if |c.args| == 0 then Ok(EndWith(c.id, false))
      else if |c.args| == 1 then
        var discard :- CastBool(c.args[0]);
        Ok(EndWith(c.id, discard))
      else Error(AssertionFailed)
    case TERMINATE =>
      if |c.args| == 0 then Ok(Kill(c.id)) else Error(AssertionFailed)
  }

  // What one runOnce does with its input: the call it makes, and what it leaves unread.
  function Serve(input: Bytes): (r: Parsed<Received<Call>>)
    ensures r.Ok? ==> |r.value.rest| < |input|
  {
    var command :- ReadCommand(input);
    var call :- Dispatch(command.value);
    Ok(Received(call, command.rest))
  }

  class TextInterface {
    const input: Channel
    const output: Channel

    constructor (input: Channel, output: Channel)
      requires input != output
      ensures this.input == input && this.output == output
    {
      this.input, this.output := input, output;
    }

    method SendCommand(c: Command)
      modifies output
      ensures output.text == old(output.text) + CommandLine(c)
    {
      var oa := new OutputArchive(output);
      oa.Print(KindName(c.kind));
      oa.Print(NatText(c.id));
      oa.PrintAll(c.args);
      assert oa.written == [KindName(c.kind), NatText(c.id)] + c.args;
      oa.Close();
    }

    method SendResult(r: Result)
      modifies output
      ensures output.text == old(output.text) + ResultLine(r)
    {
      var oa := new OutputArchive(output);
      oa.Print(StatusName(r.status));
      oa.Print(r.data);
      assert oa.written == [StatusName(r.status), r.data];
      oa.Close();
    }

    method RecvCommand() returns (r: Parsed<Command>)
      modifies input
      ensures match ReadCommand(old(input.text))
              case Error(fault) => r == Error(fault)
              case Ok(got) => r == Ok(got.value) && input.text == got.rest
    {
      var ia := new InputArchive(input);
      var kindText :- ia.Read();
      var kind :- CastKind(kindText);
      var idText :- ia.Read();
      var id :- CastId(idText);
      var args :- ia.ReadAll();
      return Ok(Command(kind, id, args));
    }

    method RecvResult() returns (r: Parsed<Result>)
      modifies input
      ensures match ReadResult(old(input.text))
              case Error(fault) => r == Error(fault)
              case Ok(got) => r == Ok(got.value) && input.text == got.rest
    {
      var ia := new InputArchive(input);
      var statusText :- ia.Read();
      var status :- CastStatus(statusText);
      var data :- ia.Read();
      return Ok(Result(status, data));
    }

    // The client stub of any call but end.
    method Request(call: Call)
      modifies output
      ensures output.text == old(output.text) + CommandLine(CommandOf(call))
    {
      SendCommand(CommandOf(call));
    }

    // The client stub of end, given the reply that is in input by the time it is read.
    method RequestResult(call: Call) returns (r: Parsed<Result>)
      requires HasResult(call) && input != output
      modifies input, output
      ensures output.text == old(output.text) + CommandLine(CommandOf(call))
      ensures match ReadResult(old(input.text))
              case Error(fault) => r == Error(fault)
              case Ok(got) => r == Ok(got.value) && input.text == got.rest
    {
      Request(call);
      r := RecvResult();
    }

    // runOnce: receive a command, make the call, and send back what end returned.
    method RunOnce(broker: Broker) returns (r: Parsed<Call>)
      requires input != output
      modifies input, output, broker
      ensures match Serve(old(input.text))
              case Error(fault) =>
                r == Error(fault) && broker.calls == old(broker.calls) && output.text == old(output.text)
              case Ok(got) =>
                && r == Ok(got.value) && input.text == got.rest
                && broker.calls == old(broker.calls) + [got.value]
                && output.text == old(output.text) +
                     (if got.value.EndWith? then ResultLine(broker.answer(broker.calls)) else [])
    {
      var command :- RecvCommand();
      var call :- Dispatch(command);
      var result := broker.Invoke(call);
      if HasResult(call) {
        SendResult(result);
      }
      return Ok(call);
    }
  }

  // ---- transparency ------------------------------------------------------------------

  lemma TailReadsBack(c: Command, input: Bytes, rest: Bytes)
    requires input == Line([NatText(c.id)] + c.args) + rest
    ensures ReadTail(c.kind, input) == Ok(Received(c, rest))
  {
    hide ReadField, Line, ReadVector, CastId, NatText;
    FirstFieldReadsBack(input, NatText(c.id), c.args, rest);
    IdReadsBack(c.id);
    if c.args != [] {
      PrintedLineReadsBack(Line(c.args) + rest, c.args, rest, []);
      assert [] + c.args == c.args;
    }
  }

  lemma CommandReadsBack(c: Command, rest: Bytes)
    ensures ReadCommand(CommandLine(c) + rest) == Ok(Received(c, rest))
  {
    hide ReadField, Line, ReadTail;
    var kind, tail := KindName(c.kind), [NatText(c.id)] + c.args;
    assert [kind, NatText(c.id)] + c.args == [kind] + tail;
    FirstFieldReadsBack(CommandLine(c) + rest, kind, tail, rest);
    TailReadsBack(c, Line(tail) + rest, rest);
  }

  lemma ResultReadsBack(r: Result, rest: Bytes)
    ensures ReadResult(ResultLine(r) + rest) == Ok(Received(r, rest))
  {
    hide ReadField, Line;
    var status := StatusName(r.status);
    var input := ResultLine(r) + rest;
    assert [status, r.data] == [status] + [r.data] && [r.data] == [r.data] + [];
    FirstFieldReadsBack(input, status, [r.data], rest);
    FirstFieldReadsBack(Line([r.data]) + rest, r.data, [], rest);
  }

  lemma StubIsDispatched(call: Call)
    ensures Dispatch(CommandOf(call)) == Ok(Made(call))
  {
    match call
    case BeginLimited(_, _, user, realTime) =>
      MillisReadsBack(user);
      MillisReadsBack(realTime);
    case _ =>
  }

  // A command is dispatched exactly if its kind takes so many arguments and they can be cast;
  // then the call has its id and its arguments.
  lemma DispatchIsExact(c: Command)
    ensures match Dispatch(c)
            case Error(fault) =>
              && (c.kind == BEGIN ==>
                    |c.args| !in {0, 1, 3} ||
                    (|c.args| == 3 && (CastMillis(c.args[1]).Error? || CastMillis(c.args[2]).Error?)))
              && (c.kind == SEND ==> |c.args| != 1)
              && (c.kind == END ==> |c.args| > 1 || (|c.args| == 1 && c.args[0] !in {"0", "1"}))
              && (c.kind == TERMINATE ==> |c.args| != 0)
              && fault == if (c.kind, |c.args|) in {(BEGIN, 3), (END, 1)} then BadCast else AssertionFailed
            case Ok(call) =>
              call.id == c.id &&
              match call
              case BeginDefault(_) => c.kind == BEGIN && c.args == []
              case BeginWith(_, arg) => c.kind == BEGIN && c.args == [arg]
              case BeginLimited(_, arg, user, realTime) =>
                && c.kind == BEGIN && |c.args| == 3 && c.args[0] == arg
                && CastMillis(c.args[1]) == Ok(user) && CastMillis(c.args[2]) == Ok(realTime)
              case SendMessage(_, msg) => c.kind == SEND && c.args == [msg]
              case EndDefault(_) => false
              case EndWith(_, discard) =>
                c.kind == END && (c.args == [if discard then "1" else "0"] || (c.args == [] && !discard))
              case Kill(_) => c.kind == TERMINATE && c.args == []
  {
    if |c.args| == 1 {
      assert c.args == [c.args[0]];
    }
  }

  // Exactly the names of the enumerators can be cast.
  lemma CastsAreExact(s: Bytes)
    ensures forall k :: CastKind(s) == Ok(k) <==> s == KindName(k)
    ensures forall status :: CastStatus(s) == Ok(status) <==> s == StatusName(status)
    ensures CastKind(s).Ok? || CastKind(s) == Error(BadCast)
    ensures CastStatus(s).Ok? || CastStatus(s) == Error(BadCast)
  {
  }

  // One call: the server makes exactly the call the client asked for and consumes exactly the
  // bytes the client wrote.
  lemma ServesWhatWasAsked(call: Call, rest: Bytes)
    ensures Serve(CommandLine(CommandOf(call)) + rest) == Ok(Received(Made(call), rest))
  {
    CommandReadsBack(CommandOf(call), rest);
    StubIsDispatched(call);
  }

  // The request stream of a whole client.
  function Requests(calls: seq<Call>): Bytes {
    if calls == [] then [] else CommandLine(CommandOf(calls[0])) + Requests(calls[1..])
  }

  datatype Service = Service(calls: seq<Call>, replies: Bytes)

  // runOnce until the input is used up, by a broker that has already been made some calls.
  function ServeAll(answer: seq<Call> -> Result, input: Bytes, before: seq<Call>): Parsed<Service>
    decreases |input|
  {
    if input == [] then Ok(Service([], []))
    else
      var got :- Serve(input);
      var now := before + [got.value];
      var more :- ServeAll(answer, got.rest, now);
      Ok(Service([got.value] + more.calls,
                 (if HasResult(got.value) then ResultLine(answer(now)) else []) + more.replies))
  }

  // The client reads one result for each call that has one.
  function ReadResults(calls: seq<Call>, replies: Bytes): Parsed<seq<Result>>
    decreases |calls|
  {
    if calls == [] then Ok([])
    else if !HasResult(calls[0]) then ReadResults(calls[1..], replies)
    else
      var got :- ReadResult(replies);
      var more :- ReadResults(calls[1..], got.rest);
      Ok([got.value] + more)
  }

  // The same calls made directly, without any wire.
  function Direct(answer: seq<Call> -> Result, calls: seq<Call>, before: seq<Call>): seq<Result>
    decreases |calls|
  {
    if calls == [] then []
    else
      var now := before + [Made(calls[0])];
      (if HasResult(calls[0]) then [answer(now)] else []) + Direct(answer, calls[1..], now)
  }

  function AllMade(calls: seq<Call>): (made: seq<Call>)
    ensures |made| == |calls|
    ensures forall i | 0 <= i < |calls| :: made[i] == Made(calls[i])
  {
    if calls == [] then [] else [Made(calls[0])] + AllMade(calls[1..])
  }

  // What the server sends back for calls it is made, after the calls before.
  function Replies(answer: seq<Call> -> Result, calls: seq<Call>, before: seq<Call>): Bytes
    decreases |calls|
  {
    if calls == [] then []
    else
      var now := before + [calls[0]];
      (if HasResult(calls[0]) then ResultLine(answer(now)) else []) + Replies(answer, calls[1..], now)
  }

  // For every finite list of calls, the server makes the same calls in the same order,
  // consumes every byte, and answers as its broker does.
  lemma {:induction false} ServerMakesTheCalls(answer: seq<Call> -> Result, calls: seq<Call>, before: seq<Call>)
    ensures ServeAll(answer, Requests(calls), before) ==
            Ok(Service(AllMade(calls), Replies(answer, AllMade(calls), before)))
    decreases |calls|
  {
    if calls != [] {
      hide Serve, CommandLine;
      ServesWhatWasAsked(calls[0], Requests(calls[1..]));
      ServerMakesTheCalls(answer, calls[1..], before + [Made(calls[0])]);
      assert AllMade(calls) == [Made(calls[0])] + AllMade(calls[1..]);
    }
  }

  // From those answers the client reads the results that direct calls would return.
  lemma {:induction false} ClientReadsTheResults(answer: seq<Call> -> Result, calls: seq<Call>, before: seq<Call>)
    ensures ReadResults(calls, Replies(answer, AllMade(calls), before)) == Ok(Direct(answer, calls, before))
    decreases |calls|
  {
    if calls != [] {
      hide ReadResult, ResultLine;
      var made := AllMade(calls);
      var now := before + [made[0]];
      assert made[1..] == AllMade(calls[1..]);
      ClientReadsTheResults(answer, calls[1..], now);
      var more := Replies(answer, made[1..], now);
      if HasResult(calls[0]) {
        ResultReadsBack(answer(now), more);
      } else {
        assert [] + more == more;
        assert [] + Direct(answer, calls[1..], now) == Direct(answer, calls[1..], now);
      }
    }
  }

  // Transparency: remote calls are direct calls, for every broker.
  lemma RemoteCallsAreDirectCalls(answer: seq<Call> -> Result, calls: seq<Call>)
    ensures var service := ServeAll(answer, Requests(calls), []);
            && service.Ok? && service.value.calls == AllMade(calls)
            && ReadResults(calls, service.value.replies) == Ok(Direct(answer, calls, []))
  {
    ServerMakesTheCalls(answer, calls, []);
    ClientReadsTheResults(answer, calls, []);
  }
}
