// tests/resources/judge.py: an independent implementation of the judge's end of the wire.
module Judge {
  import opened Basics
  import opened Sessions
  import opened TextCodec
  import opened Archives
  import opened Decimal
  import opened BrokerInterface

  // _escape of a string: look every character up in a table and join the pieces.
  method EscapeText(s: Bytes) returns (r: Bytes)
    ensures r == Escape(s)
  {
    var transform := map[' ' := "\\ ", '\n' := "\\n", '\\' := "\\\\"];
    r := [];
    for i := 0 to |s|
      invariant r == Escape(s[..i])
    {
      r := r + (if s[i] in transform then transform[s[i]] else [s[i]]);
      assert s[..i + 1] == s[..i] + [s[i]];
      EscapeConcat(s[..i], [s[i]]);
      assert [s[i]][1..] == [];
    }
    assert s[..|s|] == s;
  }

  // ---- _split ------------------------------------------------------------------------

  // _split from the middle of a line. A newline is only one more separator here, and the
  // state never returns to Init.
  function SplitFrom(line: Bytes, state: State, buf: Bytes, tokens: seq<Bytes>): Parsed<seq<Bytes>>
    decreases |line|
  {
    if line == [] then
      if state == InEscape then Error(AssertionFailed)
      else Ok(if buf != [] then tokens + [buf] else tokens)
    else
      var c, rest := line[0], line[1..];
      if state != InEscape then
        if c == '\\' then SplitFrom(rest, InEscape, buf, tokens)
        else if c == ' ' || c == '\n' then SplitFrom(rest, state, [], tokens + [buf])
        else SplitFrom(rest, state, buf + [c], tokens)
      else if c == '\\' || c == ' ' then SplitFrom(rest, Ordinal, buf + [c], tokens)
      else if c == 'n' then SplitFrom(rest, Ordinal, buf + "\n", tokens)
      else Error(AssertionFailed)
  }

  method Split(line: Bytes) returns (r: Parsed<seq<Bytes>>)
    ensures r == SplitFrom(line, Init, [], [])
  {
    var transform := map['\\' := '\\', 'n' := '\n', ' ' := ' '];
    var tokens: seq<Bytes>, buf: Bytes, state := [], [], Init;
    for i := 0 to |line|
      invariant SplitFrom(line, Init, [], []) == SplitFrom(line[i..], state, buf, tokens)
    {
      var c := line[i];
      assert line[i..][1..] == line[i + 1..];
      if state != InEscape {
        if c == '\\' {
          state := InEscape;
        } else if c == ' ' || c == '\n' {
          tokens := tokens + [buf];
          buf := [];
        } else {
          buf := buf + [c];
        }
      } else {
        if c !in transform {
          return Error(AssertionFailed);
        }
        buf := buf + [transform[c]];
        state := Ordinal;
      }
    }
    if state == InEscape {
      return Error(AssertionFailed);
    }
    if buf != [] {
      tokens := tokens + [buf];
    }
    return Ok(tokens);
  }

  // ---- the two codecs agree ----------------------------------------------------------

  predicate OneLine(line: Bytes) {
    line != [] && line[|line| - 1] == '\n' && '\n' !in line[..|line| - 1]
  }

  lemma RestIsOneLine(line: Bytes)
    requires OneLine(line) && |line| > 1
    ensures OneLine(line[1..]) && line[0] != '\n'
  {
    assert line[1..][..|line| - 2] == line[1..|line| - 1];
    assert line[0] == line[..|line| - 1][0];
  }

  lemma {:induction false} OrdinalIsInit(line: Bytes, buf: Bytes, tokens: seq<Bytes>)
    ensures SplitFrom(line, Ordinal, buf, tokens) == SplitFrom(line, Init, buf, tokens)
    decreases |line|
  {
    if line != [] && line[0] != '\\' {
      if Separator(line[0]) {
        OrdinalIsInit(line[1..], [], tokens + [buf]);
      } else {
        OrdinalIsInit(line[1..], buf + [line[0]], tokens);
      }
    }
  }

  // Up to the end of one field, _split does what unescape does.
  lemma {:induction false} FieldsAgree(line: Bytes, state: State, buf: Bytes, tokens: seq<Bytes>)
    requires OneLine(line)
    ensures match ReadField(line, state, buf)
            case Error(fault) =>
              fault == AssertionFailed && SplitFrom(line, state, buf, tokens) == Error(AssertionFailed)
            case Ok(f) =>
              if f.last then f.rest == [] && SplitFrom(line, state, buf, tokens) == Ok(tokens + [f.text])
              else
                OneLine(f.rest) && SplitFrom(line, state, buf, tokens) == SplitFrom(f.rest, Init, [], tokens + [f.text])
    decreases |line|
  {
    var c, rest := line[0], line[1..];
    if |line| == 1 {
      assert rest == [];
    } else {
      RestIsOneLine(line);
      match OnChar(c, state, buf)
      case Go(state', buf') => FieldsAgree(rest, state', buf', tokens);
      case Stop(_) => OrdinalIsInit(rest, [], tokens + [buf]);
      case Reject =>
    }
  }

  // On every line with exactly one, trailing, newline, _split and the C++ reader of a string
  // vector accept the same lines and give the same fields.
  lemma {:induction false} CodecsAgree(line: Bytes, done: seq<Bytes>)
    requires OneLine(line)
    ensures SplitFrom(line, Init, [], done) ==
            (match ReadVector(line, done)
             case Error(fault) => Error(fault)
             case Ok(fields) => Ok(fields.list))
    ensures ReadVector(line, done).Ok? ==> ReadVector(line, done).value.rest == []
    decreases |line|
  {
    FieldsAgree(line, Init, [], done);
    var f := ReadField(line, Init, []);
    if f.Ok? && !f.value.last {
      CodecsAgree(f.value.rest, done + [f.value.text]);
    }
  }

  lemma {:induction false} EscapedHasNoNewline(s: Bytes)
    ensures '\n' !in Escape(s)
    decreases |s|
  {
    if s != [] {
      EscapedHasNoNewline(s[1..]);
    }
  }

  lemma {:induction false} JoinedHasNoNewline(fields: seq<Bytes>)
    ensures '\n' !in Joined(fields)
    decreases |fields|
  {
    if fields != [] {
      EscapedHasNoNewline(fields[0]);
      JoinedHasNoNewline(fields[1..]);
    }
  }

  lemma ResultLineIsOneLine(r: Result)
    ensures OneLine(ResultLine(r))
  {
    var line := ResultLine(r);
    JoinedHasNoNewline([StatusName(r.status), r.data]);
    assert line[..|line| - 1] == Joined([StatusName(r.status), r.data]);
  }

  // The judge splits every result the broker prints into exactly its status and its data.
  lemma JudgeReadsResults(r: Result)
    ensures var status :=
              match r.status
              case OK => "OK"
              case TOKENIZER_ERROR => "TOKENIZER_ERROR"
              case EOF_ERROR => "EOF_ERROR"
              case TIME_LIMIT_EXCEEDED => "TIME_LIMIT_EXCEEDED"
              case REAL_TIME_LIMIT_EXCEEDED => "REAL_TIME_LIMIT_EXCEEDED";
            SplitFrom(ResultLine(r), Init, [], []) == Ok([status, r.data])
  {
    var fields := [StatusName(r.status), r.data];
    var line := ResultLine(r);
    ResultLineIsOneLine(r);
    CodecsAgree(line, []);
    assert line + [] == line;
    PrintedLineReadsBack(line, fields, [], []);
    assert [] + fields == fields;
  }

  // ---- the commands the judge prints -------------------------------------------------

  // " ".join(words), which is also what print puts between its arguments.
  function Spaced(words: seq<Bytes>): Bytes {
    if words == [] then []
    else if |words| == 1 then words[0]
    else words[0] + " " + Spaced(words[1..])
  }

  // What the functions terminate, begin, send and end print. An escaped ResourceLimits is one
  // word for print; end prints in two steps.
  function Printed(call: Call): Bytes {
    var id := NatText(call.id);
    match call
    case BeginDefault(_) => Spaced(["BEGIN", id]) + "\n"
    case BeginWith(_, arg) => Spaced(["BEGIN", id, Escape(arg)]) + "\n"
    case BeginLimited(_, arg, user, realTime) =>
      Spaced(["BEGIN", id, Escape(arg), Spaced([Escape(IntText(user)), Escape(IntText(realTime))])]) + "\n"
    case SendMessage(_, msg) => Spaced(["SEND", id, Escape(msg)]) + "\n"
    case EndDefault(_) => Spaced(["END", id]) + "\n"
    case EndWith(_, discard) => Spaced(["END", id]) + Spaced(["", if discard then "1" else "0"]) + "\n"
    case Kill(_) => Spaced(["TERMINATE", id]) + "\n"
  }

  lemma {:induction false} PlainIsNotEscaped(s: Bytes)
    requires ' ' !in s && '\n' !in s && '\\' !in s
    ensures Escape(s) == s
    decreases |s|
  {
    if s != [] {
      PlainIsNotEscaped(s[1..]);
      assert s == [s[0]] + s[1..];
    }
  }

  function EscapeAll(fields: seq<Bytes>): (words: seq<Bytes>)
    ensures |words| == |fields| && forall i | 0 <= i < |fields| :: words[i] == Escape(fields[i])
  {
    if fields == [] then [] else [Escape(fields[0])] + EscapeAll(fields[1..])
  }

  lemma {:induction false} JoinedIsSpaced(fields: seq<Bytes>)
    ensures Joined(fields) == Spaced(EscapeAll(fields))
    decreases |fields|
  {
    if |fields| > 1 {
      JoinedIsSpaced(fields[1..]);
      assert EscapeAll(fields)[1..] == EscapeAll(fields[1..]);
    }
  }

  lemma {:induction false} SpacedConcat(a: seq<Bytes>, b: seq<Bytes>)
    requires a != [] && b != []
    ensures Spaced(a + b) == Spaced(a) + " " + Spaced(b)
    decreases |a|
  {
    if |a| == 1 {
      assert (a + b)[1..] == b;
    } else {
      SpacedConcat(a[1..], b);
      assert (a + b)[1..] == a[1..] + b;
      assert a[0] + " " + (Spaced(a[1..]) + " " + Spaced(b)) == a[0] + " " + Spaced(a[1..]) + " " + Spaced(b);
    }
  }

  // The words of a command line.
  function Words(c: Command): seq<Bytes> {
    [KindName(c.kind), NatText(c.id)] + EscapeAll(c.args)
  }

  lemma IdsAreNotEscaped(id: SolutionId)
    ensures Escape(NatText(id)) == NatText(id)
  {
    NumbersAreNotEscaped(id);
  }

  lemma FlagIsOneMoreWord(a: seq<Bytes>, flag: Bytes)
    requires a != []
    ensures Spaced(a) + Spaced(["", flag]) == Spaced(a + [flag])
  {
    SpacedConcat(a, [flag]);
    assert ["", flag][1..] == [flag];
    assert Spaced(a) + ("" + " " + flag) == Spaced(a) + " " + flag;
  }

  lemma CommandIsSpaced(c: Command)
    ensures CommandLine(c) == Spaced(Words(c)) + "\n"
  {
    hide Spaced, Joined, Escape, EscapeAll, NatText;
    var fields := [KindName(c.kind), NatText(c.id)] + c.args;
    JoinedIsSpaced(fields);
    PlainIsNotEscaped(KindName(c.kind));
    IdsAreNotEscaped(c.id);
    assert EscapeAll(fields) == Words(c);
  }

  lemma LimitsAreTwoWords(a: seq<Bytes>, u: Bytes, r: Bytes)
    requires a != []
    ensures Spaced(a + [Spaced([u, r])]) == Spaced(a + [u, r])
  {
    SpacedConcat(a, [Spaced([u, r])]);
    SpacedConcat(a, [u, r]);
  }

  // The judge prints byte for byte what the client stubs of the broker print.
  lemma JudgePrintsCommands(call: Call)
    ensures Printed(call) == CommandLine(CommandOf(call))
  {
    var c := CommandOf(call);
    CommandIsSpaced(c);
    hide Spaced, Escape, EscapeAll, NatText, IntText, CommandLine;
    match call
    case BeginLimited(id, arg, user, realTime) =>
      var u, r := Escape(IntText(user)), Escape(IntText(realTime));
      var start := ["BEGIN", NatText(id), Escape(arg)];
      LimitsAreTwoWords(start, u, r);
      assert Words(c) == start + [u, r];
      assert start + [Spaced([u, r])] == ["BEGIN", NatText(id), Escape(arg), Spaced([u, r])];
    case EndWith(id, discard) =>
      var flag := BoolText(discard);
      PlainIsNotEscaped(flag);
      FlagIsOneMoreWord(["END", NatText(id)], flag);
      assert Words(c) == ["END", NatText(id)] + [flag];
    case BeginDefault(id) => assert Words(c) == ["BEGIN", NatText(id)];
    case BeginWith(id, arg) => assert Words(c) == ["BEGIN", NatText(id), Escape(arg)];
    case SendMessage(id, msg) => assert Words(c) == ["SEND", NatText(id), Escape(msg)];
    case EndDefault(id) => assert Words(c) == ["END", NatText(id)];
    case Kill(id) => assert Words(c) == ["TERMINATE", NatText(id)];
  }

  // Hence the broker takes every command the judge prints as the call it means; an end without
  // an argument discards nothing.
  lemma JudgeIsUnderstood(call: Call, rest: Bytes)
    ensures var meant := if call.EndDefault? then EndWith(call.id, false) else call;
            Serve(Printed(call) + rest) == Parsed.Ok(Received(meant, rest))
  {
    JudgePrintsCommands(call);
    ServesWhatWasAsked(call, rest);
  }
}
