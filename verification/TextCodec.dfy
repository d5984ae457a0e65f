// src/lib/BrokerTextInterface.cpp: the escaped, newline-terminated records exchanged with
// the judge.
module TextCodec {
  import opened Basics

  // One direction of the judge's connection: written at the end, read from the front.
  class Channel {
    var text: Bytes

    constructor ()
      ensures text == []
    {
      text := [];
    }

    method Put(s: Bytes)
      modifies this
      ensures text == old(text) + s
    {
      text := text + s;
    }

    // istream::get: ok is false at the end of the stream.
    method Get() returns (ok: bool, c: char)
      modifies this
      ensures ok <==> old(text) != []
      ensures ok ==> old(text) == [c] + text
      ensures !ok ==> text == old(text)
    {
      if text == [] {
        return false, ' ';
      }
      ok, c := true, text[0];
      text := text[1..];
    }
  }

  // The exceptions and failed assertions of the reading side and of the broker behind it.
  datatype Fault = EndOfFile | AssertionFailed | BadCast | SystemFailure

  datatype Parsed<+T> = Ok(value: T) | Error(fault: Fault) {
    predicate IsFailure() {
      Error?
    }

    function PropagateFailure<U>(): Parsed<U>
      requires Error?
    {
      Error(fault)
    }

    function Extract(): T
      requires Ok?
    {
      value
    }
  }

  // ---- escape ------------------------------------------------------------------------

  function EscapeChar(c: char): Bytes {
    match c
    case ' ' => "\\ "
    case '\n' => "\\n"
    case '\\' => "\\\\"
    case _ => [c]
  }

  function Escape(s: Bytes): Bytes {
    if s == [] then [] else EscapeChar(s[0]) + Escape(s[1..])
  }

  lemma {:induction false} EscapeConcat(a: Bytes, b: Bytes)
    ensures Escape(a + b) == Escape(a) + Escape(b)
    decreases |a|
  {
    if a == [] {
      assert a + b == b;
    } else {
      assert (a + b)[1..] == a[1..] + b;
      EscapeConcat(a[1..], b);
    }
  }

  lemma NothingToEscape()
    ensures Escape([]) == []
  {
  }

  lemma EscapeSnoc(s: Bytes, c: char)
    ensures Escape(s + [c]) == Escape(s) + EscapeChar(c)
  {
    EscapeConcat(s, [c]);
    assert [c][1..] == [];
  }

  method WriteEscaped(output: Channel, s: Bytes)
    modifies output
    ensures output.text == old(output.text) + Escape(s)
  {
    hide Escape;
    assert Escape(s[..0]) == [] by {
      NothingToEscape();
    }
    for i := 0 to |s|
      invariant output.text == old(output.text) + Escape(s[..i])
    {
      match s[i] {
        case ' ' => output.Put("\\ ");
        case '\n' => output.Put("\\n");
        case '\\' => output.Put("\\\\");
        case _ => output.Put([s[i]]);
      }
      assert s[..i + 1] == s[..i] + [s[i]];
      EscapeSnoc(s[..i], s[i]);
    }
    assert s[..|s|] == s;
  }

  // ---- unescape ----------------------------------------------------------------------

  datatype State = Init | Ordinal | InEscape

  // A field, whether it was the last of its record, and the text that follows it.
  datatype Field = Field(text: Bytes, last: bool, rest: Bytes)

  // What unescape does with one character.
  datatype Turn = Go(state: State, buf: Bytes) | Stop(last: bool) | Reject

  function OnChar(c: char, state: State, buf: Bytes): Turn {
    if state == InEscape then
      match c
      case '\\' => Go(Ordinal, buf + [c])
      case ' ' => Go(Ordinal, buf + [c])
      case 'n' => Go(Ordinal, buf + "\n")
      case _ => Reject
    else
      match c
      case '\n' => Stop(true)
      case ' ' => Stop(false)
      case '\\' => Go(InEscape, buf)
      case _ => Go(state, buf + [c])
  }

  // What unescape reads when it is in the given state and has already decoded buf.
  function ReadField(input: Bytes, state: State, buf: Bytes): (r: Parsed<Field>)
    ensures r.Ok? && (input != [] || state == Init) ==> |r.value.rest| < |input|
    decreases |input|
  {
    if input == [] then
      match state
      case Init => Error(EndOfFile)
      case InEscape => Error(AssertionFailed)
      case Ordinal => Ok(Field(buf, true, []))
    else
      match OnChar(input[0], state, buf)
      case Go(state', buf') => ReadField(input[1..], state', buf')
      case Stop(last) => Ok(Field(buf, last, input[1..]))
      case Reject => Error(AssertionFailed)
  }

  // unescape, without its check of end, which the archive makes too.
  method Unescape(input: Channel) returns (r: Parsed<Field>)
    modifies input
    ensures r == ReadField(old(input.text), Init, [])
    ensures r.Ok? ==> input.text == r.value.rest
  {
    var buf: Bytes := [];
    var state := Init;
    ghost var start := input.text;
    var ok, c := input.Get();
    while ok && c != '\n' && !(state != InEscape && c == ' ')
      invariant ok ==> ReadField(start, Init, []) == ReadField([c] + input.text, state, buf)
      invariant !ok ==> ReadField(start, Init, []) == ReadField([], state, buf) && input.text == []
      decreases ok, |input.text|
    {
      assert ([c] + input.text)[1..] == input.text;
      if state != InEscape {
        if c == '\\' {
          state := InEscape;
        } else {
          buf := buf + [c];
        }
      } else {
        match c {
          case '\\' => buf := buf + [c];
          case ' ' => buf := buf + [c];
          case 'n' => buf := buf + "\n";
          case _ => return Error(AssertionFailed);
        }
        state := Ordinal;
      }
      ok, c := input.Get();
    }
    if ok {
      assert ([c] + input.text)[1..] == input.text;
    }
    if !ok && state == Init {
      return Error(EndOfFile);
    }
    if state == InEscape {
      return Error(AssertionFailed);
    }
    return Ok(Field(buf, !ok || c == '\n', input.text));
  }

  // ---- round trips of one field ------------------------------------------------------

  predicate Separator(c: char) {
    c == ' ' || c == '\n'
  }

  lemma {:induction false} EscapedFieldReadsBack(input: Bytes, s: Bytes, end: char, rest: Bytes,
                                                 state: State, buf: Bytes)
    requires Separator(end) && state != InEscape && input == Escape(s) + [end] + rest
    ensures ReadField(input, state, buf) == Ok(Field(buf + s, end == '\n', rest))
    decreases |s|
  {
    if s == [] {
      assert input == [end] + rest && buf + s == buf;
      assert OnChar(end, state, buf) == Stop(end == '\n');
    } else {
      var d, tail := s[0], Escape(s[1..]) + [end] + rest;
      assert buf + [d] + s[1..] == buf + s;
      assert input == EscapeChar(d) + tail;
      hide Escape;
      if |EscapeChar(d)| == 2 {
        assert OnChar('\\', state, buf) == Go(InEscape, buf);
        assert OnChar(EscapeChar(d)[1], InEscape, buf) == Go(Ordinal, buf + [d]);
        assert input[1..] == [EscapeChar(d)[1]] + tail;
        assert input[1..][1..] == tail;
        EscapedFieldReadsBack(tail, s[1..], end, rest, Ordinal, buf + [d]);
      } else {
        assert OnChar(d, state, buf) == Go(state, buf + [d]);
        assert input[1..] == tail;
        EscapedFieldReadsBack(tail, s[1..], end, rest, state, buf + [d]);
      }
    }
  }

  function Opened(state: State): Bytes {
    if state == InEscape then "\\" else []
  }

  // input, read from the given state, is the escaped form of text up to a separator.
  predicate Reprints(input: Bytes, state: State, text: Bytes, f: Field) {
    Opened(state) + input == Escape(text) + [if f.last then '\n' else ' '] + f.rest
  }

  lemma Regroup(open: Bytes, c: char, rest: Bytes, e: Bytes, tail: Bytes, end: char, after: Bytes)
    requires open + [c] == e && rest == tail + [end] + after
    ensures open + ([c] + rest) == e + tail + [end] + after
  {
    assert open + ([c] + rest) == open + [c] + rest;
  }

  lemma OneMoreChar(input: Bytes, state: State, next: State, d: char, text: Bytes, f: Field)
    requires input != [] && next != InEscape && Reprints(input[1..], next, text, f)
    requires EscapeChar(d) == Opened(state) + [input[0]]
    ensures Reprints(input, state, [d] + text, f)
  {
    assert ([d] + text)[1..] == text;
    assert input[1..] == Opened(next) + input[1..];
    assert input == [input[0]] + input[1..];
    Regroup(Opened(state), input[0], input[1..], EscapeChar(d), Escape(text), if f.last then '\n' else ' ', f.rest);
  }

  lemma FieldEnds(input: Bytes, state: State, f: Field)
    requires input == [if f.last then '\n' else ' '] + f.rest && state != InEscape
    ensures Reprints(input, state, [], f)
  {
  }

  lemma EscapeOpens(input: Bytes, state: State, text: Bytes, f: Field)
    requires input != [] && input[0] == '\\' && state != InEscape && Reprints(input[1..], InEscape, text, f)
    ensures Reprints(input, state, text, f)
  {
    assert Opened(state) + input == input == "\\" + input[1..];
  }

  // Whatever unescape accepts up to a separator is the escaped form of what it returns.
  lemma {:induction false} AcceptedFieldReprints(input: Bytes, state: State, buf: Bytes)
    requires '\n' in input && ReadField(input, state, buf).Ok?
    ensures var f := ReadField(input, state, buf).value;
            && buf <= f.text && Reprints(input, state, f.text[|buf|..], f)
            && (!f.last ==> '\n' in f.rest)
    decreases |input|
  {
    hide Escape, Reprints;
    var c, rest := input[0], input[1..];
    var f := ReadField(input, state, buf).value;
    assert input == [c] + rest;
    if c == '\n' || (state != InEscape && c == ' ') {
      FieldEnds(input, state, f);
      assert f.text[|buf|..] == [];
    } else if state != InEscape && c == '\\' {
      AcceptedFieldReprints(rest, InEscape, buf);
      EscapeOpens(input, state, f.text[|buf|..], f);
    } else {
      var d := if state == InEscape && c == 'n' then '\n' else c;
      var next := if state == InEscape then Ordinal else state;
      assert OnChar(c, state, buf) == Go(next, buf + [d]);
      AcceptedFieldReprints(rest, next, buf + [d]);
      OneMoreChar(input, state, next, d, f.text[|buf| + 1..], f);
      assert f.text[|buf|..] == [d] + f.text[|buf| + 1..];
    }
  }
}
