// The archives of src/lib/BrokerTextInterface.cpp: records of fields, the last of which may
// be a vector that takes all the fields left.
module Archives {
  import opened Basics
  import opened TextCodec

  function Joined(fields: seq<Bytes>): Bytes {
    if fields == [] then []
    else if |fields| == 1 then Escape(fields[0])
    else Escape(fields[0]) + " " + Joined(fields[1..])
  }

  // One record as it is printed.
  function Line(fields: seq<Bytes>): Bytes {
    Joined(fields) + "\n"
  }

  lemma {:induction false} JoinedSnoc(fields: seq<Bytes>, f: Bytes)
    ensures Joined(fields + [f]) == if fields == [] then Escape(f) else Joined(fields) + " " + Escape(f)
    decreases |fields|
  {
    hide Escape;
    var all := fields + [f];
    if |fields| == 1 {
      assert all[1..] == [f];
    } else if |fields| > 1 {
      assert all[1..] == fields[1..] + [f];
      JoinedSnoc(fields[1..], f);
      var first, middle, last := Escape(fields[0]) + " ", Joined(fields[1..]), Escape(f);
      assert first + (middle + " " + last) == first + middle + " " + last;
    }
  }

  class OutputArchive {
    const output: Channel
    var first: bool
    var last: bool
    ghost const before: Bytes
    ghost var written: seq<Bytes>

    ghost predicate Valid()
      reads this, output
    {
      output.text == before + Joined(written) && (first <==> written == [])
    }

    constructor (output: Channel)
      ensures this.output == output && Valid() && before == output.text && written == [] && !last
    {
      this.output, first, last := output, true, false;
      before, written := output.text, [];
    }

    method Print(field: Bytes)
      requires Valid() && !last
      modifies this, output
      ensures Valid() && written == old(written) + [field] && last == old(last)
    {
      JoinedSnoc(written, field);
      if !first {
        output.Put(" ");
      }
      first := false;
      WriteEscaped(output, field);
      written := written + [field];
    }

    method PrintAll(fields: seq<Bytes>)
      requires Valid() && !last
      modifies this, output
      ensures Valid() && written == old(written) + fields && last
    {
      for i := 0 to |fields|
        invariant Valid() && !last && written == old(written) + fields[..i]
      {
        Print(fields[i]);
      }
      last := true;
    }

    // The destructor.
    method Close()
      requires Valid()
      modifies output
      ensures output.text == before + Line(written)
    {
      output.Put("\n");
    }
  }

  // ---- reading -----------------------------------------------------------------------

  datatype Fields = Fields(list: seq<Bytes>, rest: Bytes)

  // What a vector reads from a record that is not at its end, after the fields done.
  function ReadVector(input: Bytes, done: seq<Bytes>): (r: Parsed<Fields>)
    ensures r.Ok? ==> |r.value.rest| < |input|
    decreases |input|
  {
    var f :- ReadField(input, Init, []);
    if f.last then Ok(Fields(done + [f.text], f.rest))
    else ReadVector(f.rest, done + [f.text])
  }

  class InputArchive {
    const input: Channel
    var end: bool
    var last: bool

    constructor (input: Channel)
      ensures this.input == input && !end && !last
    {
      this.input, end, last := input, false, false;
    }

    method Read() returns (r: Parsed<Bytes>)
      requires !last
      modifies this, input
      ensures last == old(last)
      ensures old(end) ==> r == Error(EndOfFile) && input.text == old(input.text) && end
      ensures !old(end) ==>
                match ReadField(old(input.text), Init, [])
                case Error(fault) => r == Error(fault)
                case Ok(f) => r == Ok(f.text) && end == f.last && input.text == f.rest
    {
      if end {
        return Error(EndOfFile);
      }
      var f :- Unescape(input);
      end := f.last;
      return Ok(f.text);
    }

    // A vector accepts a record that is at its end, unlike every other type.
    method ReadAll() returns (r: Parsed<seq<Bytes>>)
      requires !last
      modifies this, input
      ensures old(end) ==> r == Ok([]) && input.text == old(input.text)
      ensures !old(end) ==>
                match ReadVector(old(input.text), [])
                case Error(fault) => r == Error(fault)
                case Ok(fields) => r == Ok(fields.list) && input.text == fields.rest
    {
      var v: seq<Bytes> := [];
      while !end
        invariant !last
        invariant !old(end) && !end ==> ReadVector(old(input.text), []) == ReadVector(input.text, v)
        invariant !old(end) && end ==> ReadVector(old(input.text), []) == Ok(Fields(v, input.text))
        invariant old(end) ==> end && v == [] && input.text == old(input.text)
        decreases !end, |input.text|
      {
        var field :- Read();
        v := v + [field];
      }
      last := true;
      return Ok(v);
    }
  }

  // ---- the codec is a bijection ------------------------------------------------------

  lemma LineOfMore(f: Bytes, more: seq<Bytes>)
    ensures Line([f] + more) == if more == [] then Escape(f) + "\n" else Escape(f) + " " + Line(more)
  {
    assert ([f] + more)[1..] == more;
    assert Escape(f) + " " + Joined(more) + "\n" == Escape(f) + " " + (Joined(more) + "\n");
  }

  lemma FirstFieldReadsBack(input: Bytes, f: Bytes, more: seq<Bytes>, rest: Bytes)
    requires input == Line([f] + more) + rest
    ensures ReadField(input, Init, []) == Ok(Field(f, more == [], if more == [] then rest else Line(more) + rest))
  {
    LineOfMore(f, more);
    hide Line, ReadField;
    assert [] + f == f;
    if more == [] {
      EscapedFieldReadsBack(input, f, '\n', rest, Init, []);
    } else {
      var tail := Line(more) + rest;
      assert input == Escape(f) + [' '] + tail;
      EscapedFieldReadsBack(input, f, ' ', tail, Init, []);
    }
  }

  lemma VectorTakes(input: Bytes, done: seq<Bytes>, f: Field)
    requires ReadField(input, Init, []) == Ok(f)
    ensures ReadVector(input, done) ==
            if f.last then Ok(Fields(done + [f.text], f.rest)) else ReadVector(f.rest, done + [f.text])
  {
  }

  lemma OneFieldLeaves(input: Bytes, f: Bytes, more: seq<Bytes>, rest: Bytes, done: seq<Bytes>)
    requires input == Line([f] + more) + rest
    ensures ReadVector(input, done) ==
            if more == [] then Ok(Fields(done + [f], rest)) else ReadVector(Line(more) + rest, done + [f])
  {
    hide Line, ReadField;
    FirstFieldReadsBack(input, f, more, rest);
    VectorTakes(input, done, Field(f, more == [], if more == [] then rest else Line(more) + rest));
  }

  // Printing and reading back: every nonempty field list, empty fields included, is read back
  // exactly, and nothing behind its newline is touched.
  lemma {:induction false} PrintedLineReadsBack(input: Bytes, fields: seq<Bytes>, rest: Bytes, done: seq<Bytes>)
    requires fields != [] && input == Line(fields) + rest
    ensures ReadVector(input, done) == Ok(Fields(done + fields, rest))
    decreases |fields|
  {
    hide Line, ReadVector;
    var f, more := fields[0], fields[1..];
    assert fields == [f] + more;
    OneFieldLeaves(input, f, more, rest, done);
    assert done + fields == done + [f] + more;
    if more == [] {
      assert done + [f] + more == done + [f];
    } else {
      PrintedLineReadsBack(Line(more) + rest, more, rest, done + [f]);
    }
  }

  lemma Prepend(input: Bytes, f: Field, more: seq<Bytes>, rest: Bytes)
    requires input == Escape(f.text) + [if f.last then '\n' else ' '] + f.rest
    requires if f.last then more == [] && f.rest == rest else more != [] && f.rest == Line(more) + rest
    ensures input == Line([f.text] + more) + rest
  {
    LineOfMore(f.text, more);
  }

  lemma FieldReprints(input: Bytes, f: Field)
    requires '\n' in input && ReadField(input, Init, []) == Ok(f)
    ensures input == Escape(f.text) + [if f.last then '\n' else ' '] + f.rest
    ensures !f.last ==> '\n' in f.rest
  {
    AcceptedFieldReprints(input, Init, []);
    assert f.text[0..] == f.text && Opened(Init) + input == input;
  }

  // Reading and printing back: whatever the reader accepts, up to a newline, is what printing
  // its fields gives, byte for byte.
  lemma {:induction false} AcceptedLineReprints(input: Bytes, done: seq<Bytes>)
    returns (fields: seq<Bytes>, rest: Bytes)
    requires '\n' in input && ReadVector(input, done).Ok?
    ensures fields != [] && ReadVector(input, done) == Ok(Fields(done + fields, rest))
    ensures input == Line(fields) + rest
    decreases |input|
  {
    var f := ReadField(input, Init, []).value;
    VectorTakes(input, done, f);
    FieldReprints(input, f);
    if f.last {
      fields, rest := [f.text], f.rest;
      Prepend(input, f, [], rest);
    } else {
      var more;
      more, rest := AcceptedLineReprints(f.rest, done + [f.text]);
      fields := [f.text] + more;
      Prepend(input, f, more, rest);
      assert done + [f.text] + more == done + fields;
    }
  }

  // Hence a record has one reading and a field list has one printed form.
  lemma LinesAreUnique(a: seq<Bytes>, b: seq<Bytes>, restA: Bytes, restB: Bytes)
    requires a != [] && b != [] && Line(a) + restA == Line(b) + restB
    ensures a == b && restA == restB
  {
    PrintedLineReadsBack(Line(a) + restA, a, restA, []);
    PrintedLineReadsBack(Line(b) + restB, b, restB, []);
    assert [] + a == a && [] + b == b;
  }

  // The one list that does not survive: no fields print like one empty field.
  lemma EmptyLineIsOneEmptyField(rest: Bytes)
    ensures Line([]) == Line([""])
    ensures ReadVector(Line([]) + rest, []) == Ok(Fields([""], rest))
  {
    assert Line([]) == Line([""]);
    assert [] + [""] == [""];
    PrintedLineReadsBack(Line([]) + rest, [""], rest, []);
  }
}
