// What a session inherits from the sessions before it.
module Restarts {
  import opened Basics
  import opened Tokenizers
  import opened Sessions
  import opened Runs
  import opened Visibility

  // Nothing is buffered in either direction and no session is open.
  predicate Blank(w: World) {
    w.session.tokenizer.None? && w.session.inbuf == [] && w.session.outbuf == []
  }

  // Both worlds go on alike: they differ at most in what the next begin overwrites.
  ghost predicate Alike(a: World, b: World) {
    && a.unread == b.unread
    && a.session.tokenizer == b.session.tokenizer
    && a.session.inbuf == b.session.inbuf && a.session.outbuf == b.session.outbuf
    && (a.session.tokenizer.Some? ==> a.session == b.session)
  }

  lemma AlikeStaysAlike(lib: Library, a: World, b: World, op: Op)
    requires Alike(a, b)
    ensures Legal(lib, a, op) <==> Legal(lib, b, op)
    ensures Legal(lib, a, op) ==>
              && Alike(Exec(lib, a, op), Exec(lib, b, op))
              && AnswerOf(lib, a, op) == AnswerOf(lib, b, op)
  {
    hide Feed;
  }

  lemma {:induction false} AlikeRunsAnswerAlike(lib: Library, a: World, b: World, before: seq<Op>, after: seq<Op>)
    requires Run(lib, a, before).Some? && Alike(Run(lib, a, before).value, b)
    ensures Run(lib, a, before + after).Some? <==> Run(lib, b, after).Some?
    ensures Run(lib, b, after).Some? ==>
              && Alike(Run(lib, a, before + after).value, Run(lib, b, after).value)
              && Answers(lib, a, before + after) == Answers(lib, a, before) + Answers(lib, b, after)
    decreases |after|
  {
    hide Legal, Exec, AnswerOf, Alike;
    if after == [] {
      assert before + after == before;
      assert Answers(lib, a, before) + [] == Answers(lib, a, before);
    } else {
      var last := Last(after);
      assert Front(before + after) == before + Front(after) && Last(before + after) == last;
      AlikeRunsAnswerAlike(lib, a, b, before, Front(after));
      if Run(lib, b, Front(after)).Some? {
        AlikeStaysAlike(lib, Run(lib, a, before + Front(after)).value, Run(lib, b, Front(after)).value, last);
      }
    }
  }

  // terminate, and a session that runs out of time, leave nothing behind.
  lemma ClearingLeavesBlank(lib: Library, w: World, op: Op)
    requires Legal(lib, w, op)
    requires op.Terminate? || (op.End? && op.io.ran && op.io.outcome == TimedOut)
    ensures Blank(Exec(lib, w, op))
  {
    hide Feed;
  }

  // From a blank state on, the answers are those of a new solution whose whole output is
  // what was still unread: no byte read, sent or decided before plays any part.
  lemma BlankIsANewSolution(lib: Library, limits: Limits, stream: Bytes, before: seq<Op>, after: seq<Op>)
    requires Run(lib, Start(limits, stream), before).Some? && Blank(Run(lib, Start(limits, stream), before).value)
    requires Run(lib, Start(limits, stream), before + after).Some?
    ensures var unread := Run(lib, Start(limits, stream), before).value.unread;
            && Run(lib, Start(limits, unread), after).Some?
            && Answers(lib, Start(limits, stream), before + after) ==
               Answers(lib, Start(limits, stream), before) + Answers(lib, Start(limits, unread), after)
  {
    var w := Run(lib, Start(limits, stream), before).value;
    assert Alike(w, Start(limits, w.unread));
    AlikeRunsAnswerAlike(lib, Start(limits, stream), Start(limits, w.unread), before, after);
  }

  // After a termination or a timeout, the judge sees a reader of the bytes left unread then.
  // How many these are depends on how far the broker had read.
  lemma ReaderRestarts(lib: Library, limits: Limits, stream: Bytes, before: seq<Op>, after: seq<Op>)
    requires NeverFails(lib)
    requires Run(lib, Start(limits, stream), before).Some? && Blank(Run(lib, Start(limits, stream), before).value)
    requires Run(lib, Start(limits, stream), before + after).Some?
    requires NothingDropped(lib, Start(limits, Run(lib, Start(limits, stream), before).value.unread), after)
    ensures Answers(lib, Start(limits, stream), before + after) ==
            Answers(lib, Start(limits, stream), before) +
            ReadStream(lib, Run(lib, Start(limits, stream), before).value.unread, Calls(after)).results
  {
    var unread := Run(lib, Start(limits, stream), before).value.unread;
    BlankIsANewSolution(lib, limits, stream, before, after);
    SameCallsSameAnswers(lib, limits, unread, after, after);
  }

  // ---- resource limits ---------------------------------------------------------------

  function LastLimits(ops: seq<Op>): Option<Limits>
    decreases |ops|
  {
    if ops == [] then None
    else if Last(ops).Begin? then Some(Last(ops).limits)
    else LastLimits(Front(ops))
  }

  // An open session runs under the limits its begin was given.
  lemma {:induction false} SessionKeepsItsLimits(lib: Library, w0: World, ops: seq<Op>)
    requires w0.session.tokenizer.None? && Run(lib, w0, ops).Some?
    ensures var s := Run(lib, w0, ops).value.session;
            s.tokenizer.Some? ==> LastLimits(ops) == Some(s.limits)
    decreases |ops|
  {
    hide Feed;
    if ops != [] {
      SessionKeepsItsLimits(lib, w0, Front(ops));
      var w := Run(lib, w0, Front(ops)).value;
      match Last(ops)
      case Begin(_, _) =>
      case Send(_) =>
      case End(_, _) =>
      case Terminate =>
    }
  }
}
