// The tokenizer contract (include/.../Tokenizer.hpp) and the incremental tokenizers
// that fulfil it: split.c, split_char.c, and any other byte-at-a-time automaton.
module Tokenizers {
  import opened Basics

  datatype Verdict = Fail | Continue | Accepted

  datatype Move = Move(verdict: Verdict, state: nat)

  // The shared library that the broker loads. Other stands for a third-party library
  // that decides byte by byte and may fail.
  datatype Library =
    | SplitLib
    | SplitCharLib
    | Other(start: Bytes -> nat, step: (nat, char) -> Move, what: nat -> Bytes)

  // One tokenizer instance and its state.
  datatype Tokenizer =
    | Split(sep: Bytes, over: nat)
    | SplitChar(c: char)
    | Machine(step: (nat, char) -> Move, what: nat -> Bytes, state: nat)

  // What one tokenizer_parse call reports, and the instance it leaves behind.
  datatype Reply = Reply(verdict: Verdict, accepted: nat, tok: Tokenizer)

  // The C string that starts at line: everything before the first NUL.
  function CString(line: Bytes): (r: Bytes)
    ensures r <= line && '\0' !in r && (r == line || line[|r|] == '\0')
  {
    if line == [] || line[0] == '\0' then [] else [line[0]] + CString(line[1..])
  }

  // The arguments for which tokenizer_new and the first tokenizer_parse pass their assertions.
  predicate ArgumentOk(lib: Library, arg: Bytes) {
    match lib
    case SplitLib => |arg| > 0 && arg[0] != '\0'
    case SplitCharLib => |arg| == 1
    case Other(_, _, _) => true
  }

  // split.c asserts this whenever it looks at a byte; a finished instance is not live.
  predicate Live(t: Tokenizer) {
    t.Split? ==> t.over < |t.sep|
  }

  function Fresh(lib: Library, arg: Bytes): (t: Tokenizer)
    requires ArgumentOk(lib, arg)
    ensures Live(t)
  {
    match lib
    case SplitLib => Split(CString(arg), 0)
    case SplitCharLib => SplitChar(arg[0])
    case Other(start, step, what) => Machine(step, what, start(arg))
  }

  // The explanation offered by tokenizer_what; the shipped libraries have none.
  function What(t: Tokenizer): Bytes {
    match t
    case Split(_, _) => []
    case SplitChar(_) => []
    case Machine(_, what, state) => what(state)
  }

  // The matcher of split.c: on a mismatch it falls back to at most one matched byte.
  function Advance(sep: Bytes, over: nat, c: char): nat
    requires over < |sep|
  {
    if c == sep[over] then over + 1
    else if c == sep[0] then 1
    else 0
  }

  function Step(t: Tokenizer, c: char): Reply
    requires Live(t)
  {
    match t
    case Split(sep, over) =>
      var next := Advance(sep, over, c);
      Reply(if next == |sep| then Accepted else Continue, 1, Split(sep, next))
    case SplitChar(sep) =>
      Reply(if c == sep then Accepted else Continue, 1, t)
    case Machine(step, what, state) =>
      var m := step(state, c);
      Reply(m.verdict, 1, Machine(step, what, m.state))
  }

  // The tokenizer as a byte-at-a-time scan that stops at its first decision.
  function Feed(t: Tokenizer, data: Bytes): (r: Reply)
    requires Live(t)
    ensures r.accepted <= |data|
    ensures r.verdict == Continue ==> r.accepted == |data| && Live(r.tok)
    ensures r.verdict != Continue ==> 0 < r.accepted
    decreases |data|
  {
    if data == [] then Reply(Continue, 0, t)
    else
      var one := Step(t, data[0]);
      if one.verdict != Continue then one
      else
        var more := Feed(one.tok, data[1..]);
        more.(accepted := more.accepted + 1)
  }

  function Shift(r: Reply, n: nat): Reply {
    r.(accepted := r.accepted + n)
  }

  // Chunk homomorphism: going on with b after an undecided a is the scan of a + b,
  // and a decision taken within a does not depend on b.
  lemma {:induction false} FeedConcat(t: Tokenizer, a: Bytes, b: Bytes)
    requires Live(t)
    ensures Feed(t, a).verdict == Continue ==>
              Feed(t, a + b) == Shift(Feed(Feed(t, a).tok, b), |a|)
    ensures Feed(t, a).verdict != Continue ==> Feed(t, a + b) == Feed(t, a)
    decreases |a|
  {
    if a == [] {
      assert a + b == b;
    } else {
      assert (a + b)[1..] == a[1..] + b;
      var one := Step(t, a[0]);
      if one.verdict == Continue {
        FeedConcat(one.tok, a[1..], b);
      }
    }
  }

  // Feeding chunk after chunk until the first decision, as the read loop does.
  function FeedChunks(t: Tokenizer, chunks: seq<Bytes>): Reply
    requires Live(t)
    decreases |chunks|
  {
    if chunks == [] then Reply(Continue, 0, t)
    else
      var r := Feed(t, chunks[0]);
      if r.verdict != Continue then r else Shift(FeedChunks(r.tok, chunks[1..]), |chunks[0]|)
  }

  // Any partition of the input gives the verdict, position and state of the byte-at-a-time scan.
  lemma {:induction false} ChunkingIsInvisible(t: Tokenizer, chunks: seq<Bytes>)
    requires Live(t)
    ensures FeedChunks(t, chunks) == Feed(t, Flatten(chunks))
    decreases |chunks|
  {
    if chunks != [] {
      var r := Feed(t, chunks[0]);
      FeedConcat(t, chunks[0], Flatten(chunks[1..]));
      if r.verdict == Continue {
        ChunkingIsInvisible(r.tok, chunks[1..]);
      }
    }
  }

  // p is a complete token: the tokenizer decides exactly at its last byte, and accepts.
  predicate Accepts(t: Tokenizer, p: Bytes)
    requires Live(t)
  {
    Feed(t, p).verdict == Accepted && Feed(t, p).accepted == |p|
  }

  lemma PrefixDecides(t: Tokenizer, data: Bytes, n: nat)
    requires Live(t) && n <= |data|
    ensures Feed(t, data).verdict == Accepted && Feed(t, data).accepted == n <==> Accepts(t, data[..n])
  {
    assert data == data[..n] + data[n..];
    FeedConcat(t, data[..n], data[n..]);
  }

  // A scan accepts after n bytes exactly when the first n bytes are a complete token,
  // and then no other prefix is one.
  lemma FeedFindsTheToken(t: Tokenizer, data: Bytes, n: nat)
    requires Live(t) && n <= |data|
    ensures Feed(t, data).verdict == Accepted && Feed(t, data).accepted == n <==> Accepts(t, data[..n])
    ensures Accepts(t, data[..n]) ==> forall k | 0 <= k <= |data| && k != n :: !Accepts(t, data[..k])
  {
    PrefixDecides(t, data, n);
    forall k | 0 <= k <= |data|
      ensures Accepts(t, data[..k]) ==> Feed(t, data).accepted == k
    {
      PrefixDecides(t, data, k);
    }
  }
}
