// src/tokenizers/split_char.c: a stateless search for a one-byte separator.
module SplitCharTokenizer {
  import opened Basics
  import opened Tokenizers

  // memchr
  function Memchr(data: Bytes, c: char): (pos: Option<nat>)
    ensures pos.None? ==> c !in data
    ensures pos.Some? ==> pos.value < |data| && data[pos.value] == c && c !in data[..pos.value]
  {
    if data == [] then None
    else if data[0] == c then Some(0)
    else
      match Memchr(data[1..], c)
      case None => None
      case Some(i) => Some(i + 1)
  }

  // The stateless search gives what a byte-at-a-time automaton would.
  lemma {:induction false} SearchIsScan(c: char, data: Bytes)
    ensures Feed(SplitChar(c), data) ==
            (match Memchr(data, c)
             case None => Reply(Continue, |data|, SplitChar(c))
             case Some(i) => Reply(Accepted, i + 1, SplitChar(c)))
    decreases |data|
  {
    if data != [] && data[0] != c {
      SearchIsScan(c, data[1..]);
    }
  }

  // tokenizer_parse: size is the value left in *size.
  method Parse(c: char, data: Bytes) returns (verdict: Verdict, size: nat)
    ensures Feed(SplitChar(c), data) == Reply(verdict, size, SplitChar(c))
    ensures verdict == Accepted <==> c in data
    ensures verdict == Accepted ==> size > 0 && data[size - 1] == c && c !in data[..size - 1]
  {
    SearchIsScan(c, data);
    size := |data|;
    var pos := Memchr(data, c);
    if pos.Some? {
      size := pos.value + 1;
      return Accepted, size;
    } else {
      return Continue, size;
    }
  }

  lemma {:induction false} SplitScansLikeSplitChar(c: char, data: Bytes)
    ensures var s := Feed(Split([c], 0), data);
            var r := Feed(SplitChar(c), data);
            && s.verdict == r.verdict && s.accepted == r.accepted
            && (s.verdict == Continue ==> s.tok == Split([c], 0))
    decreases |data|
  {
    if data != [] && data[0] != c {
      SplitScansLikeSplitChar(c, data[1..]);
    }
  }

  // On every chunk sequence, up to and including the first acceptance, split with a
  // one-byte separator reports what split_char reports.
  lemma {:induction false} SplitRefinesSplitChar(c: char, chunks: seq<Bytes>)
    requires c != '\0'
    ensures Fresh(SplitLib, [c]) == Split([c], 0) && Fresh(SplitCharLib, [c]) == SplitChar(c)
    ensures FeedChunks(Split([c], 0), chunks).verdict == FeedChunks(SplitChar(c), chunks).verdict
    ensures FeedChunks(Split([c], 0), chunks).accepted == FeedChunks(SplitChar(c), chunks).accepted
    decreases |chunks|
  {
    assert [c][1..] == [] && CString([c][1..]) == [];
    if chunks != [] {
      SplitScansLikeSplitChar(c, chunks[0]);
      SearchIsScan(c, chunks[0]);
      SplitRefinesSplitChar(c, chunks[1..]);
    }
  }
}
