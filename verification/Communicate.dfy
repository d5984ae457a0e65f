// The steps of communicate on one session: single writes and single chunks, and the
// transfers they add up to.
module Communicate {
  import opened Basics
  import opened Tokenizers
  import opened Sessions
  import opened Runs

  // The effect of one chunk on a session that has not decided yet.
  function Absorb(s: Session, data: Bytes): Session
    requires Ready(s) && s.verdict == Continue
  {
    var r := Feed(s.tokenizer.value, data);
    var s' := s.(tokenizer := Some(r.tok), verdict := r.verdict);
    match r.verdict
    case Fail => s'
    case Continue => s'.(result := s.result + data)
    case Accepted =>
      s'.(result := s.result + data[..r.accepted], outbuf := s.outbuf + data[r.accepted..])
  }

  lemma NothingTransferred(s0: Session, unread0: Bytes)
    requires Ready(s0) && s0.verdict == Continue
    ensures var io := IO(true, [], [], 0, Done);
            Transfers(s0, unread0, io) && CommFn(s0, io) == s0
  {
    assert s0.result + [] == s0.result;
  }

  lemma CommIsReady(s0: Session, unread0: Bytes, io: IO)
    requires Ready(s0) && s0.verdict == Continue && Transfers(s0, unread0, io)
    ensures Ready(CommFn(s0, io))
  {
    hide Feed;
  }

  lemma ReturnIsLegal(s0: Session, unread0: Bytes, io: IO, outcome: Outcome)
    requires Ready(s0) && s0.verdict == Continue && Transfers(s0, unread0, io)
    requires CommFn(s0, io).verdict != Continue ==> outcome == Done
    requires CommFn(s0, io).verdict == Continue && outcome == Done ==> unread0[|io.read|..] == []
    ensures IOLegal(s0, unread0, io.(outcome := outcome))
    ensures CommFn(s0, io.(outcome := outcome)) == CommFn(s0, io)
  {
    hide Feed;
    assert unread0[|io.read|..] == [] ==> unread0 == io.read;
  }

  // A drained inbuf has been written completely.
  lemma DrainedIsDelivered(s0: Session, unread0: Bytes, io: IO)
    requires Ready(s0) && s0.verdict == Continue && Transfers(s0, unread0, io)
    ensures CommFn(s0, io).inbuf == [] ==> io.written == s0.inbuf
  {
    hide Feed;
    assert s0.inbuf[|io.written|..] == [] ==> |io.written| == |s0.inbuf|;
  }

  lemma LegalTransfersFit(s: Session, unread: Bytes, io: IO)
    requires Ready(s) && IOLegal(s, unread, io)
    ensures io.read <= unread && io.written <= s.inbuf
  {
  }

  lemma WriteExtends(s0: Session, unread0: Bytes, io: IO, size: nat)
    requires Ready(s0) && s0.verdict == Continue && Transfers(s0, unread0, io)
    requires size <= |CommFn(s0, io).inbuf|
    ensures var s := CommFn(s0, io);
            var io' := io.(written := io.written + s.inbuf[..size]);
            Transfers(s0, unread0, io') && CommFn(s0, io') == s.(inbuf := s.inbuf[size..])
  {
    hide Feed;
  }

  lemma PrefixGrows(whole: Bytes, a: Bytes, b: Bytes)
    requires a <= whole && b <= whole[|a|..]
    ensures a + b <= whole && whole[|a|..][|b|..] == whole[|a + b|..]
  {
    assert whole == a + whole[|a|..];
  }

  lemma Slices(before: Bytes, read: Bytes, data: Bytes, n: nat)
    requires n <= |data|
    ensures (read + data)[..|read + data| - |data|] == read
    ensures before + (read + data)[..|read| + n] == before + read + data[..n]
    ensures (read + data)[|read| + n..] == data[n..]
    ensures before + (read + data) == before + read + data
  {
  }

  lemma ReadExtends(s0: Session, unread0: Bytes, io: IO, data: Bytes)
    requires Ready(s0) && s0.verdict == Continue && Transfers(s0, unread0, io)
    requires CommFn(s0, io).verdict == Continue
    requires 0 < |data| <= BUFSIZ && data <= unread0[|io.read|..]
    ensures var io' := io.(read := io.read + data, last := |data|);
            && Transfers(s0, unread0, io') && CommFn(s0, io') == Absorb(CommFn(s0, io), data)
            && io'.read <= unread0 && unread0[|io'.read|..] == unread0[|io.read|..][|data|..]
  {
    hide Feed;
    FeedConcat(s0.tokenizer.value, io.read, data);
    var r := Feed(CommFn(s0, io).tokenizer.value, data);
    Slices(s0.result, io.read, data, r.accepted);
    CommIsReady(s0, unread0, io);
    PrefixGrows(unread0, io.read, data);
  }

  // ---- legal transfers come from chunks ----------------------------------------------

  // The session after a list of chunks.
  function AbsorbAll(s: Session, chunks: seq<Bytes>): Session
    requires Readable(s, chunks)
    decreases |chunks|, 1
  {
    if chunks == [] then s else Absorb(AbsorbAll(s, Front(chunks)), Last(chunks))
  }

  // The chunks fit the buffer, and each is read while the session is still undecided.
  predicate Readable(s: Session, chunks: seq<Bytes>)
    decreases |chunks|, 0
  {
    chunks == [] ||
    (&& Readable(s, Front(chunks)) && 0 < |Last(chunks)| <= BUFSIZ
     && var s' := AbsorbAll(s, Front(chunks));
        Ready(s') && s'.verdict == Continue)
  }

  lemma {:induction false} FlattenSnoc(parts: seq<Bytes>, last: Bytes)
    ensures Flatten(parts + [last]) == Flatten(parts) + last
    decreases |parts|
  {
    if parts == [] {
      assert [last][1..] == [];
    } else {
      assert (parts + [last])[1..] == parts[1..] + [last];
      FlattenSnoc(parts[1..], last);
      assert parts[0] + (Flatten(parts[1..]) + last) == parts[0] + Flatten(parts[1..]) + last;
    }
  }

  // Where the last chunk of a legal transfer begins, the tokenizer has not decided.
  lemma UndecidedBeforeLast(s: Session, unread: Bytes, io: IO, k: nat)
    requires Ready(s) && s.verdict == Continue && Transfers(s, unread, io) && 0 < k <= |io.read|
    requires Feed(s.tokenizer.value, io.read).verdict != Continue ==> k == io.last
    ensures Feed(s.tokenizer.value, io.read[..|io.read| - k]).verdict == Continue
    ensures Transfers(s, unread, io.(read := io.read[..|io.read| - k]))
  {
    hide Feed;
    var before, data := io.read[..|io.read| - k], io.read[|io.read| - k..];
    assert io.read == before + data;
    FeedConcat(s.tokenizer.value, before, data);
    assert before <= io.read <= unread;
  }

  lemma VerdictOfTransfers(s: Session, unread: Bytes, io: IO)
    requires Ready(s) && s.verdict == Continue && Transfers(s, unread, io)
    ensures CommFn(s, io).verdict == Feed(s.tokenizer.value, io.read).verdict
  {
    hide Feed;
  }

  // The size of the last chunk plays no part unless the tokenizer fails in it.
  lemma LastDoesNotMatter(s: Session, unread: Bytes, io: IO, k: nat)
    requires Ready(s) && s.verdict == Continue && Transfers(s, unread, io)
    requires Feed(s.tokenizer.value, io.read).verdict != Continue ==> k == io.last
    ensures CommFn(s, io.(last := k)) == CommFn(s, io)
  {
    hide Feed;
  }

  // Transfers that write nothing are cut into chunks.
  lemma {:induction false} ReadsAreChunks(s: Session, unread: Bytes, io: IO) returns (chunks: seq<Bytes>)
    requires Ready(s) && s.verdict == Continue && Transfers(s, unread, io) && io.written == []
    ensures Readable(s, chunks) && Flatten(chunks) == io.read && AbsorbAll(s, chunks) == CommFn(s, io)
    ensures CommFn(s, io).verdict != Continue ==> chunks != [] && |Last(chunks)| == io.last
    decreases |io.read|
  {
    if io.read == [] {
      chunks := [];
      assert s.result + [] == s.result && s.inbuf[0..] == s.inbuf;
    } else {
      var k := if Feed(s.tokenizer.value, io.read).verdict != Continue then io.last else 1;
      var before, data := io.read[..|io.read| - k], io.read[|io.read| - k..];
      var earlier := io.(read := before);
      UndecidedBeforeLast(s, unread, io, k);
      assert io.read == before + data;
      assert data <= unread[|before|..];
      CommIsReady(s, unread, earlier);
      LastDoesNotMatter(s, unread, io, k);
      hide Feed, CommFn, Transfers, Absorb, Flatten;
      var first := ReadsAreChunks(s, unread, earlier);
      VerdictOfTransfers(s, unread, earlier);
      ReadExtends(s, unread, earlier, data);
      chunks := first + [data];
      assert Front(chunks) == first && Last(chunks) == data;
      FlattenSnoc(first, data);
      VerdictOfTransfers(s, unread, io);
    }
  }

  // Every legal transfer is one that the loops of communicate can make: what is read comes in
  // chunks of at least one byte and at most BUFSIZ, each read while the session was undecided,
  // the last being the one in which the tokenizer decided. Writing only shortens inbuf.
  lemma TransfersAreChunks(s: Session, unread: Bytes, io: IO) returns (chunks: seq<Bytes>)
    requires Ready(s) && s.verdict == Continue && Transfers(s, unread, io)
    ensures var written := s.(inbuf := s.inbuf[|io.written|..]);
            && Readable(written, chunks) && Flatten(chunks) == io.read
            && AbsorbAll(written, chunks) == CommFn(s, io)
    ensures CommFn(s, io).verdict != Continue ==> chunks != [] && |Last(chunks)| == io.last
  {
    hide Feed;
    var written, rest := s.(inbuf := s.inbuf[|io.written|..]), io.(written := []);
    assert CommFn(written, rest) == CommFn(s, io) by {
      assert written.inbuf[0..] == written.inbuf;
    }
    chunks := ReadsAreChunks(written, unread, rest);
  }
}
