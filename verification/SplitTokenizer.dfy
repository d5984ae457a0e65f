// src/tokenizers/split.c: a resumable separator search with a simplified fallback.
module SplitTokenizer {
  import opened Basics
  import opened Tokenizers

  class SplitInstance {
    var sep: Bytes
    var over: nat

    // tokenizer_new
    constructor (line: Bytes)
      requires |line| > 0
      ensures sep <= line && '\0' !in sep && (sep == line || line[|sep|] == '\0') && over == 0
      // The assertions of the first tokenizer_parse hold unless the line starts with NUL.
      ensures ArgumentOk(SplitLib, line) <==> over < |sep|
      ensures ArgumentOk(SplitLib, line) ==> Fresh(SplitLib, line) == Split(sep, over)
    {
      sep := CString(line);
      over := 0;
    }

    // tokenizer_parse: size is the value left in *size.
    method Parse(data: Bytes) returns (verdict: Verdict, size: nat)
      requires over < |sep|
      modifies this`over
      ensures Feed(Split(sep, old(over)), data) == Reply(verdict, size, Split(sep, over))
    {
      size := |data|;
      var i := 0;
      while i < |data|
        invariant i <= |data| == size && over < |sep|
        invariant Feed(Split(sep, old(over)), data) == Shift(Feed(Split(sep, over), data[i..]), i)
      {
        if data[i] == sep[over] {
          over := over + 1;
        } else if data[i] == sep[0] {
          over := 1;
        } else {
          over := 0;
        }
        assert data[i..][1..] == data[i + 1..];
        if over == |sep| {
          size := i + 1;
          return Accepted, size;
        }
        i := i + 1;
      }
      return Continue, size;
    }
  }

  // ---- what the search finds -------------------------------------------------------

  function Search(sep: Bytes, data: Bytes): Reply
    requires sep != []
  {
    Feed(Split(sep, 0), data)
  }

  predicate OccurrenceEndsAt(sep: Bytes, data: Bytes, n: nat) {
    n <= |data| && EndsWith(data[..n], sep)
  }

  // The reference: data[..n] is the shortest prefix that ends with the separator.
  ghost predicate FirstOccurrenceEndsAt(sep: Bytes, data: Bytes, n: nat) {
    OccurrenceEndsAt(sep, data, n) && forall k: nat | k < n :: !OccurrenceEndsAt(sep, data, k)
  }

  lemma FirstByte(sep: Bytes, over: nat, data: Bytes)
    requires over < |sep| && data != []
    ensures var next := Advance(sep, over, data[0]);
            Feed(Split(sep, over), data) ==
            if next == |sep| then Reply(Accepted, 1, Split(sep, next)) else Shift(Feed(Split(sep, next), data[1..]), 1)
  {
  }

  lemma AdvanceMatches(sep: Bytes, over: nat, seen: Bytes, c: char)
    requires over < |sep| && EndsWith(seen, sep[..over])
    ensures EndsWith(seen + [c], sep[..Advance(sep, over, c)])
  {
    if c == sep[over] {
      assert sep[..over + 1] == sep[..over] + [c];
    }
  }

  lemma {:induction false} MatchedSoFar(sep: Bytes, over: nat, seen: Bytes, data: Bytes, n: nat, all: Bytes)
    requires over < |sep| && EndsWith(seen, sep[..over])
    requires Feed(Split(sep, over), data).verdict == Accepted && Feed(Split(sep, over), data).accepted == n
    requires all == seen + data[..n]
    ensures EndsWith(all, sep)
    decreases |data|
  {
    hide EndsWith;
    var next, seen' := Advance(sep, over, data[0]), seen + [data[0]];
    FirstByte(sep, over, data);
    AdvanceMatches(sep, over, seen, data[0]);
    if next == |sep| {
      assert sep[..next] == sep && all == seen';
    } else {
      assert all == seen' + data[1..][..n - 1];
      MatchedSoFar(sep, next, seen', data[1..], n - 1, all);
    }
  }

  // Whatever the separator, an accepted prefix ends with it.
  lemma AcceptsOnlySeparators(sep: Bytes, data: Bytes)
    requires sep != [] && Search(sep, data).verdict == Accepted
    ensures EndsWith(data[..Search(sep, data).accepted], sep)
  {
    var n := Search(sep, data).accepted;
    assert data[..n] == [] + data[..n];
    MatchedSoFar(sep, 0, [], data, n, data[..n]);
  }

  // ---- for which separators the search is exact ------------------------------------

  predicate FirstByteReturns(sep: Bytes, p: nat) {
    0 < p < |sep| && sep[p] == sep[0]
  }

  predicate TailRepeatsHead(sep: Bytes, p: nat) {
    p <= |sep| && sep[p..] == sep[..|sep| - p]
  }

  // Wherever the first byte of the separator comes back, the rest of the separator
  // repeats its beginning.
  ghost predicate OverlapSafe(sep: Bytes) {
    forall p: nat :: FirstByteReturns(sep, p) ==> TailRepeatsHead(sep, p)
  }

  ghost predicate FindsFirstOccurrence(sep: Bytes)
    requires sep != []
  {
    forall data: Bytes, n: nat ::
      FirstOccurrenceEndsAt(sep, data, n) <==>
      Search(sep, data).verdict == Accepted && Search(sep, data).accepted == n
  }

  // over is the length of the longest prefix of sep that seen ends with.
  ghost predicate Longest(sep: Bytes, seen: Bytes, over: nat) {
    && over <= |sep|
    && EndsWith(seen, sep[..over])
    && forall j | over < j <= |sep| :: !EndsWith(seen, sep[..j])
  }

  // A match longer than the one Advance keeps would be a border of the matched prefix
  // that OverlapSafe lets grow along with it.
  lemma LongerMatchIsImpossible(sep: Bytes, seen: Bytes, over: nat, c: char, j: nat)
    requires over < |sep| && OverlapSafe(sep) && Longest(sep, seen, over)
    requires j <= |sep| && EndsWith(seen + [c], sep[..j])
    ensures j <= Advance(sep, over, c)
  {
    if j > 0 {
      var all := seen + [c];
      var tail := all[|all| - j..];
      assert tail == sep[..j];
      assert tail[j - 1] == c == sep[j - 1];
      assert seen[|seen| - (j - 1)..] == tail[..j - 1];
      assert sep[..j][..j - 1] == sep[..j - 1];
      assert EndsWith(seen, sep[..j - 1]);
      assert j - 1 <= over;
      if 1 < j && j - 1 < over {
        var p := over - (j - 1);
        assert seen[|seen| - over..] == sep[..over];
        assert seen[|seen| - (j - 1)] == sep[..over][p] == sep[..j - 1][0];
        assert FirstByteReturns(sep, p);
        assert sep[p..][j - 1] == sep[..|sep| - p][j - 1];
      }
    }
  }

  lemma AdvanceKeepsLongest(sep: Bytes, seen: Bytes, over: nat, c: char)
    requires over < |sep| && OverlapSafe(sep) && Longest(sep, seen, over)
    ensures Longest(sep, seen + [c], Advance(sep, over, c))
  {
    var next := Advance(sep, over, c);
    AdvanceMatches(sep, over, seen, c);
    forall j | next < j <= |sep|
      ensures !EndsWith(seen + [c], sep[..j])
    {
      if EndsWith(seen + [c], sep[..j]) {
        LongerMatchIsImpossible(sep, seen, over, c, j);
      }
    }
  }

  ghost predicate NoOccurrence(sep: Bytes, data: Bytes) {
    forall k: nat :: !OccurrenceEndsAt(sep, data, k)
  }

  lemma OneMoreByte(sep: Bytes, seen: Bytes, next: Bytes, all: Bytes)
    requires NoOccurrence(sep, seen) && seen <= next <= all && |next| == |seen| + 1
    ensures EndsWith(next, sep) ==> FirstOccurrenceEndsAt(sep, all, |next|)
    ensures !EndsWith(next, sep) ==> NoOccurrence(sep, next)
  {
    assert all[..|next|] == next && next[..|next|] == next;
    forall k: nat | k <= |seen|
      ensures !OccurrenceEndsAt(sep, all, k) && !OccurrenceEndsAt(sep, next, k)
    {
      assert all[..k] == seen[..k] == next[..k];
      assert !OccurrenceEndsAt(sep, seen, k);
    }
  }

  // No occurrence so far, and over says how much of one may be under way.
  ghost predicate Tracks(sep: Bytes, seen: Bytes, over: nat) {
    over < |sep| && Longest(sep, seen, over) && NoOccurrence(sep, seen)
  }

  lemma NotYet(sep: Bytes, seen: Bytes, over: nat)
    requires over < |sep| && Longest(sep, seen, over)
    ensures !EndsWith(seen, sep)
  {
    assert sep[..|sep|] == sep;
  }

  lemma TrackOneByte(sep: Bytes, seen: Bytes, over: nat, c: char, all: Bytes)
    requires OverlapSafe(sep) && Tracks(sep, seen, over) && seen + [c] <= all
    ensures var next := Advance(sep, over, c);
            if next == |sep| then FirstOccurrenceEndsAt(sep, all, |seen| + 1) else Tracks(sep, seen + [c], next)
  {
    AdvanceKeepsLongest(sep, seen, over, c);
    OneMoreByte(sep, seen, seen + [c], all);
    if Advance(sep, over, c) < |sep| {
      NotYet(sep, seen + [c], Advance(sep, over, c));
    } else {
      assert sep[..|sep|] == sep;
    }
  }

  // On an overlap-safe separator the scan stops at the first prefix that ends with it.
  lemma {:induction false} ScanIsExact(sep: Bytes, over: nat, seen: Bytes, data: Bytes, all: Bytes)
    requires OverlapSafe(sep) && Tracks(sep, seen, over) && all == seen + data
    ensures var r := Feed(Split(sep, over), data);
            if r.verdict == Accepted then FirstOccurrenceEndsAt(sep, all, |seen| + r.accepted)
            else NoOccurrence(sep, all)
    decreases |data|
  {
    hide EndsWith;
    if data == [] {
      assert all == seen;
    } else {
      var next, seen' := Advance(sep, over, data[0]), seen + [data[0]];
      FirstByte(sep, over, data);
      assert all == seen' + data[1..];
      TrackOneByte(sep, seen, over, data[0], all);
      if next < |sep| {
        ScanIsExact(sep, next, seen', data[1..], all);
      }
    }
  }

  // ---- the missed inputs -----------------------------------------------------------

  lemma {:induction false} TooFewBytes(sep: Bytes, over: nat, data: Bytes)
    requires over + |data| < |sep|
    ensures Feed(Split(sep, over), data).verdict == Continue
    decreases |data|
  {
    if data != [] {
      TooFewBytes(sep, Advance(sep, over, data[0]), data[1..]);
    }
  }

  lemma {:induction false} Climb(sep: Bytes, over: nat, p: nat)
    requires over <= p < |sep|
    ensures Feed(Split(sep, over), sep[over..p]) == Reply(Continue, p - over, Split(sep, p))
    decreases p - over
  {
    if over < p {
      assert sep[over..p][1..] == sep[over + 1..p];
      Climb(sep, over + 1, p);
    }
  }

  predicate SameAt(sep: Bytes, p: nat, k: nat) {
    p + k < |sep| && sep[p + k] == sep[k]
  }

  lemma FirstDifference(sep: Bytes, p: nat) returns (d: nat)
    requires p < |sep| && !TailRepeatsHead(sep, p)
    ensures p + d < |sep| && !SameAt(sep, p, d)
    ensures forall k | 0 <= k < d :: SameAt(sep, p, k)
  {
    d := 0;
    while p + d < |sep| && SameAt(sep, p, d)
      invariant p + d <= |sep|
      invariant forall k | 0 <= k < d :: SameAt(sep, p, k)
    {
      d := d + 1;
    }
    if p + d == |sep| {
      forall k | 0 <= k < d
        ensures sep[p..][k] == sep[..d][k]
      {
        assert SameAt(sep, p, k);
      }
      assert false;
    }
  }

  // Having matched p + i bytes where the real occurrence has matched only i, the scan
  // runs into the first difference and cannot recover.
  lemma {:induction false} Derailed(sep: Bytes, p: nat, i: nat, d: nat, rest: Bytes)
    requires 0 < p && 0 < d && i <= d && p + d < |sep| && !SameAt(sep, p, d)
    requires forall k | 0 <= k < d :: SameAt(sep, p, k)
    requires rest == sep[i..]
    ensures Feed(Split(sep, p + i), rest).verdict == Continue
    decreases d - i
  {
    hide Feed;
    FirstByte(sep, p + i, rest);
    if i < d {
      assert SameAt(sep, p, i);
      Derailed(sep, p, i + 1, d, rest[1..]);
    } else {
      TooFewBytes(sep, Advance(sep, p + i, sep[i]), rest[1..]);
    }
  }

  // The input sep[..p] + sep ends with the separator, yet the scan never accepts it.
  lemma MissesOverlap(sep: Bytes, p: nat)
    requires FirstByteReturns(sep, p) && !TailRepeatsHead(sep, p)
    ensures Search(sep, sep[..p] + sep).verdict == Continue
    ensures EndsWith(sep[..p] + sep, sep)
  {
    Climb(sep, 0, p);
    FeedConcat(Split(sep, 0), sep[..p], sep);
    var d := FirstDifference(sep, p);
    Derailed(sep, p, 0, d, sep);
  }

  // Some prefix of data that ends with sep is the shortest one.
  lemma {:induction false} ShortestExists(sep: Bytes, data: Bytes, n: nat) returns (k: nat)
    requires OccurrenceEndsAt(sep, data, n)
    ensures FirstOccurrenceEndsAt(sep, data, k)
  {
    k := n;
    if j: nat :| j < n && OccurrenceEndsAt(sep, data, j) {
      k := ShortestExists(sep, data, j);
    }
  }

  lemma NothingSeenYet(sep: Bytes)
    requires sep != []
    ensures Tracks(sep, [], 0)
  {
  }

  lemma FirstIsUnique(sep: Bytes, data: Bytes, n: nat, k: nat)
    requires FirstOccurrenceEndsAt(sep, data, n) && FirstOccurrenceEndsAt(sep, data, k)
    ensures n == k
  {
  }

  lemma SafeSeparatorIsFound(sep: Bytes, data: Bytes, n: nat)
    requires sep != [] && OverlapSafe(sep)
    ensures FirstOccurrenceEndsAt(sep, data, n) <==>
            Search(sep, data).verdict == Accepted && Search(sep, data).accepted == n
  {
    hide EndsWith;
    var r := Search(sep, data);
    NothingSeenYet(sep);
    ScanIsExact(sep, 0, [], data, data);
    if r.verdict != Accepted {
      assert !OccurrenceEndsAt(sep, data, n);
    } else if FirstOccurrenceEndsAt(sep, data, n) {
      FirstIsUnique(sep, data, n, r.accepted);
    }
  }

  lemma UnsafeSeparatorIsMissed(sep: Bytes, p: nat)
    requires FirstByteReturns(sep, p) && !TailRepeatsHead(sep, p)
    ensures !FindsFirstOccurrence(sep)
  {
    var data := sep[..p] + sep;
    MissesOverlap(sep, p);
    assert data[..|data|] == data;
    var n := ShortestExists(sep, data, |data|);
  }

  // The exact theorem: the search of split.c is a first-occurrence search on every input
  // if and only if the separator is overlap-safe.
  lemma SplitIsExactIffOverlapSafe(sep: Bytes)
    requires sep != []
    ensures FindsFirstOccurrence(sep) <==> OverlapSafe(sep)
  {
    if OverlapSafe(sep) {
      forall data: Bytes, n: nat
        ensures FirstOccurrenceEndsAt(sep, data, n) <==>
                Search(sep, data).verdict == Accepted && Search(sep, data).accepted == n
      {
        SafeSeparatorIsFound(sep, data, n);
      }
    } else {
      var p: nat :| FirstByteReturns(sep, p) && !TailRepeatsHead(sep, p);
      UnsafeSeparatorIsMissed(sep, p);
    }
  }

  // The documented failing case of the repository's own tests.
  lemma OverlappingTestIsMissed()
    ensures Search("axbayc", "axbaxbayc").verdict == Continue
    ensures !OverlapSafe("axbayc")
  {
    var sep := "axbayc";
    assert sep[3..][1] != sep[..3][1];
    MissesOverlap(sep, 3);
    assert sep[..3] + sep == "axbaxbayc";
  }
}
