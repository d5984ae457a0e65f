// Vocabulary shared by every module: byte strings and the usual option type.
module Basics {
  // A byte of a pipe or of the judge's text stream is a char.
  type Bytes = string

  // The ranges of size_t and of the 64-bit signed integers of std::chrono.
  const UINT64 := 0x1_0000_0000_0000_0000
  const INT64 := 0x8000_0000_0000_0000

  predicate InInt64(n: int) {
    -INT64 <= n < INT64
  }

  datatype Option<+T> = None | Some(value: T)

  predicate EndsWith(s: Bytes, suffix: Bytes) {
    |suffix| <= |s| && s[|s| - |suffix|..] == suffix
  }

  function Min(a: nat, b: nat): nat {
    if a < b then a else b
  }

  function Flatten(parts: seq<Bytes>): Bytes {
    if parts == [] then [] else parts[0] + Flatten(parts[1..])
  }
}
