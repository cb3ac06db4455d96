/** What the source does to keep the newest entries of a list. */
module Sequences {
  /** The last entries, at most `n` of them. */
  function LastUpTo<T>(s: seq<T>, n: nat): seq<T> {
    if |s| > n then s[|s| - n..] else s
  }
}
