// What the other modules share.
module Common {

  datatype Option<+T> = None | Some(value: T)

  /** The largest value of the source's 32-bit counters. */
  const MAX_INT32 := 2147483647

  predicate NoDuplicates(s: seq<string>) {
    forall i, j :: 0 <= i < j < |s| ==> s[i] != s[j]
  }

  function Elements(s: seq<string>): set<string> {
    set x | x in s
  }
}
