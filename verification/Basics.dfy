/** Optional values, minima and reversal, used throughout. */
module Basics {

  datatype Option<+T> = None | Some(value: T)

  function Min(x: int, y: int): int {
    if x <= y then x else y
  }

  function Max(x: int, y: int): int {
    if x >= y then x else y
  }

  function Reversed<A>(s: seq<A>): (r: seq<A>)
    ensures |r| == |s| && forall i :: 0 <= i < |s| ==> r[i] == s[|s| - 1 - i]
  {
    seq(|s|, i requires 0 <= i < |s| => s[|s| - 1 - i])
  }
}
