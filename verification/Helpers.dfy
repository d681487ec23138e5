/** What several modules use. */
module Helpers {

  datatype Option<T> = None | Some(value: T)

  /** `n` empty strings. */
  function Blanks(n: nat): (s: seq<string>)
    ensures |s| == n && forall i | 0 <= i < n :: s[i] == ""
  {
    if n == 0 then [] else Blanks(n - 1) + [""]
  }
}
