/** Bytes and byte strings, shared by the components that work on raw bytes. */
module Bytes {
  type byte = b: int | 0 <= b < 256

  type Text = seq<byte>

  /** x is a suffix of w. */
  predicate IsSuffix(x: Text, w: Text)
  {
    |x| <= |w| && w[|w| - |x|..] == x
  }

  /** p occurs in t as a contiguous block. */
  ghost predicate Occurs(p: Text, t: Text)
  {
    exists k :: |p| <= k <= |t| && IsSuffix(p, t[..k])
  }
}
