/** Texts written down as such. */
module AsciiText {
  /** The character codes of a text. */
  function Ascii(s: string): (b: seq<bv8>)
    requires forall k :: 0 <= k < |s| ==> s[k] < 128 as char
    ensures |b| == |s| && forall k :: 0 <= k < |s| ==> b[k] as int == s[k] as int
  {
    seq(|s|, k requires 0 <= k < |s| => (s[k] as int) as bv8)
  }
}
