/** Well-formed UTF-8 (section 4 of RFC 3629), as Go's utf8.Valid judges it. */
module Utf8 {
  import opened Bytes

  predicate Tail(b: byte) { 0x80 <= b <= 0xBF }

  // The size of the well-formed code point that s starts with, or 0 if it starts with none.
  function RuneSize(s: seq<byte>): (n: nat)
    requires s != []
    ensures n <= |s|
  {
    if s[0] < 0x80 then 1
    else if |s| >= 2 && 0xC2 <= s[0] <= 0xDF && Tail(s[1]) then 2
    else if |s| >= 3 && 0xE0 <= s[0] <= 0xEF && Second(s[0], s[1]) && Tail(s[2]) then 3
    else if |s| >= 4 && 0xF0 <= s[0] <= 0xF4 && Second(s[0], s[1]) && Tail(s[2]) && Tail(s[3]) then 4
    else 0
  }

  // The second byte leaves out overlong forms, surrogates and what lies past U+10FFFF.
  predicate Second(first: byte, b: byte) {
    && Tail(b)
    && (first == 0xE0 ==> b >= 0xA0)
    && (first == 0xED ==> b <= 0x9F)
    && (first == 0xF0 ==> b >= 0x90)
    && (first == 0xF4 ==> b <= 0x8F)
  }

  predicate Valid(s: seq<byte>)
    decreases |s|
  {
    s == [] || (RuneSize(s) > 0 && Valid(s[RuneSize(s)..]))
  }
}
