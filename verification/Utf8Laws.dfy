/** What keeps text well-formed UTF-8. */
module Utf8Laws {
  import opened Bytes
  import opened Utf8

  ghost predicate Ascii(s: seq<byte>) { forall k :: 0 <= k < |s| ==> s[k] < 128 }

  lemma {:induction false} RuneOfAppend(a: seq<byte>, b: seq<byte>)
    requires a != [] && RuneSize(a) > 0
    ensures RuneSize(a + b) == RuneSize(a)
  {
    assert (a + b)[0] == a[0];
    if |a| > 1 { assert (a + b)[1] == a[1]; }
    if |a| > 2 { assert (a + b)[2] == a[2]; }
    if |a| > 3 { assert (a + b)[3] == a[3]; }
  }

  lemma {:induction false} ValidAppend(a: seq<byte>, b: seq<byte>)
    requires Valid(a) && Valid(b)
    ensures Valid(a + b)
    decreases |a|
  {
    if a == [] {
      assert a + b == b;
    } else {
      var n := RuneSize(a);
      RuneOfAppend(a, b);
      ValidAppend(a[n..], b);
      assert (a + b)[n..] == a[n..] + b;
    }
  }

  lemma {:induction false} AsciiValid(s: seq<byte>)
    requires Ascii(s)
    ensures Valid(s)
    decreases |s|
  {
    if s != [] { AsciiValid(s[1..]); }
  }

  // The bytes of a code point that is not ASCII are none of them ASCII.
  lemma {:induction false} RuneBytes(s: seq<byte>)
    requires s != [] && RuneSize(s) > 0
    ensures if RuneSize(s) == 1 then s[0] < 128 else forall k :: 0 <= k < RuneSize(s) ==> s[k] >= 128
  {
  }

  lemma {:induction false} RuneAlone(s: seq<byte>)
    requires s != [] && RuneSize(s) > 0
    ensures Valid(s[..RuneSize(s)])
  {
    var n := RuneSize(s);
    var r := s[..n];
    assert r[0] == s[0];
    if n > 1 { assert r[1] == s[1]; }
    if n > 2 { assert r[2] == s[2]; }
    if n > 3 { assert r[3] == s[3]; }
    assert RuneSize(r) == n && r[n..] == [];
  }

  // ---------- what the bytes say ----------

  // n bytes laid out as a code point: the first says how many there are, the others are tails.
  ghost predicate Laid(s: seq<byte>, n: nat) {
    && 1 <= n <= 4 && n <= |s| && (forall k :: 1 <= k < n ==> Tail(s[k]))
    && match n case 1 => s[0] < 0x80 case 2 => 0xC0 <= s[0] < 0xE0 case 3 => 0xE0 <= s[0] < 0xF0
               case _ => 0xF0 <= s[0] < 0xF8
  }

  // Six bits a tail, the first byte's on top of them.
  ghost function Code(s: seq<byte>, n: nat): int
    requires Laid(s, n)
  {
    match n
    case 1 => s[0] as int
    case 2 => 0x40 * (s[0] as int - 0xC0) + (s[1] as int - 0x80)
    case 3 => 0x1000 * (s[0] as int - 0xE0) + 0x40 * (s[1] as int - 0x80) + (s[2] as int - 0x80)
    case _ =>
      0x4_0000 * (s[0] as int - 0xF0) + 0x1000 * (s[1] as int - 0x80) + 0x40 * (s[2] as int - 0x80)
          + (s[3] as int - 0x80)
  }

  // The least code point that needs n bytes.
  function Least(n: nat): int { match n case 1 => 0 case 2 => 0x80 case 3 => 0x800 case _ => 0x1_0000 }

  // A code point is well-formed exactly in its shortest form, up to U+10FFFF and no surrogate.
  lemma {:induction false} RuneExactly(s: seq<byte>, n: nat)
    requires s != [] && n > 0
    ensures RuneSize(s) == n <==>
            Laid(s, n) && Least(n) <= Code(s, n) <= 0x10_FFFF && !(0xD800 <= Code(s, n) <= 0xDFFF)
  {
    if Laid(s, n) { assert 2 <= n ==> Tail(s[1]); assert 3 <= n ==> Tail(s[2]); assert n == 4 ==> Tail(s[3]); }
  }
}
