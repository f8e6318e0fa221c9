// Bytes, little-endian numbers and the option type shared by every module.

module Bytes {

  type byte = b: int | 0 <= b < 256

  datatype Option<+T> = None | Some(value: T)

  function Min(a: int, b: int): int { if a < b then a else b }

  function Max(a: int, b: int): int { if a < b then b else a }

  lemma {:induction false} Concat4(a: seq<byte>, b: seq<byte>, c: seq<byte>, d: seq<byte>)
    ensures a + b + c + d == a + (b + (c + d))
  {
  }

  lemma {:induction false} ConsAppend(x: byte, p: seq<byte>, rest: seq<byte>)
    ensures [x] + p + rest == [x] + (p + rest)
    ensures ([x] + p + rest)[1..] == p + rest
  {
  }

  lemma {:induction false} Split(s: seq<byte>, n: nat)
    requires n <= |s|
    ensures s == s[..n] + s[n..]
  {
  }

  lemma {:induction false} Associate(a: seq<byte>, b: seq<byte>, c: seq<byte>)
    ensures a + b + c == a + (b + c)
  {
  }

  lemma {:induction false} AppendCons<T>(a: seq<T>, b: seq<T>)
    requires a != []
    ensures a + b == [a[0]] + (a[1..] + b)
    ensures (a + b)[0] == a[0] && (a + b)[1..] == a[1..] + b
  {
  }

  lemma {:induction false} TakeCons<T>(a: seq<T>, k: nat)
    requires k < |a|
    ensures a[..k + 1] == [a[0]] + a[1..][..k]
  {
  }

  lemma {:induction false} PartsAt(f: seq<byte>, i: nat, a: seq<byte>, b: seq<byte>, j: nat)
    requires i <= |f| && f[i..] == a + b && j == i + |a|
    ensures j <= |f| && f[..j] == f[..i] + a && f[j..] == b
  {
  }

  lemma {:induction false} TakeAppend(a: seq<byte>, b: seq<byte>, n: nat)
    requires n <= |a| + |b|
    ensures (a + b)[..n] == if n < |a| then a[..n] else a + b[..n - |a|]
  {
  }

  lemma {:induction false} DropAppend(a: seq<byte>, b: seq<byte>, n: nat)
    requires |a| <= n <= |a| + |b|
    ensures (a + b)[n..] == b[n - |a|..]
  {
  }

  // v shifted right by eight bits; by repeated subtraction, which keeps the proofs linear.
  function Shift8(v: nat): (q: nat)
    ensures 256 * q <= v < 256 * q + 256
  {
    if v < 256 then 0 else 1 + Shift8(v - 256)
  }

  // The first n bytes of the little-endian form of v; what does not fit is dropped, as
  // a fixed-width integer conversion drops it.
  function LittleEndian(v: nat, n: nat): (b: seq<byte>)
    ensures |b| == n
  {
    if n == 0 then [] else [v - 256 * Shift8(v)] + LittleEndian(Shift8(v), n - 1)
  }

  function FromLittleEndian(b: seq<byte>): nat {
    if b == [] then 0 else b[0] + 256 * FromLittleEndian(b[1..])
  }

  function Pow256(n: nat): (p: nat)
    ensures p >= 1
  {
    if n == 0 then 1 else 256 * Pow256(n - 1)
  }

  lemma {:induction false} LittleEndianInverse(v: nat, n: nat)
    requires v < Pow256(n)
    ensures FromLittleEndian(LittleEndian(v, n)) == v
  {
    if n > 0 {
      LittleEndianInverse(Shift8(v), n - 1);
      assert LittleEndian(v, n)[1..] == LittleEndian(Shift8(v), n - 1);
    }
  }

  lemma {:induction false} FromLittleEndianInverse(b: seq<byte>)
    ensures FromLittleEndian(b) < Pow256(|b|)
    ensures LittleEndian(FromLittleEndian(b), |b|) == b
  {
    if b != [] {
      FromLittleEndianInverse(b[1..]);
      assert b == [b[0]] + b[1..];
    }
  }

  // The low byte comes first: byte k of v counts for 256 to the k.
  lemma {:induction false} LittleEndianAt(v: nat, n: nat, k: nat) returns (high: nat, low: nat)
    requires k < n
    ensures low < Pow256(k) && v == (256 * high + LittleEndian(v, n)[k]) * Pow256(k) + low
  {
    if k == 0 {
      high, low := Shift8(v), 0;
    } else {
      var q := Shift8(v);
      high, low := LittleEndianAt(q, n - 1, k - 1);
      var digits, p := 256 * high + LittleEndian(v, n)[k], Pow256(k - 1);
      assert LittleEndian(v, n)[k] == LittleEndian(q, n - 1)[k - 1];
      Spread(digits, p, low, v - 256 * q, v);
      low := 256 * low + (v - 256 * q);
    }
  }

  lemma {:induction false} Spread(digits: nat, p: nat, low: nat, bottom: nat, v: nat)
    requires low < p && bottom < 256 && v == 256 * (digits * p + low) + bottom
    ensures 256 * low + bottom < 256 * p && v == digits * (256 * p) + (256 * low + bottom)
  {
  }
}
