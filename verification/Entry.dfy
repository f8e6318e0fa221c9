/** The entry, the unit of storage (kv/vault/entry.go): its marshaled form and what a parser makes
    of any bytes. */
module Entries {
  import opened Bytes

  const NONCE_SIZE := 16
  const TAG_SIZE := 16
  const HEADER_SIZE := 26
  const MAX_ENTRY_BYTES := 65536

  datatype Entry = Entry(ts: nat, nonce: seq<byte>, ct: seq<byte>)

  function Size(e: Entry): nat { HEADER_SIZE + |e.ct| }

  // An entry as Seal makes it and UnmarshalEntry returns it.
  predicate Valid(e: Entry) {
    && e.ts < 0x1_0000_0000_0000_0000
    && |e.nonce| == NONCE_SIZE
    && TAG_SIZE <= |e.ct|
    && Size(e) <= MAX_ENTRY_BYTES
  }

  // ts_ms(8) | nonce(16) | ct_len(2) | ciphertext, little-endian.
  function Header(e: Entry): seq<byte> { LittleEndian(e.ts, 8) + e.nonce + LittleEndian(|e.ct|, 2) }

  function Marshal(e: Entry): seq<byte> { Header(e) + e.ct }

  datatype Parsed = Short | Corrupt | TooLarge | Parsed(e: Entry, consumed: nat)

  function Unmarshal(b: seq<byte>): Parsed {
    if |b| < HEADER_SIZE then Short
    else
      var ctLen := FromLittleEndian(b[24..26]);
      if ctLen < TAG_SIZE then Corrupt
      else if HEADER_SIZE + ctLen > MAX_ENTRY_BYTES then TooLarge
      else if |b| < HEADER_SIZE + ctLen then Corrupt
      else Parsed(Entry(FromLittleEndian(b[..8]), b[8..24], b[26..26 + ctLen]), HEADER_SIZE + ctLen)
  }

  lemma {:induction false} Powers()
    ensures Pow256(2) == 0x1_0000 && Pow256(4) == 0x1_0000_0000 && Pow256(8) == 0x1_0000_0000_0000_0000
  {
    assert Pow256(4) == 0x1_0000_0000;
  }

  lemma {:induction false} HeaderParts(e: Entry, rest: seq<byte>)
    requires |e.nonce| == NONCE_SIZE
    ensures var b := Header(e) + rest;
            |Header(e)| == HEADER_SIZE && b[..8] == LittleEndian(e.ts, 8) && b[8..24] == e.nonce
            && b[24..26] == LittleEndian(|e.ct|, 2) && b[26..] == rest
  {
  }

  // Where each part of an entry lies.
  lemma {:induction false} MarshalSays(e: Entry)
    requires |e.nonce| == NONCE_SIZE
    ensures var b := Marshal(e);
            && |b| == 26 + |e.ct| && b[..8] == LittleEndian(e.ts, 8) && b[8..24] == e.nonce
            && b[24..26] == LittleEndian(|e.ct|, 2) && b[26..] == e.ct
  {
    HeaderParts(e, e.ct);
  }

  // An entry is self-delimiting: whatever follows it, it reads back whole.
  lemma {:induction false} UnmarshalInverse(e: Entry, rest: seq<byte>)
    requires Valid(e)
    ensures |Marshal(e)| == Size(e)
    ensures Unmarshal(Marshal(e) + rest) == Parsed(e, Size(e))
  {
    HeaderParts(e, []);
    HeaderParts(e, e.ct + rest);
    Associate(Header(e), e.ct, rest);
    var b := Marshal(e) + rest;
    Powers();
    LittleEndianInverse(e.ts, 8);
    LittleEndianInverse(|e.ct|, 2);
    assert b[26..26 + |e.ct|] == b[26..][..|e.ct|] == e.ct;
  }

  // Part of an entry never parses.
  lemma {:induction false} UnmarshalPart(e: Entry, n: nat)
    requires Valid(e) && n < Size(e)
    ensures |Marshal(e)| == Size(e) && !Unmarshal(Marshal(e)[..n]).Parsed?
  {
    HeaderParts(e, e.ct);
    var b := Marshal(e)[..n];
    if n >= HEADER_SIZE {
      assert b[24..26] == Marshal(e)[24..26];
      Powers();
      LittleEndianInverse(|e.ct|, 2);
    }
  }

  lemma {:induction false} FourParts(b: seq<byte>, n: nat)
    requires 26 <= n <= |b|
    ensures b[..n] == b[..8] + b[8..24] + b[24..26] + b[26..n]
  {
  }

  // Bytes that parse begin with the one marshaled form of what they parse to.
  lemma {:induction false} UnmarshalExact(b: seq<byte>)
    requires Unmarshal(b).Parsed?
    ensures var p := Unmarshal(b); Valid(p.e) && p.consumed == Size(p.e) <= |b| && b[..p.consumed] == Marshal(p.e)
  {
    var p := Unmarshal(b);
    Powers();
    FromLittleEndianInverse(b[..8]);
    FromLittleEndianInverse(b[24..26]);
    FourParts(b, p.consumed);
  }

  // Distinct entries marshal to distinct bytes, so an id made from the bytes names the entry.
  lemma {:induction false} MarshalInjective(a: Entry, b: Entry)
    requires Valid(a) && Valid(b) && Marshal(a) == Marshal(b)
    ensures a == b
  {
    UnmarshalInverse(a, []);
    UnmarshalInverse(b, []);
  }

  // ---------- writing into a buffer ----------

  // b with the bytes from at on replaced by s.
  function Splice(b: seq<byte>, at: nat, s: seq<byte>): seq<byte>
    requires at + |s| <= |b|
  {
    b[..at] + s + b[at + |s|..]
  }

  lemma {:induction false} SpliceTwice(b: seq<byte>, at: nat, s: seq<byte>, more: seq<byte>)
    requires at + |s| + |more| <= |b|
    ensures Splice(Splice(b, at, s), at + |s|, more) == Splice(b, at, s + more)
  {
  }

  lemma {:induction false} SpliceNext(b: seq<byte>, at: nat, s: seq<byte>, i: nat)
    requires at + |s| <= |b| && i < |s|
    ensures Splice(Splice(b, at, s[..i]), at + i, [s[i]]) == Splice(b, at, s[..i + 1])
  {
    SpliceTwice(b, at, s[..i], [s[i]]);
    assert s[..i] + [s[i]] == s[..i + 1];
  }

  lemma {:induction false} SpliceNone(b: seq<byte>, at: nat, s: seq<byte>)
    requires at + |s| <= |b|
    ensures b == Splice(b, at, s[..0]) && s[..|s|] == s
  {
  }

  method PutByte(buf: array<byte>, at: nat, x: byte)
    requires at < buf.Length
    modifies buf
    ensures buf[..] == Splice(old(buf[..]), at, [x])
  {
    buf[at] := x;
  }

  method LowByte(v: nat) returns (low: byte, high: nat)
    ensures high == Shift8(v) && low == v - 256 * Shift8(v)
  {
    low, high := v % 256, v / 256;
  }

  method PutLittleEndian(buf: array<byte>, at: nat, v: nat, n: nat)
    requires at + n <= buf.Length
    modifies buf
    ensures buf[..] == Splice(old(buf[..]), at, LittleEndian(v, n))
  {
    ghost var b, done: seq<byte> := buf[..], [];
    var i, left := 0, v;
    assert b == Splice(b, at, []);
    while i < n
      invariant |done| == i <= n
      invariant done + LittleEndian(left, n - i) == LittleEndian(v, n)
      invariant buf[..] == Splice(b, at, done)
    {
      var low, high := LowByte(left);
      PutByte(buf, at + i, low);
      SpliceTwice(b, at, done, [low]);
      done := done + [low];
      i, left := i + 1, high;
    }
    assert done + [] == done;
  }

  method PutBytes(buf: array<byte>, at: nat, s: seq<byte>)
    requires at + |s| <= buf.Length
    modifies buf
    ensures buf[..] == Splice(old(buf[..]), at, s)
  {
    ghost var b := buf[..];
    var i := 0;
    SpliceNone(b, at, s);
    while i < |s|
      invariant i <= |s|
      invariant buf[..] == Splice(b, at, s[..i])
    {
      PutByte(buf, at + i, s[i]);
      SpliceNext(b, at, s, i);
      i := i + 1;
    }
  }

  method MarshalTo(e: Entry, buf: array<byte>, at: nat) returns (n: nat)
    requires |e.nonce| == NONCE_SIZE && at + Size(e) <= buf.Length
    modifies buf
    ensures n == Size(e) == |Marshal(e)| && buf[..] == Splice(old(buf[..]), at, Marshal(e))
  {
    n := Size(e);
    ghost var b, ts, len := buf[..], LittleEndian(e.ts, 8), LittleEndian(|e.ct|, 2);
    PutLittleEndian(buf, at, e.ts, 8);
    PutBytes(buf, at + 8, e.nonce);
    SpliceTwice(b, at, ts, e.nonce);
    PutLittleEndian(buf, at + 24, |e.ct|, 2);
    SpliceTwice(b, at, ts + e.nonce, len);
    PutBytes(buf, at + 26, e.ct);
    SpliceTwice(b, at, ts + e.nonce + len, e.ct);
  }
}
