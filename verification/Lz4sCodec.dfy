/** The LZ4s compressor and decompressor as they run: a hash chain over three-byte prefixes whose
    candidates are pruned and bounded, and a bounds-checked decoder. */
module Lz4sCodec {
  import opened Bytes
  import opened Lz4s
  import opened Lz4sLaws

  newtype int32 = x: int | -0x8000_0000 <= x < 0x8000_0000

  // ---------- the hash chain ----------

  type Hash = (byte, byte, byte) -> nat

  function HashAt(s: seq<byte>, hash: Hash, i: nat): nat
    requires i + 3 <= |s|
  {
    hash(s[i], s[i + 1], s[i + 2])
  }

  // One past the latest position before i whose three bytes hash to h; 0 if there is none.
  function Latest(s: seq<byte>, hash: Hash, h: nat, i: nat): (r: nat)
    requires i <= |s|
    ensures r <= i
    ensures r > 0 ==> r + 2 <= |s| && HashAt(s, hash, r - 1) == h
    ensures forall j :: r <= j < i && j + 3 <= |s| ==> HashAt(s, hash, j) != h
  {
    if i == 0 then 0
    else if i + 2 <= |s| && HashAt(s, hash, i - 1) == h then i
    else Latest(s, hash, h, i - 1)
  }

  // head and prev hold the chain of every position before upto.
  ghost predicate Chained(s: seq<byte>, hash: Hash, head: array<int32>, prev: array<int32>, upto: nat)
    requires upto <= |s|
    reads head, prev
  {
    && prev.Length == |s|
    && (forall h: nat {:trigger head[h]} :: h < head.Length ==> head[h] as int == Latest(s, hash, h, upto))
    && (forall i: nat {:trigger prev[i]} :: i < upto && i + 3 <= |s| ==>
        prev[i] as int == Latest(s, hash, HashAt(s, hash, i), i))
  }

  lemma {:induction false} LatestNext(s: seq<byte>, hash: Hash, h: nat, i: nat)
    requires i < |s|
    ensures Latest(s, hash, h, i + 1) == if i + 3 <= |s| && HashAt(s, hash, i) == h then i + 1
            else Latest(s, hash, h, i)
  {
  }

  method Insert(s: seq<byte>, hash: Hash, head: array<int32>, prev: array<int32>, i: nat)
    requires i < |s| < 0x8000_0000 && head != prev && Chained(s, hash, head, prev, i)
    requires forall a, b, c :: hash(a, b, c) < head.Length
    modifies head, prev
    ensures Chained(s, hash, head, prev, i + 1)
  {
    if i + 3 <= |s| {
      var h := hash(s[i], s[i + 1], s[i + 2]);
      prev[i] := head[h];
      head[h] := (i + 1) as int32;
    }
    forall h: nat | h < head.Length
      ensures head[h] as int == Latest(s, hash, h, i + 1)
    {
      LatestNext(s, hash, h, i);
    }
  }

  // ---------- what the search leaves out ----------

  // A shorter match from farther back never gains more.
  lemma {:induction false} GainMonotone(l: nat, dist: nat, len: nat, nearer: nat)
    requires l <= len && nearer <= dist
    ensures Gain(l, dist) <= Gain(len, nearer)
  {
    if len >= 17 { RunBytesIs(len - 17); }
    if l >= 17 { RunBytesIs(l - 17); }
  }

  // Three bytes that agree hash alike, so a match begins only where the hash is that of pos.
  lemma {:induction false} OtherHashNoMatch(s: seq<byte>, hash: Hash, pos: nat, j: nat)
    requires j < pos && pos + 3 <= |s| && HashAt(s, hash, j) != HashAt(s, hash, pos)
    ensures MatchLength(s, j, pos) < 3
  {
    AgreesAt(s, j, pos, 0);
    AgreesAt(s, j, pos, 1);
    AgreesAt(s, j, pos, 2);
  }

  lemma {:induction false} SkipOtherHashes(s: seq<byte>, hash: Hash, pos: nat, lo: nat, hi: nat)
    requires lo <= hi <= pos && pos + 3 <= |s|
    requires forall j :: lo <= j < hi && j + 3 <= |s| ==> HashAt(s, hash, j) != HashAt(s, hash, pos)
    ensures Scan(s, pos, lo) == Scan(s, pos, hi)
    decreases hi - lo
  {
    if lo < hi {
      SkipOtherHashes(s, hash, pos, lo + 1, hi);
      OtherHashNoMatch(s, hash, pos, lo);
    }
  }

  // A candidate that differs at the best length so far cannot win.
  lemma {:induction false} PruneDiffering(s: seq<byte>, pos: nat, cand: nat)
    requires cand < pos <= |s|
    requires var len := Scan(s, pos, cand + 1).len; pos + len < |s| && s[cand + len] != s[pos + len]
    ensures Scan(s, pos, cand) == Scan(s, pos, cand + 1)
  {
    var best := Scan(s, pos, cand + 1);
    var l := MatchLength(s, cand, pos);
    AgreesAt(s, cand, pos, best.len);
    ScanIsMatch(s, pos, cand + 1);
    GainMonotone(l, pos - cand, best.len, best.dist);
  }

  // A match that reaches the end of the text cannot be beaten.
  lemma {:induction false} PruneFull(s: seq<byte>, pos: nat, lo: nat, hi: nat)
    requires lo <= hi <= pos < |s| && Scan(s, pos, hi).len == |s| - pos
    ensures Scan(s, pos, lo) == Scan(s, pos, hi)
    decreases hi - lo
  {
    if lo < hi {
      PruneFull(s, pos, lo + 1, hi);
      var best := Scan(s, pos, lo + 1);
      ScanIsMatch(s, pos, lo + 1);
      GainMonotone(MatchLength(s, lo, pos), pos - lo, best.len, best.dist);
    }
  }

  lemma {:induction false} ScanShort(s: seq<byte>, pos: nat, lo: nat)
    requires lo <= pos <= |s| < pos + 3
    ensures Scan(s, pos, lo) == Match(0, 0, 0)
    decreases pos - lo
  {
    if lo < pos { ScanShort(s, pos, lo + 1); }
  }

  // ---------- the compressor ----------

  // Measures one candidate and keeps it if it gains more.
  method Weigh(s: seq<byte>, pos: nat, cand: nat, best: Match) returns (r: Match)
    requires cand < pos < |s|
    ensures r == Better(s, pos, cand, best)
  {
    var l := 0;
    while l < |s| - pos && s[cand + l] == s[pos + l]
      invariant l <= |s| - pos
      invariant MatchLength(s, cand, pos) == l + MatchLength(s, cand + l, pos + l)
    {
      l := l + 1;
    }
    r := best;
    if l < 3 { return; }
    var dist := pos - cand;
    var cost := 2;
    if dist > 256 { cost := 3; }
    if l >= 17 {
      cost := cost + 1 + (l - 17) / 255;
      RunBytesIs(l - 17);
    }
    var gain := l - cost;
    if gain > best.gain { r := Match(gain, l, dist); }
  }

  // Everything of seen..pos has been weighed and cand is the next candidate below.
  ghost predicate Walked(s: seq<byte>, hash: Hash, pos: nat, seen: nat, cand: int, best: Match)
    requires pos + 3 <= |s|
  {
    && -1 <= cand < seen <= pos
    && cand + 1 == Latest(s, hash, HashAt(s, hash, pos), seen)
    && best == Scan(s, pos, seen)
  }

  lemma {:induction false} WalkEnds(s: seq<byte>, hash: Hash, pos: nat, lo: nat, seen: nat, cand: int, best: Match)
    requires lo <= seen <= pos && pos + 3 <= |s| && Walked(s, hash, pos, seen, cand, best)
    requires cand < lo || best.len >= |s| - pos
    ensures best == Scan(s, pos, lo)
  {
    if cand < lo {
      SkipOtherHashes(s, hash, pos, lo, seen);
    } else {
      PruneFull(s, pos, lo, seen);
    }
  }

  // Looks at one more candidate, unless it already differs where it would have to win.
  method Consider(s: seq<byte>, hash: Hash, pos: nat, cand: nat, ghost seen: nat, best: Match) returns (r: Match)
    requires pos + 3 <= |s| && Walked(s, hash, pos, seen, cand, best) && best.len < |s| - pos
    ensures r == Scan(s, pos, cand)
  {
    SkipOtherHashes(s, hash, pos, cand + 1, seen);
    if s[cand + best.len] != s[pos + best.len] {
      PruneDiffering(s, pos, cand);
      return best;
    }
    r := Weigh(s, pos, cand, best);
  }

  lemma {:induction false} WalkStep(s: seq<byte>, hash: Hash, pos: nat, cand: nat, best: Match, next: int)
    requires cand < pos && pos + 3 <= |s|
    requires best == Scan(s, pos, cand) && next + 1 == Latest(s, hash, HashAt(s, hash, pos), cand)
    ensures Walked(s, hash, pos, cand, next, best)
  {
  }

  // The candidate below cand on its chain.
  method Next(s: seq<byte>, hash: Hash, head: array<int32>, prev: array<int32>, pos: nat, cand: nat,
      ghost seen: nat) returns (next: int)
    requires cand < seen <= pos && pos + 3 <= |s| && Chained(s, hash, head, prev, pos)
    requires cand + 1 == Latest(s, hash, HashAt(s, hash, pos), seen)
    ensures next + 1 == Latest(s, hash, HashAt(s, hash, pos), cand)
  {
    next := prev[cand] as int - 1;
  }

  // Walks the chain of pos's three bytes from the latest position down to lo.
  method Walk(s: seq<byte>, hash: Hash, head: array<int32>, prev: array<int32>, pos: nat, lo: nat) returns (best: Match)
    requires lo <= pos && pos + 3 <= |s| && Chained(s, hash, head, prev, pos)
    requires HashAt(s, hash, pos) < head.Length
    ensures best == Scan(s, pos, lo)
  {
    ghost var seen := pos;
    best := Match(0, 0, 0);
    var cand := head[hash(s[pos], s[pos + 1], s[pos + 2])] as int - 1;
    while cand >= lo && best.len < |s| - pos
      invariant lo <= seen <= pos && Walked(s, hash, pos, seen, cand, best)
      decreases cand
    {
      best := Consider(s, hash, pos, cand, seen, best);
      var next := Next(s, hash, head, prev, pos, cand, seen);
      WalkStep(s, hash, pos, cand, best, next);
      seen, cand := cand, next;
    }
    WalkEnds(s, hash, pos, lo, seen, cand, best);
  }

  // The pruned walk of the hash chain finds what a scan of the whole window finds.
  method Search(s: seq<byte>, hash: Hash, head: array<int32>, prev: array<int32>, pos: nat) returns (best: Match)
    requires pos < |s| && Chained(s, hash, head, prev, pos)
    requires pos + 3 <= |s| ==> HashAt(s, hash, pos) < head.Length
    ensures best == Scan(s, pos, Low(pos))
  {
    var lo: int := pos - WINDOW;
    if lo < 0 { lo := 0; }
    if |s| - pos >= 3 {
      best := Walk(s, hash, head, prev, pos, lo);
    } else {
      best := Match(0, 0, 0);
      ScanShort(s, pos, lo);
    }
  }

  method AppendRun(out: seq<byte>, n: nat) returns (r: seq<byte>)
    ensures r == out + Extension(n)
  {
    r := out;
    var v := n;
    while v >= 255
      invariant r + Extension(v) == out + Extension(n)
    {
      r := r + [255];
      v := v - 255;
    }
    r := r + [v];
  }

  method MakeToken(l: nat, matchLen: nat, dist: nat) returns (token: byte)
    requires matchLen > 0 ==> matchLen >= 3
    ensures token == Token(l, matchLen, dist)
  {
    if l >= 7 { token := 7 * 16; } else { token := l * 16; }
    if matchLen > 0 {
      var m := matchLen - 2;
      if m >= 15 { m := 15; }
      token := token + m;
    }
    if matchLen > 0 && dist > 256 { token := token + 128; }
  }

  method MakeOffset(dist: nat) returns (b: seq<byte>)
    requires dist >= 1
    ensures b == OffsetBytes(dist)
  {
    if dist > 256 {
      b := [(dist - 1) % 256, (dist - 1) / 256 % 256];
    } else {
      b := [dist - 1];
    }
  }

  method AppendLiterals(out: seq<byte>, lits: seq<byte>) returns (r: seq<byte>)
    ensures r == out + LiteralBytes(lits)
  {
    r := out;
    if |lits| >= 7 { r := AppendRun(r, |lits| - 7); }
    r := r + lits;
  }

  method AppendLength(out: seq<byte>, matchLen: nat) returns (r: seq<byte>)
    requires matchLen >= 3
    ensures r == out + LengthBytes(matchLen)
  {
    r := out;
    if matchLen - 2 >= 15 { r := AppendRun(r, matchLen - 17); }
  }

  method AppendMatch(out: seq<byte>, matchLen: nat, dist: nat) returns (r: seq<byte>)
    requires matchLen > 0 ==> matchLen >= 3 && dist >= 1
    ensures r == out + MatchBytes(matchLen, dist)
  {
    r := out;
    if matchLen > 0 {
      var offset := MakeOffset(dist);
      r := r + offset;
      r := AppendLength(r, matchLen);
      Associate(out, offset, LengthBytes(matchLen));
    }
  }

  method Emit(out: seq<byte>, lits: seq<byte>, matchLen: nat, dist: nat) returns (r: seq<byte>)
    requires matchLen > 0 ==> matchLen >= 3 && dist >= 1
    ensures r == out + SequenceBytes(Sequence(lits, matchLen, dist))
  {
    var token := MakeToken(|lits|, matchLen, dist);
    r := out + [token];
    r := AppendLiterals(r, lits);
    r := AppendMatch(r, matchLen, dist);
    Concat4(out, [token], LiteralBytes(lits), MatchBytes(matchLen, dist));
  }

  method InsertAll(s: seq<byte>, hash: Hash, head: array<int32>, prev: array<int32>, lo: nat, hi: nat)
    requires lo <= hi <= |s| < 0x8000_0000 && head != prev && Chained(s, hash, head, prev, lo)
    requires forall a, b, c :: hash(a, b, c) < head.Length
    modifies head, prev
    ensures Chained(s, hash, head, prev, hi)
  {
    var i := lo;
    while i < hi
      invariant lo <= i <= hi && Chained(s, hash, head, prev, i)
    {
      Insert(s, hash, head, prev, i);
      i := i + 1;
    }
  }

  lemma {:induction false} StreamOfTaken(s: seq<byte>, pos: nat, lits: seq<byte>, best: Match)
    requires pos < |s| && best == Scan(s, pos, Low(pos)) && best.gain > 0
    ensures Stream(Parse(s, pos, lits))
         == SequenceBytes(Sequence(lits, best.len, best.dist)) + Stream(Parse(s, pos + best.len, []))
  {
    StreamOfCons(Sequence(lits, best.len, best.dist), Parse(s, pos + best.len, []));
  }

  lemma {:induction false} TakenAppended(s: seq<byte>, pos: nat, lits: seq<byte>, best: Match, out: seq<byte>,
      r: seq<byte>)
    requires pos < |s| && best == Scan(s, pos, Low(pos)) && best.gain > 0
    requires r == out + SequenceBytes(Sequence(lits, best.len, best.dist))
    ensures r + Stream(Parse(s, pos + best.len, [])) == out + Stream(Parse(s, pos, lits))
  {
    StreamOfTaken(s, pos, lits, best);
    Associate(out, SequenceBytes(Sequence(lits, best.len, best.dist)), Stream(Parse(s, pos + best.len, [])));
  }

  lemma {:induction false} Skipped(s: seq<byte>, pos: nat, lits: seq<byte>)
    requires pos < |s| && Scan(s, pos, Low(pos)).gain <= 0
    ensures Parse(s, pos + 1, lits + [s[pos]]) == Parse(s, pos, lits)
  {
  }

  // What is out already and what is still to come stay the whole stream from turn to turn.
  lemma {:induction false} TurnKeeps(s: seq<byte>, pos: nat, lits: seq<byte>, best: Match, out: seq<byte>,
                                     next: nat, pending: seq<byte>, r: seq<byte>, before: seq<byte>, after: seq<byte>)
    requires pos < |s| && best == Scan(s, pos, Low(pos)) && next <= |s|
    requires if best.gain > 0
             then next == pos + best.len && pending == []
                 && r == out + SequenceBytes(Sequence(lits, best.len, best.dist))
             else next == pos + 1 && pending == lits + [s[pos]] && r == out
    requires before == Stream(Parse(s, pos, lits)) && after == Stream(Parse(s, next, pending))
    ensures r + after == out + before
  {
    if best.gain > 0 { TakenAppended(s, pos, lits, best, out, r); } else { Skipped(s, pos, lits); }
  }

  // Emits the pending literals and the match taken after them, or leaves one more literal pending.
  method Take(s: seq<byte>, pos: nat, lits: seq<byte>, best: Match, out: seq<byte>)
    returns (next: nat, pending: seq<byte>, r: seq<byte>)
    requires pos < |s| && best == Scan(s, pos, Low(pos))
    ensures pos < next <= |s|
    ensures if best.gain > 0
            then next == pos + best.len && pending == []
                && r == out + SequenceBytes(Sequence(lits, best.len, best.dist))
            else next == pos + 1 && pending == lits + [s[pos]] && r == out
  {
    if best.gain > 0 {
      next, pending := pos + best.len, [];
      r := Emit(out, lits, best.len, best.dist);
    } else {
      next, pending, r := pos + 1, lits + [s[pos]], out;
    }
  }

  // One turn of the compressor: a match taken, or one more pending literal.
  method Advance(s: seq<byte>, hash: Hash, head: array<int32>, prev: array<int32>, pos: nat, lits: seq<byte>,
      out: seq<byte>)
    returns (next: nat, pending: seq<byte>, r: seq<byte>)
    requires pos < |s| < 0x8000_0000 && head != prev && Chained(s, hash, head, prev, pos)
    requires forall a, b, c :: hash(a, b, c) < head.Length
    modifies head, prev
    ensures pos < next <= |s| && Chained(s, hash, head, prev, next)
    ensures r + Stream(Parse(s, next, pending)) == out + Stream(Parse(s, pos, lits))
  {
    var best := Search(s, hash, head, prev, pos);
    next, pending, r := Take(s, pos, lits, best, out);
    TurnKeeps(s, pos, lits, best, out, next, pending, r, Stream(Parse(s, pos, lits)), Stream(Parse(s, next, pending)));
    InsertAll(s, hash, head, prev, pos, next);
  }

  // Delta, whatever its hash and its table: the naive greedy compressor's stream, byte for byte.
  method DeltaWith(base: seq<byte>, src: seq<byte>, hash: Hash, size: nat) returns (out: seq<byte>)
    requires |base| + |src| < 0x8000_0000
    requires forall a, b, c :: hash(a, b, c) < size
    ensures out == DeltaSpec(base, src)
  {
    var s := base + src;
    var head := new int32[size](_ => 0);
    var prev := new int32[|s|](_ => 0);
    InsertAll(s, hash, head, prev, 0, |base|);
    var pos, lits: seq<byte> := |base|, [];
    out := [];
    ghost var goal := Stream(Parse(s, pos, lits));
    while pos < |s|
      invariant pos <= |s| && Chained(s, hash, head, prev, pos)
      invariant out + Stream(Parse(s, pos, lits)) == goal
    {
      pos, lits, out := Advance(s, hash, head, prev, pos, lits, out);
    }
    StreamOfLast(s, lits);
    if |lits| > 0 {
      out := Emit(out, lits, 0, 0);
    }
  }

  function Pow2(n: nat): (p: nat)
    ensures p >= 1
  {
    if n == 0 then 1 else 2 * Pow2(n - 1)
  }

  // v shifted right by n bits.
  function ShiftRight(v: nat, n: nat): nat {
    if n == 0 then v else ShiftRight(v / 2, n - 1)
  }

  lemma {:induction false} ShiftRightBelow(v: nat, n: nat, bits: nat)
    requires v < Pow2(n + bits)
    ensures ShiftRight(v, n) < Pow2(bits)
  {
    if n > 0 { ShiftRightBelow(v / 2, n - 1, bits); }
  }

  lemma {:induction false} Pow2Of32()
    ensures Pow2(32) == 0x1_0000_0000
  {
    assert Pow2(8) == 0x100;
    assert Pow2(16) == 0x1_0000;
    assert Pow2(24) == 0x100_0000;
  }

  // The multiplicative hash of three bytes, in 32-bit arithmetic.
  function Fibonacci(bits: nat, a: byte, b: byte, c: byte): (h: nat)
    requires bits <= 32
    ensures h < Pow2(bits)
  {
    var v := (a as nat * 65536 + b as nat * 256 + c as nat) * 2654435761 % 0x1_0000_0000;
    Pow2Of32();
    ShiftRightBelow(v, 32 - bits, bits);
    ShiftRight(v, 32 - bits)
  }

  method Delta(base: seq<byte>, src: seq<byte>) returns (out: seq<byte>)
    requires |base| + |src| < 0x8000_0000
    ensures out == DeltaSpec(base, src)
  {
    var hashBits: nat := 10;
    while Pow2(hashBits) < |base| + |src| && hashBits < 16
      invariant 10 <= hashBits <= 16
    {
      hashBits := hashBits + 1;
    }
    out := DeltaWith(base, src, (a, b, c) => Fibonacci(hashBits, a, b, c), Pow2(hashBits));
  }

  // ---------- the decoder ----------

  method Run(comp: seq<byte>, start: nat, acc: nat) returns (ok: bool, n: nat, i: nat)
    requires start <= |comp|
    ensures i <= |comp|
    ensures match ReadRun(comp[start..])
            case NoRead => !ok
            case Read(v, rest) => ok && n == acc + v && rest == comp[i..]
  {
    n, i := acc, start;
    while true
      invariant start <= i <= |comp| && n >= acc
      invariant match ReadRun(comp[i..])
                case NoRead => ReadRun(comp[start..]).NoRead?
                case Read(v, rest) => ReadRun(comp[start..]) == Read(n - acc + v, rest)
      decreases |comp| - i
    {
      if i >= |comp| { return false, n, i; }
      var b := comp[i];
      assert comp[i..][1..] == comp[i + 1..];
      i := i + 1;
      n := n + b;
      if b != 255 { return true, n, i; }
    }
  }

  lemma {:induction false} DecodeOfCons(out: seq<byte>, c: seq<byte>, dsize: nat)
    requires c != []
    ensures Decode(out, c, dsize) ==
            match ReadOne(c)
            case NoSequence => None
            case ReadSequence(q, rest) => if Fits(out, q, dsize) then Decode(Apply(out, q), rest, dsize) else None
  {
    match ReadOne(c)
    case NoSequence =>
    case ReadSequence(q, rest) =>
      if ReadAll(rest).Some? {
        assert ([q] + ReadAll(rest).value)[1..] == ReadAll(rest).value;
      }
  }

  // Literals read, within room, or refused.
  ghost predicate Literal(read: ReadSequence, room: int, ok: bool, lits: seq<byte>, left: seq<byte>) {
    if read.NoSequence? then !ok
    else (ok <==> read.q.lits == [] || |read.q.lits| <= room) && (ok ==> lits == read.q.lits && read.rest == left)
  }

  // l literals stand at i, or too few, or too many for the room.
  lemma {:induction false} LiteralsAt(comp: seq<byte>, start: nat, field: nat, room: int, l: nat, i: nat)
    requires start <= |comp| && i <= |comp| && field <= l
             && ReadMore(field == 7, comp[start..]) == Read.Read(l - field, comp[i..])
    ensures i + l > |comp| ==> Literal(ReadLiterals(field, comp[start..]), room, false, [], [])
    ensures i + l <= |comp| ==>
            Literal(ReadLiterals(field, comp[start..]), room, l == 0 || l <= room, comp[i..i + l], comp[i + l..])
  {
    if i + l <= |comp| { assert comp[i..][..l] == comp[i..i + l] && comp[i..][l..] == comp[i + l..]; }
  }

  // The literals of one sequence, if the stream holds them and the output has room.
  method TakeLiterals(comp: seq<byte>, start: nat, field: nat, room: int) returns (ok: bool, lits: seq<byte>, i: nat)
    requires start <= |comp| && field < 8
    ensures i <= |comp| && Literal(ReadLiterals(field, comp[start..]), room, ok, lits, comp[i..])
  {
    var l := field;
    ok, i := true, start;
    if l == 7 {
      ok, l, i := Run(comp, start, 7);
      if !ok { return false, [], i; }
    }
    LiteralsAt(comp, start, field, room, l, i);
    if l > 0 && (i + l > |comp| || l > room) { return false, [], i; }
    lits := comp[i..i + l];
    i := i + l;
  }

  // A match's distance, in one byte or two.
  method TakeDistance(comp: seq<byte>, start: nat, wide: bool) returns (ok: bool, dist: nat, i: nat)
    requires start <= |comp|
    ensures i <= |comp|
    ensures match ReadDistance(wide, comp[start..])
            case NoRead => !ok
            case Read(d, rest) => ok && dist == d && rest == comp[i..]
  {
    ok, dist, i := false, 0, start;
    if wide {
      if i + 2 > |comp| { return; }
      dist := comp[i] as nat + 256 * comp[i + 1] as nat;
      assert comp[start..][2..] == comp[i + 2..];
      i := i + 2;
    } else {
      if i + 1 > |comp| { return; }
      dist := comp[i];
      assert comp[start..][1..] == comp[i + 1..];
      i := i + 1;
    }
    dist := dist + 1;
    ok := true;
  }

  // Byte by byte, since a match may overlap what it copies.
  method CopyMatch(out: seq<byte>, dist: nat, n: nat) returns (r: seq<byte>)
    requires 1 <= dist <= |out|
    ensures r == Copy(out, dist, n)
  {
    r := out;
    var j, k := |out|, |out| - dist;
    while j < |out| + n
      invariant |out| <= j == |r| == k + dist <= |out| + n
      invariant Copy(r, dist, |out| + n - j) == Copy(out, dist, n)
    {
      r := r + [r[k]];
      j, k := j + 1, k + 1;
    }
  }

  // A match read, within reach and room and copied after out, or refused.
  ghost predicate Copied(read: ReadSequence, out: seq<byte>, dsize: nat, ok: bool, r: seq<byte>, left: seq<byte>) {
    if read.NoSequence? then !ok
    else
      && (ok <==> 1 <= read.q.dist <= |out| && |out| + read.q.len <= dsize)
      && (ok ==> r == Copy(out, read.q.dist, read.q.len) && read.rest == left)
  }

  // The match of one sequence, copied after out.
  method TakeMatch(comp: seq<byte>, start: nat, m: nat, wide: bool, out: seq<byte>, dsize: nat, ghost lits: seq<byte>)
    returns (ok: bool, r: seq<byte>, i: nat)
    requires start <= |comp| && 0 < m < 16
    ensures i <= |comp|
    ensures Copied(ReadMatch(m, wide, lits, comp[start..]), out, dsize, ok, r, comp[i..])
  {
    var matchLen := m + 2;
    var dist: nat;
    r := out;
    ok, dist, i := TakeDistance(comp, start, wide);
    if !ok { return; }
    if m == 15 {
      ok, matchLen, i := Run(comp, i, 17);
      if !ok { return; }
    }
    if dist > |out| || |out| + matchLen > dsize { return false, out, i; }
    r := CopyMatch(out, dist, matchLen);
  }

  lemma {:induction false} ReadMatchKeeps(m: nat, wide: bool, lits: seq<byte>, c: seq<byte>)
    requires ReadMatch(m, wide, lits, c).ReadSequence?
    ensures var q := ReadMatch(m, wide, lits, c).q; q.lits == lits && (m == 0 <==> q.len == 0)
  {
  }

  // Undelta accepts exactly the streams that yield size bytes, and returns what they yield.
  method Undelta(base: seq<byte>, comp: seq<byte>, size: int) returns (out: seq<byte>, ok: bool)
    ensures match UndeltaSpec(base, comp, size)
            case None => !ok
            case Some(text) => ok && out == text
  {
    if size < 0 { return [], false; }
    out := base;
    var dsize: nat := |base| + size;
    var i := 0;
    assert comp[0..] == comp;
    while i < |comp|
      invariant i <= |comp|
      invariant Decode(out, comp[i..], dsize) == Decode(base, comp, dsize)
    {
      var token, lits, start := comp[i], [], i;
      assert comp[i..][1..] == comp[i + 1..];
      DecodeOfCons(out, comp[i..], dsize);
      ok, lits, i := TakeLiterals(comp, i + 1, token / 16 % 8, dsize - |out|);
      if ReadLiterals(token as int / 16 % 8, comp[start + 1..]).ReadSequence? && ReadOne(comp[start..]).ReadSequence? {
        var mid := ReadLiterals(token as int / 16 % 8, comp[start + 1..]);
        ReadMatchKeeps(token as int % 16, token >= 128, mid.q.lits, mid.rest);
      }
      if !ok { return [], false; }
      out := out + lits;
      if token % 16 != 0 {
        ok, out, i := TakeMatch(comp, i, token % 16, token >= 128, out, dsize, lits);
        if !ok { return [], false; }
      }
    }
    if |out| != dsize { return [], false; }
    return out[|base|..], true;
  }
}
