/** The LZ4s compressor and decompressor (lz4s/lz4s.go).

    The stream format and the naive compressor -- at every position scan the whole window --
    are functions; the hash-chain compressor and the decoder are methods proved equal to them. */
module Lz4s {
  import opened Bytes

  // ---------- the naive compressor ----------

  const WINDOW := 65536
  const MAX_EXPAND := 255  // the bytes a stream yields for each of its own, at most

  // How far s[cand..] and s[pos..] agree.
  function MatchLength(s: seq<byte>, cand: nat, pos: nat): (l: nat)
    requires cand < pos <= |s|
    ensures l <= |s| - pos
    decreases |s| - pos
  {
    if pos == |s| || s[cand] != s[pos] then 0 else 1 + MatchLength(s, cand + 1, pos + 1)
  }

  // MatchLength is the longest agreement: it agrees, and no further.
  lemma {:induction false} MatchLengthIsLongest(s: seq<byte>, cand: nat, pos: nat, l: nat)
    requires cand < pos && pos + l <= |s|
    ensures l <= MatchLength(s, cand, pos) <==> s[cand..cand + l] == s[pos..pos + l]
    decreases l
  {
    if l > 0 {
      assert s[cand..cand + l] == [s[cand]] + s[cand + 1..cand + l];
      assert s[pos..pos + l] == [s[pos]] + s[pos + 1..pos + l];
      MatchLengthIsLongest(s, cand + 1, pos + 1, l - 1);
    }
  }

  lemma {:induction false} AgreesAt(s: seq<byte>, cand: nat, pos: nat, k: nat)
    requires cand < pos && pos + k < |s|
    ensures k < MatchLength(s, cand, pos) ==> s[cand + k] == s[pos + k]
    decreases k
  {
    if k > 0 { AgreesAt(s, cand + 1, pos + 1, k - 1); }
  }

  lemma {:induction false} LongestAgrees(s: seq<byte>, cand: nat, pos: nat)
    requires cand < pos <= |s|
    ensures var l := MatchLength(s, cand, pos); s[cand..cand + l] == s[pos..pos + l]
  {
    MatchLengthIsLongest(s, cand, pos, MatchLength(s, cand, pos));
  }

  // How many bytes a 255-run of sum v takes.
  function RunBytes(v: nat): (n: nat)
    ensures n >= 1
  {
    if v >= 255 then 1 + RunBytes(v - 255) else 1
  }

  lemma {:induction false} RunBytesIs(v: nat)
    ensures RunBytes(v) == 1 + v / 255
  {
    if v >= 255 {
      RunBytesIs(v - 255);
      assert v / 255 == (v - 255) / 255 + 1;
    }
  }

  // What taking a match costs in bytes: one token, the offset and the length's extension.
  function Cost(len: nat, dist: nat): nat {
    (if dist > 256 then 3 else 2) + (if len >= 17 then RunBytes(len - 17) else 0)
  }

  function Gain(len: nat, dist: nat): int { len - Cost(len, dist) }

  datatype Match = Match(gain: int, len: nat, dist: nat)

  function Better(s: seq<byte>, pos: nat, cand: nat, best: Match): Match
    requires cand < pos <= |s|
  {
    var l := MatchLength(s, cand, pos);
    if l >= 3 && Gain(l, pos - cand) > best.gain
    then Match(Gain(l, pos - cand), l, pos - cand)
    else best
  }

  // The best match over every position of lo..pos, visited from the nearest to the farthest.
  function Scan(s: seq<byte>, pos: nat, lo: nat): (m: Match)
    requires lo <= pos <= |s|
    ensures if m.gain > 0 then 3 <= m.len <= |s| - pos && 1 <= m.dist <= pos - lo else m == Match(0, 0, 0)
    decreases pos - lo
  {
    if lo == pos then Match(0, 0, 0) else Better(s, pos, lo, Scan(s, pos, lo + 1))
  }

  // The bottom of the window at pos.
  function Low(pos: nat): nat { if pos < WINDOW then 0 else pos - WINDOW }

  // Scan finds a match, as long as it can be from there ...
  lemma {:induction false} ScanIsMatch(s: seq<byte>, pos: nat, lo: nat)
    requires lo <= pos <= |s|
    ensures var m := Scan(s, pos, lo);
            m.gain > 0 ==>
              && m.gain == Gain(m.len, m.dist)
              && m.len == MatchLength(s, pos - m.dist, pos)
              && s[pos - m.dist..pos - m.dist + m.len] == s[pos..pos + m.len]
    decreases pos - lo
  {
    if lo < pos {
      ScanIsMatch(s, pos, lo + 1);
      LongestAgrees(s, lo, pos);
    }
  }

  // ... whose gain is the greatest, and which is the nearest among equals.
  lemma {:induction false} ScanIsBest(s: seq<byte>, pos: nat, lo: nat, cand: nat)
    requires lo <= cand < pos <= |s| && MatchLength(s, cand, pos) >= 3
    ensures var g, m := Gain(MatchLength(s, cand, pos), pos - cand), Scan(s, pos, lo);
            g <= m.gain && (pos - cand < m.dist ==> g < m.gain)
    decreases pos - lo
  {
    if lo < cand { ScanIsBest(s, pos, lo + 1, cand); }
  }

  // ---------- the naive compressor's parse ----------

  // A literal run and the match after it: len bytes from dist back, or none when len is 0.
  datatype Sequence = Sequence(lits: seq<byte>, len: nat, dist: nat)

  ghost predicate ValidSequence(q: Sequence) {
    if q.len == 0 then q.dist == 0 else q.len >= 3 && 1 <= q.dist <= WINDOW
  }

  // The naive greedy parse of s from pos on, with the literals pending before pos.
  function Parse(s: seq<byte>, pos: nat, lits: seq<byte>): seq<Sequence>
    requires pos <= |s|
    decreases |s| - pos
  {
    if pos == |s| then if lits == [] then [] else [Sequence(lits, 0, 0)]
    else
      var best := Scan(s, pos, Low(pos));
      if best.gain > 0
      then [Sequence(lits, best.len, best.dist)] + Parse(s, pos + best.len, [])
      else Parse(s, pos + 1, lits + [s[pos]])
  }

  // ---------- the stream format ----------

  // A 255-run: the sum of its bytes is v.
  function Extension(v: nat): seq<byte> {
    if v >= 255 then [255] + Extension(v - 255) else [v]
  }

  function LengthField(len: nat): nat { if len >= 17 then 15 else if len >= 2 then len - 2 else 0 }

  function Token(lits: nat, len: nat, dist: nat): byte {
    (if len > 0 && dist > 256 then 128 else 0) + 16 * Min(lits, 7) + LengthField(len)
  }

  // The distance less one, in two bytes when it needs them.
  function OffsetBytes(dist: nat): seq<byte> {
    if dist > 256 then [(dist - 1) % 256, (dist - 1) / 256 % 256] else if dist > 0 then [dist - 1] else [0]
  }

  function LiteralBytes(lits: seq<byte>): seq<byte> {
    if |lits| >= 7 then Extension(|lits| - 7) + lits else lits
  }

  function LengthBytes(len: nat): seq<byte> {
    if len >= 17 then Extension(len - 17) else []
  }

  function MatchBytes(len: nat, dist: nat): seq<byte> {
    if len > 0 then OffsetBytes(dist) + LengthBytes(len) else []
  }

  function SequenceBytes(q: Sequence): seq<byte> {
    [Token(|q.lits|, q.len, q.dist)] + (LiteralBytes(q.lits) + MatchBytes(q.len, q.dist))
  }

  function Stream(qs: seq<Sequence>): seq<byte> {
    if qs == [] then [] else SequenceBytes(qs[0]) + Stream(qs[1..])
  }

  function DeltaSpec(base: seq<byte>, src: seq<byte>): seq<byte> {
    Stream(Parse(base + src, |base|, []))
  }

  function CompressSpec(src: seq<byte>): seq<byte> { DeltaSpec([], src) }

  // ---------- what a stream says ----------

  // A number read from a stream, and what follows it.
  datatype Read = NoRead | Read(n: nat, rest: seq<byte>)

  // Reads a 255-run.
  function ReadRun(c: seq<byte>): (r: Read)
    ensures r.Read? ==> |r.rest| < |c|
  {
    if c == [] then NoRead
    else if c[0] != 255 then Read(c[0], c[1..])
    else
      match ReadRun(c[1..])
      case NoRead => NoRead
      case Read(n, rest) => Read(255 + n, rest)
  }

  // A length's extension, which follows only when its field is full.
  function ReadMore(full: bool, c: seq<byte>): (r: Read)
    ensures r.Read? ==> |r.rest| <= |c|
  {
    if full then ReadRun(c) else Read(0, c)
  }

  function ReadDistance(wide: bool, c: seq<byte>): (r: Read)
    ensures r.Read? ==> |r.rest| < |c| && r.n >= 1
  {
    if wide then if |c| < 2 then NoRead else Read(c[0] as nat + 256 * c[1] as nat + 1, c[2..])
    else if |c| < 1 then NoRead else Read(c[0] as nat + 1, c[1..])
  }

  datatype ReadSequence = NoSequence | ReadSequence(q: Sequence, rest: seq<byte>)

  // The literals of length field `field`, which 7 extends.
  function ReadLiterals(field: nat, c: seq<byte>): (r: ReadSequence)
    ensures r.ReadSequence? ==> |r.rest| <= |c|
  {
    match ReadMore(field == 7, c)
    case NoRead => NoSequence
    case Read(more, rest) =>
      var l := field + more;
      if l > |rest| then NoSequence else ReadSequence(Sequence(rest[..l], 0, 0), rest[l..])
  }

  // The match of length field m, which 15 extends and 0 leaves out.
  function ReadMatch(m: nat, wide: bool, lits: seq<byte>, c: seq<byte>): (r: ReadSequence)
    ensures r.ReadSequence? ==> |r.rest| <= |c|
  {
    if m == 0 then ReadSequence(Sequence(lits, 0, 0), c)
    else
      match ReadDistance(wide, c)
      case NoRead => NoSequence
      case Read(dist, after) =>
        match ReadMore(m == 15, after)
        case NoRead => NoSequence
        case Read(more, rest) => ReadSequence(Sequence(lits, m + 2 + more, dist), rest)
  }

  function ReadOne(c: seq<byte>): (r: ReadSequence)
    requires c != []
    ensures r.ReadSequence? ==> |r.rest| < |c|
  {
    match ReadLiterals(c[0] / 16 % 8, c[1..])
    case NoSequence => NoSequence
    case ReadSequence(q, rest) => ReadMatch(c[0] % 16, c[0] >= 128, q.lits, rest)
  }

  // The sequences of a whole stream.
  function ReadAll(c: seq<byte>): Option<seq<Sequence>>
    decreases |c|
  {
    if c == [] then Some([])
    else
      match ReadOne(c)
      case NoSequence => None
      case ReadSequence(q, rest) =>
        match ReadAll(rest)
        case None => None
        case Some(qs) => Some([q] + qs)
  }

  // ---------- what the sequences yield ----------

  // The byte-serial copy of n bytes from dist back.
  function Copy(out: seq<byte>, dist: nat, n: nat): (r: seq<byte>)
    requires 1 <= dist <= |out|
    ensures |r| == |out| + n
    decreases n
  {
    if n == 0 then out else Copy(out + [out[|out| - dist]], dist, n - 1)
  }

  predicate Fits(out: seq<byte>, q: Sequence, dsize: nat) {
    && (|q.lits| == 0 || |out| + |q.lits| <= dsize)
    && (q.len == 0 || (1 <= q.dist <= |out| + |q.lits| && |out| + |q.lits| + q.len <= dsize))
  }

  function Apply(out: seq<byte>, q: Sequence): (r: seq<byte>)
    requires q.len == 0 || 1 <= q.dist <= |out| + |q.lits|
    ensures |r| == |out| + |q.lits| + q.len
  {
    if q.len == 0 then out + q.lits else Copy(out + q.lits, q.dist, q.len)
  }

  // What the sequences yield after out, which must be exactly dsize bytes.
  function Expand(out: seq<byte>, qs: seq<Sequence>, dsize: nat): (r: Option<seq<byte>>)
    ensures r.Some? ==> |r.value| == dsize && |out| <= dsize
    decreases |qs|
  {
    if qs == [] then if |out| == dsize then Some(out) else None
    else if !Fits(out, qs[0], dsize) then None
    else Expand(Apply(out, qs[0]), qs[1..], dsize)
  }

  function Decode(out: seq<byte>, c: seq<byte>, dsize: nat): (r: Option<seq<byte>>)
    ensures r.Some? ==> |r.value| == dsize && |out| <= dsize
  {
    match ReadAll(c)
    case None => None
    case Some(qs) => Expand(out, qs, dsize)
  }

  function UndeltaSpec(base: seq<byte>, comp: seq<byte>, dsize: int): Option<seq<byte>> {
    if dsize < 0 then None
    else
      match Decode(base, comp, |base| + dsize)
      case None => None
      case Some(out) => Some(out[|base|..])
  }

  function DecompressSpec(comp: seq<byte>, dsize: int): Option<seq<byte>> {
    UndeltaSpec([], comp, dsize)
  }
}
