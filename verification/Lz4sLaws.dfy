/** What the LZ4s format and the greedy compressor promise: the round trip, and how the size of
    a stream and the size of what it decodes to bound each other. */
module Lz4sLaws {
  import opened Bytes
  import opened Lz4s

  // ---------- reading a stream back ----------

  lemma {:induction false} ReadRunInverse(v: nat, rest: seq<byte>)
    ensures ReadRun(Extension(v) + rest) == Read(v, rest)
    decreases v
  {
    var c := Extension(v) + rest;
    if v >= 255 {
      ReadRunInverse(v - 255, rest);
      assert c[1..] == Extension(v - 255) + rest;
    } else {
      assert c[1..] == rest;
    }
  }

  lemma {:induction false} TokenFields(lits: nat, len: nat, dist: nat)
    ensures Token(lits, len, dist) / 16 % 8 == Min(lits, 7)
    ensures Token(lits, len, dist) % 16 == LengthField(len)
    ensures Token(lits, len, dist) >= 128 <==> len > 0 && dist > 256
  {
  }

  lemma {:induction false} ReadLiteralsInverse(lits: seq<byte>, tail: seq<byte>)
    ensures ReadLiterals(Min(|lits|, 7), LiteralBytes(lits) + tail) == ReadSequence(Sequence(lits, 0, 0), tail)
  {
    assert (lits + tail)[..|lits|] == lits && (lits + tail)[|lits|..] == tail;
    if |lits| >= 7 {
      ReadRunInverse(|lits| - 7, lits + tail);
      assert LiteralBytes(lits) + tail == Extension(|lits| - 7) + (lits + tail);
    }
  }

  lemma {:induction false} ReadDistanceInverse(dist: nat, tail: seq<byte>)
    requires 1 <= dist <= WINDOW
    ensures ReadDistance(dist > 256, OffsetBytes(dist) + tail) == Read(dist, tail)
  {
    var c := OffsetBytes(dist) + tail;
    if dist > 256 {
      assert c[2..] == tail;
      assert c[0] == (dist - 1) % 256 && c[1] == (dist - 1) / 256;
    } else {
      assert c[1..] == tail;
    }
  }

  lemma {:induction false} ReadMoreInverse(len: nat, tail: seq<byte>)
    requires len >= 3
    ensures ReadMore(LengthField(len) == 15, LengthBytes(len) + tail) == Read(len - 2 - LengthField(len), tail)
  {
    if len >= 17 {
      ReadRunInverse(len - 17, tail);
    } else {
      assert LengthBytes(len) + tail == tail;
    }
  }

  lemma {:induction false} ReadMatchInverse(q: Sequence, tail: seq<byte>)
    requires ValidSequence(q)
    ensures ReadMatch(LengthField(q.len), q.len > 0 && q.dist > 256, q.lits, MatchBytes(q.len, q.dist) + tail)
         == ReadSequence(q, tail)
  {
    if q.len == 0 {
      assert MatchBytes(q.len, q.dist) + tail == tail;
    } else {
      var mid := LengthBytes(q.len) + tail;
      assert MatchBytes(q.len, q.dist) + tail == OffsetBytes(q.dist) + mid;
      ReadDistanceInverse(q.dist, mid);
      ReadMoreInverse(q.len, tail);
    }
  }

  lemma {:induction false} ReadOneInTwo(c: seq<byte>, token: byte, rest: seq<byte>, lits: seq<byte>, mid: seq<byte>)
    requires c == [token] + rest
    requires ReadLiterals(token as int / 16 % 8, rest) == ReadSequence(Sequence(lits, 0, 0), mid)
    ensures ReadOne(c) == ReadMatch(token as int % 16, token >= 128, lits, mid)
  {
    assert c[1..] == rest;
  }

  lemma {:induction false} ReadOneInverse(q: Sequence, tail: seq<byte>)
    requires ValidSequence(q)
    ensures ReadOne(SequenceBytes(q) + tail) == ReadSequence(q, tail)
  {
    var token := Token(|q.lits|, q.len, q.dist);
    var mid := MatchBytes(q.len, q.dist) + tail;
    assert SequenceBytes(q) + tail == [token] + (LiteralBytes(q.lits) + mid);
    TokenFields(|q.lits|, q.len, q.dist);
    ReadLiteralsInverse(q.lits, mid);
    ReadOneInTwo(SequenceBytes(q) + tail, token, LiteralBytes(q.lits) + mid, q.lits, mid);
    ReadMatchInverse(q, tail);
  }

  lemma {:induction false} ReadAllStep(c: seq<byte>, q: Sequence, rest: seq<byte>, qs: seq<Sequence>)
    requires c != [] && ReadOne(c) == ReadSequence(q, rest) && ReadAll(rest) == Some(qs)
    ensures ReadAll(c) == Some([q] + qs)
  {
  }

  // Reading undoes writing, sequence by sequence.
  lemma {:induction false} ReadAllInverse(qs: seq<Sequence>)
    requires forall q :: q in qs ==> ValidSequence(q)
    ensures ReadAll(Stream(qs)) == Some(qs)
  {
    if qs != [] {
      ReadOneInverse(qs[0], Stream(qs[1..]));
      ReadAllInverse(qs[1..]);
      ReadAllStep(Stream(qs), qs[0], Stream(qs[1..]), qs[1..]);
      assert qs == [qs[0]] + qs[1..];
    }
  }

  // ---------- the round trip ----------

  lemma {:induction false} CopyExtends(s: seq<byte>, p: nat, dist: nat, n: nat)
    requires 1 <= dist <= p && p + n <= |s|
    requires s[p - dist..p - dist + n] == s[p..p + n]
    ensures Copy(s[..p], dist, n) == s[..p + n]
    decreases n
  {
    if n > 0 {
      assert s[p - dist..p - dist + n][0] == s[p..p + n][0];
      assert s[..p] + [s[..p][p - dist]] == s[..p + 1];
      assert s[p - dist + 1..p - dist + n] == s[p - dist..p - dist + n][1..];
      assert s[p + 1..p + n] == s[p..p + n][1..];
      CopyExtends(s, p + 1, dist, n - 1);
    }
  }

  // The match taken at pos repeats what lies dist before it.
  lemma {:induction false} MatchRepeats(s: seq<byte>, pos: nat)
    requires pos <= |s| && Scan(s, pos, Low(pos)).gain > 0
    ensures var m := Scan(s, pos, Low(pos)); s[pos - m.dist..pos - m.dist + m.len] == s[pos..pos + m.len]
  {
    ScanIsMatch(s, pos, Low(pos));
  }

  lemma {:induction false} ParseIsValid(s: seq<byte>, pos: nat, lits: seq<byte>)
    requires pos <= |s|
    ensures forall q :: q in Parse(s, pos, lits) ==> ValidSequence(q)
    decreases |s| - pos
  {
    if pos < |s| {
      var best := Scan(s, pos, Low(pos));
      if best.gain > 0 {
        ParseIsValid(s, pos + best.len, []);
      } else {
        ParseIsValid(s, pos + 1, lits + [s[pos]]);
      }
    }
  }

  lemma {:induction false} ExpandCons(out: seq<byte>, q: Sequence, qs: seq<Sequence>, dsize: nat)
    requires Fits(out, q, dsize)
    ensures Expand(out, [q] + qs, dsize) == Expand(Apply(out, q), qs, dsize)
  {
    AppendCons([q], qs);
  }

  lemma {:induction false} ExpandTaken(s: seq<byte>, p: nat, pos: nat, lits: seq<byte>, best: Match,
      tail: seq<Sequence>, dsize: nat)
    requires p + |lits| == pos <= |s| == dsize && lits == s[p..pos]
    requires best == Scan(s, pos, Low(pos)) && best.gain > 0
    requires Expand(s[..pos + best.len], tail, dsize) == Some(s)
    ensures Expand(s[..p], [Sequence(lits, best.len, best.dist)] + tail, dsize) == Some(s)
  {
    assert s[..p] + lits == s[..pos];
    MatchRepeats(s, pos);
    CopyExtends(s, pos, best.dist, best.len);
    ExpandCons(s[..p], Sequence(lits, best.len, best.dist), tail, dsize);
  }

  lemma {:induction false} ExpandParse(s: seq<byte>, p: nat, pos: nat, lits: seq<byte>, dsize: nat)
    requires p + |lits| == pos <= |s| == dsize && lits == s[p..pos]
    ensures Expand(s[..p], Parse(s, pos, lits), dsize) == Some(s)
    decreases |s| - pos
  {
    assert s[..p] + lits == s[..pos];
    if pos == |s| {
      assert s[..pos] == s;
    } else {
      var best := Scan(s, pos, Low(pos));
      if best.gain > 0 {
        var next := pos + best.len;
        ExpandParse(s, next, next, [], dsize);
        ExpandTaken(s, p, pos, lits, best, Parse(s, next, []), dsize);
      } else {
        ExpandParse(s, p, pos + 1, lits + [s[pos]], dsize);
      }
    }
  }

  lemma {:induction false} DecodeOfExpand(base: seq<byte>, comp: seq<byte>, qs: seq<Sequence>, dsize: nat)
    requires ReadAll(comp) == Some(qs)
    ensures Decode(base, comp, dsize) == Expand(base, qs, dsize)
  {
  }

  lemma {:induction false} UndeltaOfDecode(base: seq<byte>, comp: seq<byte>, src: seq<byte>, s: seq<byte>, dsize: nat)
    requires Decode(base, comp, dsize) == Some(s)
    requires s[|base|..] == src && dsize == |base| + |src|
    ensures UndeltaSpec(base, comp, |src|) == Some(src)
  {
  }

  // Undelta undoes Delta, whatever the base and the text.
  lemma {:induction false} RoundTrip(base: seq<byte>, src: seq<byte>)
    ensures UndeltaSpec(base, DeltaSpec(base, src), |src|) == Some(src)
  {
    var s := base + src;
    assert s[..|base|] == base && s[|base|..] == src;
    var qs := Parse(s, |base|, []);
    ParseIsValid(s, |base|, []);
    ReadAllInverse(qs);
    ExpandParse(s, |base|, |base|, [], |s|);
    DecodeOfExpand(base, Stream(qs), qs, |s|);
    UndeltaOfDecode(base, Stream(qs), src, s, |s|);
  }

  // Distinct texts never share a stream: the stream and the size name the text.
  lemma {:induction false} DeltaInjective(base: seq<byte>, a: seq<byte>, b: seq<byte>)
    requires |a| == |b| && DeltaSpec(base, a) == DeltaSpec(base, b)
    ensures a == b
  {
    RoundTrip(base, a);
    RoundTrip(base, b);
  }

  // ---------- how long a stream is ----------

  lemma {:induction false} ExtensionLength(v: nat)
    ensures |Extension(v)| == RunBytes(v)
    decreases v
  {
    if v >= 255 { ExtensionLength(v - 255); }
  }

  lemma {:induction false} LiteralsLength(lits: seq<byte>)
    ensures |LiteralBytes(lits)| <= |lits| + 1 + |lits| / 255
  {
    if |lits| >= 7 {
      ExtensionLength(|lits| - 7);
      RunBytesIs(|lits| - 7);
    }
  }

  // A taken match costs less than the bytes it stands for.
  lemma {:induction false} MatchSequenceLength(lits: seq<byte>, len: nat, dist: nat)
    requires len >= 3 && dist >= 1 && Gain(len, dist) > 0
    ensures |SequenceBytes(Sequence(lits, len, dist))| <= |lits| + len + |lits| / 255
  {
    LiteralsLength(lits);
    if len >= 17 { ExtensionLength(len - 17); }
  }

  lemma {:induction false} GainOfScan(s: seq<byte>, pos: nat)
    requires pos <= |s| && Scan(s, pos, Low(pos)).gain > 0
    ensures var m := Scan(s, pos, Low(pos)); Gain(m.len, m.dist) > 0
  {
    ScanIsMatch(s, pos, Low(pos));
  }

  lemma {:induction false} StreamOfCons(q: Sequence, qs: seq<Sequence>)
    ensures Stream([q] + qs) == SequenceBytes(q) + Stream(qs)
  {
    assert ([q] + qs)[1..] == qs;
  }

  lemma {:induction false} StreamOfLast(s: seq<byte>, lits: seq<byte>)
    ensures Stream(Parse(s, |s|, lits)) == if lits == [] then [] else SequenceBytes(Sequence(lits, 0, 0))
  {
    StreamOfCons(Sequence(lits, 0, 0), []);
  }

  lemma {:induction false} QuotientsAdd(a: nat, b: nat, n: nat)
    requires a + b <= n
    ensures a / 255 + b / 255 <= n / 255
  {
  }

  lemma {:induction false} TakenLength(s: seq<byte>, pos: nat, lits: seq<byte>, best: Match, tail: seq<Sequence>,
      m: nat, n: nat)
    requires pos < |s| && best == Scan(s, pos, Low(pos)) && best.gain > 0
    requires |Stream(tail)| <= m + m / 255 + 2 && n == |lits| + best.len + m
    ensures |Stream([Sequence(lits, best.len, best.dist)] + tail)| <= n + n / 255 + 2
  {
    GainOfScan(s, pos);
    MatchSequenceLength(lits, best.len, best.dist);
    StreamOfCons(Sequence(lits, best.len, best.dist), tail);
    QuotientsAdd(|lits|, m, n);
  }

  // The greedy parse hardly grows: every match it takes pays for itself and for the literals'
  // token before it.
  lemma {:induction false} ParseLength(s: seq<byte>, pos: nat, lits: seq<byte>, n: nat, qs: seq<Sequence>)
    requires pos <= |s| && n == |lits| + |s| - pos && qs == Parse(s, pos, lits)
    ensures |Stream(qs)| <= n + n / 255 + 2
    decreases |s| - pos
  {
    if pos == |s| {
      LiteralsLength(lits);
      StreamOfLast(s, lits);
    } else {
      var best := Scan(s, pos, Low(pos));
      if best.gain > 0 {
        var next := pos + best.len;
        var tail := Parse(s, next, []);
        ParseLength(s, next, [], |s| - next, tail);
        TakenLength(s, pos, lits, best, tail, |s| - next, n);
      } else {
        ParseLength(s, pos + 1, lits + [s[pos]], n, qs);
      }
    }
  }

  // A stream is at most n + n/255 + 2 bytes for n bytes of text, and empty for none.
  lemma {:induction false} StreamLength(base: seq<byte>, src: seq<byte>)
    ensures |DeltaSpec(base, src)| <= |src| + |src| / 255 + 2
    ensures src == [] ==> DeltaSpec(base, src) == []
  {
    ParseLength(base + src, |base|, [], |src|, Parse(base + src, |base|, []));
  }

  // ---------- how much a stream can yield ----------

  function Yield(qs: seq<Sequence>): nat {
    if qs == [] then 0 else |qs[0].lits| + qs[0].len + Yield(qs[1..])
  }

  lemma {:induction false} ExpandYield(out: seq<byte>, qs: seq<Sequence>, dsize: nat)
    ensures Expand(out, qs, dsize).Some? ==> dsize == |out| + Yield(qs)
    decreases |qs|
  {
    if qs != [] && Fits(out, qs[0], dsize) { ExpandYield(Apply(out, qs[0]), qs[1..], dsize); }
  }

  lemma {:induction false} ReadRunYield(c: seq<byte>)
    requires ReadRun(c).Read?
    ensures ReadRun(c).n + 1 <= MAX_EXPAND * (|c| - |ReadRun(c).rest|)
    decreases |c|
  {
    if c[0] == 255 { ReadRunYield(c[1..]); }
  }

  lemma {:induction false} ReadMatchYield(m: nat, wide: bool, lits: seq<byte>, c: seq<byte>)
    requires m < 16 && ReadMatch(m, wide, lits, c).ReadSequence?
    ensures var r := ReadMatch(m, wide, lits, c); r.q.lits == lits && r.q.len <= MAX_EXPAND * (1 + |c| - |r.rest|)
  {
    if m == 15 { ReadRunYield(ReadDistance(wide, c).rest); }
  }

  lemma {:induction false} ReadOneYield(c: seq<byte>)
    requires c != [] && ReadOne(c).ReadSequence?
    ensures var r := ReadOne(c); |r.q.lits| + r.q.len <= MAX_EXPAND * (|c| - |r.rest|)
  {
    var token := c[0] as int;
    var lits := ReadLiterals(token / 16 % 8, c[1..]);
    ReadMatchYield(token % 16, token >= 128, lits.q.lits, lits.rest);
  }

  lemma {:induction false} ReadAllYield(c: seq<byte>)
    ensures ReadAll(c).Some? ==> Yield(ReadAll(c).value) <= MAX_EXPAND * |c|
    decreases |c|
  {
    if c != [] && ReadOne(c).ReadSequence? {
      ReadOneYield(c);
      ReadAllYield(ReadOne(c).rest);
    }
  }

  // How much a stream can make of each of its bytes: a claim of more than that is false, whatever
  // the stream holds.
  lemma {:induction false} ExpandBound(comp: seq<byte>, dsize: int)
    requires DecompressSpec(comp, dsize).Some?
    ensures 0 <= dsize == |DecompressSpec(comp, dsize).value| <= MAX_EXPAND * |comp|
  {
    ExpandYield([], ReadAll(comp).value, dsize);
    ReadAllYield(comp);
  }
}
