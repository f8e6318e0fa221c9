/** Which matches the compressor takes (lz4s/lz4s.go): by the bytes of the stream alone, not by the
    way the compressor looks for them. */
module Lz4sParse {
  import opened Bytes
  import opened Lz4s

  // What taking l bytes from dist back saves against leaving them literals: the token and the match
  // are paid for them.
  function Saving(l: nat, dist: nat): int { l - 1 - |MatchBytes(l, dist)| }

  // A match the format can hold: three bytes or more, from as far back as two offset bytes reach.
  ghost predicate Reaches(s: seq<byte>, pos: nat, l: nat, dist: nat) {
    && 3 <= l && pos + l <= |s| && 1 <= dist <= pos && dist <= 0x1_0000
    && s[pos - dist..pos - dist + l] == s[pos..pos + l]
  }

  // No match saves more, a nearer one saves less, and from there none is longer.
  ghost predicate Chosen(s: seq<byte>, pos: nat, len: nat, dist: nat) {
    && Reaches(s, pos, len, dist) && Saving(len, dist) > 0
    && (forall l: nat, d: nat :: Reaches(s, pos, l, d) ==>
          Saving(l, d) <= Saving(len, dist) && (d < dist ==> Saving(l, d) < Saving(len, dist))
              && (d == dist ==> l <= len))
  }

  // ---------- the price of a match ----------

  lemma {:induction false} ExtensionLength(v: nat)
    ensures |Extension(v)| == RunBytes(v)
  {
    if v >= 255 { ExtensionLength(v - 255); }
  }

  // What the compressor reckons a match costs is what it puts into the stream.
  lemma {:induction false} CostIsBytes(len: nat, dist: nat)
    requires len >= 3 && dist >= 1
    ensures Cost(len, dist) == 1 + |MatchBytes(len, dist)| && Gain(len, dist) == Saving(len, dist)
  {
    if len >= 17 { ExtensionLength(len - 17); }
  }

  lemma {:induction false} RunGrows(v: nat)
    ensures RunBytes(v) <= RunBytes(v + 1) <= RunBytes(v) + 1
  {
    if v >= 255 { RunGrows(v - 255); }
  }

  lemma {:induction false} GainGrows(l: nat, len: nat, dist: nat)
    requires l <= len
    ensures Gain(l, dist) <= Gain(len, dist)
    decreases len
  {
    if l < len {
      GainGrows(l, len - 1, dist);
      if len >= 18 { RunGrows(len - 18); }
    }
  }

  // ---------- the choice ----------

  lemma {:induction false} Agreeing(s: seq<byte>, pos: nat, l: nat, d: nat)
    requires Reaches(s, pos, l, d)
    ensures pos - d < pos <= |s| && 3 <= l <= MatchLength(s, pos - d, pos) && Low(pos) <= pos - d
    ensures Saving(l, d) <= Gain(MatchLength(s, pos - d, pos), d)
  {
    MatchLengthIsLongest(s, pos - d, pos, l);
    CostIsBytes(l, d);
    GainGrows(l, MatchLength(s, pos - d, pos), d);
  }

  lemma {:induction false} ScanBeats(s: seq<byte>, pos: nat, l: nat, d: nat)
    requires Reaches(s, pos, l, d)
    ensures var m := Scan(s, pos, Low(pos));
            && Saving(l, d) <= m.gain && (d < m.dist ==> Saving(l, d) < m.gain)
            && (m.gain > 0 && d == m.dist ==> l <= m.len)
  {
    var ml := MatchLength(s, pos - d, pos);
    Agreeing(s, pos, l, d);
    ScanBest(s, pos, pos - d, ml);
  }

  lemma {:induction false} ScanBest(s: seq<byte>, pos: nat, cand: nat, l: nat)
    requires Low(pos) <= cand < pos <= |s| && l == MatchLength(s, cand, pos) && 3 <= l
    ensures var m := Scan(s, pos, Low(pos));
            && Gain(l, pos - cand) <= m.gain && (pos - cand < m.dist ==> Gain(l, pos - cand) < m.gain)
            && (m.gain > 0 && pos - cand == m.dist ==> l == m.len)
  {
    ScanIsBest(s, pos, Low(pos), cand);
    ScanIsMatch(s, pos, Low(pos));
  }

  // The window scan finds the match to take if one saves anything.
  lemma {:induction false} ScanChooses(s: seq<byte>, pos: nat)
    requires pos <= |s|
    ensures var m := Scan(s, pos, Low(pos));
            if m.gain > 0 then Chosen(s, pos, m.len, m.dist)
            else forall l: nat, d: nat :: Reaches(s, pos, l, d) ==> Saving(l, d) <= 0
  {
    var m := Scan(s, pos, Low(pos));
    ScanIsMatch(s, pos, Low(pos));
    if m.gain > 0 { CostIsBytes(m.len, m.dist); }
    forall l: nat, d: nat | Reaches(s, pos, l, d)
      ensures Saving(l, d) <= m.gain && (d < m.dist ==> Saving(l, d) < m.gain)
      ensures m.gain > 0 && d == m.dist ==> l <= m.len
    {
      ScanBeats(s, pos, l, d);
    }
  }

  // The compressor is greedy: at every position it takes the match that saves most, the nearest of
  // equals and as long as it goes, and leaves a literal only where none saves anything.
  lemma {:induction false} ParseGreedy(s: seq<byte>, pos: nat, lits: seq<byte>)
    requires pos < |s|
    ensures (exists l: nat, d: nat :: Reaches(s, pos, l, d) && Saving(l, d) > 0) ==>
              exists len: nat, dist: nat :: Chosen(s, pos, len, dist)
                && Parse(s, pos, lits) == [Sequence(lits, len, dist)] + Parse(s, pos + len, [])
    ensures !(exists l: nat, d: nat :: Reaches(s, pos, l, d) && Saving(l, d) > 0) ==>
              Parse(s, pos, lits) == Parse(s, pos + 1, lits + [s[pos]])
  {
    var m := Scan(s, pos, Low(pos));
    ScanChooses(s, pos);
    if m.gain > 0 {
      assert Chosen(s, pos, m.len, m.dist);
      assert Parse(s, pos, lits) == [Sequence(lits, m.len, m.dist)] + Parse(s, pos + m.len, []);
    }
  }

  // There is one match to take.
  lemma {:induction false} ChosenOnce(s: seq<byte>, pos: nat, len: nat, dist: nat, l: nat, d: nat)
    requires Chosen(s, pos, len, dist) && Chosen(s, pos, l, d)
    ensures len == l && dist == d
  {
  }

  // A distance is one the offset bytes can name exactly when it is at most 2^16.
  lemma {:induction false} ReachIsFormat(dist: nat)
    requires dist >= 1
    ensures dist <= 0x1_0000 <==> exists wide, c :: ReadDistance(wide, c).Read? && ReadDistance(wide, c).n == dist
  {
    if dist <= 0x1_0000 {
      var c: seq<byte> := [(dist - 1) % 256, (dist - 1) / 256];
      assert ReadDistance(true, c) == Read.Read(dist, []);
    }
  }
}
