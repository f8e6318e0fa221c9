/** The stream format by its known answers (lz4s/lz4s_test.go): the bytes of one sequence, whatever
    its literals hold. */
module Lz4sAnswers {
  import opened Bytes
  import opened Lz4s

  // A run of 255s and what is left.
  lemma {:induction false} Extensions(a: nat, b: nat)
    requires a < 255 && b < 255
    ensures Extension(a) == [a] && Extension(255 + b) == [255, b]
  {
    assert Extension(255 + b) == [255] + Extension(b);
  }

  // Three literals and no match; and with a match of three bytes, three back.
  lemma {:induction false} Few(lits: seq<byte>)
    requires |lits| == 3
    ensures SequenceBytes(Sequence(lits, 0, 0)) == [0x30] + lits
    ensures SequenceBytes(Sequence(lits, 3, 3)) == [0x31] + lits + [0x02]
  {
  }

  // Seven literals fill their field, and the rest of their count follows.
  lemma {:induction false} Many(seven: seq<byte>, eight: seq<byte>, more: seq<byte>)
    requires |seven| == 7 && |eight| == 8 && |more| == 262
    ensures SequenceBytes(Sequence(seven, 0, 0)) == [0x70, 0x00] + seven
    ensures SequenceBytes(Sequence(eight, 0, 0)) == [0x70, 0x01] + eight
    ensures SequenceBytes(Sequence(more, 0, 0)) == [0x70, 0xff, 0x00] + more
  {
    Extensions(0, 0);
    Extensions(1, 0);
  }

  // A match of sixteen bytes is the longest its field holds; of seventeen, the rest follows the offset.
  lemma {:induction false} LongMatch(sixteen: seq<byte>, seventeen: seq<byte>)
    requires |sixteen| == 16 && |seventeen| == 17
    ensures SequenceBytes(Sequence(sixteen, 16, 16)) == [0x7e, 0x09] + sixteen + [0x0f]
    ensures SequenceBytes(Sequence(seventeen, 17, 17)) == [0x7f, 0x0a] + seventeen + [0x10, 0x00]
  {
    Extensions(9, 0);
    Extensions(10, 0);
    Extensions(0, 0);
  }

  // A distance of 256 takes one byte, of 257 two, the low one first.
  lemma {:induction false} NearAndFar(near: seq<byte>, far: seq<byte>)
    requires |near| == 256 && |far| == 257
    ensures SequenceBytes(Sequence(near, 3, 256)) == [0x71, 0xf9] + near + [0xff]
    ensures SequenceBytes(Sequence(far, 4, 257)) == [0xf2, 0xfa] + far + [0x00, 0x01]
  {
    Extensions(249, 0);
    Extensions(250, 0);
  }

  // All of it: 272 literals, and as many bytes from 272 back.
  lemma {:induction false} Both(lits: seq<byte>)
    requires |lits| == 272
    ensures SequenceBytes(Sequence(lits, 272, 272)) == [0xff, 0xff, 0x0a] + lits + [0x0f, 0x01, 0xff, 0x00]
  {
    Extensions(0, 10);
    Extensions(0, 0);
    OffsetOf(272);
  }

  lemma {:induction false} OffsetOf(dist: nat)
    requires dist == 272
    ensures OffsetBytes(dist) == [0x0f, 0x01]
  {
  }
}
