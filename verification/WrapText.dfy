/** What a reader makes of broken lines: the hyphens a break added taken out, the pieces of a word
    put together again. */
module WrapText {
  import opened Wrap

  // A line: its words, and its natural width.
  datatype Line = Line(words: seq<string>, width: nat)

  // Words and one space a gap.
  function Natural(words: seq<string>): nat
    requires words != []
    decreases |words|
  {
    var n := |words| - 1;
    if n == 0 then |words[0]| else Natural(words[..n]) + 1 + |words[n]|
  }

  lemma {:induction false} NaturalSnoc(words: seq<string>, word: string)
    requires words != []
    ensures Natural(words + [word]) == Natural(words) + 1 + |word|
  {
    assert (words + [word])[..|words|] == words;
  }

  // The words read so far, and the open part of one that goes on in the next line.
  datatype Reading = Reading(done: seq<string>, open: string)

  function AddLine(r: Reading, words: seq<string>, end: End): Reading
    requires LineOk(words, end)
  {
    match end
    case Whole => Reading(r.done + [r.open + words[0]] + words[1..], "")
    case Cut(added) =>
      var last := words[|words| - 1];
      var part := if added then last[..|last| - 1] else last;
      if |words| == 1 then Reading(r.done, r.open + part)
      else Reading(r.done + [r.open + words[0]] + words[1..|words| - 1], part)
  }

  ghost predicate LineOk(words: seq<string>, end: End) {
    words != [] && (end.Cut? && end.added ==> words[|words| - 1] != "")
  }

  ghost predicate Readable(lines: seq<Line>, ends: seq<End>) {
    |lines| == |ends| && forall k :: 0 <= k < |lines| ==> LineOk(lines[k].words, ends[k])
  }

  ghost function Read(lines: seq<Line>, ends: seq<End>): Reading
    requires Readable(lines, ends)
    decreases |lines|
  {
    if lines == [] then Reading([], "")
    else
      var n := |lines| - 1;
      AddLine(Read(lines[..n], ends[..n]), lines[n].words, ends[n])
  }

  lemma {:induction false} ReadSnoc(lines: seq<Line>, ends: seq<End>, line: Line, end: End)
    requires Readable(lines, ends) && LineOk(line.words, end)
    ensures Readable(lines + [line], ends + [end])
    ensures Read(lines + [line], ends + [end]) == AddLine(Read(lines, ends), line.words, end)
  {
    assert (lines + [line])[..|lines|] == lines && (ends + [end])[..|ends|] == ends;
  }

  // What is read and what is left, words i on of texts, make up the paragraph.
  ghost predicate Pending(para: seq<string>, r: Reading, texts: seq<string>, i: nat) {
    i <= |texts| &&
    if i < |texts| then para == r.done + [r.open + texts[i]] + texts[i + 1..] else r.open == "" && para == r.done
  }

  lemma {:induction false} PendingWhole(para: seq<string>, r: Reading, texts: seq<string>, i: nat, j: nat)
    requires Pending(para, r, texts, i) && i < j <= |texts|
    ensures Pending(para, AddLine(r, texts[i..j], Whole), texts, j)
  {
    var s := AddLine(r, texts[i..j], Whole);
    assert texts[i..j][1..] == texts[i + 1..j];
    if j < |texts| {
      assert "" + texts[j] == texts[j];
      assert texts[i + 1..] == texts[i + 1..j] + [texts[j]] + texts[j + 1..];
    } else {
      assert texts[i + 1..] == texts[i + 1..j];
    }
  }

  lemma {:induction false} PendingPiece(para: seq<string>, r: Reading, texts: seq<string>, i: nat, text: string,
      o: nat, cut: nat, piece: string, end: End)
    requires i < |texts| && PieceOf(text, o, cut, piece, end) && Pending(para, r, texts[i := text[o..]], i)
    ensures Pending(para, AddLine(r, [piece], end), texts[i := text[cut..]], i)
  {
    var s := AddLine(r, [piece], end);
    var part := text[o..cut];
    assert s.open == r.open + part;
    assert text[o..] == part + text[cut..];
    assert r.open + (part + text[cut..]) == (r.open + part) + text[cut..];
    assert texts[i := text[o..]][i + 1..] == texts[i + 1..] == texts[i := text[cut..]][i + 1..];
  }

  lemma {:induction false} PendingHyphen(para: seq<string>, r: Reading, texts: seq<string>, i: nat, j: nat,
      cut: nat, piece: string, end: End)
    requires Pending(para, r, texts, i) && i < j < |texts| && PieceOf(texts[j], 0, cut, piece, end)
    ensures Pending(para, AddLine(r, texts[i..j] + [piece], end), texts[j := texts[j][cut..]], j)
  {
    var line := texts[i..j] + [piece];
    var s := AddLine(r, line, end);
    assert line[1..|line| - 1] == texts[i + 1..j];
    assert s.open + texts[j][cut..] == texts[j];
    assert texts[j := texts[j][cut..]][j + 1..] == texts[j + 1..];
    assert texts[i + 1..] == texts[i + 1..j] + [texts[j]] + texts[j + 1..];
  }
}
