/** Fences at any indentation: which lines open and close a block, and what stands between them. */
module PlanFences {
  import opened Basics
  import opened PlanText

  ghost predicate Blank(s: string) {
    forall i :: 0 <= i < |s| ==> IsSpace(s[i])
  }

  /** White space, three back quotes, a tag, white space. */
  ghost predicate FenceLine(line: string, indent: string, lang: string, tail: string) {
    line == indent + FENCE + lang + tail && Blank(indent) && Blank(tail)
  }

  ghost predicate IsTag(g: Grammar, lang: string) {
    forall i :: 0 <= i < |lang| ==> g.isWord(lang[i])
  }

  /** A line is recognised as a fence exactly if it has that shape, with its indentation and tag. */
  lemma FenceOfIff(g: Grammar, line: string, indent: string, lang: string)
    requires g.Sane()
    ensures FenceOf(g, line) == Some(Opened(indent, lang)) <==>
              IsTag(g, lang) && exists tail :: FenceLine(line, indent, lang, tail)
  {
    if FenceOf(g, line) == Some(Opened(indent, lang)) {
      FenceTakenApart(g, line, indent, lang);
    }
    if IsTag(g, lang) {
      forall tail | FenceLine(line, indent, lang, tail) ensures FenceOf(g, line) == Some(Opened(indent, lang)) {
        FenceRecognised(g, line, indent, lang, tail);
      }
    }
  }

  lemma FenceTakenApart(g: Grammar, line: string, indent: string, lang: string)
    requires FenceOf(g, line) == Some(Opened(indent, lang))
    ensures IsTag(g, lang) && exists tail :: FenceLine(line, indent, lang, tail)
  {
    var i := SkipSpaces(line, 0);
    var j := WordEnd(g, line, i + 3);
    var tail := line[j..];
    hide IsSpace;
    FourPieces(line, i, j);
    forall k | 0 <= k < |tail| ensures IsSpace(tail[k]) {
      assert tail[k] == line[j + k];
    }
    assert FenceLine(line, indent, lang, tail);
  }

  lemma FourPieces(line: string, i: nat, j: nat)
    requires i + 3 <= j <= |line|
    ensures line == line[..i] + line[i..i + 3] + line[i + 3..j] + line[j..]
  {}

  lemma FenceRecognised(g: Grammar, line: string, indent: string, lang: string, tail: string)
    requires g.Sane() && FenceLine(line, indent, lang, tail) && IsTag(g, lang)
    ensures FenceOf(g, line) == Some(Opened(indent, lang))
  {
    var i := |indent|;
    var j := i + 3 + |lang|;
    FencePieces(line, indent, lang, tail);
    assert !IsSpace('`');
    hide IsSpace;
    assert line[i] == line[i..i + 3][0] == '`';
    forall k | 0 <= k < i ensures IsSpace(line[k]) {
      assert line[k] == line[..i][k];
    }
    SkipEndsAt(line, 0, i);
    forall k | i + 3 <= k < j ensures g.isWord(line[k]) {
      assert line[k] == line[i + 3..j][k - i - 3];
    }
    forall k | j <= k < |line| ensures IsSpace(line[k]) && !g.isWord(line[k]) {
      assert line[k] == line[j..][k - j];
    }
    WordEndsAt(g, line, i + 3, j);
    SkipEndsAt(line, j, |line|);
  }

  lemma FencePieces(line: string, indent: string, lang: string, tail: string)
    requires line == indent + FENCE + lang + tail
    ensures var i, j := |indent|, |indent| + 3 + |lang|;
            && |line| == j + |tail|
            && line[..i] == indent && line[i..i + 3] == FENCE && line[i + 3..j] == lang && line[j..] == tail
  {}

  lemma SkipEndsAt(s: string, i: nat, j: nat)
    requires i <= j <= |s| && (forall k :: i <= k < j ==> IsSpace(s[k])) && (j < |s| ==> !IsSpace(s[j]))
    ensures SkipSpaces(s, i) == j
  {}

  lemma WordEndsAt(g: Grammar, s: string, i: nat, j: nat)
    requires i <= j <= |s| && (forall k :: i <= k < j ==> g.isWord(s[k])) && (j < |s| ==> !g.isWord(s[j]))
    ensures WordEnd(g, s, i) == j
  {}

  /** A line closes a block exactly if it is a fence without a tag, as far indented as the one that opened it. */
  ghost predicate ClosingLine(line: string, width: nat) {
    exists indent, tail :: |indent| == width && FenceLine(line, indent, "", tail)
  }

  lemma ClosesIff(g: Grammar, line: string, open: Opened)
    requires g.Sane()
    ensures Closes(g, line, open) <==> ClosingLine(line, |open.indent|)
  {
    hide FenceOf, FenceLine;
    assert IsTag(g, "");
    if Closes(g, line, open) {
      FenceOfIff(g, line, FenceOf(g, line).value.indent, "");
    }
    if ClosingLine(line, |open.indent|) {
      var indent, tail :| |indent| == |open.indent| && FenceLine(line, indent, "", tail);
      FenceOfIff(g, line, indent, "");
    }
  }

  /** A line inside a block loses the block's indentation if it has it. */
  ghost predicate Inside(raw: string, line: string, indent: string) {
    !ClosingLine(raw, |indent|) && if indent <= raw then raw == indent + line else raw == line
  }

  /** A block at any indentation, with a tag in any case and any lines that do not close it, is recorded with its lines
      as they stood behind the indentation, and its tag in lower case. */
  lemma IndentedBlock(g: Grammar, s: State, first: string, last: string, raw: seq<string>, lines: seq<string>,
                      indent: string, lang: string, tail: string)
    requires g.Sane() && s.fence == None && s.buf == []
    requires FenceLine(first, indent, lang, tail) && IsTag(g, lang) && ClosingLine(last, |indent|)
    requires |raw| == |lines| && forall i :: 0 <= i < |raw| ==> Inside(raw[i], lines[i], indent)
    ensures Run(g, s, [first] + (raw + [last])) == WithBlock(s, Block(Lower(lang), JoinLines(lines)))
  {
    FenceOfIff(g, first, indent, lang);
    var inside := s.(fence := Some(Opened(indent, Lower(lang))));
    assert Feed(g, s, first) == inside;
    RunFirst(g, s, first, raw + [last]);
    RunConcat(g, inside, raw, [last]);
    InsideCollected(g, inside, raw, lines);
    assert [] + lines == lines;
    var full := inside.(buf := lines);
    RunOne(g, full, last);
    ClosesIff(g, last, Opened(indent, Lower(lang)));
    hide Closes, ClosingLine, FenceOf;
    assert Feed(g, full, last) == WithBlock(s, Block(Lower(lang), JoinLines(lines)));
  }

  lemma {:induction false} InsideCollected(g: Grammar, s: State, raw: seq<string>, lines: seq<string>)
    requires g.Sane() && s.fence.Some? && |raw| == |lines|
    requires forall i :: 0 <= i < |raw| ==> Inside(raw[i], lines[i], s.fence.value.indent)
    ensures Run(g, s, raw) == s.(buf := s.buf + lines)
    decreases |raw|
  {
    RunNone(g, s);
    hide Run;
    if raw == [] {
      assert s.buf + lines == s.buf;
    } else {
      InsideLine(g, s, raw[0], lines[0]);
      hide Feed, Inside;
      assert raw == [raw[0]] + raw[1..];
      RunFirst(g, s, raw[0], raw[1..]);
      InsideCollected(g, s.(buf := s.buf + [lines[0]]), raw[1..], lines[1..]);
      assert s.buf + [lines[0]] + lines[1..] == s.buf + lines;
    }
  }

  lemma InsideLine(g: Grammar, s: State, raw: string, line: string)
    requires g.Sane() && s.fence.Some? && Inside(raw, line, s.fence.value.indent)
    ensures Feed(g, s, raw) == s.(buf := s.buf + [line])
  {
    ClosesIff(g, raw, s.fence.value);
    hide Closes, ClosingLine;
    var indent := s.fence.value.indent;
    if indent <= raw {
      assert (indent + line)[|indent|..] == line;
    }
  }
}
