/** Folding white space assembles no marker: every marker shape in a folded text was one in the text itself. */
module FoldedMarkers {
  import opened Basics
  import opened Fence

  /** The folded text from position i on: a run of white space becomes one blank, and nothing at the end. */
  function Squeeze(s: string, i: nat): string
    requires i <= |s|
    decreases |s| - i
  {
    if i == |s| then ""
    else if IsSpace(s[i]) then
      var j := SkipSpaces(s, i);
      if j == |s| then "" else " " + Squeeze(s, j)
    else [s[i]] + Squeeze(s, i + 1)
  }

  // ---- it is what FoldSpaces computes -----------------------------------------------------------------------

  lemma {:induction false} WordSqueezed(s: string, i: nat)
    requires i <= |s|
    ensures var end := WordEnd(s, i);
            && (end < |s| ==> IsSpace(s[end]))
            && Squeeze(s, i) == s[i..end] + Squeeze(s, end)
    decreases |s| - i
  {
    if i == |s| || IsSpace(s[i]) {
      assert s[i..i] == "";
    } else {
      WordSqueezed(s, i + 1);
      var end := WordEnd(s, i + 1);
      assert WordEnd(s, i) == end && Squeeze(s, i) == [s[i]] + Squeeze(s, i + 1);
      hide IsSpace, Squeeze, WordEnd;
      assert s[i..end] == [s[i]] + s[i + 1..end];
    }
  }

  lemma {:induction false} JoinedWordsSqueezed(s: string, i: nat)
    requires i <= |s|
    ensures JoinWith(Words(s, i), " ") == Squeeze(s, SkipSpaces(s, i))
    decreases |s| - i
  {
    var start := SkipSpaces(s, i);
    if start == |s| {
    } else {
      var end := WordEnd(s, start);
      WordSqueezed(s, start);
      JoinedWordsSqueezed(s, end);
      hide Squeeze;
      var word, rest := s[start..end], Words(s, end);
      assert ([word] + rest)[1..] == rest;
      SqueezeSpaces(s, end);
    }
  }

  lemma SqueezeSpaces(s: string, i: nat)
    requires i <= |s| && (i < |s| ==> IsSpace(s[i]))
    ensures var j := SkipSpaces(s, i); Squeeze(s, i) == if j == |s| then "" else " " + Squeeze(s, j)
  {}

  // ---- two texts in step --------------------------------------------------------------------------------------

  /** From i on, f is the folded rest of s from j on. */
  ghost predicate InStep(f: string, i: nat, s: string, j: nat) {
    i <= |f| && j <= |s| && f[i..] == Squeeze(s, j)
  }

  lemma StepChar(f: string, i: nat, s: string, j: nat)
    requires InStep(f, i, s, j) && i < |f| && !IsSpace(f[i])
    ensures j < |s| && s[j] == f[i] && InStep(f, i + 1, s, j + 1)
  {
    assert f[i..][0] == f[i] && f[i..][1..] == f[i + 1..];
  }

  lemma StepSpaces(f: string, i: nat, s: string, j: nat)
    requires InStep(f, i, s, j)
    ensures InStep(f, SkipSpaces(f, i), s, SkipSpaces(s, j))
    ensures i < |f| ==> j < |s| && (IsSpace(f[i]) <==> IsSpace(s[j]))
  {
    if i < |f| {
      assert f[i..][0] == f[i] && f[i..][1..] == f[i + 1..];
      if IsSpace(f[i]) {
        var k := SkipSpaces(s, j);
        assert Squeeze(s, k)[0] == s[k];
        assert f[i + 1] == f[i + 1..][0];
      }
    }
  }

  lemma {:induction false} StepWord(f: string, i: nat, s: string, j: nat, word: string, n: nat)
    requires InStep(f, i, s, j) && WordAt(f, i, word) && n <= |word| && forall c :: c in word ==> 'A' <= c <= 'Z'
    ensures j + n <= |s| && InStep(f, i + n, s, j + n) && s[j..j + n] == f[i..i + n]
  {
    hide InStep;
    if n == 0 {
      InRange(f, i, s, j);
    } else {
      StepWord(f, i, s, j, word, n - 1);
      assert word[n - 1] in word && Folds(f[i + (n - 1)], word[n - 1]);
      StepChar(f, i + n - 1, s, j + n - 1);
      assert s[j..j + n] == s[j..j + (n - 1)] + [s[j + n - 1]] && f[i..i + n] == f[i..i + (n - 1)] + [f[i + n - 1]];
    }
  }

  lemma InRange(f: string, i: nat, s: string, j: nat)
    requires InStep(f, i, s, j)
    ensures i <= |f| && j <= |s|
  {}

  lemma SameWordInStep(f: string, i: nat, s: string, j: nat, word: string)
    requires InStep(f, i, s, j) && WordAt(f, i, word) && forall c :: c in word ==> 'A' <= c <= 'Z'
    ensures WordAt(s, j, word) && InStep(f, i + |word|, s, j + |word|)
  {
    StepWord(f, i, s, j, word, |word|);
    hide InStep;
    forall k | 0 <= k < |word| ensures Folds(s[j + k], word[k]) {
      assert s[j..j + |word|][k] == f[i..i + |word|][k];
      assert Folds(f[i + k], word[k]);
    }
  }

  lemma {:induction false} StepAngle(f: string, i: nat, s: string, j: nat)
    requires InStep(f, i, s, j)
    ensures InStep(f, NextAngle(f, i), s, NextAngle(s, j))
    decreases |s| - j
  {
    if i == |f| {
      RestIsBlank(s, j);
    } else if IsSpace(f[i]) {
      StepSpaces(f, i, s, j);
      SkipHoldsNoAngle(f, i);
      SkipHoldsNoAngle(s, j);
      StepAngle(f, SkipSpaces(f, i), s, SkipSpaces(s, j));
    } else {
      StepChar(f, i, s, j);
      if f[i] != '>' {
        StepAngle(f, i + 1, s, j + 1);
      }
    }
  }

  lemma RestIsBlank(s: string, j: nat)
    requires j <= |s| && Squeeze(s, j) == ""
    ensures NextAngle(s, j) == |s| && SkipSpaces(s, j) == |s|
  {
    if j < |s| {
      SkipHoldsNoAngle(s, j);
    }
  }

  lemma {:induction false} SkipHoldsNoAngle(s: string, i: nat)
    requires i <= |s|
    ensures NextAngle(s, i) == NextAngle(s, SkipSpaces(s, i))
    decreases |s| - i
  {
    if i == |s| || !IsSpace(s[i]) {
    } else {
      SkipHoldsNoAngle(s, i + 1);
    }
  }

  // ---- the marker pattern ---------------------------------------------------------------------------------------

  lemma StepSlash(f: string, i: nat, s: string, j: nat)
    requires InStep(f, i, s, j) && i < |f|
    ensures InStep(f, AfterSlash(f, i), s, AfterSlash(s, j))
  {
    StepSpaces(f, i, s, j);
    if f[i] == '/' {
      StepChar(f, i, s, j);
      StepSpaces(f, i + 1, s, j + 1);
    } else if !IsSpace(f[i]) {
      StepChar(f, i, s, j);
    }
  }

  lemma StepEnd(f: string, i: nat, s: string, j: nat)
    requires InStep(f, i, s, j) && WordAt(f, AfterEnd(f, i), "EVIDENCE")
    ensures InStep(f, AfterEnd(f, i), s, AfterEnd(s, j))
  {
    hide InStep, WordAt;
    if WordAt(f, i, "END") && i + 3 < |f| && IsSpace(f[i + 3]) {
      SameWordInStep(f, i, s, j, "END");
      StepSpaces(f, i + 3, s, j + 3);
    } else {
      SameWordInStep(f, i, s, j, "EVIDENCE");
      NoEndHere(s, j);
    }
  }

  lemma NoEndHere(s: string, j: nat)
    requires WordAt(s, j, "EVIDENCE")
    ensures !WordAt(s, j, "END")
  {
    assert Folds(s[j + 1], "EVIDENCE"[1]) && !Folds(s[j + 1], "END"[1]);
  }

  /** A marker at the start of the folded text is a marker at the start of the text. */
  lemma MarkerTransfers(f: string, s: string)
    requires InStep(f, 0, s, 0) && MarkerLength(f) > 0
    ensures MarkerLength(s) > 0
  {
    hide HeadLength, InStep, NextAngle;
    HeadTransfers(f, s);
    var h, k := HeadLength(f), HeadLength(s);
    StepAngle(f, h, s, k);
    StepChar(f, NextAngle(f, h), s, NextAngle(s, k));
    StepChar(f, NextAngle(f, h) + 1, s, NextAngle(s, k) + 1);
  }

  lemma HeadTransfers(f: string, s: string)
    requires InStep(f, 0, s, 0) && HeadLength(f) > 0
    ensures HeadLength(s) > 0 && InStep(f, HeadLength(f), s, HeadLength(s))
  {
    hide Squeeze, InStep, SkipSpaces, AfterSlash, AfterEnd, WordAt;
    StepChar(f, 0, s, 0);
    StepChar(f, 1, s, 1);
    StepSpaces(f, 2, s, 2);
    var i, j := SkipSpaces(f, 2), SkipSpaces(s, 2);
    HeadGoesOn(f, i);
    StepSlash(f, i, s, j);
    StepEnd(f, AfterSlash(f, i), s, AfterSlash(s, j));
    SameWordInStep(f, AfterEnd(f, AfterSlash(f, i)), s, AfterEnd(s, AfterSlash(s, j)), "EVIDENCE");
  }

  lemma HeadGoesOn(f: string, i: nat)
    requires i <= |f| && WordAt(f, AfterEnd(f, AfterSlash(f, i)), "EVIDENCE")
    ensures i < |f|
  {}

  // ---- every marker of a folded text ----------------------------------------------------------------------------

  lemma {:induction false} SqueezeShifts(t: string, s: string, j: nat, i: nat)
    requires j <= |s| && t == s[j..] && i <= |t|
    ensures Squeeze(t, i) == Squeeze(s, j + i)
    decreases |t| - i
  {
    if i == |t| {
    } else if IsSpace(t[i]) {
      SkipShifts(t, s, j, i);
      SqueezeShifts(t, s, j, SkipSpaces(t, i));
    } else {
      SqueezeShifts(t, s, j, i + 1);
    }
  }

  lemma {:induction false} SkipShifts(t: string, s: string, j: nat, i: nat)
    requires j <= |s| && t == s[j..] && i <= |t|
    ensures j + SkipSpaces(t, i) == SkipSpaces(s, j + i)
    decreases |t| - i
  {
    if i == |t| || !IsSpace(t[i]) {
    } else {
      SkipShifts(t, s, j, i + 1);
    }
  }

  lemma SqueezeOfSuffix(s: string, j: nat)
    requires j <= |s|
    ensures Squeeze(s[j..], 0) == Squeeze(s, j)
  {
    SqueezeShifts(s[j..], s, j, 0);
  }

  /** A suffix of the folded text that starts with a character of the text is the folded rest from there. */
  lemma {:induction false} SuffixOfSqueeze(s: string, j: nat, k: nat) returns (m: nat)
    requires j <= |s| && k < |Squeeze(s, j)| && !IsSpace(Squeeze(s, j)[k])
    ensures j <= m <= |s| && Squeeze(s, j)[k..] == Squeeze(s, m)
    decreases |s| - j
  {
    var f := Squeeze(s, j);
    if k == 0 {
      assert f[0..] == f;
      m := j;
    } else {
      var next := if IsSpace(s[j]) then SkipSpaces(s, j) else j + 1;
      assert f[1..] == Squeeze(s, next) && f[1..][k - 1..] == f[k..];
      m := SuffixOfSqueeze(s, next, k - 1);
    }
  }

  /** A folded text holds no marker shape if the text held none. */
  lemma FoldedHasNoMarker(s: string)
    requires !HasMarker(s)
    ensures !HasMarker(FoldSpaces(s))
  {
    JoinedWordsSqueezed(s, 0);
    hide MarkerLength, Squeeze;
    var f := FoldSpaces(s);
    forall k | 0 <= k <= |f| ensures MarkerLength(f[k..]) == 0 {
      if MarkerLength(f[k..]) > 0 {
        MarkerStartsWithAngle(f[k..]);
        assert f[k] == f[k..][0];
        var m := SuffixOfSqueeze(s, SkipSpaces(s, 0), k);
        SqueezeOfSuffix(s, m);
        assert f[k..][0..] == f[k..];
        MarkerTransfers(f[k..], s[m..]);
        assert false;
      }
    }
  }

  /** So no sanitised piece holds a marker shape: whole, cut to a length, or folded to a line. */
  lemma PiecesHoldNoMarker(text: string, nonce: string, n: nat)
    requires NonceShape(nonce)
    ensures var clean := StripFenceMarkers(text, nonce);
            && !HasMarker(clean) && !HasMarker(FoldSpaces(clean))
            && (n <= |clean| ==> !HasMarker(clean[..n]))
  {
    hide HasMarker;
    SanitisedIsClean(text, nonce);
    FoldedHasNoMarker(StripFenceMarkers(text, nonce));
    if n <= |StripFenceMarkers(text, nonce)| {
      CutHasNoMarker(StripFenceMarkers(text, nonce), n);
    }
  }
}
