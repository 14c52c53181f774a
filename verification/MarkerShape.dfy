/** The marker pattern as the regular expression states it, and that the matcher finds exactly its matches. */
module MarkerShape {
  import opened Basics
  import opened Fence

  ghost predicate Spaces(s: string, i: nat, j: nat) {
    i <= j <= |s| && forall k :: i <= k < j ==> IsSpace(s[k])
  }

  /** One letter, in either case; case-insensitive matching also takes the dotted and the dotless i for an I. */
  ghost predicate Letter(c: char, lower: char, upper: char) {
    c == lower || c == upper || (upper == 'I' && (c == '\U{130}' || c == '\U{131}'))
  }

  ghost predicate SaysEnd(s: string, i: nat) {
    i + 3 <= |s| && Letter(s[i], 'e', 'E') && Letter(s[i + 1], 'n', 'N') && Letter(s[i + 2], 'd', 'D')
  }

  ghost predicate SaysEvidence(s: string, i: nat) {
    && i + 8 <= |s|
    && Letter(s[i], 'e', 'E') && Letter(s[i + 1], 'v', 'V') && Letter(s[i + 2], 'i', 'I')
    && Letter(s[i + 3], 'd', 'D') && Letter(s[i + 4], 'e', 'E') && Letter(s[i + 5], 'n', 'N')
    && Letter(s[i + 6], 'c', 'C') && Letter(s[i + 7], 'e', 'E')
  }

  /** `<<\s*\/?\s*(END\s+)?EVIDENCE` matches the first h characters, piece by piece: white space up to a, an optional
      slash up to b, white space up to c, an optional END with white space up to d, and the word. */
  ghost predicate HeadAt(s: string, a: nat, b: nat, c: nat, d: nat, h: nat) {
    && |s| >= 2 && s[0] == '<' && s[1] == '<' && 2 <= a && Spaces(s, 2, a)
    && (b == a || (b == a + 1 && a < |s| && s[a] == '/'))
    && Spaces(s, b, c)
    && (d == c || (SaysEnd(s, c) && c + 3 < d && Spaces(s, c + 3, d)))
    && SaysEvidence(s, d) && h == d + 8
  }

  /** ... and `[^>]*>>` the rest of the first n. */
  ghost predicate MarkerAt(s: string, n: nat) {
    exists a: nat, b: nat, c: nat, d: nat, h: nat ::
      && HeadAt(s, a, b, c, d, h) && h + 2 <= n <= |s|
      && s[n - 2] == '>' && s[n - 1] == '>' && forall k :: h <= k < n - 2 ==> s[k] != '>'
  }

  lemma EndRead(s: string, i: nat)
    ensures WordAt(s, i, "END") <==> SaysEnd(s, i)
  {
    var word := "END";
    assert |word| == 3 && word[0] == 'E' && word[1] == 'N' && word[2] == 'D';
    if SaysEnd(s, i) {
      forall k | 0 <= k < 3 ensures Folds(s[i + k], word[k]) {}
    }
    if WordAt(s, i, word) {
      assert Folds(s[i + 0], word[0]) && Folds(s[i + 1], word[1]) && Folds(s[i + 2], word[2]);
    }
  }

  lemma EvidenceRead(s: string, i: nat)
    ensures WordAt(s, i, "EVIDENCE") <==> SaysEvidence(s, i)
  {
    var word := "EVIDENCE";
    assert |word| == 8 && word[0] == 'E' && word[1] == 'V' && word[2] == 'I' && word[3] == 'D';
    assert word[4] == 'E' && word[5] == 'N' && word[6] == 'C' && word[7] == 'E';
    if SaysEvidence(s, i) {
      forall k | 0 <= k < 8 ensures Folds(s[i + k], word[k]) {}
    }
    if WordAt(s, i, word) {
      assert Folds(s[i + 0], word[0]) && Folds(s[i + 1], word[1]) && Folds(s[i + 2], word[2]);
      assert Folds(s[i + 3], word[3]) && Folds(s[i + 4], word[4]) && Folds(s[i + 5], word[5]);
      assert Folds(s[i + 6], word[6]) && Folds(s[i + 7], word[7]);
    }
  }

  lemma SkipStops(s: string, i: nat, j: nat)
    requires Spaces(s, i, j) && (j < |s| ==> !IsSpace(s[j]))
    ensures SkipSpaces(s, i) == j
  {}

  lemma SkipIsSpaces(s: string, i: nat)
    requires i <= |s|
    ensures Spaces(s, i, SkipSpaces(s, i))
  {}

  /** A letter of the words, and a slash, are no white space, so each piece ends where the next begins. */
  lemma WordStarts(s: string, i: nat)
    ensures SaysEnd(s, i) || SaysEvidence(s, i) ==> !IsSpace(s[i]) && s[i] != '/'
    ensures SaysEvidence(s, i) ==> !SaysEnd(s, i)
  {}

  lemma MatchedHeadIsFound(s: string, a: nat, b: nat, c: nat, d: nat, h: nat)
    requires HeadAt(s, a, b, c, d, h)
    ensures HeadLength(s) == h
  {
    WordStarts(s, c);
    WordStarts(s, d);
    assert !IsSpace('/');
    EndRead(s, c);
    EvidenceRead(s, d);
    hide IsSpace, WordAt, SaysEnd, SaysEvidence;
    if b == a {
      SkipStops(s, 2, c);
    } else {
      SkipStops(s, 2, a);
      SkipStops(s, b, c);
    }
    assert AfterSlash(s, SkipSpaces(s, 2)) == c;
    if d != c {
      assert IsSpace(s[c + 3]);
      SkipStops(s, c + 3, d);
    }
    assert AfterEnd(s, c) == d;
  }

  lemma FoundHeadMatches(s: string)
    requires HeadLength(s) > 0
    ensures exists a: nat, b: nat, c: nat, d: nat :: HeadAt(s, a, b, c, d, HeadLength(s))
  {
    var a := SkipSpaces(s, 2);
    var b := if a < |s| && s[a] == '/' then a + 1 else a;
    var c := AfterSlash(s, a);
    var d := AfterEnd(s, c);
    EndRead(s, c);
    EvidenceRead(s, d);
    SkipIsSpaces(s, 2);
    SkipIsSpaces(s, b);
    hide IsSpace, WordAt, SaysEnd, SaysEvidence;
    if d != c {
      SkipIsSpaces(s, c + 3);
    }
    assert HeadAt(s, a, b, c, d, HeadLength(s));
  }

  /** The matcher gives n exactly if the pattern matches the first n characters; so there is at most one match. */
  lemma MarkerLengthIff(s: string, n: nat)
    requires n > 0
    ensures MarkerLength(s) == n <==> MarkerAt(s, n)
  {
    hide HeadAt, HeadLength;
    if MarkerLength(s) == n {
      FoundHeadMatches(s);
    }
    if MarkerAt(s, n) {
      var a: nat, b: nat, c: nat, d: nat, h: nat :|
        && HeadAt(s, a, b, c, d, h) && h + 2 <= n <= |s|
        && s[n - 2] == '>' && s[n - 1] == '>' && forall k :: h <= k < n - 2 ==> s[k] != '>';
      MatchedHeadIsFound(s, a, b, c, d, h);
      assert h > 0 by { HeadIsLong(s, a, b, c, d, h); }
      assert NextAngle(s, h) == n - 2;
    }
  }

  lemma HeadIsLong(s: string, a: nat, b: nat, c: nat, d: nat, h: nat)
    requires HeadAt(s, a, b, c, d, h)
    ensures h >= 10
  {}

  /** Whatever the text, the pattern matches nowhere in its sanitised form. */
  lemma PatternMatchesNowhere(text: string, nonce: string)
    requires NonceShape(nonce)
    ensures var s := StripFenceMarkers(text, nonce);
            forall i, n: nat :: 0 <= i <= |s| ==> !MarkerAt(s[i..], n)
  {
    SanitisedIsClean(text, nonce);
    hide MarkerLength, StripFenceMarkers, MarkerAt;
    var s := StripFenceMarkers(text, nonce);
    forall i, n: nat | 0 <= i <= |s| ensures !MarkerAt(s[i..], n) {
      assert MarkerLength(s[i..]) == 0;
      if n > 0 {
        MarkerLengthIff(s[i..], n);
      } else {
        NoEmptyMarker(s[i..]);
      }
    }
  }

  lemma NoEmptyMarker(s: string)
    ensures !MarkerAt(s, 0)
  {}
}
