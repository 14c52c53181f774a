/** The retrieval harness's in-memory BM25: postings built once, scores accumulated posting by posting, and the
    prefix table that lets a stripped query stem match every indexed term it starts. */
module Bm25Index {
  import opened Basics

  /** Document ids stand for their place in the id order. */
  type DocId = nat
  type Term = string

  datatype Doc = Doc(id: DocId, tokens: seq<Term>)
  datatype Posting = Posting(id: DocId, freq: nat)

  ghost predicate DistinctIds(docs: seq<Doc>) {
    forall i, j :: 0 <= i < j < |docs| ==> docs[i].id != docs[j].id
  }

  function Freq(d: Doc, t: Term): nat {
    multiset(d.tokens)[t]
  }

  function Length(d: Doc): nat {
    if d.tokens == [] then 1 else |d.tokens|
  }

  /** The posting list a term should have: one entry per document that holds it, in document order. */
  function PostingList(docs: seq<Doc>, t: Term): seq<Posting> {
    if docs == [] then []
    else
      var last := docs[|docs| - 1];
      PostingList(docs[..|docs| - 1], t) + if Freq(last, t) > 0 then [Posting(last.id, Freq(last, t))] else []
  }

  function TotalLength(docs: seq<Doc>): nat {
    if docs == [] then 0 else TotalLength(docs[..|docs| - 1]) + Length(docs[|docs| - 1])
  }

  /** The frequency counts the places where the term stands. */
  lemma FreqCounts(d: Doc, t: Term)
    ensures Freq(d, t) == |Positions(d.tokens, t)|
  {
    CountIsPositions(d.tokens, t);
  }

  /** Every document is as long as it has tokens, an empty one as long as one token; the average spreads the sum of
      these lengths over all documents. */
  lemma {:induction false} AverageMeans(docs: seq<Doc>)
    requires docs != []
    ensures forall d :: d in docs ==> Length(d) == if |d.tokens| == 0 then 1 else |d.tokens|
    ensures AverageLength(docs) * |docs| as real ==
            Sum(seq(|docs|, i requires 0 <= i < |docs| => Length(docs[i]))) as real
  {
    TotalIsSum(docs);
  }

  lemma {:induction false} TotalIsSum(docs: seq<Doc>)
    ensures TotalLength(docs) == Sum(seq(|docs|, i requires 0 <= i < |docs| => Length(docs[i])))
  {
    var lengths := seq(|docs|, i requires 0 <= i < |docs| => Length(docs[i]));
    if docs == [] {
    } else {
      var init := docs[..|docs| - 1];
      TotalIsSum(init);
      assert lengths[..|docs| - 1] == seq(|init|, i requires 0 <= i < |init| => Length(init[i]));
    }
  }

  // ---- building -------------------------------------------------------------------------

  datatype Index = Index(postings: map<Term, seq<Posting>>, lengths: map<DocId, nat>, n: nat, avgdl: real)

  /** The postings hold exactly the terms that occur, each with its list. */
  ghost predicate PostingsOf(postings: map<Term, seq<Posting>>, docs: seq<Doc>) {
    forall t :: (t in postings <==> PostingList(docs, t) != []) &&
      (t in postings ==> postings[t] == PostingList(docs, t))
  }

  ghost predicate LengthsOf(lengths: map<DocId, nat>, docs: seq<Doc>) {
    && (forall d :: d in docs ==> d.id in lengths && lengths[d.id] == Length(d))
    && (forall id :: id in lengths ==> exists d :: d in docs && d.id == id)
  }

  ghost predicate Indexes(ix: Index, docs: seq<Doc>) {
    && PostingsOf(ix.postings, docs) && LengthsOf(ix.lengths, docs)
    && ix.n == |docs| && ix.avgdl == AverageLength(docs)
  }

  method Build(docs: seq<Doc>) returns (ix: Index)
    requires DistinctIds(docs)
    ensures Indexes(ix, docs)
  {
    hide PostingList, PostingsOf, LengthsOf;
    var postings: map<Term, seq<Posting>>, lengths: map<DocId, nat>, total := map[], map[], 0;
    NothingIndexed();
    for i := 0 to |docs|
      invariant PostingsOf(postings, docs[..i]) && LengthsOf(lengths, docs[..i])
      invariant total == TotalLength(docs[..i])
    {
      var d := docs[i];
      assert docs[..i + 1][..i] == docs[..i];
      LengthsGrow(lengths, docs, i);
      lengths := lengths[d.id := Length(d)];
      total := total + lengths[d.id];
      postings := AddDocument(postings, docs, i);
    }
    assert docs[..|docs|] == docs;
    return Index(postings, lengths, |docs|, total as real / (if |docs| > 0 then |docs| else 1) as real);
  }

  lemma NothingIndexed()
    ensures PostingsOf(map[], []) && LengthsOf(map[], []) && TotalLength([]) == 0
  {}

  lemma LengthsGrow(lengths: map<DocId, nat>, docs: seq<Doc>, i: nat)
    requires i < |docs| && DistinctIds(docs) && LengthsOf(lengths, docs[..i])
    ensures LengthsOf(lengths[docs[i].id := Length(docs[i])], docs[..i + 1])
  {}

  /** The terms in `done` got one more posting. */
  ghost predicate Extended(postings: map<Term, seq<Posting>>, more: map<Term, seq<Posting>>, d: Doc, done: set<Term>) {
    && more.Keys == postings.Keys + done
    && forall t :: t in more ==>
         more[t] == (if t in postings then postings[t] else []) +
           (if t in done then [Posting(d.id, Freq(d, t))] else [])
  }

  /** counts.items(): one entry for each distinct term of the document. */
  method AddDocument(postings: map<Term, seq<Posting>>, docs: seq<Doc>, i: nat) returns (more: map<Term, seq<Posting>>)
    requires i < |docs| && PostingsOf(postings, docs[..i])
    ensures PostingsOf(more, docs[..i + 1])
  {
    hide PostingsOf, Freq, Extended;
    var d := docs[i];
    more := postings;
    var todo := Elements(d.tokens);
    ghost var done: set<Term> := {};
    NothingExtended(postings, d);
    while todo != {}
      invariant done + todo == Elements(d.tokens) && done !! todo
      invariant Extended(postings, more, d, done)
      decreases todo
    {
      var t :| t in todo;
      ExtendOne(postings, more, d, done, t);
      var list := if t in more then more[t] else [];
      more := more[t := list + [Posting(d.id, Freq(d, t))]];
      todo := todo - {t};
      done := done + {t};
    }
    assert done == Elements(d.tokens);
    DocumentAdded(postings, more, docs, i);
  }

  lemma NothingExtended(postings: map<Term, seq<Posting>>, d: Doc)
    ensures Extended(postings, postings, d, {})
  {}

  lemma ExtendOne(postings: map<Term, seq<Posting>>, more: map<Term, seq<Posting>>, d: Doc, done: set<Term>, t: Term)
    requires Extended(postings, more, d, done) && t !in done
    ensures Extended(postings, more[t := (if t in more then more[t] else []) + [Posting(d.id, Freq(d, t))]], d,
                     done + {t})
  {}

  lemma DocumentAdded(postings: map<Term, seq<Posting>>, more: map<Term, seq<Posting>>, docs: seq<Doc>, i: nat)
    requires i < |docs| && PostingsOf(postings, docs[..i]) &&
             Extended(postings, more, docs[i], Elements(docs[i].tokens))
    ensures PostingsOf(more, docs[..i + 1])
  {
    var d := docs[i];
    forall t
      ensures t in more <==> PostingList(docs[..i + 1], t) != []
      ensures t in more ==> more[t] == PostingList(docs[..i + 1], t)
    {
      PostingListGrows(docs, i, t);
      assert t in Elements(d.tokens) <==> Freq(d, t) > 0;
    }
  }

  lemma PostingListGrows(docs: seq<Doc>, i: nat, t: Term)
    requires i < |docs|
    ensures PostingList(docs[..i + 1], t) ==
            PostingList(docs[..i], t) + if Freq(docs[i], t) > 0 then [Posting(docs[i].id, Freq(docs[i], t))] else []
  {
    assert docs[..i + 1][..i] == docs[..i];
  }

  // ---- scoring ----------------------------------------------------------------------------

  /** The two free parameters, the logarithm, and the addition the scores are accumulated with. Of that only a neutral
      zero is asked: a floating-point sum may round. */
  datatype Scoring = Scoring(k1: real, b: real, log: real -> real, plus: (real, real) -> real) {
    ghost predicate Sane() {
      k1 >= 0.0 && 0.0 <= b <= 1.0 && forall x :: plus(x, 0.0) == x
    }

    ghost predicate Commutes() {
      forall x, y :: plus(x, y) == plus(y, x)
    }

    ghost predicate Associates() {
      forall x, y, z :: plus(plus(x, y), z) == plus(x, plus(y, z))
    }
  }

  function Idf(sc: Scoring, n: nat, df: nat): real {
    sc.log(1.0 + ((n as real - df as real) + 0.5) / (df as real + 0.5))
  }

  function AverageLength(docs: seq<Doc>): (avg: real)
    ensures docs != [] ==> avg > 0.0
  {
    TotalLength(docs) as real / (if |docs| > 0 then |docs| else 1) as real
  }

  function Share(sc: Scoring, idf: real, freq: nat, length: nat, avgdl: real): real
    requires sc.Sane() && freq > 0 && avgdl > 0.0
  {
    var norm := 1.0 - sc.b + sc.b * length as real / avgdl;
    assert norm >= 0.0 by { NormIsNonNegative(sc, length, avgdl); }
    assert sc.k1 * norm >= 0.0 by { ProductIsNonNegative(sc.k1, norm); }
    idf * freq as real * (sc.k1 + 1.0) / (freq as real + sc.k1 * norm)
  }

  /** The weight of a term is the logarithm of (n + 1) / (df + 1/2). */
  lemma IdfMeans(sc: Scoring, n: nat, df: nat) returns (x: real)
    ensures Idf(sc, n, df) == sc.log(x) && x * (df as real + 0.5) == n as real + 1.0
  {
    var half := df as real + 0.5;
    x := 1.0 + (n as real - df as real + 0.5) / half;
    TimesQuotient(n as real - df as real + 0.5, half);
    assert x * half == half + ((n as real - df as real + 0.5) / half) * half;
  }

  lemma TimesQuotient(x: real, y: real)
    requires y != 0.0
    ensures (x / y) * y == x
  {}

  ghost predicate Growing(log: real -> real) {
    log(1.0) == 0.0 && forall x, y :: 0.0 < x <= y ==> log(x) <= log(y)
  }

  /** A rarer term weighs no less, and no term weighs less than nothing. */
  lemma RarerWeighsMore(sc: Scoring, n: nat, df: nat, df': nat)
    requires Growing(sc.log) && df <= df' <= n
    ensures Idf(sc, n, df) >= Idf(sc, n, df') >= 0.0
  {
    var x := IdfMeans(sc, n, df);
    var x' := IdfMeans(sc, n, df');
    var h, h' := df as real + 0.5, df' as real + 0.5;
    assert 1.0 * h' == h';
    NotNarrowed(1.0, x', h', h', h', x' * h');
    ProductGrows(x', h, h');
    NotNarrowed(x', x, h, x' * h', x' * h', x * h);
  }

  lemma Widened(x: real, y: real, h: real)
    requires x < y && h > 0.0
    ensures x * h < y * h
  {}

  lemma NotNarrowed(x: real, y: real, h: real, a: real, b: real, c: real)
    requires x * h <= a <= b <= c == y * h && h > 0.0
    ensures x <= y
  {
    if y < x {
      Widened(y, x, h);
    }
  }

  lemma ProductGrows(x: real, h: real, h': real)
    requires x >= 0.0 && h <= h'
    ensures x * h <= x * h'
  {}

  /** What the denominator of a share adds to the frequency: k1 for a document of average length, less for a shorter
      one. */
  function LengthNorm(sc: Scoring, length: nat, avgdl: real): (norm: real)
    requires avgdl > 0.0
    ensures length as real == avgdl ==> norm == sc.k1
  {
    sc.k1 * (1.0 - sc.b + sc.b * length as real / avgdl)
  }

  /** A share is the fraction the formula of Okapi BM25 gives. */
  lemma ShareMeans(sc: Scoring, idf: real, freq: nat, length: nat, avgdl: real)
    requires sc.Sane() && freq > 0 && avgdl > 0.0
    ensures LengthNorm(sc, length, avgdl) >= 0.0
    ensures Share(sc, idf, freq, length, avgdl) * (freq as real + LengthNorm(sc, length, avgdl)) ==
            idf * freq as real * (sc.k1 + 1.0)
  {
    var norm := 1.0 - sc.b + sc.b * length as real / avgdl;
    NormIsNonNegative(sc, length, avgdl);
    ProductIsNonNegative(sc.k1, norm);
    assert LengthNorm(sc, length, avgdl) == sc.k1 * norm;
    TimesQuotient(idf * freq as real * (sc.k1 + 1.0), freq as real + sc.k1 * norm);
  }

  /** More occurrences never give less, a longer document never gives more, a heavier term never gives less, and no
      share exceeds k1 + 1 times the term's weight. */
  lemma ShareGrows(sc: Scoring, idf: real, idf': real, freq: nat, freq': nat, length: nat, length': nat, avgdl: real)
    requires sc.Sane() && 0 < freq <= freq' && avgdl > 0.0 && length >= length' && 0.0 <= idf <= idf'
    ensures Share(sc, idf, freq, length, avgdl) <= Share(sc, idf', freq', length', avgdl) <= idf' * (sc.k1 + 1.0)
  {
    hide Share;
    ShareMeans(sc, idf, freq, length, avgdl);
    ShareMeans(sc, idf', freq', length', avgdl);
    LongerNorm(sc, length, length', avgdl);
    var w, w' := idf * (sc.k1 + 1.0), idf' * (sc.k1 + 1.0);
    assert 0.0 <= w <= w' by {
      ProductIsNonNegative(idf, sc.k1 + 1.0);
      ProductGrows(sc.k1 + 1.0, idf, idf');
    }
    Regroup(idf, freq as real, sc.k1 + 1.0);
    Regroup(idf', freq' as real, sc.k1 + 1.0);
    hide LengthNorm;
    SaturatingFraction(Share(sc, idf, freq, length, avgdl), Share(sc, idf', freq', length', avgdl), w, w',
                       freq as real, freq' as real, LengthNorm(sc, length, avgdl), LengthNorm(sc, length', avgdl));
  }

  lemma Regroup(x: real, y: real, z: real)
    ensures x * y * z == (x * z) * y
  {}

  lemma LongerNorm(sc: Scoring, length: nat, length': nat, avgdl: real)
    requires sc.Sane() && avgdl > 0.0 && length >= length'
    ensures LengthNorm(sc, length, avgdl) >= LengthNorm(sc, length', avgdl)
  {
    var long, short := sc.b * length as real, sc.b * length' as real;
    ProductGrows(sc.b, length' as real, length as real);
    QuotientGrows(short, long, avgdl);
    ProductGrows(sc.k1, 1.0 - sc.b + short / avgdl, 1.0 - sc.b + long / avgdl);
    assert LengthNorm(sc, length, avgdl) == sc.k1 * (1.0 - sc.b + long / avgdl);
    assert LengthNorm(sc, length', avgdl) == sc.k1 * (1.0 - sc.b + short / avgdl);
  }

  lemma QuotientGrows(x: real, y: real, d: real)
    requires x <= y && d > 0.0
    ensures x / d <= y / d
  {}

  /** w f / (f + c) lies between nothing and w. */
  lemma FractionBelow(s: real, w: real, f: real, c: real)
    requires f > 0.0 && c >= 0.0 && w >= 0.0 && s * (f + c) == w * f
    ensures 0.0 <= s <= w
  {
    Spread(w, f, c);
    if s > w {
      Widened(w, s, f + c);
      ProductIsNonNegative(w, c);
    }
    if s < 0.0 {
      Widened(s, 0.0, f + c);
      ProductIsNonNegative(w, f);
    }
  }

  /** It grows with w and f, and falls with c. */
  lemma SaturatingFraction(s: real, s': real, w: real, w': real, f: real, f': real, c: real, c': real)
    requires 0.0 < f <= f' && c >= c' >= 0.0 && 0.0 <= w <= w'
    requires s * (f + c) == w * f && s' * (f' + c') == w' * f'
    ensures s <= s' <= w'
  {
    FractionBelow(s, w, f, c);
    FractionBelow(s', w', f', c');
    assert s * (f' + c) <= f' * w by {
      Apart(s, f, f', c);
      ProductGrows(f' - f, s, w);
      Together(w, f, f');
    }
    ProductGrows(s, f' + c', f' + c);
    ProductGrows(f', w, w');
    Spread(w', f', c');
    NotNarrowed(s, s', f' + c', s * (f' + c), f' * w, f' * w');
  }

  lemma Spread(w: real, f: real, c: real)
    ensures w * (f + c) == w * f + w * c && w * f == f * w
  {}

  lemma Apart(s: real, f: real, f': real, c: real)
    ensures s * (f' + c) == s * (f + c) + (f' - f) * s
  {}

  lemma Together(w: real, f: real, f': real)
    ensures w * f + (f' - f) * w == f' * w
  {}

  lemma NormIsNonNegative(sc: Scoring, length: nat, avgdl: real)
    requires sc.Sane() && avgdl > 0.0
    ensures 1.0 - sc.b + sc.b * length as real / avgdl >= 0.0
  {
    ProductIsNonNegative(sc.b, length as real);
    QuotientIsNonNegative(sc.b * length as real, avgdl);
  }

  lemma ProductIsNonNegative(x: real, y: real)
    requires x >= 0.0 && y >= 0.0
    ensures x * y >= 0.0
  {}

  lemma QuotientIsNonNegative(x: real, y: real)
    requires x >= 0.0 && y > 0.0
    ensures x / y >= 0.0
  {}

  /** One term's contribution to one document, from the document's own counts. */
  function Contribution(sc: Scoring, docs: seq<Doc>, d: Doc, t: Term): real
    requires sc.Sane()
  {
    if docs == [] || Freq(d, t) == 0 then 0.0
    else Share(sc, Idf(sc, |docs|, |PostingList(docs, t)|), Freq(d, t), Length(d), AverageLength(docs))
  }

  lemma {:induction false} ListIsNoLonger(docs: seq<Doc>, t: Term)
    ensures |PostingList(docs, t)| <= |docs|
  {
    if docs == [] {
    } else {
      ListIsNoLonger(docs[..|docs| - 1], t);
    }
  }

  /** Whatever the logarithm, as long as it grows: a term listed for fewer documents, occurring at least as often in a
      document that is no longer, contributes no less; and no contribution is negative. */
  lemma RarerTermContributesMore(sc: Scoring, docs: seq<Doc>, d: Doc, t: Term, e: Doc, u: Term)
    requires sc.Sane() && Growing(sc.log) && docs != []
    requires |PostingList(docs, t)| <= |PostingList(docs, u)|
    requires Freq(d, t) >= Freq(e, u) && Length(d) <= Length(e)
    ensures Contribution(sc, docs, d, t) >= Contribution(sc, docs, e, u) >= 0.0
  {
    hide PostingList, Freq, Length, Share, Idf, Growing, AverageLength;
    ListIsNoLonger(docs, u);
    var n, rare, common := |docs|, |PostingList(docs, t)|, |PostingList(docs, u)|;
    RarerWeighsMore(sc, n, rare, common);
    if Freq(e, u) > 0 {
      ShareGrows(sc, Idf(sc, n, common), Idf(sc, n, rare), Freq(e, u), Freq(d, t), Length(e), Length(d),
                 AverageLength(docs));
      ShareIsFair(sc, Idf(sc, n, common), Freq(e, u), Length(e), AverageLength(docs));
    } else if Freq(d, t) > 0 {
      ShareIsFair(sc, Idf(sc, n, rare), Freq(d, t), Length(d), AverageLength(docs));
    }
  }

  lemma ShareIsFair(sc: Scoring, idf: real, freq: nat, length: nat, avgdl: real)
    requires sc.Sane() && freq > 0 && avgdl > 0.0 && idf >= 0.0
    ensures Share(sc, idf, freq, length, avgdl) >= 0.0
  {
    hide Share;
    ShareMeans(sc, idf, freq, length, avgdl);
    ProductIsNonNegative(idf, sc.k1 + 1.0);
    Regroup(idf, freq as real, sc.k1 + 1.0);
    FractionBelow(Share(sc, idf, freq, length, avgdl), idf * (sc.k1 + 1.0), freq as real,
                  LengthNorm(sc, length, avgdl));
  }

  /** Scoring a document on its own: the sum over the matched terms. */
  function NaiveScore(sc: Scoring, docs: seq<Doc>, d: Doc, terms: seq<Term>): real
    requires sc.Sane()
  {
    if terms == [] then 0.0
    else sc.plus(NaiveScore(sc, docs, d, terms[..|terms| - 1]), Contribution(sc, docs, d, terms[|terms| - 1]))
  }

  ghost predicate Matches(d: Doc, terms: seq<Term>) {
    exists t :: t in terms && Freq(d, t) > 0
  }

  /** Exactly the matching documents are scored, each with its own naive score. */
  ghost predicate ScoresOf(scores: map<DocId, real>, sc: Scoring, docs: seq<Doc>, terms: seq<Term>)
    requires sc.Sane()
  {
    && (forall id :: id in scores ==> exists d :: d in docs && d.id == id)
    && (forall d :: d in docs ==>
          && (d.id in scores <==> Matches(d, terms))
          && (d.id in scores ==> scores[d.id] == NaiveScore(sc, docs, d, terms)))
  }

  /** The scores while the postings of `t` are being walked: the documents in `done` have had their share. */
  ghost predicate PartlyScored(scores: map<DocId, real>, sc: Scoring, docs: seq<Doc>, terms: seq<Term>, t: Term,
                               done: set<DocId>)
    requires sc.Sane()
  {
    && (forall id :: id in scores ==> exists d :: d in docs && d.id == id)
    && (forall d :: d in docs ==>
          var now := if d.id in done then terms + [t] else terms;
          && (d.id in scores <==> Matches(d, now))
          && (d.id in scores ==> scores[d.id] == NaiveScore(sc, docs, d, now)))
  }

  lemma OneMoreTerm(sc: Scoring, docs: seq<Doc>, d: Doc, terms: seq<Term>, t: Term)
    requires sc.Sane()
    ensures Matches(d, terms + [t]) <==> Matches(d, terms) || Freq(d, t) > 0
    ensures NaiveScore(sc, docs, d, terms + [t]) ==
              sc.plus(NaiveScore(sc, docs, d, terms), Contribution(sc, docs, d, t))
    ensures !Matches(d, terms) ==> NaiveScore(sc, docs, d, terms) == 0.0
  {
    assert (terms + [t])[..|terms|] == terms;
    if Matches(d, terms) {
      var w :| w in terms && Freq(d, w) > 0;
      assert w in terms + [t];
    } else {
      UnmatchedScoresZero(sc, docs, d, terms);
    }
    assert t in terms + [t];
  }

  lemma {:induction false} UnmatchedScoresZero(sc: Scoring, docs: seq<Doc>, d: Doc, terms: seq<Term>)
    requires sc.Sane() && !Matches(d, terms)
    ensures NaiveScore(sc, docs, d, terms) == 0.0
  {
    if terms == [] {
    } else {
      var init := terms[..|terms| - 1];
      assert forall t :: t in init ==> t in terms;
      assert terms[|terms| - 1] in terms;
      UnmatchedScoresZero(sc, docs, d, init);
    }
  }

  lemma SameDocument(docs: seq<Doc>, a: Doc, b: Doc)
    requires DistinctIds(docs) && a in docs && b in docs && a.id == b.id
    ensures a == b
  {}

  /** A score not met before is zero. */
  function ScoreSoFar(scores: map<DocId, real>, id: DocId): real {
    if id in scores then scores[id] else 0.0
  }

  /** A document holding t has its share added. */
  lemma ScoreOneDocument(scores: map<DocId, real>, sc: Scoring, docs: seq<Doc>, terms: seq<Term>, t: Term,
                         done: set<DocId>, d: Doc)
    requires sc.Sane() && DistinctIds(docs) && d in docs && d.id !in done && Freq(d, t) > 0
    requires PartlyScored(scores, sc, docs, terms, t, done)
    ensures PartlyScored(scores[d.id := sc.plus(ScoreSoFar(scores, d.id), Contribution(sc, docs, d, t))],
                         sc, docs, terms, t, done + {d.id})
  {
    hide Contribution, NaiveScore, Matches, Freq, DistinctIds;
    OneMoreTerm(sc, docs, d, terms, t);
    var more := scores[d.id := sc.plus(ScoreSoFar(scores, d.id), Contribution(sc, docs, d, t))];
    forall e | e in docs
      ensures var now := if e.id in done + {d.id} then terms + [t] else terms;
              && (e.id in more <==> Matches(e, now)) && (e.id in more ==> more[e.id] == NaiveScore(sc, docs, e, now))
    {
      if e.id == d.id {
        SameDocument(docs, e, d);
      }
    }
  }

  /** Once every document holding t had its share, t counts as scored for all. */
  lemma TermScored(scores: map<DocId, real>, sc: Scoring, docs: seq<Doc>, terms: seq<Term>, t: Term, done: set<DocId>)
    requires sc.Sane() && PartlyScored(scores, sc, docs, terms, t, done)
    requires forall d :: d in docs ==> (d.id in done <==> Freq(d, t) > 0)
    ensures ScoresOf(scores, sc, docs, terms + [t])
  {}

  /** The posting list names each document that holds the term once, with its count. */
  lemma {:induction false} PostingListFacts(docs: seq<Doc>, t: Term)
    requires DistinctIds(docs)
    ensures forall i, j :: 0 <= i < j < |PostingList(docs, t)| ==>
              PostingList(docs, t)[i].id != PostingList(docs, t)[j].id
    ensures forall p :: p in PostingList(docs, t) ==> exists d :: d in docs && d.id == p.id && p.freq == Freq(d, t) > 0
    ensures forall d :: d in docs && Freq(d, t) > 0 ==> Posting(d.id, Freq(d, t)) in PostingList(docs, t)
  {
    hide Freq;
    if docs == [] {
    } else {
      var init, last := docs[..|docs| - 1], docs[|docs| - 1];
      PostingListFacts(init, t);
      assert docs == init + [last];
      var more := if Freq(last, t) > 0 then [Posting(last.id, Freq(last, t))] else [];
      assert PostingList(docs, t) == PostingList(init, t) + more;
      hide PostingList;
      assert forall d :: d in init ==> d.id != last.id;
      forall p | p in PostingList(docs, t) ensures exists d :: d in docs && d.id == p.id && p.freq == Freq(d, t) > 0 {
        if p in PostingList(init, t) {
          var d :| d in init && d.id == p.id && p.freq == Freq(d, t) > 0;
          assert d in docs;
        } else {
          assert last in docs;
        }
      }
    }
  }

  /** The document frequency a score uses is the number of documents that hold the term. */
  lemma {:induction false} PostingListCounts(docs: seq<Doc>, t: Term)
    requires DistinctIds(docs)
    ensures |PostingList(docs, t)| == |set d | d in docs && Freq(d, t) > 0|
  {
    hide Freq;
    if docs == [] {
    } else {
      PostingListCounts(docs[..|docs| - 1], t);
      HoldersGrow(docs, t);
    }
  }

  lemma HoldersGrow(docs: seq<Doc>, t: Term)
    requires DistinctIds(docs) && docs != []
    ensures |set d | d in docs && Freq(d, t) > 0| ==
            |set d | d in docs[..|docs| - 1] && Freq(d, t) > 0| + if Freq(docs[|docs| - 1], t) > 0 then 1 else 0
  {
    var init, last := docs[..|docs| - 1], docs[|docs| - 1];
    assert last !in init;
    hide Freq, DistinctIds;
    assert docs == init + [last];
    var before, now := set d | d in init && Freq(d, t) > 0, set d | d in docs && Freq(d, t) > 0;
    if Freq(last, t) > 0 {
      assert now == before + {last};
    } else {
      assert now == before;
    }
  }

  function PostingIds(list: seq<Posting>): set<DocId> {
    set p | p in list :: p.id
  }

  /** Walks the posting list of one matched term, adding each document's share. */
  method ScoreTerm(sc: Scoring, ix: Index, scores: map<DocId, real>, t: Term, ghost docs: seq<Doc>,
                   ghost terms: seq<Term>)
    returns (more: map<DocId, real>)
    requires sc.Sane() && DistinctIds(docs) && Indexes(ix, docs) && t in ix.postings
    requires ScoresOf(scores, sc, docs, terms)
    ensures ScoresOf(more, sc, docs, terms + [t])
  {
    hide DistinctIds, PostingList, Contribution, Share, NaiveScore, Matches, Freq, ScoresOf, PartlyScored;
    var list := ix.postings[t];
    assert list == PostingList(docs, t);
    PostingListFacts(docs, t);
    var idf := Idf(sc, ix.n, |list|);
    more := scores;
    StartTerm(scores, sc, docs, terms, t);
    for k := 0 to |list|
      invariant PartlyScored(more, sc, docs, terms, t, PostingIds(list[..k]))
    {
      var p := list[k];
      assert p in list;
      ghost var d :| d in docs && d.id == p.id && p.freq == Freq(d, t) > 0;
      NextPosting(list, k);
      ScoreOneDocument(more, sc, docs, terms, t, PostingIds(list[..k]), d);
      ShareIsContribution(sc, ix, docs, d, t);
      more := more[p.id := sc.plus(ScoreSoFar(more, p.id), Share(sc, idf, p.freq, ix.lengths[p.id], ix.avgdl))];
    }
    assert list[..|list|] == list;
    ListedIffHolds(docs, t);
    TermScored(more, sc, docs, terms, t, PostingIds(list));
  }

  lemma StartTerm(scores: map<DocId, real>, sc: Scoring, docs: seq<Doc>, terms: seq<Term>, t: Term)
    requires sc.Sane() && ScoresOf(scores, sc, docs, terms)
    ensures forall none: set<DocId> :: none == {} ==> PartlyScored(scores, sc, docs, terms, t, none)
  {}

  lemma NextPosting(list: seq<Posting>, k: nat)
    requires k < |list| && forall i, j :: 0 <= i < j < |list| ==> list[i].id != list[j].id
    ensures list[k].id !in PostingIds(list[..k]) && PostingIds(list[..k + 1]) == PostingIds(list[..k]) + {list[k].id}
    ensures PostingIds(list[..0]) == {}
  {}

  lemma ShareIsContribution(sc: Scoring, ix: Index, docs: seq<Doc>, d: Doc, t: Term)
    requires sc.Sane() && Indexes(ix, docs) && d in docs && Freq(d, t) > 0 && t in ix.postings
    ensures d.id in ix.lengths && ix.avgdl == AverageLength(docs)
    ensures Share(sc, Idf(sc, ix.n, |ix.postings[t]|), Freq(d, t), ix.lengths[d.id], ix.avgdl) ==
              Contribution(sc, docs, d, t)
  {
    hide Share, Idf, Freq;
  }

  lemma ListedIffHolds(docs: seq<Doc>, t: Term)
    requires DistinctIds(docs)
    ensures forall d :: d in docs ==> (d.id in PostingIds(PostingList(docs, t)) <==> Freq(d, t) > 0)
  {
    PostingListFacts(docs, t);
    hide PostingList, Freq, DistinctIds;
    forall d | d in docs ensures d.id in PostingIds(PostingList(docs, t)) <==> Freq(d, t) > 0 {
      if d.id in PostingIds(PostingList(docs, t)) {
        var p :| p in PostingList(docs, t) && p.id == d.id;
        var e :| e in docs && e.id == p.id && p.freq == Freq(e, t) > 0;
        SameDocument(docs, d, e);
      }
    }
  }

  // ---- ranking ------------------------------------------------------------------------------

  /** Higher score first, then smaller id. */
  predicate Before(scores: map<DocId, real>, a: DocId, b: DocId)
    requires a in scores && b in scores
  {
    scores[a] > scores[b] || (scores[a] == scores[b] && a < b)
  }

  ghost predicate RankingOf(ids: seq<DocId>, scores: map<DocId, real>) {
    && Elements(ids) == scores.Keys
    && (forall id :: id in ids ==> id in scores)
    && forall i, j :: 0 <= i < j < |ids| ==>
         scores[ids[i]] > scores[ids[j]] || (scores[ids[i]] == scores[ids[j]] && ids[i] < ids[j])
  }

  /** sorted(scores.items(), key=(-score, id)) */
  method Rank(scores: map<DocId, real>) returns (ids: seq<DocId>)
    ensures RankingOf(ids, scores)
  {
    ids := [];
    var todo := scores.Keys;
    while todo != {}
      invariant todo <= scores.Keys && Elements(ids) == scores.Keys - todo
      invariant forall id :: id in ids ==> id in scores
      invariant forall i, j :: 0 <= i < j < |ids| ==> Before(scores, ids[i], ids[j])
      decreases todo
    {
      var id :| id in todo;
      var k := 0;
      while k < |ids| && Before(scores, ids[k], id)
        invariant 0 <= k <= |ids|
        invariant forall i :: 0 <= i < k ==> Before(scores, ids[i], id)
      {
        k := k + 1;
      }
      InsertKeepsOrder(ids, scores, k, id);
      ids := ids[..k] + [id] + ids[k..];
      todo := todo - {id};
    }
  }

  lemma InsertKeepsOrder(ids: seq<DocId>, scores: map<DocId, real>, k: nat, id: DocId)
    requires id in scores && id !in ids && k <= |ids| && forall x :: x in ids ==> x in scores
    requires forall i, j :: 0 <= i < j < |ids| ==> Before(scores, ids[i], ids[j])
    requires forall i :: 0 <= i < k ==> Before(scores, ids[i], id)
    requires k < |ids| ==> !Before(scores, ids[k], id)
    ensures var r := ids[..k] + [id] + ids[k..];
            && Elements(r) == Elements(ids) + {id} && (forall x :: x in r ==> x in scores)
            && forall i, j :: 0 <= i < j < |r| ==> Before(scores, r[i], r[j])
  {}

  /** The order is total, so a set of scores has one ranking only. */
  lemma {:induction false} RankingIsUnique(a: seq<DocId>, b: seq<DocId>, scores: map<DocId, real>)
    requires RankingOf(a, scores) && RankingOf(b, scores)
    ensures a == b
  {
    hide RankingOf, Elements;
    SameFirst(a, b, scores);
    if a == [] {
    } else {
      TailRanks(a, scores);
      TailRanks(b, scores);
      RankingIsUnique(a[1..], b[1..], scores - {a[0]});
      assert a == [a[0]] + a[1..] && b == [b[0]] + b[1..];
    }
  }

  lemma SameFirst(a: seq<DocId>, b: seq<DocId>, scores: map<DocId, real>)
    requires RankingOf(a, scores) && RankingOf(b, scores)
    ensures (a == [] <==> b == []) && (a != [] ==> a[0] == b[0])
  {
    NoElements(a);
    NoElements(b);
    if a != [] && b != [] {
      assert a[0] in Elements(b) && b[0] in Elements(a);
      var i, j := Position(b, a[0]), Position(a, b[0]);
    }
  }

  lemma NoElements(b: seq<DocId>)
    ensures b == [] <==> Elements(b) == {}
  {
    if b != [] {
      assert b[0] in Elements(b);
    }
  }

  lemma TailRanks(a: seq<DocId>, scores: map<DocId, real>)
    requires RankingOf(a, scores) && a != []
    ensures RankingOf(a[1..], scores - {a[0]})
  {}

  // ---- searching --------------------------------------------------------------------------------

  /** All matched terms, query term by query term. */
  function Matched(matcher: Term -> seq<Term>, query: seq<Term>): seq<Term> {
    if query == [] then [] else Matched(matcher, query[..|query| - 1]) + matcher(query[|query| - 1])
  }

  /** `query` lists the distinct query terms in whatever order the set yields them; `matcher` names the indexed terms
      a query term matches. The answer is the head of the one ranking of the naive scores. */
  method Search(sc: Scoring, ix: Index, query: seq<Term>, matcher: Term -> seq<Term>, limit: nat, ghost docs: seq<Doc>)
    returns (found: seq<DocId>)
    requires sc.Sane() && DistinctIds(docs) && Indexes(ix, docs)
    requires forall q, t :: q in query && t in matcher(q) ==> t in ix.postings
    ensures exists scores, ids ::
              && ScoresOf(scores, sc, docs, Matched(matcher, query))
              && RankingOf(ids, scores)
              && found == if limit < |ids| then ids[..limit] else ids
  {
    hide ScoresOf, Indexes, DistinctIds, RankingOf;
    var scores: map<DocId, real> := map[];
    NothingScored(sc, docs);
    for i := 0 to |query|
      invariant ScoresOf(scores, sc, docs, Matched(matcher, query[..i]))
    {
      var terms := matcher(query[i]);
      ghost var before := Matched(matcher, query[..i]);
      assert query[i] in query;
      assert terms[..0] == [] && before + [] == before;
      for j := 0 to |terms|
        invariant ScoresOf(scores, sc, docs, before + terms[..j])
      {
        assert terms[j] in terms;
        scores := ScoreTerm(sc, ix, scores, terms[j], docs, before + terms[..j]);
        assert before + terms[..j] + [terms[j]] == before + terms[..j + 1];
      }
      assert query[..i + 1][..i] == query[..i] && terms[..|terms|] == terms;
    }
    assert query[..|query|] == query;
    var ids := Rank(scores);
    found := if limit < |ids| then ids[..limit] else ids;
  }

  lemma NothingScored(sc: Scoring, docs: seq<Doc>)
    requires sc.Sane()
    ensures ScoresOf(map[], sc, docs, [])
  {}

  // ---- the order of the query set does not matter ---------------------------------------------------

  /** The enumerated terms that the document holds. */
  function Held(d: Doc, terms: seq<Term>): seq<Term> {
    if terms == [] then []
    else Held(d, terms[..|terms| - 1]) + if Freq(d, terms[|terms| - 1]) > 0 then [terms[|terms| - 1]] else []
  }

  /** Only held terms count. */
  lemma {:induction false} NaiveScoreOfHeld(sc: Scoring, docs: seq<Doc>, d: Doc, terms: seq<Term>)
    requires sc.Sane()
    ensures NaiveScore(sc, docs, d, terms) == NaiveScore(sc, docs, d, Held(d, terms))
  {
    hide Freq;
    if terms == [] {
    } else {
      var init, t := terms[..|terms| - 1], terms[|terms| - 1];
      NaiveScoreOfHeld(sc, docs, d, init);
      if Freq(d, t) > 0 {
        assert (Held(d, init) + [t])[..|Held(d, init)|] == Held(d, init);
      } else {
        assert Held(d, terms) == Held(d, init);
      }
    }
  }

  lemma {:induction false} HeldCount(d: Doc, terms: seq<Term>, t: Term)
    ensures multiset(Held(d, terms))[t] == if Freq(d, t) > 0 then multiset(terms)[t] else 0
  {
    hide Freq;
    if terms == [] {
    } else {
      hide Held;
      var init, last := terms[..|terms| - 1], terms[|terms| - 1];
      assert terms == init + [last];
      HeldCount(d, init, t);
      HeldStep(d, init, last);
      CountGrows(init, last, t);
      CountGrows(Held(d, init), last, t);
    }
  }

  lemma HeldStep(d: Doc, init: seq<Term>, last: Term)
    ensures Held(d, init + [last]) == if Freq(d, last) > 0 then Held(d, init) + [last] else Held(d, init)
  {
    hide Freq;
    assert (init + [last])[..|init|] == init && Held(d, init) + [] == Held(d, init);
  }

  lemma CountGrows<T>(s: seq<T>, last: T, t: T)
    ensures multiset(s + [last])[t] == multiset(s)[t] + if t == last then 1 else 0
  {
    assert multiset(s + [last]) == multiset(s) + multiset{last};
  }

  lemma Rotated<T>(x: T, y: T, z: T)
    ensures multiset([y, z, x]) == multiset([x, y, z])
  {
    assert [y, z, x] == [y, z] + [x] && [x, y, z] == [x] + [y, z];
    assert multiset([y, z] + [x]) == multiset([y, z]) + multiset([x]) == multiset([x] + [y, z]);
  }

  /** The last item of one sequence taken out of a rearrangement of it. */
  lemma TakeOut<T>(a: seq<T>, b: seq<T>) returns (left: seq<T>, right: seq<T>)
    requires multiset(a) == multiset(b) && a != []
    ensures a == a[..|a| - 1] + [a[|a| - 1]] && b == left + [a[|a| - 1]] + right
    ensures multiset(a[..|a| - 1]) == multiset(left + right)
  {
    var init, t := a[..|a| - 1], a[|a| - 1];
    assert a == init + [t];
    assert t in multiset(b);
    var k := Position(b, t);
    left, right := b[..k], b[k + 1..];
    assert b == left + [t] + right;
    assert multiset(init) == multiset(a) - multiset{t};
    assert multiset(left + right) == multiset(b) - multiset{t};
  }

  lemma {:induction false} NaiveScoreConcat(sc: Scoring, docs: seq<Doc>, d: Doc, a: seq<Term>, b: seq<Term>)
    requires sc.Sane() && sc.Associates()
    ensures NaiveScore(sc, docs, d, a + b) == sc.plus(NaiveScore(sc, docs, d, a), NaiveScore(sc, docs, d, b))
  {
    hide Contribution;
    if b == [] {
      assert a + b == a;
    } else {
      NaiveScoreConcat(sc, docs, d, a, b[..|b| - 1]);
      assert (a + b)[..|a + b| - 1] == a + b[..|b| - 1];
    }
  }

  lemma {:induction false} NaiveScoreOfPermutation(sc: Scoring, docs: seq<Doc>, d: Doc, a: seq<Term>, b: seq<Term>)
    requires sc.Sane() && sc.Commutes() && sc.Associates() && multiset(a) == multiset(b)
    ensures NaiveScore(sc, docs, d, a) == NaiveScore(sc, docs, d, b)
  {
    hide NaiveScore;
    if a == [] {
      assert |b| == |multiset(b)| == 0;
    } else {
      var init, t := a[..|a| - 1], a[|a| - 1];
      var left, right := TakeOut(a, b);
      NaiveScoreOfPermutation(sc, docs, d, init, left + right);
      NaiveScoreConcat(sc, docs, d, init, [t]);
      NaiveScoreConcat(sc, docs, d, left, right);
      NaiveScoreConcat(sc, docs, d, left + [t], right);
      NaiveScoreConcat(sc, docs, d, left, [t]);
      Exchange(sc, NaiveScore(sc, docs, d, left), NaiveScore(sc, docs, d, right), NaiveScore(sc, docs, d, [t]));
    }
  }

  lemma Exchange(sc: Scoring, x: real, y: real, z: real)
    requires sc.Commutes() && sc.Associates()
    ensures sc.plus(sc.plus(x, y), z) == sc.plus(sc.plus(x, z), y)
  {
    assert sc.plus(sc.plus(x, y), z) == sc.plus(x, sc.plus(y, z));
    assert sc.plus(sc.plus(x, z), y) == sc.plus(x, sc.plus(z, y));
  }

  /** Up to two shares add up alike in either order, rounding or not. */
  lemma TwoInAnyOrder(sc: Scoring, docs: seq<Doc>, d: Doc, a: seq<Term>, b: seq<Term>)
    requires sc.Sane() && sc.Commutes() && multiset(a) == multiset(b) && |a| <= 2
    ensures NaiveScore(sc, docs, d, a) == NaiveScore(sc, docs, d, b)
  {
    hide Contribution;
    assert |b| == |multiset(b)| == |multiset(a)| == |a|;
    if |a| == 1 {
      assert a[0] in multiset(b);
      assert a == b;
    } else if |a| == 2 {
      PairsAgree(a, b);
      ScoreOfPair(sc, docs, d, a);
      ScoreOfPair(sc, docs, d, b);
    } else {
      assert a == b;
    }
  }

  lemma PairsAgree<T>(a: seq<T>, b: seq<T>)
    requires multiset(a) == multiset(b) && |a| == |b| == 2
    ensures (a[0] == b[0] && a[1] == b[1]) || (a[0] == b[1] && a[1] == b[0])
  {
    var left, right := TakeOut(a, b);
    assert a[..1] == [a[0]];
    assert |left| + |right| == 1;
    if |left| == 1 {
      assert left + right == left && left == [b[0]];
      assert a[0] in multiset(left);
    } else {
      assert left + right == right && right == [b[1]];
      assert a[0] in multiset(right);
    }
  }

  lemma ScoreOfPair(sc: Scoring, docs: seq<Doc>, d: Doc, a: seq<Term>)
    requires sc.Sane() && sc.Commutes() && |a| == 2
    ensures NaiveScore(sc, docs, d, a) == sc.plus(Contribution(sc, docs, d, a[0]), Contribution(sc, docs, d, a[1]))
  {
    hide Contribution;
    assert a[..1] == [a[0]] && [a[0]][..0] == [];
    assert NaiveScore(sc, docs, d, [a[0]]) == sc.plus(0.0, Contribution(sc, docs, d, a[0])) ==
           sc.plus(Contribution(sc, docs, d, a[0]), 0.0);
  }

  /** Two enumerations of the matched terms score every document alike, and so (with RankingIsUnique) rank alike, if
      addition is associative or no document holds more than two of them. Rounding sums, as of floating-point numbers,
      are only sure of the second. */
  lemma EnumerationOrderIsIrrelevant(sc: Scoring, docs: seq<Doc>, a: seq<Term>, b: seq<Term>, x: map<DocId, real>,
                                     y: map<DocId, real>)
    requires sc.Sane() && sc.Commutes() && multiset(a) == multiset(b)
    requires sc.Associates() || forall d :: d in docs ==> |Held(d, a)| <= 2
    requires ScoresOf(x, sc, docs, a) && ScoresOf(y, sc, docs, b)
    ensures x == y
  {
    hide NaiveScore, Freq, Held;
    forall d | d in docs
      ensures Matches(d, a) <==> Matches(d, b)
      ensures NaiveScore(sc, docs, d, a) == NaiveScore(sc, docs, d, b)
    {
      assert forall t :: t in a <==> t in multiset(a);
      assert forall t :: t in b <==> t in multiset(b);
      if sc.Associates() {
        NaiveScoreOfPermutation(sc, docs, d, a, b);
      } else {
        HeldAlike(d, a, b);
        NaiveScoreOfHeld(sc, docs, d, a);
        NaiveScoreOfHeld(sc, docs, d, b);
        TwoInAnyOrder(sc, docs, d, Held(d, a), Held(d, b));
      }
    }
  }

  lemma HeldAlike(d: Doc, a: seq<Term>, b: seq<Term>)
    requires multiset(a) == multiset(b)
    ensures multiset(Held(d, a)) == multiset(Held(d, b))
  {
    forall t ensures multiset(Held(d, a))[t] == multiset(Held(d, b))[t] {
      HeldCount(d, a, t);
      HeldCount(d, b, t);
    }
  }

  /** To the nearest whole number, halves to the even one. */
  function HalfEven(q: real): real {
    var n := q.Floor;
    if q - n as real < 0.5 || (q - n as real == 0.5 && n % 2 == 0) then n as real else (n + 1) as real
  }

  /** To a floating-point number with three significant binary digits (and the unit as smallest exponent). */
  function Rounded(x: real): real
    decreases x < 0.0, x.Floor
  {
    if x < 0.0 then -Rounded(-x)
    else if x >= 2.0 then 2.0 * Rounded(x / 2.0)
    else HalfEven(x * 4.0) / 4.0
  }

  /** Scores accumulated in that format. */
  function Rounding(): (sc: Scoring)
    ensures sc.Sane() && sc.Commutes()
  {
    Scoring(1.0, 0.0, (x: real) => 1.0,
            (x: real, y: real) => if x == 0.0 then y else if y == 0.0 then x else Rounded(x + y))
  }

  lemma SomeSums()
    ensures Rounded(3.5) == 3.5 && Rounded(4.5) == 4.0
    ensures Rounded(2.75) == 3.0 && Rounded(4.75) == 5.0
  {
    assert HalfEven(7.0) == 7.0 && HalfEven(4.5) == 4.0 && HalfEven(5.5) == 6.0 && HalfEven(4.75) == 5.0;
    hide HalfEven;
    assert Rounded(1.75) == 1.75 && Rounded(1.125) == 1.0 && Rounded(1.375) == 1.5 && Rounded(1.1875) == 1.25;
    assert Rounded(2.25) == 2.0 && Rounded(2.375) == 2.5;
  }

  lemma ScoreOfThree(sc: Scoring, docs: seq<Doc>, d: Doc, x: Term, y: Term, z: Term)
    requires sc.Sane()
    ensures NaiveScore(sc, docs, d, [x, y, z]) ==
            sc.plus(sc.plus(sc.plus(0.0, Contribution(sc, docs, d, x)), Contribution(sc, docs, d, y)),
                    Contribution(sc, docs, d, z))
  {
    hide Contribution, Matches;
    var none: seq<Term> := [];
    assert none + [x] == [x] && [x] + [y] == [x, y] && [x, y] + [z] == [x, y, z];
    OneMoreTerm(sc, docs, d, none, x);
    OneMoreTerm(sc, docs, d, [x], y);
    OneMoreTerm(sc, docs, d, [x, y], z);
  }

  lemma ExactShares(freq: nat, length: nat, avgdl: real)
    requires avgdl > 0.0
    ensures freq == 1 ==> Share(Rounding(), 1.0, freq, length, avgdl) == 1.0
    ensures freq == 7 ==> Share(Rounding(), 1.0, freq, length, avgdl) == 1.75
  {
    assert 0.0 * length as real / avgdl == 0.0;
  }

  /** A document that holds one term once and two others seven times each. */
  function Threefold(x: Term, y: Term, z: Term): Doc {
    Doc(0, [x] + [y, y, y, y, y, y, y] + [z, z, z, z, z, z, z])
  }

  lemma ThreeCounts(x: Term, y: Term, z: Term)
    requires x != y && x != z && y != z
    ensures var d := Threefold(x, y, z); Freq(d, x) == 1 && Freq(d, y) == 7 && Freq(d, z) == 7
  {
    var ys, zs := [y, y, y, y, y, y, y], [z, z, z, z, z, z, z];
    assert multiset([x] + ys + zs) == multiset([x]) + multiset(ys) + multiset(zs);
  }

  lemma ThreeShares(x: Term, y: Term, z: Term)
    requires x != y && x != z && y != z
    ensures var d := Threefold(x, y, z);
            && Contribution(Rounding(), [d], d, x) == 1.0
            && Contribution(Rounding(), [d], d, y) == Contribution(Rounding(), [d], d, z) == 1.75
  {
    var d := Threefold(x, y, z);
    ThreeCounts(x, y, z);
    forall n: nat, df: nat ensures Idf(Rounding(), n, df) == 1.0 {}
    ExactShares(1, Length(d), AverageLength([d]));
    ExactShares(7, Length(d), AverageLength([d]));
    hide Freq, Share, Idf, AverageLength, Length, Threefold;
  }

  /** With three matched terms in one document a floating-point sum can depend on the order: shares of 1, 1.75 and 1.75
      add up to 4 or to 5. */
  lemma ThreeTermsMayDisagree(x: Term, y: Term, z: Term)
    requires x != y && x != z && y != z
    ensures OrderMatters(Rounding(), [Threefold(x, y, z)], Threefold(x, y, z), [y, z, x], [x, y, z])
  {
    var d := Threefold(x, y, z);
    ThreeShares(x, y, z);
    SomeSums();
    ScoreOfThree(Rounding(), [d], d, y, z, x);
    ScoreOfThree(Rounding(), [d], d, x, y, z);
    Rotated(x, y, z);
    hide Contribution, NaiveScore, Rounded, Threefold;
    OneDocument(Rounding(), d, [y, z, x], [x, y, z]);
  }

  /** Two enumerations of the same terms give a document different scores. */
  ghost predicate OrderMatters(sc: Scoring, docs: seq<Doc>, d: Doc, a: seq<Term>, b: seq<Term>) {
    && sc.Sane() && sc.Commutes() && DistinctIds(docs) && d in docs && multiset(a) == multiset(b)
    && NaiveScore(sc, docs, d, a) != NaiveScore(sc, docs, d, b)
  }

  lemma OneDocument(sc: Scoring, d: Doc, a: seq<Term>, b: seq<Term>)
    requires sc.Sane() && sc.Commutes() && multiset(a) == multiset(b)
    requires NaiveScore(sc, [d], d, a) != NaiveScore(sc, [d], d, b)
    ensures OrderMatters(sc, [d], d, a, b)
  {
    hide NaiveScore, Scoring.Sane, Scoring.Commutes;
  }

  // ---- prefix matching ------------------------------------------------------------------------------------

  const PREFIX_LIMIT := 12

  function Shorter(a: nat, b: nat): nat {
    if a < b then a else b
  }

  /** The listed terms that start with p, in order. */
  function StartingWith(terms: seq<Term>, p: string): seq<Term> {
    if terms == [] then []
    else StartingWith(terms[..|terms| - 1], p) + if p <= terms[|terms| - 1] then [terms[|terms| - 1]] else []
  }

  /** The table holds, under every prefix of 2 to 12 characters, the terms that start with it; nothing else. */
  ghost predicate PrefixTableOf(table: map<string, seq<Term>>, terms: seq<Term>) {
    forall p :: Entry(table, p) == if 2 <= |p| <= PREFIX_LIMIT then StartingWith(terms, p) else []
  }

  function Entry(table: map<string, seq<Term>>, p: string): seq<Term> {
    if p in table then table[p] else []
  }

  /** The term is listed under its prefixes shorter than `size` (and no longer than `top`). */
  ghost predicate ListedUpTo(before: map<string, seq<Term>>, table: map<string, seq<Term>>, term: Term, size: nat,
                             top: nat) {
    forall p :: Entry(table, p) == Entry(before, p) + if 2 <= |p| < size && |p| <= top && p <= term then [term] else []
  }

  lemma ListPrefix(before: map<string, seq<Term>>, table: map<string, seq<Term>>, term: Term, size: nat, top: nat)
    requires ListedUpTo(before, table, term, size, top) && 2 <= size <= top <= |term|
    ensures ListedUpTo(before, table[term[..size] := Entry(table, term[..size]) + [term]], term, size + 1, top)
  {
    var more := table[term[..size] := Entry(table, term[..size]) + [term]];
    forall p
      ensures Entry(more, p) == Entry(before, p) + if 2 <= |p| < size + 1 && |p| <= top && p <= term then [term] else []
    {
      assert Entry(before, p) + [] == Entry(before, p);
      if p <= term && |p| == size {
        assert p == term[..|p|];
      }
    }
  }

  lemma StartListing(table: map<string, seq<Term>>, term: Term, top: nat)
    ensures ListedUpTo(table, table, term, 2, top)
  {}

  lemma TermListed(before: map<string, seq<Term>>, table: map<string, seq<Term>>, terms: seq<Term>, i: nat, size: nat)
    requires i < |terms| && PrefixTableOf(before, terms[..i])
    requires var top := Shorter(|terms[i]|, PREFIX_LIMIT);
             ListedUpTo(before, table, terms[i], size, top) && (size == top + 1 || (top < 2 && size == 2))
    ensures PrefixTableOf(table, terms[..i + 1])
  {
    var term, top := terms[i], Shorter(|terms[i]|, PREFIX_LIMIT);
    forall p ensures Entry(table, p) == if 2 <= |p| <= PREFIX_LIMIT then StartingWith(terms[..i + 1], p) else [] {
      StartingWithGrows(terms, i, p);
      hide StartingWith, Entry;
      assert Entry(table, p) == Entry(before, p) + if 2 <= |p| < size && |p| <= top && p <= term then [term] else [];
      assert Entry(before, p) == if 2 <= |p| <= PREFIX_LIMIT then StartingWith(terms[..i], p) else [];
    }
  }

  lemma StartingWithGrows(terms: seq<Term>, i: nat, p: string)
    requires i < |terms|
    ensures StartingWith(terms[..i + 1], p) == StartingWith(terms[..i], p) + if p <= terms[i] then [terms[i]] else []
  {
    assert terms[..i + 1][..i] == terms[..i];
  }

  /** `terms` are the distinct indexed terms in table order. */
  method BuildPrefixTable(terms: seq<Term>) returns (table: map<string, seq<Term>>)
    ensures PrefixTableOf(table, terms)
  {
    hide PrefixTableOf, ListedUpTo;
    table := map[];
    NothingListed();
    for i := 0 to |terms|
      invariant PrefixTableOf(table, terms[..i])
    {
      var term := terms[i];
      ghost var before := table;
      var top := Shorter(|term|, PREFIX_LIMIT);
      var size := 2;
      StartListing(table, term, top);
      while size <= top
        invariant size == 2 || 2 < size <= top + 1
        invariant ListedUpTo(before, table, term, size, top)
      {
        ListPrefix(before, table, term, size, top);
        table := table[term[..size] := Entry(table, term[..size]) + [term]];
        size := size + 1;
      }
      TermListed(before, table, terms, i, size);
    }
    assert terms[..|terms|] == terms;
  }

  lemma NothingListed()
    ensures PrefixTableOf(map[], [])
  {}

  /** Strips the first listed particle the token ends with, if two characters remain. */
  function Stem(token: string, particles: seq<string>): string {
    if particles == [] then token
    else if EndsWith(token, particles[0]) && |token| - |particles[0]| >= 2 then token[..|token| - |particles[0]|]
    else Stem(token, particles[1..])
  }

  predicate EndsWith(s: string, suffix: string) {
    |suffix| <= |s| && s[|s| - |suffix|..] == suffix
  }

  /** With the particles listed longest first, the longest strippable one is stripped and never more than that. */
  lemma {:induction false} StemStripsLongest(token: string, particles: seq<string>)
    requires forall i, j :: 0 <= i < j < |particles| ==> |particles[i]| >= |particles[j]|
    ensures var root := Stem(token, particles);
            && root <= token
            && (root != token ==> |root| >= 2 && token[|root|..] in particles)
            && forall p :: p in particles && EndsWith(token, p) && |token| - |p| >= 2 ==> |root| <= |token| - |p|
  {
    hide EndsWith;
    if particles == [] {
    } else {
      StripOne(token, particles[0]);
      LongestFirst(particles);
      if !EndsWith(token, particles[0]) || |token| - |particles[0]| < 2 {
        StemStripsLongest(token, particles[1..]);
      }
    }
  }

  lemma LongestFirst(particles: seq<string>)
    requires particles != [] && forall i, j :: 0 <= i < j < |particles| ==> |particles[i]| >= |particles[j]|
    ensures forall p :: p in particles <==> p == particles[0] || p in particles[1..]
    ensures forall p :: p in particles ==> |p| <= |particles[0]|
  {}

  lemma StripOne(token: string, particle: string)
    ensures EndsWith(token, particle) ==>
              && |particle| <= |token|
              && token[..|token| - |particle|] <= token && token[|token| - |particle|..] == particle
  {}

  /** A query term's matches: itself if its stem is too short to be one, else everything under the stem's head. */
  function PrefixMatch(table: map<string, seq<Term>>, postings: map<Term, seq<Posting>>, particles: seq<string>,
                       term: Term): seq<Term> {
    var root := Stem(term, particles);
    if |root| < 2 then (if term in postings then [term] else [])
    else Entry(table, root[..Shorter(|root|, PREFIX_LIMIT)])
  }

  lemma {:induction false} StartingWithFacts(terms: seq<Term>, p: string)
    requires NoDuplicates(terms)
    ensures NoDuplicates(StartingWith(terms, p))
    ensures forall t :: t in StartingWith(terms, p) <==> t in terms && p <= t
  {
    if terms == [] {
    } else {
      var init, last := terms[..|terms| - 1], terms[|terms| - 1];
      StartingWithFacts(init, p);
      assert terms == init + [last];
      assert last !in init && last !in StartingWith(init, p);
    }
  }

  /** Prefix matching returns exactly the indexed terms that start with the first twelve characters of the stem, each
      once, and only indexed terms. */
  lemma PrefixMatchIsExact(table: map<string, seq<Term>>, postings: map<Term, seq<Posting>>, terms: seq<Term>,
                           particles: seq<string>, term: Term)
    requires PrefixTableOf(table, terms) && NoDuplicates(terms) && Elements(terms) == postings.Keys
    ensures var root, found := Stem(term, particles), PrefixMatch(table, postings, particles, term);
            && NoDuplicates(found)
            && forall t :: t in found <==>
                 t in postings && if |root| < 2 then t == term else root[..Shorter(|root|, PREFIX_LIMIT)] <= t
  {
    hide Stem, PrefixTableOf, StartingWith;
    var root := Stem(term, particles);
    assert forall t :: t in terms <==> t in Elements(terms);
    if |root| >= 2 {
      var head := root[..Shorter(|root|, PREFIX_LIMIT)];
      EntryIsExact(table, terms, head);
      StartingWithFacts(terms, head);
    }
  }

  lemma EntryIsExact(table: map<string, seq<Term>>, terms: seq<Term>, p: string)
    requires PrefixTableOf(table, terms) && 2 <= |p| <= PREFIX_LIMIT
    ensures Entry(table, p) == StartingWith(terms, p)
  {}
}
