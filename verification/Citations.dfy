/** What the answer may cite and what the trace records, against what the model was shown. */
module Citations {
  import opened Basics
  import opened Fence
  import opened Prompt

  // ---- the fence around the rendered evidence -----------------------------------------------

  function PowerOfTen(k: nat): (p: nat)
    ensures p >= 1
  {
    if k == 0 then 1 else 10 * PowerOfTen(k - 1)
  }

  lemma {:induction false} DecimalLength(n: nat, k: nat)
    requires k >= 1 && n < PowerOfTen(k)
    ensures |Decimal(n)| <= k
  {
    if n < 10 {
    } else {
      assert k > 1 by {
        assert PowerOfTen(1) == 10 * PowerOfTen(0);
      }
      DecimalLength(n / 10, k - 1);
    }
  }

  lemma ShorterLacks(s: string, pat: string)
    requires |s| < |pat|
    ensures !Contains(s, pat)
  {}

  lemma NonceLength(nonce: string)
    requires NonceShape(nonce)
    ensures |nonce| == 16
  {}

  function NumberedLabel(index: nat, item: Evidence, nonce: string): string {
    "[" + Decimal(index) + "] " + FoldSpaces(StripFenceMarkers(EvidenceLabel(item), nonce))
  }

  lemma LabelLacksNonce(index: nat, item: Evidence, nonce: string)
    requires NonceShape(nonce) && index < PowerOfTen(15)
    ensures !Contains(NumberedLabel(index, item, nonce), nonce)
    ensures Header(index, item, nonce) == NumberedLabel(index, item, nonce) + "\n"
  {
    hide StripFenceMarkers, FoldSpaces, EvidenceLabel, PowerOfTen, NonceShape, Contains;
    var raw := EvidenceLabel(item);
    var folded := FoldSpaces(StripFenceMarkers(raw, nonce));
    SanitisedIsClean(raw, nonce);
    FoldedLacks(StripFenceMarkers(raw, nonce), nonce);
    NonceAvoidsBrackets(nonce);
    NonceLength(nonce);
    DecimalLength(index, 15);
    ShorterLacks(Decimal(index), nonce);
    ShorterLacks("", nonce);
    SeparatedLack("", "[", Decimal(index), nonce);
    assert "" + "[" + Decimal(index) == "[" + Decimal(index);
    SeparatedLack("[" + Decimal(index), "] ", folded, nonce);
  }

  lemma BlockLacksNonce(index: nat, item: Evidence, nonce: string)
    requires NonceShape(nonce) && index < PowerOfTen(15)
    ensures !Contains(Block(index, item, nonce), nonce)
  {
    hide StripFenceMarkers, NumberedLabel, PowerOfTen, NonceShape, Contains;
    LabelLacksNonce(index, item, nonce);
    SanitisedIsClean(item.content, nonce);
    NonceAvoidsBrackets(nonce);
    NonceLength(nonce);
    SeparatedLack(NumberedLabel(index, item, nonce), "\n", Body(item, nonce), nonce);
    hide Header;
    assert Block(index, item, nonce) == NumberedLabel(index, item, nonce) + "\n" + Body(item, nonce);
  }

  lemma CutBlockLacksNonce(item: Evidence, nonce: string, tk: Tokenizer, room: nat)
    requires NonceShape(nonce) && tk.Sound()
    ensures !Contains(CutBlock(1, item, nonce, tk, room), nonce)
  {
    hide StripFenceMarkers, NumberedLabel, NonceShape;
    assert 1 < PowerOfTen(15) by { PowersArePositive(14); }
    LabelLacksNonce(1, item, nonce);
    SanitisedIsClean(item.content, nonce);
    NonceAvoidsBrackets(nonce);
    NonceLength(nonce);
    var full := Body(item, nonce);
    var cut := tk.cut(full, room);
    assert full[0..|cut|] == cut;
    if Contains(cut, nonce) {
      ContainedInSlice(full, nonce, 0, |cut|);
    }
    hide Contains, Header;
    ShorterLacks("", nonce);
    MarkAvoids(nonce);
    SeparatedLack(cut, TRUNCATION_MARK, "", nonce);
    SeparatedLack(NumberedLabel(1, item, nonce), "\n", cut + TRUNCATION_MARK + "", nonce);
    assert CutBlock(1, item, nonce, tk, room) == NumberedLabel(1, item, nonce) + "\n" + (cut + TRUNCATION_MARK + "");
  }

  lemma PowersArePositive(k: nat)
    ensures PowerOfTen(k) >= 1 && PowerOfTen(k + 1) >= 10
  {}

  lemma MarkAvoids(nonce: string)
    requires NonceShape(nonce)
    ensures forall c :: c in TRUNCATION_MARK ==> c !in nonce
  {}

  /** For any evidence whatever, the message that carries it opens and closes its fence exactly once: no item, label
      or cut piece, and no joining of them, forges a marker. */
  lemma EvidenceCannotForgeTheFence(tk: Tokenizer, q: Request, rendered: seq<string>)
    requires tk.Sound() && NonceShape(q.nonce) && Renders(tk, q, rendered) && rendered != []
    requires |q.evidence| < PowerOfTen(15)
    ensures var body := JoinWith(rendered, "\n\n");
            var message := Fenced(q.nonce, body);
            && (forall i :: OccursAt(message, Opening(q.nonce), i) <==> i == 0)
            && (forall i :: OccursAt(message, Closing(q.nonce), i) <==> i == |Opening(q.nonce)| + |body| + 2)
  {
    hide Block, CutBlock, Fenced, Opening, Closing, JoinWith, PowerOfTen;
    forall p | p in rendered ensures !Contains(p, q.nonce) {
      var i := Position(rendered, p);
      if p == Block(i + 1, q.evidence[i], q.nonce) {
        BlockLacksNonce(i + 1, q.evidence[i], q.nonce);
      } else {
        var room: nat :| rendered[0] == CutBlock(1, q.evidence[0], q.nonce, tk, room);
        CutBlockLacksNonce(q.evidence[0], q.nonce, tk, room);
      }
    }
    NonceAvoidsBrackets(q.nonce);
    NonceLength(q.nonce);
    JoinLacks(rendered, "\n\n", q.nonce);
    FenceMarkersAreUnique(q.nonce, JoinWith(rendered, "\n\n"));
  }

  // ---- citations -------------------------------------------------------------------------------

  datatype Citation = Citation(index: nat, item: Evidence)

  ghost predicate Cites(citations: seq<Citation>, n: int) {
    exists c :: c in citations && c.index == n
  }

  lemma CiteOne(citations: seq<Citation>, c: Citation)
    ensures forall n :: Cites(citations + [c], n) <==> Cites(citations, n) || n == c.index
  {}

  /** `cited` holds the numbers found in square brackets in the answer. An item that produced files is kept anyway. */
  method CitationsFrom(cited: set<int>, used: seq<Evidence>) returns (citations: seq<Citation>)
    ensures forall i, j :: 0 <= i < j < |citations| ==> citations[i].index < citations[j].index
    ensures forall c :: c in citations ==> 1 <= c.index <= |used| && c.item == used[c.index - 1]
    ensures forall n :: Cites(citations, n) <==> 1 <= n <= |used| && (n in cited || used[n - 1].hasFiles)
  {
    hide Cites;
    citations := [];
    NoneCited();
    for k := 0 to |used|
      invariant forall i, j :: 0 <= i < j < |citations| ==> citations[i].index < citations[j].index
      invariant forall c :: c in citations ==> 1 <= c.index <= k && c.item == used[c.index - 1]
      invariant forall n :: Cites(citations, n) <==> 1 <= n <= k && (n in cited || used[n - 1].hasFiles)
    {
      if k + 1 !in cited && !used[k].hasFiles {
        continue;
      }
      CiteOne(citations, Citation(k + 1, used[k]));
      citations := citations + [Citation(k + 1, used[k])];
    }
  }

  lemma NoneCited()
    ensures forall n :: !Cites([], n)
  {}

  /** A citation's number is the number the cited text carried in the prompt: the block rendered under that number is
      made from that very item. */
  lemma CitationNamesWhatWasShown(tk: Tokenizer, q: Request, rendered: seq<string>, used: seq<Evidence>, index: nat)
    requires Renders(tk, q, rendered) && |used| == |rendered| && used == q.evidence[..|used|]
    requires 1 <= index <= |used|
    ensures "[" + Decimal(index) + "] " <= rendered[index - 1]
    ensures Header(index, used[index - 1], q.nonce) <= rendered[index - 1]
  {}

  // ---- the trace ----------------------------------------------------------------------------------

  datatype TraceItem = TraceItem(index: nat, item: Evidence, included: bool)

  /** The same object is among the used ones. */
  ghost predicate SameObjectUsed(used: seq<Evidence>, item: Evidence) {
    exists u :: u in used && u.oid == item.oid
  }

  /** Every retrieved item, numbered from 1, and whether the same object reached the prompt. */
  method BuildTrace(evidence: seq<Evidence>, used: seq<Evidence>) returns (items: seq<TraceItem>)
    ensures |items| == |evidence|
    ensures forall i :: 0 <= i < |items| ==>
              && items[i].index == i + 1 && items[i].item == evidence[i]
              && (items[i].included <==> SameObjectUsed(used, evidence[i]))
  {
    var usedIds := set u | u in used :: u.oid;
    items := [];
    for i := 0 to |evidence|
      invariant |items| == i
      invariant forall k :: 0 <= k < i ==>
                  && items[k].index == k + 1 && items[k].item == evidence[k]
                  && (items[k].included <==> SameObjectUsed(used, evidence[k]))
    {
      items := items + [TraceItem(i + 1, evidence[i], evidence[i].oid in usedIds)];
    }
  }

  ghost predicate FlagsMatch(evidence: seq<Evidence>, shown: nat)
    requires shown <= |evidence|
  {
    forall i :: 0 <= i < |evidence| ==> (SameObjectUsed(evidence[..shown], evidence[i]) <==> i < shown)
  }

  ghost predicate NoObjectOnBothSides(evidence: seq<Evidence>, shown: nat)
    requires shown <= |evidence|
  {
    forall i, j :: 0 <= i < shown <= j < |evidence| ==> evidence[i].oid != evidence[j].oid
  }

  /** The included flags mark exactly the items the model saw if and only if no item left out is the same object as a
      shown one. */
  lemma TraceMatchesPromptIff(evidence: seq<Evidence>, shown: nat)
    requires shown <= |evidence|
    ensures FlagsMatch(evidence, shown) <==> NoObjectOnBothSides(evidence, shown)
  {
    var used := evidence[..shown];
    forall i | 0 <= i < shown ensures evidence[i] in used && SameObjectUsed(used, evidence[i]) {
      assert used[i] == evidence[i];
    }
    if !NoObjectOnBothSides(evidence, shown) {
      var i, j :| 0 <= i < shown <= j < |evidence| && evidence[i].oid == evidence[j].oid;
      assert evidence[i] in used;
      assert SameObjectUsed(used, evidence[j]);
    } else {
      forall j | shown <= j < |evidence| ensures !SameObjectUsed(used, evidence[j]) {
        forall u | u in used ensures u.oid != evidence[j].oid {
          assert u == evidence[Position(used, u)];
        }
      }
    }
  }

  /** Pairwise different objects. */
  ghost predicate DistinctObjects(evidence: seq<Evidence>) {
    forall i, j :: 0 <= i < j < |evidence| ==> evidence[i].oid != evidence[j].oid
  }

  /** What is recorded about an answer: the prompt goes out, `cited` are the numbers the model wrote, and citations and
      trace are drawn up from the same evidence list. The trace flags exactly the items that were shown, and every
      citation names, under its number, a trace row flagged as shown, and the prompt's block made from that item. */
  method RecordAnswer(tk: Tokenizer, w: Wording, q: Request, cited: set<int>)
    returns (messages: seq<Message>, citations: seq<Citation>, items: seq<TraceItem>, ghost shown: nat)
    requires tk.Sound() && DistinctObjects(q.evidence)
    ensures shown <= |q.evidence| == |items|
    ensures exists rendered, kept ::
              && |rendered| == shown && Assembled(tk, w, q, rendered, kept)
              && messages == [Message("system", SystemText(w, q))] + AsMessages(kept) + EvidenceMessages(q, rendered)
                             + [Message("user", q.question)]
              && forall c :: c in citations && c.index <= shown ==>
                   0 < c.index && Header(c.index, c.item, q.nonce) <= rendered[c.index - 1]
    ensures forall i :: 0 <= i < |items| ==>
              items[i].index == i + 1 && items[i].item == q.evidence[i] && (items[i].included <==> i < shown)
    ensures forall c :: c in citations ==>
              1 <= c.index <= |items| && items[c.index - 1].included && items[c.index - 1].item == c.item
  {
    hide Assembled, FilledToRoom, SameObjectUsed, SystemText, EvidenceMessages, Cites;
    var used;
    ghost var rendered, kept;
    messages, used, rendered, kept := BuildPrompt(tk, w, q);
    shown := |used|;
    citations := CitationsFrom(cited, used);
    items := BuildTrace(q.evidence, used);
    TraceMatchesPromptIff(q.evidence, |used|);
    hide Header, Renders;
    forall c | c in citations
      ensures 0 < c.index <= |rendered| && Header(c.index, c.item, q.nonce) <= rendered[c.index - 1]
    {
      AssembledRenders(tk, w, q, rendered, kept);
      CitationNamesWhatWasShown(tk, q, rendered, used, c.index);
    }
  }

  lemma AssembledRenders(tk: Tokenizer, w: Wording, q: Request, rendered: seq<string>, kept: seq<Row>)
    requires Assembled(tk, w, q, rendered, kept)
    ensures Renders(tk, q, rendered)
  {
    hide Renders;
  }
}
