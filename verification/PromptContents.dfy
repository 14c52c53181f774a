/** What reaches the model, told by what the request holds: nothing harmless is lost or altered on its way into the
    messages, and what the messages cost is bounded. */
module PromptContents {
  import opened Basics
  import opened Fence
  import opened Prompt

  // ---- what is shown -----------------------------------------------------------------------

  lemma PieceShows(a: string, b: string, c: string)
    ensures Contains(a + b + c, b)
  {
    assert OccursAt(a + b + c, b, |a|);
  }

  lemma ShowsThrough(s: string, middle: string, piece: string)
    requires Contains(s, middle) && Contains(middle, piece)
    ensures Contains(s, piece)
  {
    var i :| OccursAt(s, middle, i);
    var j :| OccursAt(middle, piece, j);
    forall k | 0 <= k < |piece| ensures s[i + j + k] == piece[k] {
      assert middle[j + k] == piece[k] && s[i + (j + k)] == middle[j + k];
    }
    assert OccursAt(s, piece, i + j);
  }

  lemma {:induction false} JoinedPieceShows(pieces: seq<string>, separator: string, k: nat)
    requires k < |pieces|
    ensures Contains(JoinWith(pieces, separator), pieces[k])
  {
    hide Contains;
    if |pieces| == 1 {
      PieceShows("", pieces[0], "");
      assert "" + pieces[0] + "" == pieces[0];
    } else {
      var rest := JoinWith(pieces[1..], separator);
      if k == 0 {
        PieceShows("", pieces[0], separator + rest);
        assert "" + pieces[0] + (separator + rest) == pieces[0] + separator + rest;
      } else {
        JoinedPieceShows(pieces[1..], separator, k - 1);
        PieceShows(pieces[0] + separator, rest, "");
        assert pieces[0] + separator + rest + "" == pieces[0] + separator + rest;
        ShowsThrough(JoinWith(pieces, separator), rest, pieces[k]);
      }
    }
  }

  /** A label names its file, and says where in it the item stands and whether the user attached it. */
  lemma LabelShows(item: Evidence)
    ensures var name := if item.filename != "" then item.filename else item.ref;
            var shown := EvidenceLabel(item);
            && "(" + (if item.attachment then "user attachment: " else "") + name <= shown
            && (item.page.Some? ==> Contains(shown, ", p." + item.page.value))
            && (item.section != "" ==> Contains(shown, ", " + item.section))
  {
    hide Contains;
    var name := if item.filename != "" then item.filename else item.ref;
    var front := "(" + (if item.attachment then "user attachment: " + name else name);
    var page := match item.page case Some(p) => ", p." + p case None => "";
    var section := if item.section != "" then ", " + item.section else "";
    assert EvidenceLabel(item) == front + page + (section + ")") == front + page + section + ")";
    PieceShows(front, page, section + ")");
    PieceShows(front + page, section, ")");
  }

  /** An item whose text and label hold neither nonce nor marker shape is shown under its number with its label on one
      line and its text word for word; if it is cut, with a beginning of its text and the mark. */
  lemma HarmlessItemIsShown(tk: Tokenizer, index: nat, item: Evidence, nonce: string, room: nat)
    requires nonce != "" && Harmless(item.content, nonce) && Harmless(EvidenceLabel(item), nonce)
    ensures var front := "[" + Decimal(index) + "] " + FoldSpaces(EvidenceLabel(item)) + "\n";
            && Block(index, item, nonce) == front + item.content
            && (tk.Sound() ==> exists n: nat ::
                  && n <= |item.content| && tk.count(item.content[..n]) <= room
                  && CutBlock(index, item, nonce, tk, room) == front + item.content[..n] + TRUNCATION_MARK)
  {
    hide StripFenceMarkers, FoldSpaces, EvidenceLabel;
    HarmlessStays(item.content, nonce);
    HarmlessStays(EvidenceLabel(item), nonce);
    if tk.Sound() {
      var cut := tk.cut(item.content, room);
      assert item.content[..|cut|] == cut;
      var front := "[" + Decimal(index) + "] " + FoldSpaces(EvidenceLabel(item)) + "\n";
      assert front + (cut + TRUNCATION_MARK) == front + cut + TRUNCATION_MARK;
    }
  }

  lemma BodyShows(nonce: string, body: string)
    ensures Contains(Fenced(nonce, body), body)
  {
    FourBehind(Opening(nonce) + "\n" + body, "\n", Closing(nonce), "\n", REMINDER);
    hide Contains, Opening, Closing;
    PieceShows(Opening(nonce) + "\n", body, "\n" + Closing(nonce) + "\n" + REMINDER);
  }

  lemma FourBehind(a: string, b: string, c: string, d: string, e: string)
    ensures a + b + c + d + e == a + (b + c + d + e)
  {}

  /** Every rendered block stands in the one evidence message. */
  lemma EvidenceIsShown(q: Request, rendered: seq<string>, k: nat)
    requires k < |rendered|
    ensures |EvidenceMessages(q, rendered)| == 1 && EvidenceMessages(q, rendered)[0].role == "user"
    ensures Contains(EvidenceMessages(q, rendered)[0].content, rendered[k])
  {
    hide Contains, JoinWith, Opening, Closing, Fenced;
    var body := JoinWith(rendered, "\n\n");
    JoinedPieceShows(rendered, "\n\n", k);
    BodyShows(q.nonce, body);
    ShowsThrough(Fenced(q.nonce, body), body, rendered[k]);
  }

  /** The remembered facts that are not blank each make one line, in their order. */
  lemma MemoryLinesInOrder(items: seq<string>, nonce: string)
    ensures exists at ::
              && InStoredOrder(OnOneLine(items, nonce), MemoryLines(items, nonce), at)
              && forall i: nat :: i in at <==> i < |items| && OnOneLine(items, nonce)[i] != ""
    ensures forall line :: line in MemoryLines(items, nonce) <==> line in OnOneLine(items, nonce) && line != ""
    ensures forall i :: 0 <= i < |items| && nonce != "" && Harmless(items[i], nonce) ==>
              OnOneLine(items, nonce)[i] == FoldSpaces(items[i])
  {
    var lines, notBlank := OnOneLine(items, nonce), (line: string) => line != "";
    KeptInOrder(lines, notBlank);
    hide InStoredOrder, StripFenceMarkers, FoldSpaces, Harmless;
    var at := KeptAt(lines, notBlank);
    assert InStoredOrder(lines, MemoryLines(items, nonce), at);
    assert forall i: nat :: i in at <==> i < |lines| && lines[i] != "";
    forall i | 0 <= i < |items| && nonce != "" && Harmless(items[i], nonce) ensures lines[i] == FoldSpaces(items[i]) {
      HarmlessStays(items[i], nonce);
    }
  }

  /** The system message starts with the prompt and shows the summary and every remembered fact, each on one line. */
  lemma MemoryIsShown(w: Wording, q: Request)
    requires q.nonce != ""
    ensures q.promptText <= SystemText(w, q)
    ensures q.summary != "" && Harmless(q.summary, q.nonce) ==> Contains(SystemText(w, q), FoldSpaces(q.summary))
    ensures forall i :: 0 <= i < |q.userMemory| && Harmless(q.userMemory[i], q.nonce) &&
                        FoldSpaces(q.userMemory[i]) != "" ==>
              Contains(SystemText(w, q), FoldSpaces(q.userMemory[i]))
  {
    hide Contains, Harmless, FoldSpaces, StripFenceMarkers, MemoryLines, JoinWith, OnOneLine;
    var s, a := SummaryBlock(w, q.summary, q.nonce), AboutBlock(w, q.userMemory, q.nonce);
    PieceShows(q.promptText, s, a);
    PieceShows(q.promptText + s, a, "");
    assert q.promptText + s + a + "" == SystemText(w, q);
    if q.summary != "" && Harmless(q.summary, q.nonce) {
      HarmlessStays(q.summary, q.nonce);
      PieceShows(w.summaryLead, FoldSpaces(q.summary), w.summaryTail);
      ShowsThrough(SystemText(w, q), s, FoldSpaces(q.summary));
    }
    forall i | 0 <= i < |q.userMemory| && Harmless(q.userMemory[i], q.nonce) && FoldSpaces(q.userMemory[i]) != ""
      ensures Contains(SystemText(w, q), FoldSpaces(q.userMemory[i]))
    {
      var lines, line := MemoryLines(q.userMemory, q.nonce), FoldSpaces(q.userMemory[i]);
      MemoryLinesInOrder(q.userMemory, q.nonce);
      assert OnOneLine(q.userMemory, q.nonce)[i] == line;
      JoinedPieceShows(lines, "\n- ", Position(lines, line));
      PieceShows(w.aboutLead, JoinWith(lines, "\n- "), w.aboutTail);
      ShowsThrough(a, JoinWith(lines, "\n- "), line);
      ShowsThrough(SystemText(w, q), a, line);
    }
  }

  // ---- what it costs -----------------------------------------------------------------------------

  function TokensOf(tk: Tokenizer, messages: seq<Message>): nat {
    if messages == [] then 0 else tk.count(messages[0].content) + TokensOf(tk, messages[1..])
  }

  lemma {:induction false} TokensAdd(tk: Tokenizer, a: seq<Message>, b: seq<Message>)
    ensures TokensOf(tk, a + b) == TokensOf(tk, a) + TokensOf(tk, b)
  {
    if a == [] {
      assert a + b == b;
    } else {
      assert (a + b)[1..] == a[1..] + b;
      TokensAdd(tk, a[1..], b);
    }
  }

  lemma {:induction false} HistoryTokens(tk: Tokenizer, rows: seq<Row>)
    ensures TokensOf(tk, AsMessages(rows)) == HistoryCost(tk, rows)
  {
    if rows == [] {
    } else {
      assert AsMessages(rows)[1..] == AsMessages(rows[1..]);
      HistoryTokens(tk, rows[1..]);
    }
  }

  lemma SystemTokens(tk: Tokenizer, w: Wording, q: Request)
    requires tk.Sound()
    ensures tk.count(SystemText(w, q)) <= tk.count(q.promptText) + MemoryCost(tk, w, q)
  {
    var s, a := SummaryBlock(w, q.summary, q.nonce), AboutBlock(w, q.userMemory, q.nonce);
    hide SummaryBlock, AboutBlock;
    assert q.promptText + "" == q.promptText && q.promptText + s + "" == q.promptText + s;
    assert tk.count(q.promptText + s) <= tk.count(q.promptText) + tk.count(s);
    assert tk.count(q.promptText + s + a) <= tk.count(q.promptText + s) + tk.count(a);
  }

  /** The messages as sent, counted one by one, cost no more than the budget and the allowance together, if what cannot
      be dropped does not and a fence costs what was charged for it. */
  lemma MessagesWithinBound(tk: Tokenizer, w: Wording, q: Request, rendered: seq<string>, kept: seq<Row>)
    requires tk.Sound() && Assembled(tk, w, q, rendered, kept) && FenceOverhead(tk, q.nonce) >= 0
    requires forall body: string :: tk.count(Fenced(q.nonce, body)) <= FenceOverhead(tk, q.nonce) + tk.count(body)
    requires tk.count(q.promptText) + tk.count(q.question) + MemoryCost(tk, w, q) <=
             q.tokenBudget + MANDATORY_TOKEN_ALLOWANCE
    ensures TokensOf(tk, [Message("system", SystemText(w, q))] + AsMessages(kept) + EvidenceMessages(q, rendered)
                         + [Message("user", q.question)]) <= q.tokenBudget + MANDATORY_TOKEN_ALLOWANCE
  {
    RequestBoundedIff(tk, w, q, rendered, kept);
    SystemTokens(tk, w, q);
    HistoryTokens(tk, kept);
    if rendered != [] {
      JoinedCost(tk, rendered);
    }
    hide SystemText, MemoryCost, Fenced, FenceOverhead, BlocksCost, HistoryCost, JoinWith, Assembled;
    var system, ask := [Message("system", SystemText(w, q))], [Message("user", q.question)];
    TokensAdd(tk, system + AsMessages(kept) + EvidenceMessages(q, rendered), ask);
    TokensAdd(tk, system + AsMessages(kept), EvidenceMessages(q, rendered));
    TokensAdd(tk, system, AsMessages(kept));
  }
}
