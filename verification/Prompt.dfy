/** Prompt assembly under a token budget, and the citations and trace that must agree with what the model saw. */
module Prompt {
  import opened Basics
  import opened Fence

  const MANDATORY_TOKEN_ALLOWANCE := 2000
  const TRUNCATION_MARK := "\n[truncated]"

  /** The tokenizer seen from here: a count, and cutting a text to a number of tokens (stub characters dropped). */
  datatype Tokenizer = Tokenizer(count: string -> nat, cut: (string, nat) -> string) {
    ghost predicate Sound() {
      && (forall a: string, b: string {:trigger count(a + b)} :: count(a + b) <= count(a) + count(b))
      && (forall s: string, k: nat {:trigger cut(s, k)} :: cut(s, k) <= s && count(cut(s, k)) <= k)
    }
  }

  /** `oid` is the object's identity; two list entries may be the same object. */
  datatype Evidence = Evidence(oid: nat, attachment: bool, ref: string, content: string,
                               filename: string, page: Option<string>, section: string, hasFiles: bool)
  datatype Row = Row(role: string, content: string)
  datatype Message = Message(role: string, content: string)

  /** The fixed sentences around the two memory blocks. */
  datatype Wording = Wording(summaryLead: string, summaryTail: string, aboutLead: string, aboutTail: string)

  datatype Request = Request(
    question: string, history: seq<Row>, evidence: seq<Evidence>, promptText: string, nonce: string,
    tokenBudget: int, summary: string, historyReserve: nat, userMemory: seq<string>)

  // ---- pieces --------------------------------------------------------------------------

  /** An allowlist of roles. */
  predicate Speaks(r: Row) {
    (r.role == "user" || r.role == "assistant") && r.content != ""
  }

  function SanitizeHistory(rows: seq<Row>): seq<Row> {
    Kept(rows, Speaks)
  }

  /** Nothing but user and assistant turns gets through, and all of those do, in stored order. */
  lemma OnlySpeakersPass(rows: seq<Row>)
    ensures exists at ::
              && InStoredOrder(rows, SanitizeHistory(rows), at)
              && forall i: nat :: i in at <==>
                   i < |rows| && (rows[i].role == "user" || rows[i].role == "assistant") && rows[i].content != ""
    ensures forall r :: r in SanitizeHistory(rows) <==> r in rows && Speaks(r)
  {
    KeptInOrder(rows, Speaks);
    hide InStoredOrder;
    var at := KeptAt(rows, Speaks);
    assert InStoredOrder(rows, SanitizeHistory(rows), at);
    assert forall i: nat :: i in at <==> i < |rows| && Speaks(rows[i]);
  }

  /** `part` stands at `at`, and from the first of these positions on, it holds every row that speaks. */
  ghost predicate ShowsNewest(rows: seq<Row>, part: seq<Row>, at: seq<nat>) {
    && InStoredOrder(rows, part, at)
    && forall i :: 0 <= i < |rows| && at != [] && at[0] <= i ==>
         (i in at <==> (rows[i].role == "user" || rows[i].role == "assistant") && rows[i].content != "")
  }

  lemma NewestInStoredOrder(rows: seq<Row>, from: nat)
    requires from <= |SanitizeHistory(rows)|
    ensures exists at :: ShowsNewest(rows, SanitizeHistory(rows)[from..], at)
  {
    OnlySpeakersPass(rows);
    hide SanitizeHistory, Speaks, InStoredOrder;
    var all :|
      && InStoredOrder(rows, SanitizeHistory(rows), all)
      && forall i: nat :: i in all <==>
           i < |rows| && (rows[i].role == "user" || rows[i].role == "assistant") && rows[i].content != "";
    LaterPositions(rows, SanitizeHistory(rows), all, from);
    assert ShowsNewest(rows, SanitizeHistory(rows)[from..], all[from..]);
  }

  function EvidenceLabel(item: Evidence): string {
    var name := if item.filename != "" then item.filename else item.ref;
    "(" + (if item.attachment then "user attachment: " + name else name)
        + (match item.page case Some(p) => ", p." + p case None => "")
        + (if item.section != "" then ", " + item.section else "") + ")"
  }

  /** What comes before an item's text: its number and its one-line label. */
  function Header(index: nat, item: Evidence, nonce: string): string {
    "[" + Decimal(index) + "] " + FoldSpaces(StripFenceMarkers(EvidenceLabel(item), nonce)) + "\n"
  }

  function Body(item: Evidence, nonce: string): string {
    StripFenceMarkers(item.content, nonce)
  }

  function Block(index: nat, item: Evidence, nonce: string): string {
    Header(index, item, nonce) + Body(item, nonce)
  }

  function CutBlock(index: nat, item: Evidence, nonce: string, tk: Tokenizer, room: nat): string {
    Header(index, item, nonce) + (tk.cut(Body(item, nonce), room) + TRUNCATION_MARK)
  }

  function SummaryBlock(w: Wording, summary: string, nonce: string): string {
    if summary == "" then "" else w.summaryLead + FoldSpaces(StripFenceMarkers(summary, nonce)) + w.summaryTail
  }

  /** Each remembered fact on one line. */
  function OnOneLine(items: seq<string>, nonce: string): (lines: seq<string>)
    ensures |lines| == |items|
  {
    seq(|items|, i requires 0 <= i < |items| => FoldSpaces(StripFenceMarkers(items[i], nonce)))
  }

  function MemoryLines(items: seq<string>, nonce: string): seq<string> {
    Kept(OnOneLine(items, nonce), line => line != "")
  }

  function AboutBlock(w: Wording, items: seq<string>, nonce: string): string {
    if items == [] then "" else w.aboutLead + JoinWith(MemoryLines(items, nonce), "\n- ") + w.aboutTail
  }

  function CostIfAny(tk: Tokenizer, block: string): nat {
    if block == "" then 0 else tk.count(block)
  }

  /** Blocks as charged: each block, and a separator between neighbours. */
  function BlocksCost(tk: Tokenizer, blocks: seq<string>): nat {
    if blocks == [] then 0
    else
      BlocksCost(tk, blocks[..|blocks| - 1])
      + (if |blocks| == 1 then 0 else tk.count("\n\n")) + tk.count(blocks[|blocks| - 1])
  }

  function HistoryCost(tk: Tokenizer, rows: seq<Row>): nat {
    if rows == [] then 0 else tk.count(rows[0].content) + HistoryCost(tk, rows[1..])
  }

  function AsMessages(rows: seq<Row>): (ms: seq<Message>)
    ensures |ms| == |rows| && forall i :: 0 <= i < |rows| ==> ms[i] == Message(rows[i].role, rows[i].content)
  {
    seq(|rows|, i requires 0 <= i < |rows| => Message(rows[i].role, rows[i].content))
  }

  // ---- the budget -------------------------------------------------------------------------

  function MemoryCost(tk: Tokenizer, w: Wording, q: Request): nat {
    CostIfAny(tk, SummaryBlock(w, q.summary, q.nonce)) + CostIfAny(tk, AboutBlock(w, q.userMemory, q.nonce))
  }

  function Mandatory(tk: Tokenizer, q: Request): nat {
    tk.count(q.promptText) + tk.count(q.question)
  }

  function Overrun(tk: Tokenizer, q: Request): nat {
    if Mandatory(tk, q) > MANDATORY_TOKEN_ALLOWANCE then Mandatory(tk, q) - MANDATORY_TOKEN_ALLOWANCE else 0
  }

  /** What the context may cost once memory is paid for. */
  function Available(tk: Tokenizer, w: Wording, q: Request): int {
    q.tokenBudget - Overrun(tk, q) - MemoryCost(tk, w, q)
  }

  function FenceOverhead(tk: Tokenizer, nonce: string): int {
    tk.count(Fenced(nonce, "x")) - tk.count("x")
  }

  /** Rendered evidence as charged: the fence and its blocks. */
  function EvidenceCharge(tk: Tokenizer, nonce: string, rendered: seq<string>): int {
    if rendered == [] then 0 else FenceOverhead(tk, nonce) + BlocksCost(tk, rendered)
  }

  function Reserve(tk: Tokenizer, q: Request): nat {
    var cost := HistoryCost(tk, SanitizeHistory(q.history));
    if q.historyReserve < cost then q.historyReserve else cost
  }

  /** Block i renders evidence item i under the number i + 1; only the first may be cut. */
  ghost predicate Renders(tk: Tokenizer, q: Request, rendered: seq<string>) {
    && |rendered| <= |q.evidence|
    && forall i :: 0 <= i < |rendered| ==>
         || rendered[i] == Block(i + 1, q.evidence[i], q.nonce)
         || (i == 0 && exists room: nat :: rendered[0] == CutBlock(1, q.evidence[0], q.nonce, tk, room))
  }

  /** What evidence leaves for history: all of it back if nothing was rendered. */
  function LeftForHistory(tk: Tokenizer, w: Wording, q: Request, rendered: seq<string>): int {
    Available(tk, w, q) - EvidenceCharge(tk, q.nonce, rendered)
  }

  /** The first item left out did not fit into the room beside the reserve, not even cut if it would have been alone. */
  ghost predicate StoppedForWantOfRoom(tk: Tokenizer, q: Request, rendered: seq<string>, room: int) {
    |rendered| < |q.evidence| ==>
      && BlocksCost(tk, rendered + [Block(|rendered| + 1, q.evidence[|rendered|], q.nonce)]) > room
      && (rendered == [] ==> tk.count(Header(1, q.evidence[0], q.nonce)) + tk.count(TRUNCATION_MARK) >= room)
  }

  /** The first item is rendered whole if it fits, else cut to exactly what its header and the mark leave free. */
  ghost predicate FirstAsFits(tk: Tokenizer, q: Request, rendered: seq<string>, room: int) {
    rendered != [] && q.evidence != [] ==>
      var whole := Block(1, q.evidence[0], q.nonce);
      var headroom := room - tk.count(Header(1, q.evidence[0], q.nonce)) - tk.count(TRUNCATION_MARK);
      if tk.count(whole) <= room then rendered[0] == whole
      else headroom > 0 && rendered[0] == CutBlock(1, q.evidence[0], q.nonce, tk, headroom)
  }

  /** Evidence is rendered until the room is used up, and not before. */
  ghost predicate FilledToRoom(tk: Tokenizer, q: Request, rendered: seq<string>, room: int) {
    FirstAsFits(tk, q, rendered, room) && StoppedForWantOfRoom(tk, q, rendered, room)
  }

  /** The newest rows that fit: a suffix, and the next older row would not fit. */
  ghost predicate NewestThatFit(tk: Tokenizer, rows: seq<Row>, kept: seq<Row>, room: int) {
    && |kept| <= |rows| && kept == rows[|rows| - |kept|..]
    && (kept != [] ==> HistoryCost(tk, kept) <= room)
    && (|kept| < |rows| ==> HistoryCost(tk, rows[|rows| - |kept| - 1..]) > room)
  }

  // ---- assembly --------------------------------------------------------------------------------

  /** The evidence loop. */
  method FillEvidence(tk: Tokenizer, q: Request, room: int, reserve: nat)
    returns (used: seq<Evidence>, rendered: seq<string>, remaining: int)
    requires tk.Sound()
    ensures |used| == |rendered| <= |q.evidence| && Renders(tk, q, rendered) && used == q.evidence[..|used|]
    ensures remaining == room - BlocksCost(tk, rendered)
    ensures rendered != [] ==> remaining >= reserve
    ensures FilledToRoom(tk, q, rendered, room - reserve)
  {
    hide Header, Body, StripFenceMarkers, Block, CutBlock, Renders, StoppedForWantOfRoom, FirstAsFits, BlocksCost;
    used, rendered, remaining := [], [], room;
    var separator := tk.count("\n\n");
    NothingRendered(tk, q);
    for i := 0 to |q.evidence|
      invariant |used| == |rendered| == i && Renders(tk, q, rendered) && used == q.evidence[..i]
      invariant remaining == room - BlocksCost(tk, rendered) && FirstAsFits(tk, q, rendered, room - reserve)
      invariant rendered != [] ==> remaining >= reserve
    {
      var item := q.evidence[i];
      var block := Block(i + 1, item, q.nonce);
      var cost := tk.count(block) + if used != [] then separator else 0;
      CostOfNext(tk, rendered, block);
      RenderNext(tk, q, rendered);
      FirstStays(tk, q, rendered, block, room - reserve);
      if cost > remaining - reserve {
        CannotFit(tk, q, rendered, room - reserve);
        if used != [] {
          return;
        }
        var headroom := remaining - reserve - tk.count(Header(1, item, q.nonce)) - tk.count(TRUNCATION_MARK);
        if headroom <= 0 {
          return;
        }
        RenderFirstCut(tk, q, headroom);
        CutFits(tk, item, q.nonce, headroom);
        FirstIsCut(tk, q, room - reserve, headroom);
        block := CutBlock(1, item, q.nonce, tk, headroom);
        cost := tk.count(block);
        CostOfNext(tk, rendered, block);
      }
      remaining := remaining - cost;
      used := used + [item];
      rendered := rendered + [block];
    }
    AllRendered(tk, q, rendered, room - reserve);
  }

  lemma NothingRendered(tk: Tokenizer, q: Request)
    ensures Renders(tk, q, []) && BlocksCost(tk, []) == 0 && forall room :: FirstAsFits(tk, q, [], room)
  {}

  lemma FirstStays(tk: Tokenizer, q: Request, rendered: seq<string>, block: string, room: int)
    requires q.evidence != [] && FirstAsFits(tk, q, rendered, room)
    requires rendered == [] ==> block == Block(1, q.evidence[0], q.nonce)
    ensures rendered != [] || tk.count(block) <= room ==> FirstAsFits(tk, q, rendered + [block], room)
  {}

  lemma FirstIsCut(tk: Tokenizer, q: Request, room: int, headroom: nat)
    requires q.evidence != [] && tk.count(Block(1, q.evidence[0], q.nonce)) > room && headroom > 0
    requires headroom == room - tk.count(Header(1, q.evidence[0], q.nonce)) - tk.count(TRUNCATION_MARK)
    ensures FirstAsFits(tk, q, [] + [CutBlock(1, q.evidence[0], q.nonce, tk, headroom)], room)
  {}

  lemma AllRendered(tk: Tokenizer, q: Request, rendered: seq<string>, room: int)
    requires |rendered| >= |q.evidence|
    ensures StoppedForWantOfRoom(tk, q, rendered, room)
  {}

  lemma CostOfNext(tk: Tokenizer, rendered: seq<string>, block: string)
    ensures BlocksCost(tk, rendered + [block]) ==
            BlocksCost(tk, rendered) + (if rendered == [] then 0 else tk.count("\n\n")) + tk.count(block)
  {}

  lemma CannotFit(tk: Tokenizer, q: Request, rendered: seq<string>, room: int)
    requires |rendered| < |q.evidence|
    requires BlocksCost(tk, rendered + [Block(|rendered| + 1, q.evidence[|rendered|], q.nonce)]) > room
    ensures (rendered == [] ==> tk.count(Header(1, q.evidence[0], q.nonce)) + tk.count(TRUNCATION_MARK) >= room) ==>
              StoppedForWantOfRoom(tk, q, rendered, room)
  {}

  lemma RenderNext(tk: Tokenizer, q: Request, rendered: seq<string>)
    requires Renders(tk, q, rendered) && |rendered| < |q.evidence|
    ensures Renders(tk, q, rendered + [Block(|rendered| + 1, q.evidence[|rendered|], q.nonce)])
  {
    hide Block, CutBlock;
    var more := rendered + [Block(|rendered| + 1, q.evidence[|rendered|], q.nonce)];
    assert forall i :: 0 <= i < |rendered| ==> more[i] == rendered[i];
  }

  lemma RenderFirstCut(tk: Tokenizer, q: Request, room: nat)
    requires q.evidence != []
    ensures Renders(tk, q, [] + [CutBlock(1, q.evidence[0], q.nonce, tk, room)])
  {}

  lemma CutFits(tk: Tokenizer, item: Evidence, nonce: string, room: nat)
    requires tk.Sound()
    ensures tk.count(CutBlock(1, item, nonce, tk, room)) <=
            tk.count(Header(1, item, nonce)) + room + tk.count(TRUNCATION_MARK)
  {}

  /** The history loop, newest row first. */
  method FillHistory(tk: Tokenizer, rows: seq<Row>, room: int) returns (kept: seq<Row>)
    ensures NewestThatFit(tk, rows, kept, room)
  {
    kept := [];
    var remaining := room;
    var i := |rows|;
    while i > 0
      invariant 0 <= i <= |rows| && kept == rows[i..]
      invariant remaining == room - HistoryCost(tk, kept)
      invariant kept != [] ==> remaining >= 0
    {
      var cost := tk.count(rows[i - 1].content);
      assert rows[i - 1..] == [rows[i - 1]] + rows[i..];
      if cost > remaining {
        break;
      }
      remaining := remaining - cost;
      kept := [rows[i - 1]] + kept;
      i := i - 1;
    }
  }

  /** What was put in front of the model: `rendered` evidence, clear of the reserve, and the `kept` history rows. */
  ghost predicate Assembled(tk: Tokenizer, w: Wording, q: Request, rendered: seq<string>, kept: seq<Row>) {
    && Renders(tk, q, rendered)
    && (rendered != [] ==> LeftForHistory(tk, w, q, rendered) >= Reserve(tk, q))
    && NewestThatFit(tk, SanitizeHistory(q.history), kept, LeftForHistory(tk, w, q, rendered))
  }

  function SystemText(w: Wording, q: Request): string {
    q.promptText + SummaryBlock(w, q.summary, q.nonce) + AboutBlock(w, q.userMemory, q.nonce)
  }

  function EvidenceMessages(q: Request, rendered: seq<string>): seq<Message> {
    if rendered == [] then [] else [Message("user", Fenced(q.nonce, JoinWith(rendered, "\n\n")))]
  }

  lemma AfterEvidence(tk: Tokenizer, w: Wording, q: Request, rendered: seq<string>, overhead: int, remaining: int)
    requires overhead == if q.evidence != [] then FenceOverhead(tk, q.nonce) else 0
    requires remaining == Available(tk, w, q) - overhead - BlocksCost(tk, rendered) && |rendered| <= |q.evidence|
    requires FilledToRoom(tk, q, rendered, Available(tk, w, q) - overhead - Reserve(tk, q))
    ensures LeftForHistory(tk, w, q, rendered) == remaining + if rendered == [] then overhead else 0
    ensures FilledToRoom(tk, q, rendered, Available(tk, w, q) - FenceOverhead(tk, q.nonce) - Reserve(tk, q))
  {
    hide Available, FenceOverhead, Reserve, Block, Header;
  }

  /** Charges memory, the overrun and the fence. */
  method ChargeFixed(tk: Tokenizer, w: Wording, q: Request) returns (remaining: int, overhead: int)
    ensures overhead == if q.evidence != [] then FenceOverhead(tk, q.nonce) else 0
    ensures remaining == Available(tk, w, q) - overhead
  {
    hide SummaryBlock, AboutBlock, Fenced;
    var memoryCost := CostIfAny(tk, SummaryBlock(w, q.summary, q.nonce)) +
      CostIfAny(tk, AboutBlock(w, q.userMemory, q.nonce));
    var mandatory := tk.count(q.promptText) + tk.count(q.question);
    var overrun := if mandatory > MANDATORY_TOKEN_ALLOWANCE then mandatory - MANDATORY_TOKEN_ALLOWANCE else 0;
    remaining := q.tokenBudget - overrun - memoryCost;
    overhead := if q.evidence != [] then tk.count(Fenced(q.nonce, "x")) - tk.count("x") else 0;
    remaining := remaining - overhead;
  }

  /** Evidence first, then history with what is left. */
  method ChooseContext(tk: Tokenizer, w: Wording, q: Request)
    returns (used: seq<Evidence>, rendered: seq<string>, kept: seq<Row>)
    requires tk.Sound()
    ensures |used| == |rendered| <= |q.evidence| && used == q.evidence[..|used|]
    ensures Assembled(tk, w, q, rendered, kept)
    ensures FilledToRoom(tk, q, rendered, Available(tk, w, q) - FenceOverhead(tk, q.nonce) - Reserve(tk, q))
  {
    hide *;
    var remaining, overhead := ChargeFixed(tk, w, q);
    used, rendered, remaining := FillEvidence(tk, q, remaining, Reserve(tk, q));
    kept := KeepHistory(tk, w, q, rendered, overhead, remaining);
  }

  /** History gets what evidence left, and the fence's share if there is nothing to fence. */
  method KeepHistory(tk: Tokenizer, w: Wording, q: Request, rendered: seq<string>, overhead: int, left: int)
    returns (kept: seq<Row>)
    requires overhead == if q.evidence != [] then FenceOverhead(tk, q.nonce) else 0
    requires Renders(tk, q, rendered) && |rendered| <= |q.evidence| && (rendered != [] ==> left >= Reserve(tk, q))
    requires left == Available(tk, w, q) - overhead - BlocksCost(tk, rendered)
    requires FilledToRoom(tk, q, rendered, Available(tk, w, q) - overhead - Reserve(tk, q))
    ensures Assembled(tk, w, q, rendered, kept)
    ensures FilledToRoom(tk, q, rendered, Available(tk, w, q) - FenceOverhead(tk, q.nonce) - Reserve(tk, q))
  {
    hide *;
    AfterEvidence(tk, w, q, rendered, overhead, left);
    var remaining := left;
    if rendered == [] {
      remaining := remaining + overhead;
    }
    kept := FillHistory(tk, SanitizeHistory(q.history), remaining);
    AssembledFrom(tk, w, q, rendered, kept, remaining);
  }

  lemma AssembledFrom(tk: Tokenizer, w: Wording, q: Request, rendered: seq<string>, kept: seq<Row>, remaining: int)
    requires Renders(tk, q, rendered) && (rendered != [] ==> remaining >= Reserve(tk, q))
    requires remaining == LeftForHistory(tk, w, q, rendered) &&
             NewestThatFit(tk, SanitizeHistory(q.history), kept, remaining)
    ensures Assembled(tk, w, q, rendered, kept)
  {
    hide Renders, Reserve, LeftForHistory, NewestThatFit, SanitizeHistory;
  }

  lemma KeptInStoredOrder(tk: Tokenizer, w: Wording, q: Request, rendered: seq<string>, kept: seq<Row>)
    requires Assembled(tk, w, q, rendered, kept)
    ensures exists at :: ShowsNewest(q.history, kept, at)
  {
    hide Renders, SanitizeHistory, ShowsNewest;
    NewestInStoredOrder(q.history, |SanitizeHistory(q.history)| - |kept|);
  }

  /** The messages are the system text with its memory blocks, the kept history, one fenced message if any
      evidence was rendered, and the question. */
  method BuildPrompt(tk: Tokenizer, w: Wording, q: Request)
    returns (messages: seq<Message>, used: seq<Evidence>, ghost rendered: seq<string>, ghost kept: seq<Row>)
    requires tk.Sound()
    ensures messages == [Message("system", SystemText(w, q))] + AsMessages(kept) + EvidenceMessages(q, rendered)
                        + [Message("user", q.question)]
    ensures |used| == |rendered| <= |q.evidence| && used == q.evidence[..|used|]
    ensures Assembled(tk, w, q, rendered, kept)
    ensures exists at :: ShowsNewest(q.history, kept, at)
    ensures FilledToRoom(tk, q, rendered, Available(tk, w, q) - FenceOverhead(tk, q.nonce) - Reserve(tk, q))
  {
    hide SummaryBlock, AboutBlock, Fenced, JoinWith, Assembled, FilledToRoom, ShowsNewest;
    messages := [Message("system",
                         q.promptText + SummaryBlock(w, q.summary, q.nonce) + AboutBlock(w, q.userMemory, q.nonce))];
    var blocks, historyKept;
    used, blocks, historyKept := ChooseContext(tk, w, q);
    rendered, kept := blocks, historyKept;
    KeptInStoredOrder(tk, w, q, rendered, kept);
    messages := messages + AsMessages(historyKept);
    if blocks != [] {
      messages := messages + [Message("user", Fenced(q.nonce, JoinWith(blocks, "\n\n")))];
    }
    messages := messages + [Message("user", q.question)];
  }

  // ---- what that means for the budget --------------------------------------------------------------

  lemma {:induction false} JoinedCost(tk: Tokenizer, blocks: seq<string>)
    requires tk.Sound() && blocks != []
    ensures tk.count(JoinWith(blocks, "\n\n")) <= BlocksCost(tk, blocks)
  {
    if |blocks| > 1 {
      var init, last := blocks[..|blocks| - 1], blocks[|blocks| - 1];
      JoinedCost(tk, init);
      JoinAppend(init, last, "\n\n");
      assert blocks == init + [last];
      var front := JoinWith(init, "\n\n");
      assert tk.count(front + "\n\n") <= tk.count(front) + tk.count("\n\n");
      assert tk.count((front + "\n\n") + last) <= tk.count(front + "\n\n") + tk.count(last);
    } else {
      assert blocks[..0] == [];
    }
  }

  lemma {:induction false} JoinAppend(pieces: seq<string>, last: string, separator: string)
    requires pieces != []
    ensures JoinWith(pieces + [last], separator) == JoinWith(pieces, separator) + separator + last
  {
    var all := pieces + [last];
    assert all[1..] == pieces[1..] + [last];
    if |pieces| == 1 {
      assert all[1..] == [last];
    } else {
      JoinAppend(pieces[1..], last, separator);
      assert pieces[0] + separator + (JoinWith(pieces[1..], separator) + separator + last)
          == (pieces[0] + separator + JoinWith(pieces[1..], separator)) + separator + last;
    }
  }

  /** Memory, fence, rendered evidence and history together never exceed the budget less the mandatory overrun,
      measured on the joined evidence; if memory alone exceeds it, nothing else is kept. */
  lemma ContextWithinBudget(tk: Tokenizer, w: Wording, q: Request, rendered: seq<string>, kept: seq<Row>)
    requires tk.Sound() && Assembled(tk, w, q, rendered, kept)
    ensures Available(tk, w, q) >= 0 ==>
              MemoryCost(tk, w, q)
              + (if rendered == [] then 0 else FenceOverhead(tk, q.nonce) + tk.count(JoinWith(rendered, "\n\n")))
              + HistoryCost(tk, kept) <= q.tokenBudget - Overrun(tk, q)
    ensures Available(tk, w, q) < 0 && FenceOverhead(tk, q.nonce) >= 0 ==> rendered == [] && kept == []
  {
    hide Renders, Block, JoinWith, MemoryCost, Overrun, FenceOverhead, Reserve;
    if rendered != [] {
      JoinedCost(tk, rendered);
    }
  }

  /** The whole request (prompt, memory, evidence, history and question as charged) stays within the budget plus
      the mandatory allowance exactly when what cannot be dropped does. */
  lemma RequestBoundedIff(tk: Tokenizer, w: Wording, q: Request, rendered: seq<string>, kept: seq<Row>)
    requires Assembled(tk, w, q, rendered, kept) && FenceOverhead(tk, q.nonce) >= 0
    ensures var fixedPart := Mandatory(tk, q) + MemoryCost(tk, w, q);
            var limit := q.tokenBudget + MANDATORY_TOKEN_ALLOWANCE;
            fixedPart + EvidenceCharge(tk, q.nonce, rendered) + HistoryCost(tk, kept) <= limit <==> fixedPart <= limit
  {}

  /** One token a character. */
  function ByCharacter(): (tk: Tokenizer)
    ensures tk.Sound()
  {
    Tokenizer((s: string) => |s|, (s: string, k: nat) => if k < |s| then s[..k] else s)
  }

  /** A question as long as the request schema allows and a prompt one token above the allowance, under the default
      budget: nothing is rendered or kept, and the request exceeds budget and allowance together. */
  lemma LongQuestionExceedsTheBound(w: Wording, nonce: string)
    ensures exists q: Request ::
              var tk := ByCharacter();
              && q.tokenBudget == 8000 && |q.question| == 8000 && |q.promptText| == 2001 && q.nonce == nonce
              && Assembled(tk, w, q, [], [])
              && Mandatory(tk, q) + MemoryCost(tk, w, q) > q.tokenBudget + MANDATORY_TOKEN_ALLOWANCE
  {
    var question, prompt := seq(8000, _ => 'q'), seq(2001, _ => 'p');
    var q := Request(question, [], [], prompt, nonce, 8000, "", 0, []);
    assert NewestThatFit(ByCharacter(), [], [], LeftForHistory(ByCharacter(), w, q, []));
    assert Renders(ByCharacter(), q, []);
    assert Assembled(ByCharacter(), w, q, [], []);
    hide Assembled;
    assert Mandatory(ByCharacter(), q) == 10001;
  }

  lemma {:induction false} LongerSuffixCostsMore(tk: Tokenizer, rows: seq<Row>, i: nat, j: nat)
    requires i <= j <= |rows|
    ensures HistoryCost(tk, rows[j..]) <= HistoryCost(tk, rows[i..])
    decreases j - i
  {
    if i >= j {
    } else {
      LongerSuffixCostsMore(tk, rows, i + 1, j);
      assert rows[i..][1..] == rows[i + 1..];
    }
  }

  /** Evidence never eats the reserve: if the reserve was there to begin with, every newest stretch of the history
      that costs no more than the reserve is kept, and a history that fits the reserve is kept whole. */
  lemma ReserveIsHistorys(tk: Tokenizer, w: Wording, q: Request, rendered: seq<string>, kept: seq<Row>, from: nat)
    requires Assembled(tk, w, q, rendered, kept)
    requires Available(tk, w, q) >= Reserve(tk, q) && from <= |SanitizeHistory(q.history)|
    ensures HistoryCost(tk, SanitizeHistory(q.history)[from..]) <= q.historyReserve ==>
              |SanitizeHistory(q.history)| - from <= |kept|
    ensures HistoryCost(tk, SanitizeHistory(q.history)) <= q.historyReserve ==> kept == SanitizeHistory(q.history)
  {
    hide Renders, MemoryCost, Overrun, FenceOverhead, HistoryCost, BlocksCost, SanitizeHistory;
    var rows := SanitizeHistory(q.history);
    assert rows[0..] == rows && LeftForHistory(tk, w, q, rendered) >= Reserve(tk, q);
    if |kept| < |rows| {
      LongerSuffixCostsMore(tk, rows, 0, |rows| - |kept| - 1);
      if |kept| < |rows| - from {
        LongerSuffixCostsMore(tk, rows, from, |rows| - |kept| - 1);
      }
    }
  }
}
