/** Rolling conversation memory: messages that scrolled out of the history window are folded into one stored
    summary by background refreshes, which may fail and may overlap. */
module RollingSummary {
  import opened Basics

  const SUMMARY_MAX_CHARS := 1500
  const MIN_FOLD_MESSAGES := 4
  const MESSAGE_CHARS := 2000

  datatype Message = Message(time: int, role: string, content: string)
  type TaskId = nat

  /** A refresh: scheduled, waiting for the model with what it read, or over. */
  datatype Task = Scheduled | Folding(current: Option<string>, fold: seq<Message>) | Over

  /** Messages are stored in the order of their times; two may share one. */
  ghost predicate Sorted(ms: seq<Message>) {
    forall i, j :: 0 <= i < j < |ms| ==> ms[i].time <= ms[j].time
  }

  ghost predicate Increasing(ms: seq<Message>) {
    forall i, j :: 0 <= i < j < |ms| ==> ms[i].time < ms[j].time
  }

  /** No two messages around position n share a time. */
  predicate StrictAt(ms: seq<Message>, n: nat) {
    0 < n < |ms| ==> ms[n - 1].time < ms[n].time
  }

  /** WHERE created_at > through, oldest first. */
  function RowsAfter(ms: seq<Message>, through: Option<int>): seq<Message> {
    if ms == [] then []
    else (if through.None? || ms[0].time > through.value then [ms[0]] else []) + RowsAfter(ms[1..], through)
  }

  /** How many messages the watermark covers. */
  function Covered(ms: seq<Message>, through: Option<int>): (n: nat)
    ensures n <= |ms|
  {
    if ms == [] || through.None? || ms[0].time > through.value then 0 else 1 + Covered(ms[1..], through)
  }

  /** Everything the summary has not read but the newest `window`. */
  function ToFold(rows: seq<Message>, window: nat): seq<Message> {
    if |rows| > window then rows[..|rows| - window] else []
  }

  predicate Spoken(m: Message) {
    m.role == "user" || m.role == "assistant"
  }

  function Line(m: Message): string {
    m.role + ": " + if |m.content| > MESSAGE_CHARS then m.content[..MESSAGE_CHARS] else m.content
  }

  /** What the summariser is shown of the folded messages. */
  function Lines(fold: seq<Message>): (lines: seq<string>)
    ensures |lines| == |Kept(fold, Spoken)|
  {
    var told := Kept(fold, Spoken);
    seq(|told|, i requires 0 <= i < |told| => Line(told[i]))
  }

  /** What is kept of the model's reply: nothing if there was nothing to say, no answer, or one far too long. */
  function Accepted(fold: seq<Message>, reply: Option<string>): (text: Option<string>)
    ensures text.Some? ==> 0 < |text.value| <= SUMMARY_MAX_CHARS
  {
    if Lines(fold) == [] || reply.None? then None
    else
      var stripped := Strip(reply.value);
      if stripped == "" || |stripped| > SUMMARY_MAX_CHARS * 2 then None
      else Some(if |stripped| > SUMMARY_MAX_CHARS then stripped[..SUMMARY_MAX_CHARS] else stripped)
  }

  // ---- what the watermark query returns ---------------------------------------------------------

  lemma {:induction false} CoveredIffTime(ms: seq<Message>, through: Option<int>)
    requires Sorted(ms)
    ensures forall i :: 0 <= i < |ms| ==> (i < Covered(ms, through) <==> through.Some? && ms[i].time <= through.value)
  {
    if ms == [] {
    } else {
      var rest := ms[1..];
      CoveredIffTime(rest, through);
      forall i | 0 <= i < |ms| ensures i < Covered(ms, through) <==> through.Some? && ms[i].time <= through.value {
        assert ms[0].time <= ms[i].time;
        if i > 0 {
          assert rest[i - 1] == ms[i];
          assert i - 1 < Covered(rest, through) <==> through.Some? && rest[i - 1].time <= through.value;
        }
      }
    }
  }

  /** The query returns exactly the messages the watermark does not cover. */
  lemma {:induction false} RowsAfterCovered(ms: seq<Message>, through: Option<int>)
    requires Sorted(ms)
    ensures RowsAfter(ms, through) == ms[Covered(ms, through)..]
  {
    if ms == [] {
    } else {
      RowsAfterCovered(ms[1..], through);
      if Covered(ms, through) == 0 {
        CoveredIffTime(ms, through);
        assert Covered(ms[1..], through) == 0 by {
          if |ms| > 1 {
            assert ms[1..][0] == ms[1] && ms[0].time <= ms[1].time;
          }
        }
        assert ms[1..][0..] == ms[1..] && ms == [ms[0]] + ms[1..];
      }
    }
  }

  /** A watermark set at the end of a fold makes the next query return exactly the rest if and only if no message behind
      the fold has the time of its last one; otherwise such a message is never read again. */
  lemma RowsAfterFoldIff(ms: seq<Message>, n: nat)
    requires Sorted(ms) && 0 < n <= |ms|
    ensures RowsAfter(ms, Some(ms[n - 1].time)) == ms[n..] <==> n == |ms| || ms[n - 1].time < ms[n].time
  {
    var through := Some(ms[n - 1].time);
    RowsAfterCovered(ms, through);
    CoveredIffTime(ms, through);
    assert n <= Covered(ms, through);
    assert |ms[n..]| == |ms| - n && |ms[Covered(ms, through)..]| == |ms| - Covered(ms, through);
  }

  // ---- what the summary stands for -----------------------------------------------------------------

  ghost predicate Ascending(picked: seq<nat>) {
    forall i, j :: 0 <= i < j < |picked| ==> picked[i] < picked[j]
  }

  lemma {:induction false} AscendingBelow(picked: seq<nat>, n: nat)
    requires Ascending(picked) && forall k :: k in picked ==> k < n
    ensures |picked| <= n
    ensures |picked| == n ==> forall i :: 0 <= i < n ==> picked[i] == i
  {
    if picked == [] {
    } else {
      var init, last := picked[..|picked| - 1], picked[|picked| - 1];
      assert last in picked;
      forall k | k in init ensures k < last {
        assert k == picked[Position(init, k)];
      }
      AscendingBelow(init, last);
    }
  }

  /** The positions of the messages the summary was made from: each folded once, in order, all covered by the
      watermark, and the newest `window` messages never among them. */
  ghost predicate Picked(ms: seq<Message>, through: Option<int>, stands: seq<nat>, window: nat) {
    && Ascending(stands)
    && (forall k :: k in stands ==> k < Covered(ms, through))
    && (through.None? <==> stands == [])
    && (stands != [] ==> |stands| + window <= |ms|)
    && (forall k :: k in stands ==> k + window < |ms|)
  }

  /** Nothing the watermark covers is missing from the summary. */
  predicate Lossless(ms: seq<Message>, through: Option<int>, stands: seq<nat>) {
    |stands| == Covered(ms, through)
  }

  /** That means: the summary stands for a message if and only if its time does not exceed the watermark. */
  lemma LosslessIff(ms: seq<Message>, through: Option<int>, stands: seq<nat>, window: nat)
    requires Sorted(ms) && Picked(ms, through, stands, window)
    ensures Lossless(ms, through, stands) <==>
              forall i :: 0 <= i < |ms| ==> (i in stands <==> through.Some? && ms[i].time <= through.value)
  {
    CoveredIffTime(ms, through);
    AscendingBelow(stands, Covered(ms, through));
    if Lossless(ms, through, stands) {
      forall i | 0 <= i < Covered(ms, through) ensures i in stands {
        assert stands[i] == i;
      }
    } else {
      FirstGap(stands, Covered(ms, through));
    }
  }

  lemma {:induction false} FirstGap(stands: seq<nat>, n: nat)
    requires Ascending(stands) && |stands| < n
    ensures exists i :: 0 <= i < n && i !in stands
  {
    if stands == [] {
      assert 0 !in stands;
    } else {
      var init, last := stands[..|stands| - 1], stands[|stands| - 1];
      if n - 1 in stands {
        assert n - 1 <= last by {
          var p := Position(stands, n - 1);
        }
        FirstGap(init, n - 1);
        var i :| 0 <= i < n - 1 && i !in init;
        assert stands == init + [last];
        assert i != last && i !in stands;
      } else {
        assert 0 <= n - 1 < n;
      }
    }
  }

  /** What a refresh had read when it asked the model. */
  datatype Origin = Origin(through: Option<int>, stands: seq<nat>, from: nat, end: nat)

  /** A running refresh folds a stretch that starts behind its watermark and stops short of the window as read. */
  ghost predicate Reads(ms: seq<Message>, o: Origin, fold: seq<Message>, window: nat) {
    && Picked(ms, o.through, o.stands, window) && o.from == Covered(ms, o.through)
    && |fold| >= MIN_FOLD_MESSAGES && o.end == o.from + |fold| && o.end + window <= |ms| && fold == ms[o.from..o.end]
  }

  ghost predicate RefreshesOk(ms: seq<Message>, tasks: map<TaskId, Task>, origins: map<TaskId, Origin>, ends: set<nat>,
                              window: nat) {
    forall t :: t in tasks && tasks[t].Folding? ==>
      t in origins && Reads(ms, origins[t], tasks[t].fold, window) && origins[t].end in ends
  }

  /** As long as no fold ended between two messages with one time, nothing is lost, by the stored summary or by one
      still being made. */
  ghost predicate LosslessIfStrict(ms: seq<Message>, through: Option<int>, stands: seq<nat>, tasks: map<TaskId, Task>,
                                   origins: map<TaskId, Origin>, ends: set<nat>, window: nat) {
    && (forall e :: e in ends ==> 0 < e && e + window <= |ms|)
    && ((forall e :: e in ends ==> StrictAt(ms, e)) ==>
          && Lossless(ms, through, stands)
          && forall t :: t in tasks && tasks[t].Folding? && t in origins ==>
               Lossless(ms, origins[t].through, origins[t].stands))
  }

  function Stretch(from: nat, end: nat): (s: seq<nat>)
    requires from <= end
    ensures |s| == end - from && forall i :: 0 <= i < |s| ==> s[i] == from + i
  {
    seq(end - from, i requires 0 <= i < end - from => from + i)
  }

  /** A refresh commits: whatever happened meanwhile, summary and watermark agree again, and nothing is lost if and only
      if nothing was when it read the conversation and its fold did not end between two messages with one time. */
  lemma CommitIff(ms: seq<Message>, o: Origin, fold: seq<Message>, window: nat)
    requires Sorted(ms) && Reads(ms, o, fold, window)
    ensures fold != [] && fold[|fold| - 1] == ms[o.end - 1]
    ensures Picked(ms, Some(ms[o.end - 1].time), o.stands + Stretch(o.from, o.end), window)
    ensures Covered(ms, Some(ms[o.end - 1].time)) >= o.end
    ensures Lossless(ms, Some(ms[o.end - 1].time), o.stands + Stretch(o.from, o.end)) <==>
              Lossless(ms, o.through, o.stands) && StrictAt(ms, o.end)
  {
    var through, stands := Some(ms[o.end - 1].time), o.stands + Stretch(o.from, o.end);
    CoveredIffTime(ms, through);
    assert o.end - 1 < Covered(ms, through);
    AscendingBelow(o.stands, o.from);
    forall k | k in stands ensures k < o.end {
      var p := Position(stands, k);
      assert p < |o.stands| ==> k in o.stands;
    }
    forall i, j | 0 <= i < j < |stands| ensures stands[i] < stands[j] {
      if i < |o.stands| {
        assert stands[i] in o.stands;
      }
    }
  }

  lemma {:induction false} CoveredGrows(ms: seq<Message>, m: Message, through: Option<int>)
    requires Sorted(ms + [m])
    ensures Covered(ms, through) <= Covered(ms + [m], through)
    ensures Covered(ms, through) < |ms| ==> Covered(ms + [m], through) == Covered(ms, through)
  {
    if ms == [] {
    } else {
      assert (ms + [m])[1..] == ms[1..] + [m];
      CoveredGrows(ms[1..], m, through);
    }
  }

  /** Appending a message neither loses nor recovers one. */
  lemma AppendKeepsPicked(ms: seq<Message>, m: Message, through: Option<int>, stands: seq<nat>, window: nat)
    requires Sorted(ms + [m]) && Picked(ms, through, stands, window) && window > 0
    ensures Picked(ms + [m], through, stands, window)
    ensures Lossless(ms + [m], through, stands) <==> Lossless(ms, through, stands)
  {
    CoveredGrows(ms, m, through);
    AscendingBelow(stands, Covered(ms, through));
  }

  lemma AppendKeepsReads(ms: seq<Message>, m: Message, o: Origin, fold: seq<Message>, window: nat)
    requires Sorted(ms + [m]) && Reads(ms, o, fold, window) && window > 0
    ensures Reads(ms + [m], o, fold, window)
    ensures Lossless(ms + [m], o.through, o.stands) <==> Lossless(ms, o.through, o.stands)
  {
    hide Picked;
    AppendKeepsPicked(ms, m, o.through, o.stands, window);
    CoveredGrows(ms, m, o.through);
    assert (ms + [m])[o.from..o.end] == ms[o.from..o.end];
  }

  class Conversation {
    const window: nat
    var messages: seq<Message>
    var summary: Option<string>
    var through: Option<int>
    var tasks: map<TaskId, Task>
    var inflight: Option<TaskId>
    /** The positions of the messages the stored summary was made from, in folding order. */
    ghost var stands: seq<nat>
    /** What each running refresh had read. */
    ghost var origins: map<TaskId, Origin>
    /** Where the folds of all refreshes so far ended. */
    ghost var ends: set<nat>
    /** The refresh scheduled last. */
    ghost var latest: Option<TaskId>

    ghost predicate Valid()
      reads this
    {
      && window > 0 && Sorted(messages)
      && Picked(messages, through, stands, window) && (summary.None? <==> stands == [])
      && RefreshesOk(messages, tasks, origins, ends, window)
      && LosslessIfStrict(messages, through, stands, tasks, origins, ends, window)
      && inflight == (if latest.Some? && latest.value in tasks && tasks[latest.value] != Over then latest else None)
      && (latest.Some? ==> latest.value in tasks)
    }

    /** The settings allow a window of 2 to 100 messages. */
    constructor (window: nat)
      requires 2 <= window <= 100
      ensures Valid() && messages == [] && summary == None && through == None && tasks == map[] && this.window == window
    {
      this.window := window;
      messages, summary, through, tasks, inflight := [], None, None, map[], None;
      stands, origins, ends, latest := [], map[], {}, None;
    }

    /** A message is stored with a clock reading no earlier than those before it. */
    method Append(m: Message)
      requires Valid() && forall k :: k in messages ==> k.time <= m.time
      modifies this`messages
      ensures Valid() && messages == old(messages) + [m]
      ensures Lossless(messages, through, stands) <==> Lossless(old(messages), through, stands)
    {
      hide Picked, Reads, Lossless, StrictAt;
      assert forall k :: 0 <= k < |messages| ==> messages[k] in messages;
      AppendKeepsPicked(messages, m, through, stands, window);
      forall t | t in tasks && tasks[t].Folding?
        ensures Reads(messages + [m], origins[t], tasks[t].fold, window)
        ensures Lossless(messages + [m], origins[t].through, origins[t].stands) <==>
                  Lossless(messages, origins[t].through, origins[t].stands)
      {
        AppendKeepsReads(messages, m, origins[t], tasks[t].fold, window);
      }
      AppendKeepsStrict(messages, m, ends, window);
      messages := messages + [m];
    }

    method Schedule(t: TaskId)
      requires Valid() && t !in tasks
      modifies this`tasks, this`inflight, this`latest
      ensures Valid() && tasks == old(tasks)[t := Scheduled] && inflight == Some(t) && latest == Some(t)
    {
      hide Picked, Reads, Lossless, StrictAt, Sorted;
      tasks := tasks[t := Scheduled];
      inflight, latest := Some(t), Some(t);
    }

    /** The refresh reads the conversation and decides what to fold: everything the watermark does not cover but the
        newest `window` messages. With too little it is over at once. */
    method Begin(t: TaskId) returns (folding: bool)
      requires Valid() && t in tasks && tasks[t] == Scheduled
      modifies this`tasks, this`inflight, this`origins, this`ends
      ensures Valid()
      ensures folding <==> |messages| - Covered(messages, through) - window >= MIN_FOLD_MESSAGES
      ensures folding ==>
                var from, end := Covered(messages, through), |messages| - window;
                && tasks == old(tasks)[t := Folding(summary, messages[from..end])]
                && origins == old(origins)[t := Origin(through, stands, from, end)]
      ensures !folding ==> tasks == old(tasks)[t := Over] && origins == old(origins)
    {
      hide Picked, Reads, Lossless, StrictAt, Sorted;
      RowsAfterCovered(messages, through);
      var rows := RowsAfter(messages, through);
      var fold := ToFold(rows, window);
      if |fold| < MIN_FOLD_MESSAGES {
        Done(t);
        return false;
      }
      ghost var o := Origin(through, stands, Covered(messages, through), |messages| - window);
      FoldIsRead(messages, o, fold, window);
      tasks := tasks[t := Folding(summary, fold)];
      origins := origins[t := o];
      ends := ends + {o.end};
      return true;
    }

    /** The model answered, failed or timed out (`reply` None). Commits summary and watermark together. */
    method Finish(t: TaskId, reply: Option<string>) returns (updated: bool)
      requires Valid() && t in tasks && tasks[t].Folding?
      modifies this`summary, this`through, this`tasks, this`inflight, this`stands
      ensures Valid() && tasks == old(tasks)[t := Over]
      ensures t in origins && (updated <==> Accepted(old(tasks)[t].fold, reply).Some?)
      ensures updated ==>
                var o := origins[t];
                && o.from <= o.end && 0 < o.end <= |messages|
                && summary == Accepted(old(tasks)[t].fold, reply)
                && stands == o.stands + Stretch(o.from, o.end) && through == Some(messages[o.end - 1].time)
                && Covered(messages, through) >= o.end
                && (Lossless(messages, through, stands) <==>
                    Lossless(messages, o.through, o.stands) && StrictAt(messages, o.end))
      ensures !updated ==> summary == old(summary) && through == old(through) && stands == old(stands)
    {
      hide Accepted, Picked, Lossless, StrictAt, Sorted, Covered;
      var task := tasks[t];
      var text := Accepted(task.fold, reply);
      CommitIff(messages, origins[t], task.fold, window);
      hide Reads;
      if text.Some? {
        summary, through := text, Some(task.fold[|task.fold| - 1].time);
        stands := origins[t].stands + Stretch(origins[t].from, origins[t].end);
      }
      Done(t);
      return text.Some?;
    }

    /** The completion callback forgets the in-flight refresh only if it is still this one. */
    method Done(t: TaskId)
      requires Valid() && t in tasks
      modifies this`tasks, this`inflight
      ensures Valid() && tasks == old(tasks)[t := Over]
      ensures inflight == if old(inflight) == Some(t) then None else old(inflight)
    {
      hide Picked, Reads, Lossless, StrictAt, Sorted;
      tasks := tasks[t := Over];
      if inflight == Some(t) {
        inflight := None;
      }
    }

    /** One refresh with nothing in between: unless it failed, fewer than four messages are left outside both the
        watermark and the window. */
    method RefreshAlone(t: TaskId, reply: Option<string>) returns (failed: bool)
      requires Valid() && t !in tasks
      modifies this
      ensures Valid() && messages == old(messages)
      ensures !failed ==> |messages| - Covered(messages, through) - window < MIN_FOLD_MESSAGES
      ensures failed ==> summary == old(summary) && through == old(through) && stands == old(stands)
    {
      hide Picked, Reads, Lossless, StrictAt, Sorted, Covered, RefreshesOk, LosslessIfStrict;
      Schedule(t);
      var folding := Begin(t);
      if !folding {
        return false;
      }
      var updated := Finish(t, reply);
      return !updated;
    }

    /** While times increase, no run loses a message; and the newest ones, as many as the window holds, are never
        among the folded. */
    lemma IncreasingTimesLoseNothing()
      requires Valid() && Increasing(messages)
      ensures forall k :: k in stands ==> k + window < |messages|
      ensures forall i :: 0 <= i < |messages| ==> (i in stands <==> through.Some? && messages[i].time <= through.value)
    {
      assert forall e :: e in ends ==> StrictAt(messages, e);
      LosslessIff(messages, through, stands, window);
    }
  }

  /** Six messages, of which the fourth and the fifth share a time. */
  function Tie(): seq<Message> {
    [Message(1, "user", "a"), Message(2, "assistant", "b"), Message(3, "user", "c"),
     Message(4, "assistant", "d"), Message(4, "user", "e"), Message(5, "assistant", "f")]
  }

  method StoreTie() returns (c: Conversation)
    ensures fresh(c) && c.Valid() && c.window == 2 && c.messages == Tie()
    ensures c.tasks == map[] && c.summary == None && c.through == None && c.stands == []
  {
    hide Picked, RefreshesOk, LosslessIfStrict, Sorted, Lossless;
    c := new Conversation(2);
    for i := 0 to 6
      invariant fresh(c) && c.Valid() && c.messages == Tie()[..i]
      invariant c.tasks == map[] && c.summary == None && c.through == None && c.stands == []
    {
      assert forall k :: 0 <= k < i ==> Tie()[..i][k] == Tie()[k];
      c.Append(Tie()[i]);
      assert Tie()[..i + 1] == Tie()[..i] + [Tie()[i]];
    }
  }

  /** A run that loses a message: the fold ends between the two that share a time. The summary does not stand for the
      fifth message, and no later refresh reads it. */
  method EqualTimesLoseAMessage() returns (c: Conversation)
    ensures fresh(c) && c.Valid() && c.window == 2 && c.messages == Tie()
    ensures !Lossless(c.messages, c.through, c.stands)
    ensures 4 !in c.stands && RowsAfter(c.messages, c.through) == c.messages[5..]
  {
    hide Picked, Reads, RefreshesOk, LosslessIfStrict, Sorted, Accepted, RowsAfter, Lossless;
    c := StoreTie();
    c.Schedule(0);
    var folding := c.Begin(0);
    assert c.origins[0] == Origin(None, [], 0, 4);
    AcceptsShortReply(c.tasks[0].fold);
    var updated := c.Finish(0, Some("s"));
    RowsAfterFoldIff(c.messages, 5);
  }

  lemma AcceptsShortReply(fold: seq<Message>)
    requires fold != [] && Spoken(fold[0])
    ensures Accepted(fold, Some("s")).Some?
  {
    SomebodySpoke(fold);
    ShortReply();
    hide Lines, Strip;
  }

  lemma ShortReply()
    ensures Strip("s") == "s" && |"s"| == 1
  {
    hide Strip;
    assert !IsSpace('s');
    StripMeans("s", "s", 0);
  }

  ghost predicate SomebodySpeaks(fold: seq<Message>) {
    exists m :: m in fold && (m.role == "user" || m.role == "assistant")
  }

  lemma SomebodySpoke(fold: seq<Message>)
    ensures Lines(fold) != [] <==> SomebodySpeaks(fold)
  {
    KeptInOrder(fold, Spoken);
    var told := Kept(fold, Spoken);
    assert |Lines(fold)| == |told|;
    hide Kept, KeptAt, InStoredOrder, Lines;
    if told != [] {
      assert told[0] in told;
    } else {
      assert forall m :: m in fold && Spoken(m) ==> m in told;
    }
  }

  lemma AppendKeepsStrict(ms: seq<Message>, m: Message, ends: set<nat>, window: nat)
    requires window > 0 && forall e :: e in ends ==> 0 < e && e + window <= |ms|
    ensures forall e :: e in ends ==> (StrictAt(ms + [m], e) <==> StrictAt(ms, e))
  {}

  lemma FoldIsRead(ms: seq<Message>, o: Origin, fold: seq<Message>, window: nat)
    requires Picked(ms, o.through, o.stands, window) && o.from == Covered(ms, o.through)
    requires fold == ToFold(ms[o.from..], window) && |fold| >= MIN_FOLD_MESSAGES && o.end == |ms| - window
    ensures fold == ms[o.from..o.end] && Reads(ms, o, fold, window)
  {
    hide Picked;
    assert ms[o.from..][..|ms| - o.from - window] == ms[o.from..|ms| - window];
  }

  /** The role, and the message or its first 2000 characters. */
  ghost predicate Shows(line: string, m: Message) {
    exists n: nat ::
      n <= |m.content| && n <= 2000 && (n < 2000 ==> n == |m.content|) && line == m.role + ": " + m.content[..n]
  }

  /** The lines are those of the messages at the positions `at`, in order: all that the user or the assistant wrote. */
  ghost predicate LinesAt(fold: seq<Message>, lines: seq<string>, at: seq<nat>) {
    && |lines| == |at| && (forall j, k :: 0 <= j < k < |at| ==> at[j] < at[k])
    && (forall i: nat :: i in at <==> i < |fold| && (fold[i].role == "user" || fold[i].role == "assistant"))
    && forall k :: 0 <= k < |at| ==> at[k] < |fold| && Shows(lines[k], fold[at[k]])
  }

  lemma LinesFollowFold(fold: seq<Message>)
    ensures exists at :: LinesAt(fold, Lines(fold), at)
  {
    hide Kept, KeptAt, Lines, Shows, InStoredOrder;
    var at, told := KeptAt(fold, Spoken), Kept(fold, Spoken);
    SpokenAt(fold);
    LinesOfTold(fold, told);
    ToldAt(fold, told, Lines(fold), at);
    assert LinesAt(fold, Lines(fold), at);
  }

  lemma SpokenAt(fold: seq<Message>)
    ensures InStoredOrder(fold, Kept(fold, Spoken), KeptAt(fold, Spoken))
    ensures forall i: nat :: i in KeptAt(fold, Spoken) <==>
              i < |fold| && (fold[i].role == "user" || fold[i].role == "assistant")
  {
    KeptInOrder(fold, Spoken);
    hide Kept, KeptAt, InStoredOrder;
  }

  lemma ToldAt(fold: seq<Message>, told: seq<Message>, lines: seq<string>, at: seq<nat>)
    requires InStoredOrder(fold, told, at)
    requires |lines| == |told| && forall k :: 0 <= k < |told| ==> Shows(lines[k], told[k])
    ensures |lines| == |at| && (forall j, k :: 0 <= j < k < |at| ==> at[j] < at[k])
    ensures forall k :: 0 <= k < |at| ==> at[k] < |fold| && Shows(lines[k], fold[at[k]])
  {
    hide Shows;
  }

  lemma LinesOfTold(fold: seq<Message>, told: seq<Message>)
    requires told == Kept(fold, Spoken)
    ensures |Lines(fold)| == |told| && forall k :: 0 <= k < |told| ==> Shows(Lines(fold)[k], told[k])
  {
    hide Shows, Kept;
    forall k | 0 <= k < |told| ensures Shows(Lines(fold)[k], told[k]) {
      LineShows(told[k]);
    }
  }

  /** A fold in which only the two speak gives a line for every message. */
  lemma SpokenFoldIsTold(fold: seq<Message>)
    requires forall m :: m in fold ==> Spoken(m)
    ensures |Lines(fold)| == |fold|
  {
    AllKept(fold, Spoken);
    hide Kept;
  }

  lemma LineShows(m: Message)
    ensures Shows(Line(m), m)
  {
    var n := if |m.content| > MESSAGE_CHARS then MESSAGE_CHARS else |m.content|;
    assert m.content[..|m.content|] == m.content;
    assert Line(m) == m.role + ": " + m.content[..n];
  }

  /** What is stored is the head of the reply without the white space around it; nothing is stored if nobody spoke, if
      that is empty, or if it is more than twice too long. */
  lemma AcceptedMeans(fold: seq<Message>, reply: string, i: nat, text: string)
    requires StrippedAt(reply, text, i)
    ensures Accepted(fold, Some(reply)) ==
            if SomebodySpeaks(fold) && 0 < |text| <= 3000
            then Some(text[..if |text| < 1500 then |text| else 1500])
            else None
    ensures Accepted(fold, None) == None
  {
    StripMeans(reply, text, i);
    SomebodySpoke(fold);
    assert text[..|text|] == text;
    hide Strip, StrippedAt, Lines, SomebodySpeaks;
  }
}
