/** The answer stream: frames are printed on one side, keepalive comments are woven in, the text arrives in
    arbitrary chunks, and an incremental reader hands the events over again. The wire format is a subset of
    server-sent events (WHATWG HTML Living Standard, section 9.2). */
module EventStream {
  import opened Basics

  /** The JSON layer. `decode` is None where the parser throws. */
  datatype Codec<!E(!new)> = Codec(encode: E -> string, decode: string -> Option<E>) {
    /** JSON text escapes line feeds and parses back to what was printed. */
    ghost predicate Faithful() {
      forall e: E :: '\n' !in encode(e) && decode(encode(e)) == Some(e)
    }
  }

  // ---- printing -------------------------------------------------------------------

  const DATA := "data: "
  const KEEPALIVE := ": keepalive"
  const BREAK := "\n\n"

  /** A frame without its terminating blank line. None is a keepalive comment. */
  function FrameBody<E(!new)>(c: Codec<E>, item: Option<E>): string {
    match item
    case Some(e) => DATA + c.encode(e)
    case None => KEEPALIVE
  }

  function Frame<E(!new)>(c: Codec<E>, item: Option<E>): string {
    FrameBody(c, item) + BREAK
  }

  function WireText<E(!new)>(c: Codec<E>, items: seq<Option<E>>): string {
    if items == [] then "" else Frame(c, items[0]) + WireText(c, items[1..])
  }

  /** The events among the items, in order. */
  function Sent<E>(items: seq<Option<E>>): seq<E> {
    if items == [] then []
    else (if items[0].Some? then [items[0].value] else []) + Sent(items[1..])
  }

  /** Where frame i stands when the comments of each wait stand right before the frame that was waited for. */
  function At(timeouts: seq<nat>, i: nat): nat
    requires i < |timeouts|
  {
    i + Sum(timeouts[..i + 1])
  }

  /** Keepalives are emitted while the next frame is late. `timeouts[i]` is how often the wait for frame i ran
      out; the last entry is the wait for the end of the stream. */
  method Heartbeat<T>(frames: seq<T>, timeouts: seq<nat>) returns (out: seq<Option<T>>)
    requires |timeouts| == |frames| + 1
    ensures Sent(out) == frames
    ensures |out| == |frames| + Sum(timeouts)
    ensures forall i :: 0 <= i < |frames| ==> At(timeouts, i) < |out| && out[At(timeouts, i)] == Some(frames[i])
  {
    out := [];
    var pending, late := 0, timeouts[0];
    while true
      invariant 0 <= pending <= |frames| && 0 <= late <= timeouts[pending]
      invariant Sent(out) == frames[..pending]
      invariant |out| + late == pending + Sum(timeouts[..pending + 1])
      invariant forall i :: 0 <= i < pending ==> At(timeouts, i) < |out| && out[At(timeouts, i)] == Some(frames[i])
      decreases |frames| - pending, late
    {
      if late > 0 {
        SentAppend(out, None);
        out := out + [None];
        late := late - 1;
        continue;
      }
      if pending == |frames| {
        break;
      }
      SentAppend(out, Some(frames[pending]));
      out := out + [Some(frames[pending])];
      pending := pending + 1;
      late := timeouts[pending];
      assert timeouts[..pending + 1][..pending] == timeouts[..pending];
    }
    assert timeouts[..pending + 1] == timeouts;
  }

  lemma {:induction false} SentAppend<T>(items: seq<Option<T>>, item: Option<T>)
    ensures Sent(items + [item]) == Sent(items) + if item.Some? then [item.value] else []
  {
    if items == [] {
      assert [item][1..] == [];
    } else {
      SentAppend(items[1..], item);
      assert (items + [item])[1..] == items[1..] + [item];
    }
  }

  // ---- splitting --------------------------------------------------------------------

  predicate BreakAt(s: string, i: nat) {
    i + 1 < |s| && s[i] == '\n' && s[i + 1] == '\n'
  }

  /** The first blank line at or after `from`, or |s|. */
  function NextBreak(s: string, from: nat): (i: nat)
    requires from <= |s|
    ensures from <= i <= |s|
    ensures i < |s| ==> BreakAt(s, i)
    ensures forall k :: from <= k < i ==> !BreakAt(s, k)
    decreases |s| - from
  {
    if from == |s| || BreakAt(s, from) then from else NextBreak(s, from + 1)
  }

  /** s.split("\n\n") */
  function SplitFrames(s: string): (pieces: seq<string>)
    ensures |pieces| > 0
    decreases |s|
  {
    var i := NextBreak(s, 0);
    if i == |s| then [s] else [s[..i]] + SplitFrames(s[i + 2..])
  }

  /** The first line starting with "data: ", if any: frame.split("\n").find(...). */
  function DataLine(frame: string, from: nat): (line: Option<string>)
    requires from <= |frame|
    ensures line.Some? ==> DATA <= line.value
    decreases |frame| - from
  {
    var end := LineEnd(frame, from);
    var line := frame[from..end];
    if DATA <= line then Some(line)
    else if end == |frame| then None
    else DataLine(frame, end + 1)
  }

  function LineEnd(s: string, from: nat): (i: nat)
    requires from <= |s|
    ensures from <= i <= |s|
    ensures i < |s| ==> s[i] == '\n'
    ensures forall k :: from <= k < i ==> s[k] != '\n'
    decreases |s| - from
  {
    if from == |s| || s[from] == '\n' then from else LineEnd(s, from + 1)
  }

  function FrameEvent<E(!new)>(c: Codec<E>, frame: string): Option<E> {
    match DataLine(frame, 0)
    case None => None
    case Some(line) => c.decode(line[|DATA|..])
  }

  function EventsIn<E(!new)>(c: Codec<E>, frames: seq<string>): seq<E> {
    if frames == [] then []
    else (match FrameEvent(c, frames[0]) case Some(e) => [e] case None => []) + EventsIn(c, frames[1..])
  }

  /** The frames of a text that a blank line has ended, and what is left over. */
  function Complete(s: string): seq<string> {
    SplitFrames(s)[..|SplitFrames(s)| - 1]
  }

  function Rest(s: string): string {
    SplitFrames(s)[|SplitFrames(s)| - 1]
  }

  // ---- the incremental reader -------------------------------------------------------------

  /** Text that arrives later never changes the frames already cut: splitting resumes from the leftover. */
  lemma {:induction false} SplitResumes(s: string, t: string)
    ensures SplitFrames(s + t) == Complete(s) + SplitFrames(Rest(s) + t)
    decreases |s|
  {
    hide SplitFrames, Complete, Rest;
    var i := NextBreak(s, 0);
    FirstFrame(s);
    if i < |s| {
      SplitResumes(s[i + 2..], t);
      FirstBreakStays(s, t);
      FirstFrame(s + t);
      assert (s + t)[..i] == s[..i] && (s + t)[i + 2..] == s[i + 2..] + t;
    }
  }

  /** One step of the split. */
  lemma FirstFrame(s: string)
    ensures var i := NextBreak(s, 0);
            if i == |s| then Complete(s) == [] && Rest(s) == s
            else
              && SplitFrames(s) == [s[..i]] + SplitFrames(s[i + 2..])
              && Complete(s) == [s[..i]] + Complete(s[i + 2..]) && Rest(s) == Rest(s[i + 2..])
  {
    hide NextBreak;
    var i := NextBreak(s, 0);
    if i < |s| {
    }
  }

  lemma FirstBreakStays(s: string, t: string)
    requires NextBreak(s, 0) < |s|
    ensures NextBreak(s + t, 0) == NextBreak(s, 0)
  {
    var i, j := NextBreak(s, 0), NextBreak(s + t, 0);
    assert BreakAt(s + t, i);
    assert forall k :: 0 <= k < i ==> BreakAt(s + t, k) == BreakAt(s, k);
  }

  function Concat(chunks: seq<string>): string {
    if chunks == [] then "" else Concat(chunks[..|chunks| - 1]) + chunks[|chunks| - 1]
  }

  lemma {:induction false} EventsInConcat<E(!new)>(c: Codec<E>, a: seq<string>, b: seq<string>)
    ensures EventsIn(c, a + b) == EventsIn(c, a) + EventsIn(c, b)
  {
    if a == [] {
      assert a + b == b;
    } else {
      EventsInConcat(c, a[1..], b);
      assert (a + b)[1..] == a[1..] + b;
    }
  }

  /** The reader loop. `truncated` is the error raised when the stream ended without a closing event. Whatever
      the chunking, it hands over the events of the completed frames of the whole text. */
  method ReadStream<E(!new)>(c: Codec<E>, isFinal: E -> bool, chunks: seq<string>)
    returns (events: seq<E>, truncated: bool)
    ensures events == EventsIn(c, Complete(Concat(chunks)))
    ensures truncated <==> !exists e :: e in events && isFinal(e)
  {
    hide SplitFrames, FrameEvent, EventsIn;
    events := [];
    var buffer, terminated := "", false;
    NothingRead(c);
    for i := 0 to |chunks|
      invariant buffer == Rest(Concat(chunks[..i]))
      invariant events == EventsIn(c, Complete(Concat(chunks[..i])))
      invariant terminated <==> exists e :: e in events && isFinal(e)
    {
      ghost var seen := events;
      SplitResumes(Concat(chunks[..i]), chunks[i]);
      assert chunks[..i + 1][..i] == chunks[..i];
      buffer := buffer + chunks[i];
      var frames := SplitFrames(buffer);
      ghost var text := buffer;
      buffer := frames[|frames| - 1];
      frames := frames[..|frames| - 1];
      for k := 0 to |frames|
        invariant events == seen + EventsIn(c, frames[..k])
        invariant terminated <==> exists e :: e in events && isFinal(e)
      {
        OneMoreFrame(c, frames, k);
        var event := FrameEvent(c, frames[k]);
        if event.Some? {
          if isFinal(event.value) {
            terminated := true;
          }
          events := events + [event.value];
        }
      }
      assert frames[..|frames|] == frames;
      ChunkRead(c, Concat(chunks[..i]), chunks[i]);
    }
    assert chunks[..|chunks|] == chunks;
    truncated := !terminated;
  }

  lemma NothingRead<E(!new)>(c: Codec<E>)
    ensures Rest(Concat([])) == "" && EventsIn(c, Complete(Concat([]))) == [] && EventsIn(c, []) == []
  {}

  lemma OneMoreFrame<E(!new)>(c: Codec<E>, frames: seq<string>, k: nat)
    requires k < |frames|
    ensures EventsIn(c, frames[..k + 1]) ==
            EventsIn(c, frames[..k]) + match FrameEvent(c, frames[k]) case Some(e) => [e] case None => []
    ensures EventsIn(c, frames[..0]) == []
  {
    EventsInConcat(c, frames[..k], [frames[k]]);
    assert frames[..k + 1] == frames[..k] + [frames[k]];
    assert [frames[k]][1..] == [];
  }

  lemma ChunkRead<E(!new)>(c: Codec<E>, s: string, t: string)
    ensures Rest(s + t) == Rest(Rest(s) + t)
    ensures EventsIn(c, Complete(s + t)) == EventsIn(c, Complete(s)) + EventsIn(c, Complete(Rest(s) + t))
  {
    SplitResumes(s, t);
    assert Complete(s + t) == Complete(s) + Complete(Rest(s) + t);
    EventsInConcat(c, Complete(s), Complete(Rest(s) + t));
  }

  // ---- delivery ------------------------------------------------------------------------------

  /** A printed frame carries exactly its event, and a comment carries none. */
  lemma FrameRoundTrip<E(!new)>(c: Codec<E>, item: Option<E>)
    requires c.Faithful()
    ensures FrameEvent(c, FrameBody(c, item)) == item
  {
    var body := FrameBody(c, item);
    NoLineFeedInBody(c, item);
    assert LineEnd(body, 0) == |body|;
    assert body[0..|body|] == body;
    if item.Some? {
      assert body[|DATA|..] == c.encode(item.value);
    }
  }

  lemma NoLineFeedInBody<E(!new)>(c: Codec<E>, item: Option<E>)
    requires c.Faithful()
    ensures '\n' !in FrameBody(c, item)
  {}

  /** Where a text cut after its n-th character has its first blank line. */
  lemma BreakOfCut(body: string, rest: string, n: nat)
    requires '\n' !in body && n <= |body + BREAK + rest|
    ensures var text := (body + BREAK + rest)[..n];
            if n < |body| + 2 then NextBreak(text, 0) == n
            else
              && NextBreak(text, 0) == |body| && text[..|body|] == body
              && text[|body| + 2..] == rest[..n - |body| - 2]
  {
    var text := (body + BREAK + rest)[..n];
    assert forall k :: 0 <= k < |body| && k < n ==> text[k] == body[k] && text[k] in body;
    if n >= |body| + 2 {
      assert BreakAt(text, |body|);
    }
  }

  /** A cut inside the first frame leaves nothing completed; a cut behind it leaves the frame and the rest. */
  lemma CutFirstFrame<E(!new)>(c: Codec<E>, item: Option<E>, rest: string, n: nat)
    requires c.Faithful() && n <= |Frame(c, item) + rest|
    ensures n < |Frame(c, item)| ==> Complete((Frame(c, item) + rest)[..n]) == []
    ensures n >= |Frame(c, item)| ==>
              Complete((Frame(c, item) + rest)[..n]) == [FrameBody(c, item)] + Complete(rest[..n - |Frame(c, item)|])
  {
    hide Complete, Rest, SplitFrames, FrameBody;
    NoLineFeedInBody(c, item);
    BreakOfCut(FrameBody(c, item), rest, n);
    FirstFrame((Frame(c, item) + rest)[..n]);
  }

  /** How many whole frames the first n characters hold. */
  function WholeFrames<E(!new)>(c: Codec<E>, items: seq<Option<E>>, n: nat): (k: nat)
    ensures k <= |items|
  {
    if items == [] || n < |Frame(c, items[0])| then 0
    else 1 + WholeFrames(c, items[1..], n - |Frame(c, items[0])|)
  }

  /** A stream cut anywhere delivers exactly the events whose frames arrived whole: a prefix of what was sent.
      Comments woven in change nothing, and an uncut stream delivers everything. */
  lemma {:induction false} CutStreamDelivers<E(!new)>(c: Codec<E>, items: seq<Option<E>>, n: nat)
    requires c.Faithful() && n <= |WireText(c, items)|
    ensures EventsIn(c, Complete(WireText(c, items)[..n])) == Sent(items[..WholeFrames(c, items, n)])
    ensures n == |WireText(c, items)| <==> WholeFrames(c, items, n) == |items|
  {
    if items == [] {
      assert WireText(c, items)[..n] == "";
    } else {
      var rest := WireText(c, items[1..]);
      var size := |Frame(c, items[0])|;
      CutFirstFrame(c, items[0], rest, n);
      if n >= size {
        CutStreamDelivers(c, items[1..], n - size);
        FrameRoundTrip(c, items[0]);
        var k := WholeFrames(c, items[1..], n - size);
        assert items[..k + 1][1..] == items[1..][..k];
        assert [FrameBody(c, items[0])] + Complete(rest[..n - size]) != [];
      }
    }
  }

  lemma {:induction false} SentPrefix<T>(items: seq<Option<T>>, k: nat)
    requires k <= |items|
    ensures Sent(items[..k]) <= Sent(items)
  {
    if k == 0 {
    } else {
      SentPrefix(items[1..], k - 1);
      assert items[..k][1..] == items[1..][..k - 1];
    }
  }

  /** End to end: for any events, any keepalives woven among them, any cut and any chunking of what is left, the
      reader's result (see ReadStream) is a prefix of the sent events, the whole list if nothing was cut. */
  lemma Delivery<E(!new)>(c: Codec<E>, items: seq<Option<E>>, chunks: seq<string>)
    requires c.Faithful() && Concat(chunks) <= WireText(c, items)
    ensures EventsIn(c, Complete(Concat(chunks))) <= Sent(items)
    ensures Concat(chunks) == WireText(c, items) ==> EventsIn(c, Complete(Concat(chunks))) == Sent(items)
  {
    var n := |Concat(chunks)|;
    CutStreamDelivers(c, items, n);
    SentPrefix(items, WholeFrames(c, items, n));
    assert WireText(c, items)[..n] == Concat(chunks);
    assert items[..|items|] == items;
  }

  /** When only the last frame closes the stream, the truncation error is raised exactly when the stream was cut. */
  lemma TruncationIffCut<E(!new)>(c: Codec<E>, isFinal: E -> bool, before: seq<Option<E>>, last: E, chunks: seq<string>)
    requires c.Faithful() && Concat(chunks) <= WireText(c, before + [Some(last)])
    requires isFinal(last) && forall e :: e in Sent(before) ==> !isFinal(e)
    ensures (exists e :: e in EventsIn(c, Complete(Concat(chunks))) && isFinal(e)) <==>
              Concat(chunks) == WireText(c, before + [Some(last)])
  {
    var items := before + [Some(last)];
    var n := |Concat(chunks)|;
    var k := WholeFrames(c, items, n);
    CutStreamDelivers(c, items, n);
    assert WireText(c, items)[..n] == Concat(chunks);
    SentAppend(before, Some(last));
    if k < |items| {
      SentPrefix(before, k);
      assert items[..k] == before[..k];
    } else {
      assert items[..k] == items;
      assert Sent(items)[|Sent(before)|] == last;
    }
  }
}
