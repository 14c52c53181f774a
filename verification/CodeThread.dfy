/** Folding a coding session's events into what the screen shows. */
module CodeThread {
  import opened Basics

  datatype Info = Info(id: string, sessionID: string, rest: string)
  /** A part: its id, and its other text fields by name. */
  datatype Part = Part(id: string, fields: map<string, string>)
  datatype Message = Message(info: Info, parts: seq<Part>)
  datatype Ask = Ask(id: string, rest: string)

  datatype State = State(messages: seq<Message>, permissions: seq<Ask>, questions: seq<Ask>, busy: bool,
                         error: Option<string>)

  const EMPTY_THREAD := State([], [], [], false, None)

  /** Events as they arrive; each names the session it belongs to. `now` is the clock at arrival. */
  datatype Event =
    | MessageUpdated(info: Info)
    | PartUpdated(session: string, messageID: string, part: Part)
    | PartDelta(session: string, messageID: string, partID: string, field: string, delta: string)
    | PermissionAsked(session: string, ask: Ask)
    | PermissionReplied(id: string)
    | QuestionAsked(session: string, ask: Ask)
    | QuestionClosed(id: string)
    | SessionStatus(session: string, status: string)
    | SessionIdle(session: string)
    | SessionError(session: string, message: string)
    | Unknown

  datatype Arrival = Arrival(event: Event, now: int)

  // ---- the fold -------------------------------------------------------------------------

  /** The first index with this id, or the length. */
  function FindMessage(ms: seq<Message>, id: string): (i: nat)
    ensures i <= |ms| && (i < |ms| ==> ms[i].info.id == id)
    ensures forall k :: 0 <= k < i ==> ms[k].info.id != id
  {
    if ms == [] || ms[0].info.id == id then 0 else 1 + FindMessage(ms[1..], id)
  }

  function FindPart(ps: seq<Part>, id: string): (i: nat)
    ensures i <= |ps| && (i < |ps| ==> ps[i].id == id)
    ensures forall k :: 0 <= k < i ==> ps[k].id != id
  {
    if ps == [] || ps[0].id == id then 0 else 1 + FindPart(ps[1..], id)
  }

  function UpsertPart(m: Message, part: Part): Message {
    var i := FindPart(m.parts, part.id);
    m.(parts := if i == |m.parts| then m.parts + [part] else m.parts[i := part])
  }

  /** A part may arrive before its message: a placeholder is shown until the info comes. */
  function Placeholder(id: string, session: string, now: int): (m: Message)
    ensures m.info.id == id && m.info.sessionID == session && "assistant" <= m.info.rest && m.parts == []
  {
    Message(Info(id, session, "assistant, created " + (if now < 0 then "-" + Decimal(-now) else Decimal(now))), [])
  }

  function WithMessage(s: State, id: string, session: string, now: int, f: Message -> Message): State {
    var i := FindMessage(s.messages, id);
    if i == |s.messages| then s.(messages := s.messages + [f(Placeholder(id, session, now))])
    else s.(messages := s.messages[i := f(s.messages[i])])
  }

  function Field(p: Part, name: string): string {
    if name == "id" then p.id else if name in p.fields then p.fields[name] else ""
  }

  function WithField(p: Part, name: string, value: string): Part {
    if name == "id" then p.(id := value) else p.(fields := p.fields[name := value])
  }

  function FieldName(field: string): string {
    if field == "" then "text" else field
  }

  function FreshPart(session: string, messageID: string, partID: string, field: string, delta: string): Part {
    WithField(Part(partID, map["messageID" := messageID, "sessionID" := session,
                               "type" := if field == "text" then "text" else "reasoning"]), field, delta)
  }

  function AddDelta(m: Message, session: string, messageID: string, partID: string, field: string,
                    delta: string): Message {
    var i := FindPart(m.parts, partID);
    if i == |m.parts| then UpsertPart(m, FreshPart(session, messageID, partID, field, delta))
    else m.(parts := m.parts[i := WithField(m.parts[i], field, Field(m.parts[i], field) + delta)])
  }

  function HasAsk(asks: seq<Ask>, id: string): bool {
    exists a :: a in asks && a.id == id
  }

  function DropAsk(asks: seq<Ask>, id: string): seq<Ask> {
    Kept(asks, (a: Ask) => a.id != id)
  }

  function ApplyEvent(s: State, e: Event, session: string, now: int): State {
    match e
    case MessageUpdated(info) =>
      if info.sessionID != session then s
      else WithMessage(s, info.id, session, now, (m: Message) => Message(info, m.parts))
    case PartUpdated(of, messageID, part) =>
      if of != session then s else WithMessage(s, messageID, session, now, (m: Message) => UpsertPart(m, part))
    case PartDelta(of, messageID, partID, field, delta) =>
      if of != session then s
      else WithMessage(s, messageID, session, now,
                       (m: Message) => AddDelta(m, session, messageID, partID, FieldName(field), delta))
    case PermissionAsked(of, ask) =>
      if of != session || HasAsk(s.permissions, ask.id) then s else s.(permissions := s.permissions + [ask])
    case PermissionReplied(id) =>
      if !HasAsk(s.permissions, id) then s else s.(permissions := DropAsk(s.permissions, id))
    case QuestionAsked(of, ask) =>
      if of != session || HasAsk(s.questions, ask.id) then s else s.(questions := s.questions + [ask])
    case QuestionClosed(id) =>
      if !HasAsk(s.questions, id) then s else s.(questions := DropAsk(s.questions, id))
    case SessionStatus(of, status) => if of != session then s else s.(busy := status == "busy" || status == "retry")
    case SessionIdle(of) => if of != session then s else s.(busy := false)
    case SessionError(of, message) => if of != session then s else s.(busy := false, error := Some(message))
    case Unknown => s
  }

  function Fold(s: State, events: seq<Arrival>, session: string): State {
    if events == [] then s
    else
      var last := events[|events| - 1];
      ApplyEvent(Fold(s, events[..|events| - 1], session), last.event, session, last.now)
  }

  // ---- what one event does -------------------------------------------------------------------

  /** `after` holds x at position i, in place of what stood there or as a new last element, and else is `before`. */
  ghost predicate OneReplaced<T(!new)>(before: seq<T>, after: seq<T>, i: nat, x: T) {
    && i <= |before| && |after| == |before| + (if i == |before| then 1 else 0) && after[i] == x
    && forall k :: 0 <= k < |before| && k != i ==> after[k] == before[k]
  }

  /** The message with this id, or what stands for one that is not there yet. */
  function Current(s: State, id: string, session: string, now: int): Message {
    var i := FindMessage(s.messages, id);
    if i < |s.messages| then s.messages[i] else Placeholder(id, session, now)
  }

  /** Only the message `id` changed (or came last, if it was not there), and it now is m. */
  ghost predicate MessageBecomes(s: State, r: State, id: string, m: Message) {
    r == s.(messages := r.messages) && OneReplaced(s.messages, r.messages, FindMessage(s.messages, id), m)
  }

  /** The part a delta leaves: the field grows, and a part nobody knew yet starts with it. */
  ghost predicate Grown(was: Message, now: Message, session: string, partID: string, name: string, delta: string) {
    var j := FindPart(was.parts, partID);
    && now.info == was.info && j < |now.parts| && now.parts[j].id == partID
    && OneReplaced(was.parts, now.parts, j, now.parts[j])
    && (if j < |was.parts| then
          var fields := was.parts[j].fields;
          now.parts[j].fields == fields[name := (if name in fields then fields[name] else "") + delta]
        else
          now.parts[j].fields == map["messageID" := was.info.id, "sessionID" := session,
                                     "type" := if name == "text" then "text" else "reasoning"][name := delta])
  }

  /** Afterwards the ask is listed: where it was, or last. */
  ghost predicate Listed(before: seq<Ask>, after: seq<Ask>, ask: Ask) {
    if exists a :: a in before && a.id == ask.id then after == before else after == before + [ask]
  }

  /** Afterwards no ask has this id, and all others stand in their order. */
  ghost predicate Closed(before: seq<Ask>, after: seq<Ask>, id: string) {
    exists at ::
      && InStoredOrder(before, after, at)
      && forall i: nat :: i in at <==> i < |before| && before[i].id != id
  }

  /** What an event of the session does to the thread; a delta that rewrites an id is not covered. */
  ghost predicate Follows(s: State, e: Event, session: string, now: int, r: State) {
    match e
    case MessageUpdated(info) =>
      info.sessionID == session ==>
        MessageBecomes(s, r, info.id, Message(info, Current(s, info.id, session, now).parts))
    case PartUpdated(of, messageID, part) =>
      of == session ==>
        var was := Current(s, messageID, session, now);
        exists m ::
          && MessageBecomes(s, r, messageID, m) && m.info == was.info
          && OneReplaced(was.parts, m.parts, FindPart(was.parts, part.id), part)
    case PartDelta(of, messageID, partID, field, delta) =>
      of == session && field != "id" ==>
        exists m ::
          && MessageBecomes(s, r, messageID, m)
          && Grown(Current(s, messageID, session, now), m, session, partID, if field == "" then "text" else field,
                   delta)
    case PermissionAsked(of, ask) =>
      of == session ==> r == s.(permissions := r.permissions) && Listed(s.permissions, r.permissions, ask)
    case PermissionReplied(id) => r == s.(permissions := r.permissions) && Closed(s.permissions, r.permissions, id)
    case QuestionAsked(of, ask) =>
      of == session ==> r == s.(questions := r.questions) && Listed(s.questions, r.questions, ask)
    case QuestionClosed(id) => r == s.(questions := r.questions) && Closed(s.questions, r.questions, id)
    case SessionStatus(of, status) =>
      of == session ==> r == s.(busy := r.busy) && (r.busy <==> status in {"busy", "retry"})
    case SessionIdle(of) => of == session ==> r == s.(busy := r.busy) && !r.busy
    case SessionError(of, message) =>
      of == session ==> r == s.(busy := r.busy, error := r.error) && !r.busy && r.error == Some(message)
    case Unknown => r == s
  }

  /** The session an event names, if it names one. */
  function SessionOf(e: Event): Option<string> {
    match e
    case MessageUpdated(info) => Some(info.sessionID)
    case PermissionReplied(_) => None
    case QuestionClosed(_) => None
    case Unknown => None
    case _ => Some(e.session)
  }

  /** Each event stores what it carries, where it belongs, and nothing else; events of other sessions do nothing. */
  lemma EventFollows(s: State, e: Event, session: string, now: int)
    ensures Follows(s, e, session, now, ApplyEvent(s, e, session, now))
    ensures SessionOf(e).Some? && SessionOf(e).value != session ==> ApplyEvent(s, e, session, now) == s
  {
    hide WithMessage, UpsertPart, AddDelta, MessageBecomes, OneReplaced, Grown, DropAsk, Closed, FindMessage, FindPart,
         Current;
    match e
    case MessageUpdated(info) =>
      WithMessageReplaces(s, info.id, session, now, (m: Message) => Message(info, m.parts));
    case PartUpdated(_, messageID, part) =>
      WithMessageReplaces(s, messageID, session, now, (m: Message) => UpsertPart(m, part));
      UpsertReplaces(Current(s, messageID, session, now), part);
    case PartDelta(_, messageID, partID, field, delta) =>
      WithMessageReplaces(s, messageID, session, now,
        (m: Message) => AddDelta(m, session, messageID, partID, FieldName(field), delta));
      CurrentHasId(s, messageID, session, now);
      if field != "id" {
        DeltaGrows(Current(s, messageID, session, now), session, partID, FieldName(field), delta);
      }
    case PermissionReplied(id) => AskCloses(s.permissions, id);
    case QuestionClosed(id) => AskCloses(s.questions, id);
    case _ =>
  }

  lemma WithMessageReplaces(s: State, id: string, session: string, now: int, f: Message -> Message)
    ensures MessageBecomes(s, WithMessage(s, id, session, now, f), id, f(Current(s, id, session, now)))
  {}

  lemma CurrentHasId(s: State, id: string, session: string, now: int)
    ensures Current(s, id, session, now).info.id == id
  {}

  lemma UpsertReplaces(m: Message, part: Part)
    ensures OneReplaced(m.parts, UpsertPart(m, part).parts, FindPart(m.parts, part.id), part)
    ensures UpsertPart(m, part).info == m.info
  {}

  lemma DeltaGrows(m: Message, session: string, partID: string, name: string, delta: string)
    requires name != "id"
    ensures Grown(m, AddDelta(m, session, m.info.id, partID, name, delta), session, partID, name, delta)
  {}

  lemma AskCloses(asks: seq<Ask>, id: string)
    ensures Closed(asks, if HasAsk(asks, id) then DropAsk(asks, id) else asks, id)
  {
    if HasAsk(asks, id) {
      DroppedInOrder(asks, id);
    } else {
      var at := seq<nat>(|asks|, i => i);
      assert InStoredOrder(asks, asks, at);
      assert forall i: nat :: i in at <==> i < |asks| && asks[i].id != id by {
        forall i: nat | i < |asks| ensures i in at && asks[i].id != id {
          assert at[i] == i && asks[i] in asks;
        }
      }
    }
  }

  // ---- ids stay unique ----------------------------------------------------------------------

  ghost predicate PartsUnique(m: Message) {
    forall i, j :: 0 <= i < j < |m.parts| ==> m.parts[i].id != m.parts[j].id
  }

  ghost predicate AsksUnique(asks: seq<Ask>) {
    forall i, j :: 0 <= i < j < |asks| ==> asks[i].id != asks[j].id
  }

  ghost predicate IdsUnique(s: State) {
    && (forall i, j :: 0 <= i < j < |s.messages| ==> s.messages[i].info.id != s.messages[j].info.id)
    && (forall m :: m in s.messages ==> PartsUnique(m))
    && AsksUnique(s.permissions) && AsksUnique(s.questions)
  }

  /** The one event that can spoil them: a delta addressed to the id itself. */
  predicate RewritesAnId(e: Event, session: string) {
    e.PartDelta? && e.session == session && e.field == "id" && e.delta != ""
  }

  lemma UpsertKeepsUnique(m: Message, part: Part)
    requires PartsUnique(m)
    ensures PartsUnique(UpsertPart(m, part))
  {}

  lemma DeltaKeepsUnique(m: Message, session: string, messageID: string, partID: string, field: string, delta: string)
    requires PartsUnique(m) && (field == "id" ==> delta == "")
    ensures PartsUnique(AddDelta(m, session, messageID, partID, field, delta))
  {}

  /** Exactly the asks with another id are left, in their order. */
  lemma DroppedInOrder(asks: seq<Ask>, id: string)
    ensures exists at ::
              && InStoredOrder(asks, DropAsk(asks, id), at)
              && forall i: nat :: i in at <==> i < |asks| && asks[i].id != id
    ensures forall a :: a in DropAsk(asks, id) <==> a in asks && a.id != id
  {
    var other := (a: Ask) => a.id != id;
    KeptInOrder(asks, other);
    hide InStoredOrder;
    var at := KeptAt(asks, other);
    assert InStoredOrder(asks, DropAsk(asks, id), at);
    assert forall i: nat :: i in at <==> i < |asks| && asks[i].id != id;
  }

  lemma DropKeepsUnique(asks: seq<Ask>, id: string)
    requires AsksUnique(asks)
    ensures AsksUnique(DropAsk(asks, id))
  {
    DroppedInOrder(asks, id);
    hide DropAsk;
  }

  lemma WithMessageKeepsUnique(s: State, id: string, session: string, now: int, f: Message -> Message)
    requires IdsUnique(s)
    requires forall m: Message :: f(m).info.id == id || f(m).info == m.info
    requires forall m: Message :: PartsUnique(m) ==> PartsUnique(f(m))
    ensures IdsUnique(WithMessage(s, id, session, now, f))
  {
    var r := WithMessage(s, id, session, now, f);
    assert PartsUnique(Placeholder(id, session, now));
    forall m | m in r.messages ensures PartsUnique(m) {
      var k := Position(r.messages, m);
      assert k < |s.messages| ==> s.messages[k] in s.messages;
    }
  }

  /** Applying an event keeps message, part, permission and question ids unique. */
  lemma EventKeepsUnique(s: State, e: Event, session: string, now: int)
    requires IdsUnique(s) && !RewritesAnId(e, session)
    ensures IdsUnique(ApplyEvent(s, e, session, now))
  {
    match e
    case MessageUpdated(info) =>
      WithMessageKeepsUnique(s, info.id, session, now, (m: Message) => Message(info, m.parts));
    case PartUpdated(of, messageID, part) =>
      forall m: Message | PartsUnique(m) ensures PartsUnique(UpsertPart(m, part)) { UpsertKeepsUnique(m, part); }
      WithMessageKeepsUnique(s, messageID, session, now, (m: Message) => UpsertPart(m, part));
    case PartDelta(of, messageID, partID, field, delta) =>
      if of == session {
        forall m: Message | PartsUnique(m)
          ensures PartsUnique(AddDelta(m, session, messageID, partID, FieldName(field), delta))
        {
          DeltaKeepsUnique(m, session, messageID, partID, FieldName(field), delta);
        }
        WithMessageKeepsUnique(s, messageID, session, now,
          (m: Message) => AddDelta(m, session, messageID, partID, FieldName(field), delta));
      }
    case PermissionReplied(id) => DropKeepsUnique(s.permissions, id);
    case QuestionClosed(id) => DropKeepsUnique(s.questions, id);
    case _ =>
  }

  /** ... and keeps them unique in every state if and only if it is not a delta that rewrites an id. */
  lemma KeepsUniqueIff(e: Event, session: string, now: int)
    ensures (forall s :: IdsUnique(s) ==> IdsUnique(ApplyEvent(s, e, session, now))) <==> !RewritesAnId(e, session)
  {
    if RewritesAnId(e, session) {
      var s := Spoiled(e, session);
      SpoiledByIdDelta(e, session, now);
      assert IdsUnique(s) && !IdsUnique(ApplyEvent(s, e, session, now));
    } else {
      forall s | IdsUnique(s) ensures IdsUnique(ApplyEvent(s, e, session, now)) {
        EventKeepsUnique(s, e, session, now);
      }
    }
  }

  /** A state in which the delta makes one part's id collide with another's. */
  function Spoiled(e: Event, session: string): State
    requires RewritesAnId(e, session)
  {
    State([Message(Info(e.messageID, session, ""), [Part(e.partID, map[]), Part(e.partID + e.delta, map[])])], [], [],
          false, None)
  }

  lemma SpoiledByIdDelta(e: Event, session: string, now: int)
    requires RewritesAnId(e, session)
    ensures IdsUnique(Spoiled(e, session)) && !IdsUnique(ApplyEvent(Spoiled(e, session), e, session, now))
  {
    var s := Spoiled(e, session);
    var r := ApplyEvent(s, e, session, now);
    var m := s.messages[0];
    assert m.parts[1].id == e.partID + e.delta;
    assert FindPart(m.parts, e.partID) == 0 && FindMessage(s.messages, e.messageID) == 0;
    var spoiled := AddDelta(m, session, e.messageID, e.partID, "id", e.delta);
    assert spoiled.parts[0].id == e.partID + e.delta == spoiled.parts[1].id;
    assert r.messages[0] == spoiled && spoiled in r.messages;
    assert m.parts[0].id != m.parts[1].id by {
      assert |e.partID + e.delta| > |e.partID|;
    }
  }

  // ---- messages appear in the order of their first mention ----------------------------------------

  function MessageIds(s: State): (ids: seq<string>)
    ensures |ids| == |s.messages| && forall i :: 0 <= i < |ids| ==> ids[i] == s.messages[i].info.id
  {
    seq(|s.messages|, i requires 0 <= i < |s.messages| => s.messages[i].info.id)
  }

  /** The message an event of this session is about. */
  function Mention(e: Event, session: string): Option<string> {
    match e
    case MessageUpdated(info) => if info.sessionID == session then Some(info.id) else None
    case PartUpdated(of, messageID, _) => if of == session then Some(messageID) else None
    case PartDelta(of, messageID, _, _, _) => if of == session then Some(messageID) else None
    case _ => None
  }

  /** The mentioned messages, each at its first mention. */
  function FirstMentions(events: seq<Arrival>, session: string): seq<string> {
    if events == [] then []
    else
      var before := FirstMentions(events[..|events| - 1], session);
      var m := Mention(events[|events| - 1].event, session);
      if m.Some? && m.value !in before then before + [m.value] else before
  }

  lemma WithMessageIds(s: State, id: string, session: string, now: int, f: Message -> Message)
    requires forall m: Message :: m.info.id == id ==> f(m).info.id == id
    ensures MessageIds(WithMessage(s, id, session, now, f)) ==
            MessageIds(s) + if id in MessageIds(s) then [] else [id]
  {
    var i := FindMessage(s.messages, id);
    assert Placeholder(id, session, now).info.id == id;
    if i < |s.messages| {
      assert MessageIds(s)[i] == id;
    }
  }

  lemma EventMentions(s: State, e: Event, session: string, now: int)
    ensures var m := Mention(e, session);
            MessageIds(ApplyEvent(s, e, session, now)) ==
            MessageIds(s) + if m.Some? && m.value !in MessageIds(s) then [m.value] else []
  {
    PartsKeepInfo(session);
    hide WithMessage, UpsertPart, AddDelta;
    match e
    case MessageUpdated(info) =>
      if info.sessionID == session {
        WithMessageIds(s, info.id, session, now, (m: Message) => Message(info, m.parts));
      }
    case PartUpdated(of, to, part) =>
      if of == session {
        WithMessageIds(s, to, session, now, (m: Message) => UpsertPart(m, part));
      }
    case PartDelta(of, to, toPart, field, delta) =>
      if of == session {
        WithMessageIds(s, to, session, now, (m: Message) => AddDelta(m, session, to, toPart, FieldName(field), delta));
      }
    case _ =>
  }

  /** Over any stream, the thread's messages are exactly the mentioned ones, in first-mention order. */
  lemma {:induction false} MessagesInMentionOrder(events: seq<Arrival>, session: string)
    ensures MessageIds(Fold(EMPTY_THREAD, events, session)) == FirstMentions(events, session)
  {
    if events == [] {
    } else {
      var init, last := events[..|events| - 1], events[|events| - 1];
      MessagesInMentionOrder(init, session);
      EventMentions(Fold(EMPTY_THREAD, init, session), last.event, session, last.now);
    }
  }

  // ---- order does not matter between a message's info and its parts ---------------------------------

  lemma WithMessageTwice(s: State, id: string, session: string, now: int, now': int, f: Message -> Message,
                         g: Message -> Message)
    requires forall m: Message :: m.info.id == id ==> f(m).info.id == id && g(m).info.id == id
    requires forall m: Message :: g(f(m)) == f(g(m))
    requires g(f(Placeholder(id, session, now))) == f(g(Placeholder(id, session, now')))
    ensures WithMessage(WithMessage(s, id, session, now, f), id, session, now', g) ==
            WithMessage(WithMessage(s, id, session, now', g), id, session, now, f)
  {
    hide Placeholder;
    var i := FindMessage(s.messages, id);
    var m, m' := if i < |s.messages| then s.messages[i] else Placeholder(id, session, now),
                 if i < |s.messages| then s.messages[i] else Placeholder(id, session, now');
    WithMessagePut(s, id, session, now, f);
    WithMessagePut(s, id, session, now', g);
    WithMessagePut(WithMessage(s, id, session, now, f), id, session, now', g);
    WithMessagePut(WithMessage(s, id, session, now', g), id, session, now, f);
    FoundAgain(s.messages, WithMessage(s, id, session, now, f).messages, id);
    FoundAgain(s.messages, WithMessage(s, id, session, now', g).messages, id);
    hide FindMessage, WithMessage;
    assert PutAt(PutAt(s.messages, i, f(m)), i, g(f(m))) == PutAt(PutAt(s.messages, i, g(m')), i, f(g(m')));
  }

  /** The message at a position, or a new last one. */
  function PutAt(ms: seq<Message>, i: nat, m: Message): seq<Message>
    requires i <= |ms|
  {
    if i < |ms| then ms[i := m] else ms + [m]
  }

  lemma WithMessagePut(s: State, id: string, session: string, now: int, f: Message -> Message)
    ensures var i := FindMessage(s.messages, id);
            WithMessage(s, id, session, now, f) ==
            s.(messages := PutAt(s.messages, i,
                                 f(if i < |s.messages| then s.messages[i] else Placeholder(id, session, now))))
  {}

  /** Changing or appending the message itself leaves it where it is found. */
  lemma FoundAgain(before: seq<Message>, after: seq<Message>, id: string)
    requires |before| <= |after| && FindMessage(before, id) < |after|
    requires forall k :: 0 <= k < |before| && k != FindMessage(before, id) ==> after[k] == before[k]
    requires after[FindMessage(before, id)].info.id == id
    ensures FindMessage(after, id) == FindMessage(before, id)
  {}

  /** A message-info event and a part event of the same message commute, even when the part comes first. */
  lemma InfoAndPartCommute(s: State, info: Info, messageID: string, part: Part, session: string, now: int, now': int)
    requires info.id == messageID && info.sessionID == session
    ensures var i, p := MessageUpdated(info), PartUpdated(session, messageID, part);
            ApplyEvent(ApplyEvent(s, i, session, now), p, session, now') ==
            ApplyEvent(ApplyEvent(s, p, session, now'), i, session, now)
  {
    WithMessageTwice(s, messageID, session, now, now', (m: Message) => Message(info, m.parts),
                     (m: Message) => UpsertPart(m, part));
  }

  /** So do a message-info event and a delta. */
  lemma InfoAndDeltaCommute(s: State, info: Info, messageID: string, partID: string, field: string, delta: string,
                            session: string, now: int, now': int)
    requires info.id == messageID && info.sessionID == session
    ensures var i, p := MessageUpdated(info), PartDelta(session, messageID, partID, field, delta);
            ApplyEvent(ApplyEvent(s, i, session, now), p, session, now') ==
            ApplyEvent(ApplyEvent(s, p, session, now'), i, session, now)
  {
    WithMessageTwice(s, messageID, session, now, now', (m: Message) => Message(info, m.parts),
      (m: Message) => AddDelta(m, session, messageID, partID, FieldName(field), delta));
  }

  // ---- a part built from deltas ---------------------------------------------------------------------

  /** The field's text as the screen sees it; empty until the message, the part and the field exist. */
  function Shown(s: State, messageID: string, partID: string, name: string): string {
    var i := FindMessage(s.messages, messageID);
    if i == |s.messages| then "" else ShownIn(s.messages[i], partID, name)
  }

  function ShownIn(m: Message, partID: string, name: string): string {
    var j := FindPart(m.parts, partID);
    if j == |m.parts| then "" else Field(m.parts[j], name)
  }

  /** The deltas addressed to this field, in order of arrival. */
  function DeltasTo(events: seq<Arrival>, session: string, messageID: string, partID: string, name: string): string {
    if events == [] then ""
    else
      DeltasTo(events[..|events| - 1], session, messageID, partID, name)
      + DeltaTo(events[|events| - 1].event, session, messageID, partID, name)
  }

  function DeltaTo(e: Event, session: string, messageID: string, partID: string, name: string): string {
    if e.PartDelta? && e.session == session && e.messageID == messageID && e.partID == partID &&
      FieldName(e.field) == name
    then e.delta else ""
  }

  /** A whole-part update of this very part. */
  predicate Replaces(e: Event, session: string, messageID: string, partID: string) {
    e.PartUpdated? && e.session == session && e.messageID == messageID && e.part.id == partID
  }

  /** A field of a part that deltas alone fill. */
  predicate FreeField(name: string) {
    name != "id" && name != "messageID" && name != "sessionID" && name != "type"
  }

  lemma FoundPartAgain(before: seq<Part>, after: seq<Part>, id: string, k: nat)
    requires k < |after| && |before| <= |after| <= |before| + 1 && (|after| == |before| + 1 ==> k == |before|)
    requires forall i :: 0 <= i < |before| && i != k ==> after[i] == before[i]
    requires k < |before| ==> after[k].id == before[k].id
    ensures FindPart(before, id) < |before| ==> FindPart(after, id) == FindPart(before, id)
    ensures FindPart(before, id) == |before| ==>
              FindPart(after, id) == if k == |before| && after[k].id != id then |after| else FindPart(before, id)
  {}

  lemma DeltaShown(m: Message, session: string, messageID: string, to: string, field: string, delta: string,
                   partID: string, name: string)
    requires FreeField(name) && field != "id"
    ensures ShownIn(AddDelta(m, session, messageID, to, field, delta), partID, name) ==
            ShownIn(m, partID, name) + if to == partID && field == name then delta else ""
  {
    var r := AddDelta(m, session, messageID, to, field, delta);
    var i := FindPart(m.parts, to);
    if i < |m.parts| {
      FoundPartAgain(m.parts, r.parts, partID, i);
    } else {
      FoundPartAgain(m.parts, r.parts, partID, i);
      assert r.parts[i] == FreshPart(session, messageID, to, field, delta);
    }
  }

  lemma UpsertShown(m: Message, part: Part, partID: string, name: string)
    requires part.id != partID
    ensures ShownIn(UpsertPart(m, part), partID, name) == ShownIn(m, partID, name)
  {
    FoundPartAgain(m.parts, UpsertPart(m, part).parts, partID, FindPart(m.parts, part.id));
  }

  lemma WithMessageShown(s: State, id: string, session: string, now: int, f: Message -> Message, messageID: string,
                         partID: string, name: string, extra: string)
    requires forall m: Message :: m.info.id == id ==> f(m).info.id == id
    requires id == messageID ==> forall m: Message :: ShownIn(f(m), partID, name) == ShownIn(m, partID, name) + extra
    requires id != messageID ==> extra == ""
    ensures Shown(WithMessage(s, id, session, now, f), messageID, partID, name) ==
              Shown(s, messageID, partID, name) + extra
  {
    var i, r := FindMessage(s.messages, id), WithMessage(s, id, session, now, f);
    FoundMessageAgain(s.messages, r.messages, messageID, i);
    assert Placeholder(id, session, now).info.id == id;
    assert ShownIn(Placeholder(id, session, now), partID, name) == "";
  }

  lemma FoundMessageAgain(before: seq<Message>, after: seq<Message>, id: string, k: nat)
    requires k < |after| && |before| <= |after| <= |before| + 1 && (|after| == |before| + 1 ==> k == |before|)
    requires forall i :: 0 <= i < |before| && i != k ==> after[i] == before[i]
    requires k < |before| ==> after[k].info.id == before[k].info.id
    ensures FindMessage(before, id) < |before| ==> FindMessage(after, id) == FindMessage(before, id)
    ensures FindMessage(before, id) == |before| ==>
              FindMessage(after, id) ==
              if k == |before| && after[k].info.id != id then |after| else FindMessage(before, id)
  {}

  lemma EventShown(s: State, e: Event, session: string, now: int, messageID: string, partID: string, name: string)
    requires FreeField(name) && !Replaces(e, session, messageID, partID)
    requires e.PartDelta? ==> e.field != "id"
    ensures Shown(ApplyEvent(s, e, session, now), messageID, partID, name) ==
            Shown(s, messageID, partID, name) + DeltaTo(e, session, messageID, partID, name)
  {
    hide UpsertPart, AddDelta, WithMessage, ShownIn, Shown, FreeField;
    match e
    case MessageUpdated(info) =>
      InfoShown(info, partID, name);
      if info.sessionID == session {
        WithMessageShown(s, info.id, session, now, (m: Message) => Message(info, m.parts), messageID, partID, name, "");
      }
    case PartUpdated(of, to, part) =>
      if of == session {
        forall m: Message | to == messageID
          ensures ShownIn(UpsertPart(m, part), partID, name) == ShownIn(m, partID, name) + ""
        {
          UpsertShown(m, part, partID, name);
        }
        PartsKeepInfo(session);
        WithMessageShown(s, to, session, now, (m: Message) => UpsertPart(m, part), messageID, partID, name, "");
      }
    case PartDelta(of, to, toPart, field, delta) =>
      if of == session {
        var extra := DeltaTo(e, session, messageID, partID, name);
        forall m: Message | to == messageID
          ensures ShownIn(AddDelta(m, session, to, toPart, FieldName(field), delta), partID, name) ==
                    ShownIn(m, partID, name) + extra
        {
          DeltaShown(m, session, to, toPart, FieldName(field), delta, partID, name);
        }
        PartsKeepInfo(session);
        WithMessageShown(s, to, session, now, (m: Message) => AddDelta(m, session, to, toPart, FieldName(field), delta),
          messageID, partID, name, extra);
      }
    case _ =>
      OtherEventsShown(s, e, session, now, messageID, partID, name);
  }

  lemma InfoShown(info: Info, partID: string, name: string)
    ensures forall m: Message :: ShownIn(Message(info, m.parts), partID, name) == ShownIn(m, partID, name) + ""
  {}

  lemma PartsKeepInfo(session: string)
    ensures forall m: Message, part: Part :: UpsertPart(m, part).info == m.info
    ensures forall m: Message, to: string, toPart: string, field: string, delta: string ::
              AddDelta(m, session, to, toPart, field, delta).info == m.info
  {}

  lemma OtherEventsShown(s: State, e: Event, session: string, now: int, messageID: string, partID: string, name: string)
    requires Mention(e, session).None?
    ensures Shown(ApplyEvent(s, e, session, now), messageID, partID, name) == Shown(s, messageID, partID, name)
  {}

  /** A part nobody sends whole shows exactly the concatenation of its deltas, whatever other events lie between. */
  lemma {:induction false} PartHoldsItsDeltas(events: seq<Arrival>, session: string, messageID: string, partID: string,
                                              name: string)
    requires FreeField(name)
    requires forall a :: a in events ==> !Replaces(a.event, session, messageID, partID)
    requires forall a :: a in events && a.event.PartDelta? ==> a.event.field != "id"
    ensures Shown(Fold(EMPTY_THREAD, events, session), messageID, partID, name) ==
              DeltasTo(events, session, messageID, partID, name)
  {
    if events == [] {
    } else {
      var init, last := events[..|events| - 1], events[|events| - 1];
      assert forall a :: a in init ==> a in events;
      assert last in events;
      PartHoldsItsDeltas(init, session, messageID, partID, name);
      EventShown(Fold(EMPTY_THREAD, init, session), last.event, session, last.now, messageID, partID, name);
    }
  }

  // ---- what any stream of events leaves ---------------------------------------------------------------

  /** The field's text after the stream: the last whole-part update's, and the deltas since. */
  function Told(events: seq<Arrival>, session: string, messageID: string, partID: string, name: string): string {
    if events == [] then ""
    else
      var last := events[|events| - 1].event;
      if Replaces(last, session, messageID, partID) then Field(last.part, name)
      else Told(events[..|events| - 1], session, messageID, partID, name)
           + DeltaTo(last, session, messageID, partID, name)
  }

  lemma UpdateShown(s: State, session: string, now: int, messageID: string, part: Part, name: string)
    ensures Shown(ApplyEvent(s, PartUpdated(session, messageID, part), session, now), messageID, part.id, name) ==
            Field(part, name)
  {
    var f := (m: Message) => UpsertPart(m, part);
    var was, r := Current(s, messageID, session, now), WithMessage(s, messageID, session, now, f);
    PartsKeepInfo(session);
    CurrentHasId(s, messageID, session, now);
    WithMessageReplaces(s, messageID, session, now, f);
    UpsertReplaces(was, part);
    hide WithMessage, UpsertPart, Current;
    assert FindMessage(r.messages, messageID) == FindMessage(s.messages, messageID);
    assert FindPart(f(was).parts, part.id) == FindPart(was.parts, part.id);
  }

  /** Whatever the stream, a part shows the text of its last whole update followed by the deltas since. */
  lemma {:induction false} PartShowsWhatWasTold(events: seq<Arrival>, session: string, messageID: string,
                                                partID: string, name: string)
    requires FreeField(name) && forall a :: a in events && a.event.PartDelta? ==> a.event.field != "id"
    ensures Shown(Fold(EMPTY_THREAD, events, session), messageID, partID, name) ==
            Told(events, session, messageID, partID, name)
  {
    if events == [] {
    } else {
      var init, last := events[..|events| - 1], events[|events| - 1];
      var s := Fold(EMPTY_THREAD, init, session);
      assert forall a :: a in init ==> a in events;
      assert last in events;
      PartShowsWhatWasTold(init, session, messageID, partID, name);
      if Replaces(last.event, session, messageID, partID) {
        UpdateShown(s, session, last.now, messageID, last.event.part, name);
      } else {
        EventShown(s, last.event, session, last.now, messageID, partID, name);
      }
    }
  }

  /** A permission was asked for in the session and not replied to since. */
  ghost predicate AwaitsPermission(events: seq<Arrival>, session: string, id: string) {
    exists i ::
      && 0 <= i < |events| && events[i].event.PermissionAsked?
      && events[i].event.session == session && events[i].event.ask.id == id
      && forall j :: i < j < |events| ==> events[j].event != PermissionReplied(id)
  }

  /** A question was asked in the session and not closed since. */
  ghost predicate AwaitsAnswer(events: seq<Arrival>, session: string, id: string) {
    exists i ::
      && 0 <= i < |events| && events[i].event.QuestionAsked?
      && events[i].event.session == session && events[i].event.ask.id == id
      && forall j :: i < j < |events| ==> events[j].event != QuestionClosed(id)
  }

  /** The permissions and questions on the screen are exactly those still open. */
  lemma {:induction false} ListedIffOpen(events: seq<Arrival>, session: string, id: string)
    ensures HasAsk(Fold(EMPTY_THREAD, events, session).permissions, id) <==> AwaitsPermission(events, session, id)
    ensures HasAsk(Fold(EMPTY_THREAD, events, session).questions, id) <==> AwaitsAnswer(events, session, id)
  {
    if events == [] {
    } else {
      var init, last := events[..|events| - 1], events[|events| - 1];
      ListedIffOpen(init, session, id);
      OpenGrows(events, session, id);
      EventLists(Fold(EMPTY_THREAD, init, session), last.event, session, last.now, id);
    }
  }

  lemma OpenGrows(events: seq<Arrival>, session: string, id: string)
    requires events != []
    ensures var init, e := events[..|events| - 1], events[|events| - 1].event;
            && (AwaitsPermission(events, session, id) <==>
                  || (e.PermissionAsked? && e.session == session && e.ask.id == id)
                  || (AwaitsPermission(init, session, id) && e != PermissionReplied(id)))
            && (AwaitsAnswer(events, session, id) <==>
                  || (e.QuestionAsked? && e.session == session && e.ask.id == id)
                  || (AwaitsAnswer(init, session, id) && e != QuestionClosed(id)))
  {
    var init, n := events[..|events| - 1], |events| - 1;
    assert forall i :: 0 <= i < n ==> init[i] == events[i];
  }

  lemma EventLists(s: State, e: Event, session: string, now: int, id: string)
    ensures var r := ApplyEvent(s, e, session, now);
            && (HasAsk(r.permissions, id) <==>
                  || (e.PermissionAsked? && e.session == session && e.ask.id == id)
                  || (HasAsk(s.permissions, id) && e != PermissionReplied(id)))
            && (HasAsk(r.questions, id) <==>
                  || (e.QuestionAsked? && e.session == session && e.ask.id == id)
                  || (HasAsk(s.questions, id) && e != QuestionClosed(id)))
  {
    hide DropAsk;
    match e
    case PermissionReplied(of) => DroppedInOrder(s.permissions, of);
    case QuestionClosed(of) => DroppedInOrder(s.questions, of);
    case PermissionAsked(_, ask) => assert ask in s.permissions + [ask];
    case QuestionAsked(_, ask) => assert ask in s.questions + [ask];
    case _ =>
  }
}
