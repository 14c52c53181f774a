/** The reverse tunnel: a companion on the user's machine holds one outgoing stream open, requests travel down it,
    and reply frames come back per request id. */
module ReverseTunnel {
  import opened Basics

  type UserId = nat
  type ConnId = nat
  type ReqId = string

  const PENDING_LIMIT := 5000

  /** A reply frame, its chunk already decoded; an empty chunk counts as none. */
  datatype Frame = Frame(status: Option<int>, chunk: string, end: bool, error: Option<string>)
  datatype Outgoing = Forward(id: ReqId) | Cancel(id: ReqId) | Close

  datatype Conn = Conn(user: UserId, alive: bool, outgoing: seq<Outgoing>, pending: set<ReqId>)

  /** Where the coroutine serving a request is suspended, or how it left. */
  datatype Phase =
    | AwaitFirst       // request(): waiting for the first frame
    | Unstarted        // the body iterator exists, nobody has asked it for anything
    | AtYield          // the body handed over a chunk
    | Waiting          // the body waits for the next frame
    | Ended            // an end or error frame was reached
    | Refused          // the first frame was an error
    | Stopped          // a timeout, or the consumer left
    | Dropped          // the consumer left before the body was ever started

  /** `taken` records the frames the coroutine took from its queue, `overflowed` that a frame found the queue full. */
  datatype Request = Request(conn: ConnId, queue: seq<Frame>, taken: seq<Frame>, phase: Phase, delivered: seq<string>,
                             overflowed: bool)

  const LOST := Frame(None, "", false, Some("connection lost"))

  predicate Final(f: Frame) {
    f.end || f.error.Some?
  }

  /** Every frame ever put into the request's queue, in order. */
  function Posted(r: Request): seq<Frame> {
    r.taken + r.queue
  }

  function Chunks(frames: seq<Frame>): seq<string> {
    if frames == [] then []
    else
      Chunks(frames[..|frames| - 1]) +
      (if frames[|frames| - 1].chunk != "" then [frames[|frames| - 1].chunk] else [])
  }

  /** The frames up to and including the first end or error frame. */
  function UpToFinal(frames: seq<Frame>): seq<Frame> {
    if frames == [] then []
    else if Final(frames[0]) then [frames[0]]
    else [frames[0]] + UpToFinal(frames[1..])
  }

  ghost predicate NoneFinal(frames: seq<Frame>) {
    forall f :: f in frames ==> !Final(f)
  }

  ghost predicate RequestOk(r: Request) {
    match r.phase
    case AwaitFirst => r.taken == [] && r.delivered == []
    case Unstarted => |r.taken| == 1 && r.taken[0].error.None? && r.delivered == []
    case AtYield => r.taken != [] && NoneFinal(r.taken[..|r.taken| - 1]) && r.delivered == Chunks(r.taken)
    case Waiting => NoneFinal(r.taken) && r.delivered == Chunks(r.taken)
    case Ended =>
      && r.taken != [] && NoneFinal(r.taken[..|r.taken| - 1]) && Final(r.taken[|r.taken| - 1])
      && r.delivered == Chunks(r.taken)
    case Refused => |r.taken| == 1 && r.taken[0].error.Some? && r.delivered == []
    case Stopped =>
      && (r.taken != [] ==> NoneFinal(r.taken[..|r.taken| - 1]))
      && r.delivered == Chunks(r.taken)
    case Dropped => |r.taken| <= 1 && r.delivered == []
  }

  predicate Gone(p: Phase) {
    p == Ended || p == Refused || p == Stopped
  }

  /** The request is suspended somewhere (or was abandoned there) and never lost its place to a full queue. */
  predicate HoldsPlace(r: Request) {
    !Gone(r.phase) && !r.overflowed
  }

  // ---- what a body is ------------------------------------------------------------------

  lemma {:induction false} ChunksOfPrefix(a: seq<Frame>, b: seq<Frame>)
    ensures Chunks(a) <= Chunks(a + b)
  {
    if b == [] {
      assert a + b == a;
    } else {
      ChunksOfPrefix(a, b[..|b| - 1]);
      assert (a + b)[..|a + b| - 1] == a + b[..|b| - 1];
    }
  }

  lemma {:induction false} UpToFinalOfPlain(a: seq<Frame>, b: seq<Frame>)
    requires NoneFinal(a)
    ensures UpToFinal(a + b) == a + UpToFinal(b)
  {
    if a != [] {
      assert !Final(a[0]) && NoneFinal(a[1..]) by {
        assert a[0] in a && forall f :: f in a[1..] ==> f in a;
      }
      hide Final, NoneFinal;
      UpToFinalOfPlain(a[1..], b);
      assert (a + b)[1..] == a[1..] + b;
      assert UpToFinal(a) == [a[0]] + UpToFinal(a[1..]);
      assert [a[0]] + a[1..] == a;
    } else {
      assert a + b == b;
    }
  }

  lemma TakenIsWithinFinal(r: Request)
    requires r.taken != [] && NoneFinal(r.taken[..|r.taken| - 1])
    ensures exists rest :: UpToFinal(Posted(r)) == r.taken + rest && (Final(r.taken[|r.taken| - 1]) ==> rest == [])
  {
    var init, last := r.taken[..|r.taken| - 1], r.taken[|r.taken| - 1];
    assert Posted(r) == init + ([last] + r.queue);
    UpToFinalOfPlain(init, [last] + r.queue);
    assert ([last] + r.queue)[1..] == r.queue;
    var rest := if Final(last) then [] else UpToFinal(r.queue);
    assert UpToFinal(Posted(r)) == r.taken + rest;
  }

  /** A body is exactly the decoded chunks posted for its own request id, in order, up to the first end or error
      frame; until then, or if it stops early, it is a prefix of that. */
  lemma BodyIsItsOwnReplies(r: Request)
    requires RequestOk(r)
    ensures r.delivered <= Chunks(UpToFinal(Posted(r)))
    ensures r.phase == Ended ==> r.delivered == Chunks(UpToFinal(Posted(r)))
  {
    if r.delivered != [] || r.phase == Ended {
      assert r.taken != [];
      if r.phase == Waiting {
        assert forall f :: f in r.taken[..|r.taken| - 1] ==> f in r.taken;
      }
      TakenIsWithinFinal(r);
      var rest :| UpToFinal(Posted(r)) == r.taken + rest && (Final(r.taken[|r.taken| - 1]) ==> rest == []);
      ChunksOfPrefix(r.taken, rest);
      assert rest == [] ==> r.taken + rest == r.taken;
    }
  }

  // ---- the tunnel ---------------------------------------------------------------------------

  /** One live connection per user, and it is the registered one. */
  ghost predicate Registered(conns: map<UserId, ConnId>, table: map<ConnId, Conn>) {
    && (forall u :: u in conns ==> conns[u] in table && table[conns[u]].user == u && table[conns[u]].alive)
    && (forall c :: c in table && table[c].alive ==> table[c].user in conns && conns[table[c].user] == c)
  }

  /** A connection's pending table holds exactly its own requests that hold their place. */
  ghost predicate Tracked(table: map<ConnId, Conn>, requests: map<ReqId, Request>) {
    && (forall c, r :: c in table && r in table[c].pending ==> r in requests && requests[r].conn == c)
    && (forall r :: r in requests ==>
          && requests[r].conn in table && RequestOk(requests[r])
          && (r in table[requests[r].conn].pending <==> HoldsPlace(requests[r])))
  }

  /** The registry without a connection that goes away; a late goodbye of a replaced one changes nothing. */
  function Unregistered(conns: map<UserId, ConnId>, table: map<ConnId, Conn>, c: ConnId): map<UserId, ConnId>
    requires c in table
  {
    if table[c].user in conns && conns[table[c].user] == c then conns - {table[c].user} else conns
  }

  lemma DisconnectKeepsValid(conns: map<UserId, ConnId>, table: map<ConnId, Conn>, requests: map<ReqId, Request>,
                             c: ConnId)
    requires Registered(conns, table) && Tracked(table, requests) && c in table
    ensures Registered(Unregistered(conns, table, c), ShutDown(table, c))
    ensures Tracked(ShutDown(table, c), Notified(requests, table[c].pending))
    ensures forall r :: r in table[c].pending ==> r in requests
    ensures forall u :: u in Unregistered(conns, table, c) <==> u in conns && conns[u] != c
    ensures forall u :: u in Unregistered(conns, table, c) ==> Unregistered(conns, table, c)[u] == conns[u]
  {
    NoticeKeepsTracked(table, requests, c);
  }

  lemma NoticeKeepsTracked(table: map<ConnId, Conn>, requests: map<ReqId, Request>, c: ConnId)
    requires Tracked(table, requests) && c in table
    ensures Tracked(ShutDown(table, c), Notified(requests, table[c].pending))
  {
    hide RequestOk;
    var after := Notified(requests, table[c].pending);
    forall r | r in after ensures RequestOk(after[r]) {
      assert RequestOk(requests[r]);
      NoticeKeepsOk(requests[r]);
    }
  }

  lemma NoticeKeepsOk(r: Request)
    requires RequestOk(r)
    ensures RequestOk(r.(queue := r.queue + [LOST]))
  {}

  lemma NobodyNotified(requests: map<ReqId, Request>)
    ensures forall none: set<ReqId> :: none == {} ==> Notified(requests, none) == requests
  {}

  lemma NotifyOne(requests: map<ReqId, Request>, told: set<ReqId>, r: ReqId, told': set<ReqId>)
    requires r in requests && r !in told && told' == told + {r}
    ensures var now := Notified(requests, told);
            && r in now && Notified(requests, told') == now[r := now[r].(queue := now[r].queue + [LOST])]
  {}

  lemma NoticeIsPosted(requests: map<ReqId, Request>, ids: set<ReqId>)
    ensures var told := Notified(requests, ids);
            && told.Keys == requests.Keys
            && forall r :: r in requests ==>
                 told[r] == if r in ids then requests[r].(queue := requests[r].queue + [LOST]) else requests[r]
  {}

  lemma EveryoneIsTold(table: map<ConnId, Conn>, requests: map<ReqId, Request>, c: ConnId)
    requires Tracked(table, requests) && c in table
    ensures forall r :: r in requests && requests[r].conn == c && HoldsPlace(requests[r]) ==>
              r in Notified(requests, table[c].pending)
              && Notified(requests, table[c].pending)[r] == requests[r].(queue := requests[r].queue + [LOST])
  {
    hide RequestOk, HoldsPlace;
  }

  lemma RequestFacts(table: map<ConnId, Conn>, requests: map<ReqId, Request>, id: ReqId)
    requires Tracked(table, requests) && id in requests
    ensures requests[id].conn in table && RequestOk(requests[id])
    ensures id in table[requests[id].conn].pending <==> HoldsPlace(requests[id])
  {}

  /** One request moved on: it gives up its place if it no longer holds it, and otherwise stays as it was. */
  lemma AdvanceKeepsTracked(table: map<ConnId, Conn>, requests: map<ReqId, Request>, id: ReqId, next: Request)
    requires Tracked(table, requests) && id in requests && next.conn == requests[id].conn && RequestOk(next)
    ensures next.conn in table
    ensures !HoldsPlace(next) ==> Tracked(WithoutPending(table, next.conn, id), requests[id := next])
    ensures HoldsPlace(next) == HoldsPlace(requests[id]) ==> Tracked(table, requests[id := next])
  {}

  lemma OverflowKeepsTracked(table: map<ConnId, Conn>, requests: map<ReqId, Request>, id: ReqId)
    requires Tracked(table, requests) && id in requests
    ensures Tracked(WithoutPending(table, requests[id].conn, id), requests[id := requests[id].(overflowed := true)])
  {
    assert RequestOk(requests[id].(overflowed := true));
    AdvanceKeepsTracked(table, requests, id, requests[id].(overflowed := true));
  }

  /** Lists and outgoing streams are no part of who is registered. */
  lemma TrafficKeepsRegistered(conns: map<UserId, ConnId>, table: map<ConnId, Conn>, c: ConnId, id: ReqId)
    requires Registered(conns, table) && c in table
    ensures Registered(conns, WithoutPending(table, c, id))
    ensures Registered(conns, Cancelled(table, c, id))
    ensures Registered(conns, Started(table, c, id))
  {}

  lemma CancelKeepsTracked(table: map<ConnId, Conn>, requests: map<ReqId, Request>, c: ConnId, id: ReqId)
    requires Tracked(table, requests) && c in table
    ensures Tracked(Cancelled(table, c, id), requests)
  {}

  lemma StartKeepsValid(conns: map<UserId, ConnId>, table: map<ConnId, Conn>, requests: map<ReqId, Request>, c: ConnId,
                        id: ReqId)
    requires Registered(conns, table) && Tracked(table, requests) && c in table && id !in requests
    ensures Registered(conns, Started(table, c, id))
    ensures Tracked(Started(table, c, id), requests[id := Request(c, [], [], AwaitFirst, [], false)])
  {
    assert RequestOk(Request(c, [], [], AwaitFirst, [], false));
    TrafficKeepsRegistered(conns, table, c, id);
    hide Registered, RequestOk;
  }

  lemma ConnectKeepsValid(conns: map<UserId, ConnId>, table: map<ConnId, Conn>, requests: map<ReqId, Request>,
                          user: UserId, newConn: ConnId)
    requires Registered(conns, table) && Tracked(table, requests) && user !in conns && newConn !in table
    ensures Registered(conns[user := newConn], table[newConn := Conn(user, true, [], {})])
    ensures Tracked(table[newConn := Conn(user, true, [], {})], requests)
  {}

  class Bridge {
    var conns: map<UserId, ConnId>
    var table: map<ConnId, Conn>
    var requests: map<ReqId, Request>

    ghost predicate Valid()
      reads this
    {
      Registered(conns, table) && Tracked(table, requests)
    }

    constructor ()
      ensures Valid() && conns == map[] && table == map[] && requests == map[]
    {
      conns, table, requests := map[], map[], map[];
    }

    /** Replaces the user's connection; the old one is shut down first. */
    method Connect(user: UserId, newConn: ConnId)
      requires Valid() && newConn !in table
      requires user in conns ==> forall r :: r in table[conns[user]].pending ==> |requests[r].queue| < PENDING_LIMIT
      modifies this
      ensures Valid()
      ensures conns == old(conns)[user := newConn]
      ensures table.Keys == old(table).Keys + {newConn} && table[newConn] == Conn(user, true, [], {})
      ensures forall c :: c in old(table) ==>
                table[c] ==
                if user in old(conns) && c == old(conns)[user]
                then old(table)[c].(alive := false, outgoing := old(table)[c].outgoing + [Close])
                else old(table)[c]
      ensures requests.Keys == old(requests).Keys
      ensures forall r :: r in requests ==>
                requests[r] ==
                if user in old(conns) && r in old(table)[old(conns)[user]].pending
                then old(requests)[r].(queue := old(requests)[r].queue + [LOST])
                else old(requests)[r]
    {
      hide Tracked;
      if user in conns {
        Disconnect(conns[user]);
      }
      ConnectKeepsValid(conns, table, requests, user, newConn);
      table := table[newConn := Conn(user, true, [], {})];
      conns := conns[user := newConn];
    }

    /** Marks the connection dead, unregisters it only if it is still the registered one, closes its stream and posts
        an error to every request that waits on it. */
    method Disconnect(c: ConnId)
      requires Valid() && c in table
      requires forall r :: r in table[c].pending ==> |requests[r].queue| < PENDING_LIMIT
      modifies this
      ensures Valid()
      ensures forall u :: u in conns <==> u in old(conns) && old(conns)[u] != c
      ensures forall u :: u in conns ==> conns[u] == old(conns)[u]
      ensures table == old(table)[c := old(table)[c].(alive := false, outgoing := old(table)[c].outgoing + [Close])]
      ensures requests.Keys == old(requests).Keys
      ensures forall r :: r in requests && r !in old(table)[c].pending ==> requests[r] == old(requests)[r]
      ensures forall r :: r in requests && r in old(table)[c].pending ==>
                requests[r] == old(requests)[r].(queue := old(requests)[r].queue + [LOST])
      ensures forall r :: r in old(requests) && old(requests)[r].conn == c && HoldsPlace(old(requests)[r]) ==>
                requests[r] == old(requests)[r].(queue := old(requests)[r].queue + [LOST])
    {
      hide Registered, Tracked, Notified, HoldsPlace;
      EveryoneIsTold(table, requests, c);
      NoticeIsPosted(requests, table[c].pending);
      var conn := table[c];
      DisconnectKeepsValid(conns, table, requests, c);
      if conn.user in conns && conns[conn.user] == c {
        conns := conns - {conn.user};
      }
      table := table[c := conn.(alive := false, outgoing := conn.outgoing + [Close])];
      var todo := conn.pending;
      NobodyNotified(requests);
      while todo != {}
        invariant todo <= conn.pending
        invariant conns == Unregistered(old(conns), old(table), c)
        invariant table == ShutDown(old(table), c)
        invariant requests == Notified(old(requests), conn.pending - todo)
        decreases todo
      {
        var r :| r in todo;
        NotifyOne(old(requests), conn.pending - todo, r, conn.pending - (todo - {r}));
        requests := requests[r := requests[r].(queue := requests[r].queue + [LOST])];
        todo := todo - {r};
      }
      assert conn.pending - {} == conn.pending;
    }

    method Get(user: UserId) returns (conn: Option<ConnId>)
      requires Valid()
      ensures conn.Some? <==> exists c :: c in table && table[c].alive && table[c].user == user
      ensures conn.Some? ==> conn.value in table && table[conn.value].alive && table[conn.value].user == user
    {
      if user in conns && table[conns[user]].alive {
        return Some(conns[user]);
      }
      return None;
    }

    /** A frame from the companion. Accepted into its own request's queue, or turned away: unknown ids are ignored and
        a full queue loses its place. */
    method Reply(c: ConnId, id: ReqId, frame: Frame) returns (accepted: bool)
      requires Valid() && c in table
      modifies this`table, this`requests
      ensures Valid()
      ensures accepted <==> id in old(table)[c].pending && |old(requests)[id].queue| < PENDING_LIMIT
      ensures accepted ==>
                && table == old(table)
                && requests == old(requests)[id := old(requests)[id].(queue := old(requests)[id].queue + [frame])]
      ensures !accepted ==> table == old(table)[c := old(table)[c].(pending := old(table)[c].pending - {id})]
      ensures !accepted ==>
                requests ==
                if id in old(table)[c].pending then old(requests)[id := old(requests)[id].(overflowed := true)]
                else old(requests)
    {
      hide Registered, RequestOk;
      TrafficKeepsRegistered(conns, table, c, id);
      if id !in table[c].pending {
        assert table[c].pending - {id} == table[c].pending;
        return false;
      }
      if |requests[id].queue| >= PENDING_LIMIT {
        OverflowKeepsTracked(table, requests, id);
        table := WithoutPending(table, c, id);
        requests := requests[id := requests[id].(overflowed := true)];
        return false;
      }
      PostKeepsTracked(table, requests, id, requests[id].queue + [frame]);
      requests := requests[id := requests[id].(queue := requests[id].queue + [frame])];
      return true;
    }

    /** Forwards a browser request down the tunnel; `id` is the generated request id. */
    method Start(c: ConnId, id: ReqId)
      requires Valid() && c in table && id !in requests
      modifies this`table, this`requests
      ensures Valid()
      ensures requests == old(requests)[id := Request(c, [], [], AwaitFirst, [], false)]
      ensures table == old(table)[c := old(table)[c].(pending := old(table)[c].pending + {id},
                                                      outgoing := old(table)[c].outgoing + [Forward(id)])]
    {
      hide Registered, Tracked;
      StartKeepsValid(conns, table, requests, c, id);
      requests := requests[id := Request(c, [], [], AwaitFirst, [], false)];
      table := Started(table, c, id);
    }

    /** The first frame decides: an error ends the request, anything else starts a body nobody has pulled from yet. */
    method FirstFrame(id: ReqId)
      requires Valid() && id in requests && requests[id].phase == AwaitFirst && requests[id].queue != []
      modifies this`table, this`requests
      ensures Valid()
      ensures var r := old(requests)[id];
              var failed := r.queue[0].error.Some?;
              && requests == old(requests)[id := r.(queue := r.queue[1..], taken := [r.queue[0]],
                                                    phase := if failed then Refused else Unstarted)]
              && table ==
                 if failed then old(table)[r.conn := old(table)[r.conn].(pending := old(table)[r.conn].pending - {id})]
                 else old(table)
    {
      hide Registered, Tracked;
      RequestFacts(table, requests, id);
      var r := requests[id];
      var first := r.queue[0];
      r := r.(queue := r.queue[1..], taken := [first], phase := if first.error.Some? then Refused else Unstarted);
      AdvanceKeepsTracked(table, requests, id, r);
      TrafficKeepsRegistered(conns, table, r.conn, id);
      if first.error.Some? {
        table := WithoutPending(table, r.conn, id);
      }
      requests := requests[id := r];
    }

    /** No first frame in time: the request gives up and tells the companion. */
    method FirstTimeout(id: ReqId)
      requires Valid() && id in requests && requests[id].phase == AwaitFirst
      modifies this`table, this`requests
      ensures Valid()
      ensures requests == old(requests)[id := old(requests)[id].(phase := Stopped)]
      ensures var c := old(requests)[id].conn;
              table == old(table)[c := old(table)[c].(pending := old(table)[c].pending - {id},
                                                      outgoing := old(table)[c].outgoing + [Cancel(id)])]
    {
      hide Registered, Tracked;
      StopsCleanly(id);
      var c := requests[id].conn;
      table := WithoutPending(table, c, id);
      table := Cancelled(table, c, id);
      requests := requests[id := requests[id].(phase := Stopped)];
    }

    /** The consumer asks the body for its next chunk, or a frame arrives while it waits. Without a chunk the body has
        ended or waits with an empty queue. */
    method Pull(id: ReqId) returns (chunk: Option<string>)
      requires Valid() && id in requests
      requires requests[id].phase in {Unstarted, AtYield, Waiting}
      modifies this`table, this`requests
      ensures Valid()
      ensures requests.Keys == old(requests).Keys
      ensures forall r :: r in requests && r != id ==> requests[r] == old(requests)[r]
      ensures Posted(requests[id]) == Posted(old(requests)[id]) && requests[id].conn == old(requests)[id].conn
      ensures requests[id].delivered == old(requests)[id].delivered + if chunk.Some? then [chunk.value] else []
      ensures if chunk.Some? then requests[id].phase == AtYield
              else requests[id].phase == Ended || (requests[id].phase == Waiting && requests[id].queue == [])
      ensures var c, frames := requests[id].conn, requests[id].taken;
              if requests[id].phase == Ended then
                && frames != [] && (frames[|frames| - 1].end || frames[|frames| - 1].error.Some?)
                && table == old(table)[c := old(table)[c].(pending := old(table)[c].pending - {id})]
              else
                && table == old(table)
                && (chunk.None? ==> forall f :: f in frames ==> !f.end && f.error.None?)
    {
      hide Registered, Tracked, Posted, RequestOk;
      RequestFacts(table, requests, id);
      var r;
      r, chunk := RunBody(requests[id]);
      AdvanceKeepsTracked(table, requests, id, r);
      TrafficKeepsRegistered(conns, table, r.conn, id);
      if r.phase == Ended {
        table := WithoutPending(table, r.conn, id);
      }
      requests := requests[id := r];
    }

    /** The consumer goes away, or (while waiting) no frame came in time. A started body gives up its place and, on a
        live connection, sends one cancel; before that nobody cleans up. */
    method Leave(id: ReqId)
      requires Valid() && id in requests
      requires requests[id].phase in {AwaitFirst, Unstarted, AtYield, Waiting}
      modifies this`table, this`requests
      ensures Valid()
      ensures var started := old(requests)[id].phase in {AtYield, Waiting};
              var c := old(requests)[id].conn;
              && requests == old(requests)[id := old(requests)[id].(phase := if started then Stopped else Dropped)]
              && (!started ==> table == old(table))
              && (!started ==> (id in table[c].pending <==> !old(requests)[id].overflowed))
              && (started ==>
                    var was := old(table)[c];
                    table == old(table)[c := was.(pending := was.pending - {id},
                                                  outgoing := was.outgoing + if was.alive then [Cancel(id)] else [])])
    {
      hide Registered, Tracked;
      RequestFacts(table, requests, id);
      var c := requests[id].conn;
      if requests[id].phase == AtYield || requests[id].phase == Waiting {
        StopsCleanly(id);
        table := WithoutPending(table, c, id);
        if table[c].alive {
          table := Cancelled(table, c, id);
        } else {
          assert table[c].outgoing + [] == table[c].outgoing;
        }
        requests := requests[id := requests[id].(phase := Stopped)];
      } else {
        AdvanceKeepsTracked(table, requests, id, requests[id].(phase := Dropped));
        requests := requests[id := requests[id].(phase := Dropped)];
      }
    }

    /** A request may stop at any suspension after its start: it gives up its place, with or without a cancel. */
    lemma StopsCleanly(id: ReqId)
      requires Valid() && id in requests && requests[id].phase in {AwaitFirst, AtYield, Waiting}
      ensures var c, stopped := requests[id].conn, requests[id := requests[id].(phase := Stopped)];
              && c in table
              && Registered(conns, WithoutPending(table, c, id))
              && Tracked(WithoutPending(table, c, id), stopped)
              && Registered(conns, Cancelled(WithoutPending(table, c, id), c, id))
              && Tracked(Cancelled(WithoutPending(table, c, id), c, id), stopped)
    {
      hide Registered, Tracked, RequestOk;
      var c, stopped := requests[id].conn, requests[id].(phase := Stopped);
      RequestFacts(table, requests, id);
      StoppingKeepsOk(requests[id]);
      AdvanceKeepsTracked(table, requests, id, stopped);
      TrafficKeepsRegistered(conns, table, c, id);
      TrafficKeepsRegistered(conns, WithoutPending(table, c, id), c, id);
      CancelKeepsTracked(WithoutPending(table, c, id), requests[id := stopped], c, id);
    }
  }

  /** From any state: a request whose consumer leaves after the first frame but before pulling from the body stays
      listed for good, and the companion hears of no cancel. */
  method AbandonBeforeStart(b: Bridge, c: ConnId, id: ReqId, first: Frame)
    requires b.Valid() && c in b.table && id !in b.requests && first.error.None?
    modifies b
    ensures b.Valid() && c in b.table && id in b.table[c].pending && id in b.requests && b.requests[id].phase == Dropped
    ensures b.table[c].outgoing == old(b.table)[c].outgoing + [Forward(id)]
  {
    hide RequestOk;
    b.Start(c, id);
    var accepted := b.Reply(c, id, first);
    b.FirstFrame(id);
    b.Leave(id);
  }

  /** The body iterator from one suspension to the next. */
  method RunBody(r: Request) returns (next: Request, chunk: Option<string>)
    requires RequestOk(r) && r.phase in {Unstarted, AtYield, Waiting}
    ensures RequestOk(next) && Posted(next) == Posted(r) && next.conn == r.conn && next.overflowed == r.overflowed
    ensures next.delivered == r.delivered + if chunk.Some? then [chunk.value] else []
    ensures if chunk.Some? then next.phase == AtYield
            else next.phase == Ended || (next.phase == Waiting && next.queue == [])
    ensures next.phase == Ended ==>
              next.taken != [] && (next.taken[|next.taken| - 1].end || next.taken[|next.taken| - 1].error.Some?)
    ensures next.phase == Waiting ==> forall f :: f in next.taken ==> !f.end && f.error.None?
  {
    hide NoneFinal, Chunks, Posted;
    next := r;
    var handed := r.phase == AtYield;
    if r.phase == Waiting {
      if r.queue == [] {
        NoEndYet(r.taken);
        return r, None;
      }
      TakeWaiting(next);
      next := next.(taken := next.taken + [next.queue[0]], queue := next.queue[1..]);
    } else if r.phase == Unstarted {
      FirstInHand(r);
    }
    while true
      invariant InHand(next, handed)
      invariant Posted(next) == Posted(r) && next.conn == r.conn && next.delivered == r.delivered &&
                next.overflowed == r.overflowed
      decreases |next.queue|
    {
      var frame := next.taken[|next.taken| - 1];
      FrameInHand(next, handed);
      if !handed && frame.chunk != "" {
        next := next.(delivered := next.delivered + [frame.chunk], phase := AtYield);
        return next, Some(frame.chunk);
      }
      if Final(frame) {
        next := next.(phase := Ended);
        return next, None;
      }
      if next.queue == [] {
        NoEndYet(next.taken);
        next := next.(phase := Waiting);
        return next, None;
      }
      handed := false;
      TakeWaiting(next);
      next := next.(taken := next.taken + [next.queue[0]], queue := next.queue[1..]);
    }
  }

  /** The last taken frame is being worked on; `handed` says whether its chunk was already handed over. */
  ghost predicate InHand(r: Request, handed: bool) {
    && r.taken != [] && NoneFinal(r.taken[..|r.taken| - 1])
    && r.delivered == if handed then Chunks(r.taken) else Chunks(r.taken[..|r.taken| - 1])
  }

  lemma NoEndYet(frames: seq<Frame>)
    requires NoneFinal(frames)
    ensures forall f :: f in frames ==> !f.end && f.error.None?
  {}

  lemma FirstInHand(r: Request)
    requires |r.taken| == 1 && r.delivered == []
    ensures InHand(r, false)
  {}

  lemma FrameInHand(r: Request, handed: bool)
    requires InHand(r, handed)
    ensures var frame := r.taken[|r.taken| - 1];
            && Chunks(r.taken) == Chunks(r.taken[..|r.taken| - 1]) + (if frame.chunk != "" then [frame.chunk] else [])
            && (!Final(frame) ==> NoneFinal(r.taken))
            && Posted(r.(delivered := r.delivered + [frame.chunk], phase := AtYield)) == Posted(r)
            && Posted(r.(phase := Ended)) == Posted(r) && Posted(r.(phase := Waiting)) == Posted(r)
  {}

  lemma TakeWaiting(r: Request)
    requires r.queue != [] && NoneFinal(r.taken) && r.delivered == Chunks(r.taken)
    ensures var next := r.(taken := r.taken + [r.queue[0]], queue := r.queue[1..]);
            InHand(next, false) && Posted(next) == Posted(r)
  {}

  lemma StoppingKeepsOk(r: Request)
    requires RequestOk(r) && r.phase in {AwaitFirst, AtYield, Waiting}
    ensures RequestOk(r.(phase := Stopped))
  {}

  lemma PostKeepsTracked(table: map<ConnId, Conn>, requests: map<ReqId, Request>, id: ReqId, queue: seq<Frame>)
    requires Tracked(table, requests) && id in requests
    ensures Tracked(table, requests[id := requests[id].(queue := queue)])
  {}

  function WithoutPending(table: map<ConnId, Conn>, c: ConnId, id: ReqId): map<ConnId, Conn>
    requires c in table
  {
    table[c := table[c].(pending := table[c].pending - {id})]
  }

  function Cancelled(table: map<ConnId, Conn>, c: ConnId, id: ReqId): map<ConnId, Conn>
    requires c in table
  {
    table[c := table[c].(outgoing := table[c].outgoing + [Cancel(id)])]
  }

  /** The table after a request was listed and forwarded. */
  function Started(table: map<ConnId, Conn>, c: ConnId, id: ReqId): map<ConnId, Conn>
    requires c in table
  {
    table[c := table[c].(pending := table[c].pending + {id}, outgoing := table[c].outgoing + [Forward(id)])]
  }

  /** The table after a connection was shut down. */
  function ShutDown(table: map<ConnId, Conn>, c: ConnId): map<ConnId, Conn>
    requires c in table
  {
    table[c := table[c].(alive := false, outgoing := table[c].outgoing + [Close])]
  }

  /** The requests after the given ones were told that the connection is lost. */
  function Notified(requests: map<ReqId, Request>, ids: set<ReqId>): map<ReqId, Request> {
    map r | r in requests :: if r in ids then requests[r].(queue := requests[r].queue + [LOST]) else requests[r]
  }
}
