/** Login sessions in a key-value store with expiry, and the per-user index that makes them revocable. */
module Sessions {
  import opened Basics

  type SessionId = string
  type UserId = string

  /** `session:<id>` holds a user, `user-sessions:<user>` a set of ids; each key vanishes at its expiry time. */
  datatype SessionKey = SessionKey(user: UserId, expires: int)
  datatype IndexKey = IndexKey(members: set<SessionId>, expires: int)

  ghost predicate LiveSession(sessions: map<SessionId, SessionKey>, now: int, id: SessionId, user: UserId) {
    id in sessions && sessions[id].expires > now && sessions[id].user == user
  }

  /** Every live session of a user can be found through a live index that expires no earlier. */
  ghost predicate AllIndexed(sessions: map<SessionId, SessionKey>, index: map<UserId, IndexKey>, now: int) {
    forall id, user :: LiveSession(sessions, now, id, user) ==>
      user in index && id in index[user].members && index[user].expires >= sessions[id].expires
  }

  /** SADD on a key that has expired starts a new set. */
  function LiveMembers(index: map<UserId, IndexKey>, now: int, user: UserId): set<SessionId> {
    if user in index && index[user].expires > now then index[user].members else {}
  }

  function CreatedSessions(sessions: map<SessionId, SessionKey>, now: int, ttl: nat, user: UserId, id: SessionId)
    : map<SessionId, SessionKey>
  {
    sessions[id := SessionKey(user, now + ttl)]
  }

  function CreatedIndex(index: map<UserId, IndexKey>, now: int, ttl: nat, user: UserId, id: SessionId)
    : map<UserId, IndexKey>
  {
    index[user := IndexKey(LiveMembers(index, now, user) + {id}, now + ttl)]
  }

  /** No live session of the user outlasts a session created now. */
  ghost predicate OutlastsOlder(sessions: map<SessionId, SessionKey>, now: int, ttl: nat, user: UserId) {
    forall id :: LiveSession(sessions, now, id, user) ==> sessions[id].expires <= now + ttl
  }

  /** Creating a session keeps every live session findable exactly when the new index expiry covers the user's older
      sessions. A constant lifetime always does; a shortened one need not. */
  lemma CreateKeepsIndexedIff(sessions: map<SessionId, SessionKey>, index: map<UserId, IndexKey>, now: int, ttl: nat,
                              user: UserId, id: SessionId)
    requires AllIndexed(sessions, index, now) && id !in sessions
    ensures AllIndexed(CreatedSessions(sessions, now, ttl, user, id), CreatedIndex(index, now, ttl, user, id), now) <==>
              OutlastsOlder(sessions, now, ttl, user)
  {
    var sessions' := CreatedSessions(sessions, now, ttl, user, id);
    var index' := CreatedIndex(index, now, ttl, user, id);
    if OutlastsOlder(sessions, now, ttl, user) {
      forall k, u | LiveSession(sessions', now, k, u)
        ensures u in index' && k in index'[u].members && index'[u].expires >= sessions'[k].expires
      {
        if k != id {
          assert LiveSession(sessions, now, k, u);
        }
      }
    }
    if AllIndexed(sessions', index', now) {
      forall k | LiveSession(sessions, now, k, user) ensures sessions[k].expires <= now + ttl {
        assert LiveSession(sessions', now, k, user);
      }
    }
  }

  class Store {
    var now: int
    var sessions: map<SessionId, SessionKey>
    var index: map<UserId, IndexKey>
    /** The lifetime all sessions are created with. */
    const ttl: nat
    /** Every token generated so far. */
    ghost var issued: set<SessionId>

    ghost predicate Valid()
      reads this
    {
      && AllIndexed(sessions, index, now)
      && (forall id :: id in sessions ==> sessions[id].expires <= now + ttl)
      && NoForeignMembers(sessions, index)
      && sessions.Keys <= issued && forall u :: u in index ==> index[u].members <= issued
    }

    constructor (ttl: nat)
      ensures Valid() && this.ttl == ttl && sessions == map[] && index == map[]
    {
      this.ttl := ttl;
      now, sessions, index, issued := 0, map[], map[], {};
    }

    method Tick(later: int)
      requires Valid() && later >= now
      modifies this`now
      ensures Valid() && now == later
    {
      forall id, user | LiveSession(sessions, later, id, user) ensures LiveSession(sessions, now, id, user) {}
      now := later;
    }

    /** `id` is the generated token. */
    method CreateSession(user: UserId, id: SessionId)
      requires Valid() && id !in issued
      modifies this`sessions, this`index, this`issued
      ensures Valid() && LiveSession(sessions, now, id, user) == (ttl > 0)
      ensures sessions == old(sessions)[id := SessionKey(user, now + ttl)]
      ensures index == CreatedIndex(old(index), now, ttl, user, id)
    {
      CreateKeepsIndexedIff(sessions, index, now, ttl, user, id);
      CreateKeepsMembers(sessions, index, now, ttl, user, id, issued);
      assert OutlastsOlder(sessions, now, ttl, user);
      hide AllIndexed, NoForeignMembers, OutlastsOlder;
      var members := if user in index && index[user].expires > now then index[user].members else {};
      sessions := sessions[id := SessionKey(user, now + ttl)];
      index := index[user := IndexKey(members + {id}, now + ttl)];
      issued := issued + {id};
    }

    /** Whoever is let in can be shut out: an accepted session is live, and a revocation for its user would find it. */
    method GetSessionUser(id: SessionId) returns (user: Option<UserId>)
      requires Valid()
      ensures user.None? <==> forall u :: !LiveSession(sessions, now, id, u)
      ensures user.Some? ==> LiveSession(sessions, now, id, user.value) && id in LiveMembers(index, now, user.value)
    {
      assert id in sessions ==> (LiveSession(sessions, now, id, sessions[id].user) <==> sessions[id].expires > now);
      if id in sessions && sessions[id].expires > now {
        return Some(sessions[id].user);
      }
      return None;
    }

    /** Logout leaves the id in the index, which is harmless. */
    method DeleteSession(id: SessionId)
      requires Valid()
      modifies this`sessions
      ensures Valid() && sessions == old(sessions) - {id}
    {
      forall k, user | LiveSession(sessions - {id}, now, k, user) ensures LiveSession(sessions, now, k, user) {}
      sessions := sessions - {id};
    }

    /** Drops every live session of the user and no live session of anybody else. */
    method RevokeUserSessions(user: UserId) returns (count: nat)
      requires Valid()
      modifies this`sessions, this`index
      ensures Valid()
      ensures forall id :: !LiveSession(sessions, now, id, user)
      ensures forall id, other :: other != user ==>
                (LiveSession(sessions, now, id, other) <==> LiveSession(old(sessions), now, id, other))
      ensures forall id :: LiveSession(old(sessions), now, id, user) ==> id in LiveMembers(old(index), now, user)
      ensures var members := if user in old(index) && old(index)[user].expires > now then old(index)[user].members
                             else {};
              count == |members| && sessions == old(sessions) - members && index == old(index) - {user}
    {
      var ids := LiveMembers(index, now, user);
      RevocationFindsAll(sessions, index, now, user);
      RevocationKeepsIndexed(sessions, index, now, user);
      sessions := sessions - ids;
      index := index - {user};
      return |ids|;
    }
  }

  /** A session id sits in no other user's index. */
  ghost predicate NoForeignMembers(sessions: map<SessionId, SessionKey>, index: map<UserId, IndexKey>) {
    forall u, id :: u in index && id in index[u].members && id in sessions ==> sessions[id].user == u
  }

  lemma CreateKeepsMembers(sessions: map<SessionId, SessionKey>, index: map<UserId, IndexKey>, now: int, ttl: nat,
                           user: UserId, id: SessionId, issued: set<SessionId>)
    requires NoForeignMembers(sessions, index) && id !in issued
    requires sessions.Keys <= issued && forall u :: u in index ==> index[u].members <= issued
    ensures NoForeignMembers(CreatedSessions(sessions, now, ttl, user, id), CreatedIndex(index, now, ttl, user, id))
    ensures forall u :: u in CreatedIndex(index, now, ttl, user, id) ==>
              CreatedIndex(index, now, ttl, user, id)[u].members <= issued + {id}
  {}

  lemma RevocationFindsAll(sessions: map<SessionId, SessionKey>, index: map<UserId, IndexKey>, now: int, user: UserId)
    requires AllIndexed(sessions, index, now)
    ensures forall id :: LiveSession(sessions, now, id, user) ==> id in LiveMembers(index, now, user)
  {}

  lemma RevocationKeepsIndexed(sessions: map<SessionId, SessionKey>, index: map<UserId, IndexKey>, now: int,
                               user: UserId)
    requires AllIndexed(sessions, index, now) && NoForeignMembers(sessions, index)
    ensures AllIndexed(sessions - LiveMembers(index, now, user), index - {user}, now)
    ensures forall id, other :: other != user ==>
              (LiveSession(sessions - LiveMembers(index, now, user), now, id, other) <==>
               LiveSession(sessions, now, id, other))
  {}

  /** Shortening the lifetime breaks it: after a login with the shorter one, a session of the user outlives the index,
      and a revocation after the index has gone misses it. */
  lemma ShorterLifetimeHidesASession()
    ensures exists sessions: map<SessionId, SessionKey>, index: map<UserId, IndexKey>, now: int, later: int, ttl: nat ::
              && AllIndexed(sessions, index, now) && now <= later
              && LiveSession(CreatedSessions(sessions, now, ttl, "u", "new"), later, "old", "u")
              && "old" !in LiveMembers(CreatedIndex(index, now, ttl, "u", "new"), later, "u")
  {
    var sessions := map["old" := SessionKey("u", 100)];
    var index := map["u" := IndexKey({"old"}, 100)];
    assert AllIndexed(sessions, index, 0);
    assert LiveSession(CreatedSessions(sessions, 0, 10, "u", "new"), 20, "old", "u");
    assert "old" !in LiveMembers(CreatedIndex(index, 0, 10, "u", "new"), 20, "u");
  }
}
