/** The session pool: lists of idle sessions by connection key, mirrored by per-session metadata
    (crates/core/src/session/pool.rs). */
module Pool {
  import opened Common
  import opened Session
  import opened IdIndex

  datatype PoolConfig = PoolConfig(
    enabled: bool,
    maxSessionsPerConnection: nat,
    maxTotalSessions: nat,
    preferReuse: bool,
    minIdleTime: nat)  // in seconds

  datatype Pooled = Pooled(connectionKey: string, pooledAt: Time, priority: SessionPriority, useCount: nat)

  datatype PoolState = PoolState(pools: Index, meta: map<SessionId, Pooled>)

  const EMPTY := PoolState(map[], map[])

  // ----- What each operation does to the two maps -----

  /** The limits as they are tested: a key without a list is not compared with the per-key limit. */
  predicate HasRoom(c: PoolConfig, p: PoolState, key: string) {
    && (key in p.pools ==> |p.pools[key]| < c.maxSessionsPerConnection)
    && |p.meta| < c.maxTotalSessions
  }

  function Insert(p: PoolState, m: SessionMetadata, now: Time): PoolState {
    PoolState(Push(p.pools, m.Key(), m.id),
              p.meta[m.id := Pooled(m.Key(), now, m.priority, m.useCount)])
  }

  predicate Accepts(c: PoolConfig, p: PoolState, m: SessionMetadata) {
    c.enabled && (m.status == Idle || m.status == Active) && HasRoom(c, p, m.Key())
  }

  function AddSession(c: PoolConfig, p: PoolState, m: SessionMetadata, now: Time): PoolState {
    if Accepts(c, p, m) then Insert(p, m, now) else p
  }

  function RemoveSession(p: PoolState, id: SessionId): PoolState {
    if id !in p.meta then p
    else PoolState(Erase(p.pools, p.meta[id].connectionKey, id), p.meta - {id})
  }

  function RemoveAll(p: PoolState, ids: seq<SessionId>): PoolState
    decreases |ids|
  {
    if ids == [] then p else RemoveAll(RemoveSession(p, ids[0]), ids[1..])
  }

  predicate TooOld(e: Pooled, maxIdleTime: nat, now: Time) {
    now >= e.pooledAt && now - e.pooledAt > maxIdleTime
  }

  /** The expired ids in the iteration order of the metadata map. */
  function Expired(meta: map<SessionId, Pooled>, order: seq<SessionId>, maxIdleTime: nat, now: Time)
    : (ids: seq<SessionId>)
    ensures forall id :: id in ids <==> id in order && id in meta && TooOld(meta[id], maxIdleTime, now)
  {
    if order == [] then [] else
      var last := order[|order| - 1];
      var before := Expired(meta, order[..|order| - 1], maxIdleTime, now);
      assert order == order[..|order| - 1] + [last];
      if last in meta && TooOld(meta[last], maxIdleTime, now) then before + [last] else before
  }

  function CleanupExpired(p: PoolState, order: seq<SessionId>, maxIdleTime: nat, now: Time): PoolState {
    RemoveAll(p, Expired(p.meta, order, maxIdleTime, now))
  }

  // ----- Reuse -----

  function PriorityScore(priority: SessionPriority): nat {
    match priority
    case Critical => 100
    case High => 75
    case Normal => 50
    case Low => 25
  }

  function Score(e: Pooled, now: Time): (score: nat)
    ensures PriorityScore(e.priority) <= score <= PriorityScore(e.priority) + 35
  {
    PriorityScore(e.priority)
    + (if e.useCount < 10 then 20 else if e.useCount < 50 then 10 else 0)
    + (if Elapsed(now, e.pooledAt) < 60 * SECOND then 15 else if Elapsed(now, e.pooledAt) < 300 * SECOND then 10 else 0)
  }

  /** Within a priority the less used and the more recently pooled session never scores less. */
  lemma ScorePrefersFresh(a: Pooled, b: Pooled, now: Time)
    requires a.priority == b.priority && a.useCount <= b.useCount && a.pooledAt >= b.pooledAt
    ensures Score(a, now) >= Score(b, now)
  {
  }

  /** The exact weights: twenty points for few uses, of which ten go at ten uses and ten at fifty; fifteen for a fresh
      entry, of which five go after a minute and ten after five minutes in the pool. */
  lemma ScoreDifference(a: Pooled, b: Pooled, now: Time)
    requires a.pooledAt <= now && b.pooledAt <= now
    ensures Score(a, now) - Score(b, now)
         == PriorityScore(a.priority) - PriorityScore(b.priority)
            + 10 * (CountIf(a.useCount < 10) - CountIf(b.useCount < 10))
            + 10 * (CountIf(a.useCount < 50) - CountIf(b.useCount < 50))
            + 5 * (CountIf(now < a.pooledAt + 60 * SECOND) - CountIf(now < b.pooledAt + 60 * SECOND))
            + 10 * (CountIf(now < a.pooledAt + 300 * SECOND) - CountIf(now < b.pooledAt + 300 * SECOND))
  {
  }

  predicate Eligible(c: PoolConfig, p: PoolState, id: SessionId, now: Time) {
    id in p.meta && Elapsed(now, p.meta[id].pooledAt) >= c.minIdleTime * SECOND
  }

  /** `best` stands at `i`, no listed eligible id scores more, and none before `i` scores as much. */
  ghost predicate FirstAt(c: PoolConfig, p: PoolState, ids: seq<SessionId>, best: SessionId, now: Time, i: nat)
    requires best in p.meta
  {
    && i < |ids| && ids[i] == best
    && forall j :: 0 <= j < |ids| && Eligible(c, p, ids[j], now) ==>
                     && Score(p.meta[ids[j]], now) <= Score(p.meta[best], now)
                     && (j < i ==> Score(p.meta[ids[j]], now) < Score(p.meta[best], now))
  }

  /** `best` is eligible, no listed eligible id scores more, and none before its first position scores as much. */
  ghost predicate FirstOfBest(c: PoolConfig, p: PoolState, ids: seq<SessionId>, best: SessionId, now: Time) {
    Eligible(c, p, best, now) && exists i: nat :: FirstAt(c, p, ids, best, now, i)
  }

  lemma OneMoreListed(c: PoolConfig, p: PoolState, ids: seq<SessionId>, last: SessionId, best: SessionId, now: Time)
    requires FirstOfBest(c, p, ids, best, now)
    requires Eligible(c, p, last, now) ==> Score(p.meta[last], now) <= Score(p.meta[best], now)
    ensures FirstOfBest(c, p, ids + [last], best, now)
  {
    var i: nat :| FirstAt(c, p, ids, best, now, i);
    assert FirstAt(c, p, ids + [last], best, now, i);
  }

  lemma LastIsBest(c: PoolConfig, p: PoolState, ids: seq<SessionId>, last: SessionId, now: Time)
    requires Eligible(c, p, last, now)
    requires forall j :: 0 <= j < |ids| && Eligible(c, p, ids[j], now) ==>
                           Score(p.meta[ids[j]], now) < Score(p.meta[last], now)
    ensures FirstOfBest(c, p, ids + [last], last, now)
  {
    assert FirstAt(c, p, ids + [last], last, now, |ids|);
  }

  function Best(c: PoolConfig, p: PoolState, ids: seq<SessionId>, now: Time): (best: Option<SessionId>)
    ensures best.None? <==> forall j :: 0 <= j < |ids| ==> !Eligible(c, p, ids[j], now)
    ensures best.Some? ==> FirstOfBest(c, p, ids, best.value, now)
  {
    if ids == [] then None else
      var rest, last := ids[..|ids| - 1], ids[|ids| - 1];
      var best := Best(c, p, rest, now);
      assert ids == rest + [last];
      assert forall j :: 0 <= j < |ids| ==> ids[j] == if j < |rest| then rest[j] else last;
      if Eligible(c, p, last, now) && (best.None? || Score(p.meta[last], now) > Score(p.meta[best.value], now)) then
        LastIsBest(c, p, rest, last, now);
        Some(last)
      else if best.Some? then
        OneMoreListed(c, p, rest, last, best.value, now);
        best
      else None
  }

  function FindSession(c: PoolConfig, p: PoolState, key: string, now: Time): Option<SessionId> {
    if c.enabled && c.preferReuse then Best(c, p, Ids(p.pools, key), now) else None
  }

  /** When reuse is on, nothing is found only if nothing listed under the key is eligible. */
  lemma FindSessionComplete(c: PoolConfig, p: PoolState, key: string, now: Time)
    ensures FindSession(c, p, key, now).None?
       <==> !c.enabled || !c.preferReuse || forall id :: id in Ids(p.pools, key) ==> !Eligible(c, p, id, now)
  {
    var ids := Ids(p.pools, key);
    assert (forall id :: id in ids ==> !Eligible(c, p, id, now))
      <==> (forall j :: 0 <= j < |ids| ==> !Eligible(c, p, ids[j], now));
  }

  lemma OnlyOneIsFirst(c: PoolConfig, p: PoolState, ids: seq<SessionId>, a: SessionId, b: SessionId, now: Time)
    requires FirstOfBest(c, p, ids, a, now) && FirstOfBest(c, p, ids, b, now)
    ensures a == b
  {
    var i: nat :| FirstAt(c, p, ids, a, now, i);
    var k: nat :| FirstAt(c, p, ids, b, now, k);
    assert Eligible(c, p, ids[i], now) && Eligible(c, p, ids[k], now);
  }

  /** What is found is the first of the best, and only one entry can be that. */
  lemma FoundIffFirstOfBest(c: PoolConfig, p: PoolState, key: string, now: Time, id: SessionId)
    ensures FindSession(c, p, key, now) == Some(id)
       <==> c.enabled && c.preferReuse && FirstOfBest(c, p, Ids(p.pools, key), id, now)
  {
    var ids := Ids(p.pools, key);
    if c.enabled && c.preferReuse && FirstOfBest(c, p, ids, id, now) {
      var i: nat :| FirstAt(c, p, ids, id, now, i);
      assert Eligible(c, p, ids[i], now);
      OnlyOneIsFirst(c, p, ids, id, FindSession(c, p, key, now).value, now);
    }
  }

  function Rank(priority: SessionPriority): nat {
    match priority
    case Low => 0
    case Normal => 1
    case High => 2
    case Critical => 3
  }

  /** Each priority level is worth 25 points. */
  lemma LevelsWeighAlike(priority: SessionPriority)
    ensures PriorityScore(priority) == 25 * (Rank(priority) + 1)
  {
  }

  /** Freshness and recency together weigh less than two priority levels. */
  lemma TwoLevelsDecide(c: PoolConfig, p: PoolState, key: string, now: Time, other: SessionId)
    requires FindSession(c, p, key, now).Some?
    requires other in Ids(p.pools, key) && Eligible(c, p, other, now)
    ensures Rank(p.meta[other].priority) <= Rank(p.meta[FindSession(c, p, key, now).value].priority) + 1
  {
    var ids := Ids(p.pools, key);
    var j :| 0 <= j < |ids| && ids[j] == other;
    assert Score(p.meta[ids[j]], now) <= Score(p.meta[FindSession(c, p, key, now).value], now);
  }

  /** One level is not enough: a fresh Normal session is preferred to a worn High one. */
  lemma OneLevelDoesNotDecide() returns (c: PoolConfig, p: PoolState, now: Time)
    ensures Ids(p.pools, "k") == [0, 1] && Eligible(c, p, 0, now) && Eligible(c, p, 1, now)
    ensures p.meta[0].priority == High && p.meta[1].priority == Normal
    ensures FindSession(c, p, "k", now) == Some(1)
  {
    c := PoolConfig(true, 5, 50, true, 5);
    now := 400 * SECOND;
    p := PoolState(map["k" := [0, 1]], map[0 := Pooled("k", 0, High, 50), 1 := Pooled("k", 395 * SECOND, Normal, 0)]);
    assert Score(p.meta[0], now) == 75 && Score(p.meta[1], now) == 85;
    var best := FindSession(c, p, "k", now);
    assert Eligible(c, p, Ids(p.pools, "k")[1], now);
    assert best.value in Ids(p.pools, "k");
  }

  // ----- The two maps mirror each other -----

  ghost function Owners(meta: map<SessionId, Pooled>): map<SessionId, string> {
    map id | id in meta :: meta[id].connectionKey
  }

  /** For every key the listed ids are those whose metadata carries the key, and no list is empty. */
  ghost predicate Mirror(p: PoolState) {
    Agrees(p.pools, Owners(p.meta))
  }

  ghost predicate WithinLimits(c: PoolConfig, p: PoolState) {
    && |p.meta| <= c.maxTotalSessions
    && forall k :: k in p.pools ==> |p.pools[k]| <= Max(1, c.maxSessionsPerConnection)
  }

  /** Pooling keeps the mirror exactly when a session already pooled comes back under its old key. */
  lemma InsertKeepsMirrorIff(p: PoolState, m: SessionMetadata, now: Time)
    requires Mirror(p)
    ensures Mirror(Insert(p, m, now)) <==> (m.id in p.meta ==> p.meta[m.id].connectionKey == m.Key())
  {
    assert Owners(Insert(p, m, now).meta) == Owners(p.meta)[m.id := m.Key()];
    if m.id in p.meta && p.meta[m.id].connectionKey != m.Key() {
      PushUnderOtherKey(p.pools, Owners(p.meta), m.Key(), m.id);
    } else {
      PushAgrees(p.pools, Owners(p.meta), m.Key(), m.id);
    }
  }

  /** A session is refused exactly if pooling is off, its status does not pool, the pool is full, or its key has a list
      that has reached the per-key limit; otherwise it is filed under its key with the time, its priority and its use
      count. */
  lemma AddIff(c: PoolConfig, p: PoolState, m: SessionMetadata, now: Time)
    ensures var added := AddSession(c, p, m, now);
            if !c.enabled || (m.status != Idle && m.status != Active) || |p.meta| >= c.maxTotalSessions
               || (m.Key() in p.pools && |p.pools[m.Key()]| >= c.maxSessionsPerConnection)
            then added == p
            else
              && added.meta == p.meta[m.id := Pooled(m.Key(), now, m.priority, m.useCount)]
              && Ids(added.pools, m.Key()) == Ids(p.pools, m.Key()) + [m.id]
              && forall k :: k != m.Key() ==> Ids(added.pools, k) == Ids(p.pools, k)
  {
  }

  /** Used serially, adding never exceeds the limits; the per-key limit acts as at least one. */
  lemma AddKeepsLimits(c: PoolConfig, p: PoolState, m: SessionMetadata, now: Time)
    requires WithinLimits(c, p)
    ensures WithinLimits(c, AddSession(c, p, m, now))
  {
    if Accepts(c, p, m) {
      var meta := Insert(p, m, now).meta;
      assert meta.Keys == p.meta.Keys + {m.id};
      assert |meta.Keys| <= |p.meta.Keys| + 1;
    }
  }

  /** A second disconnect of a pooled session lists its id twice. */
  lemma RepeatedAddDuplicates(c: PoolConfig, p: PoolState, m: SessionMetadata, now: Time)
    requires Mirror(p) && m.id in p.meta && p.meta[m.id].connectionKey == m.Key()
    requires Accepts(c, p, m)
    ensures !NoDup(AddSession(c, p, m, now).pools[m.Key()])
    ensures AddSession(c, p, m, now).meta.Keys == p.meta.Keys
  {
    var ids := Ids(p.pools, m.Key());
    assert Owners(p.meta)[m.id] == m.Key();
    var i :| 0 <= i < |ids| && ids[i] == m.id;
    var after := AddSession(c, p, m, now).pools[m.Key()];
    assert after == ids + [m.id] && after[i] == after[|ids|];
  }

  /** The lists stay free of duplicates exactly when nothing is added or the session was not pooled yet. */
  lemma AddKeepsDistinctIff(c: PoolConfig, p: PoolState, m: SessionMetadata, now: Time)
    requires Mirror(p) && NoDuplicates(p.pools)
    requires m.id in p.meta ==> p.meta[m.id].connectionKey == m.Key()
    ensures NoDuplicates(AddSession(c, p, m, now).pools) <==> !Accepts(c, p, m) || m.id !in p.meta
  {
    if Accepts(c, p, m) {
      if m.id in p.meta {
        RepeatedAddDuplicates(c, p, m, now);
      } else {
        PushAgrees(p.pools, Owners(p.meta), m.Key(), m.id);
      }
    }
  }

  /** `p'` is `p` without the ids of `dead`: every occurrence is gone from both maps, and nothing else has changed. */
  ghost predicate Erases(p: PoolState, p': PoolState, dead: set<SessionId>) {
    && Mirror(p')
    && p'.meta == p.meta - dead
    && forall k :: Ids(p'.pools, k) == Drop(Ids(p.pools, k), dead)
  }

  lemma ErasesCompose(p: PoolState, p1: PoolState, p2: PoolState, a: set<SessionId>, b: set<SessionId>)
    requires Erases(p, p1, a) && Erases(p1, p2, b)
    ensures Erases(p, p2, a + b)
  {
    forall k ensures Ids(p2.pools, k) == Drop(Ids(p.pools, k), a + b) {
      DropTwice(Ids(p.pools, k), a, b);
    }
  }

  lemma ErasesKeepsLimits(c: PoolConfig, p: PoolState, p': PoolState, dead: set<SessionId>)
    requires Erases(p, p', dead) && WithinLimits(c, p)
    ensures WithinLimits(c, p')
  {
    assert p'.meta.Keys == p.meta.Keys - dead;
    assert |p'.meta.Keys| <= |p.meta.Keys|;
    forall k | k in p'.pools ensures |p'.pools[k]| <= Max(1, c.maxSessionsPerConnection) {
      assert Ids(p'.pools, k) == Drop(Ids(p.pools, k), dead);
    }
  }

  lemma ListedUnderItsKey(p: PoolState, id: SessionId, k: string)
    requires Mirror(p)
    ensures id in Ids(p.pools, k) <==> id in p.meta && p.meta[id].connectionKey == k
  {
    assert id in Ids(p.pools, k) <==> id in Owners(p.meta) && Owners(p.meta)[id] == k;
  }

  lemma RemoveErases(p: PoolState, id: SessionId)
    requires Mirror(p)
    ensures Erases(p, RemoveSession(p, id), {id})
  {
    if id in p.meta {
      EraseAgrees(p.pools, Owners(p.meta), id);
      assert Owners(p.meta - {id}) == Owners(p.meta) - {id};
    } else {
      assert p.meta - {id} == p.meta;
    }
    forall k ensures Ids(RemoveSession(p, id).pools, k) == Drop(Ids(p.pools, k), {id}) {
      ListedUnderItsKey(p, id, k);
    }
  }

  lemma {:induction false} RemoveAllErases(p: PoolState, ids: seq<SessionId>)
    requires Mirror(p)
    ensures Erases(p, RemoveAll(p, ids), Elements(ids))
    decreases |ids|
  {
    if ids == [] {
      assert p.meta - Elements(ids) == p.meta;
    } else {
      RemoveErases(p, ids[0]);
      RemoveAllErases(RemoveSession(p, ids[0]), ids[1..]);
      ErasesCompose(p, RemoveSession(p, ids[0]), RemoveAll(p, ids), {ids[0]}, Elements(ids[1..]));
      assert ids == [ids[0]] + ids[1..];
      assert Elements(ids) == {ids[0]} + Elements(ids[1..]);
    }
  }

  ghost function TooOldIds(meta: map<SessionId, Pooled>, maxIdleTime: nat, now: Time): set<SessionId> {
    set id | id in meta && TooOld(meta[id], maxIdleTime, now)
  }

  lemma ExpiredAreTooOld(meta: map<SessionId, Pooled>, order: seq<SessionId>, maxIdleTime: nat, now: Time)
    requires Elements(order) == meta.Keys
    ensures Elements(Expired(meta, order, maxIdleTime, now)) == TooOldIds(meta, maxIdleTime, now)
  {
    forall id
      ensures id in Elements(Expired(meta, order, maxIdleTime, now)) <==> id in TooOldIds(meta, maxIdleTime, now)
    {
      assert id in meta <==> id in Elements(order);
    }
  }

  /** Whatever the iteration order, cleanup removes exactly the entries older than the limit. */
  lemma CleanupIsExact(p: PoolState, order: seq<SessionId>, maxIdleTime: nat, now: Time)
    requires Mirror(p) && Enumerates(order, p.meta.Keys)
    ensures Erases(p, CleanupExpired(p, order, maxIdleTime, now), TooOldIds(p.meta, maxIdleTime, now))
  {
    RemoveAllErases(p, Expired(p.meta, order, maxIdleTime, now));
    ExpiredAreTooOld(p.meta, order, maxIdleTime, now);
  }
}
