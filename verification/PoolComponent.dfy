/** The pool as the source keeps it: one object whose two maps are updated in place. */
module PoolComponent {
  import opened Common
  import opened Session
  import opened IdIndex
  import P = Pool

  class SessionPool {
    const config: P.PoolConfig
    var pools: Index
    var meta: map<SessionId, P.Pooled>

    ghost function State(): P.PoolState
      reads this
    {
      P.PoolState(pools, meta)
    }

    constructor (config: P.PoolConfig)
      ensures this.config == config && State() == P.EMPTY
      ensures P.Mirror(State()) && P.WithinLimits(config, State())
    {
      this.config := config;
      pools, meta := map[], map[];
    }

    method AddSession(m: SessionMetadata, now: Time) returns (added: bool)
      modifies this
      ensures added <==> P.Accepts(config, old(State()), m)
      ensures State() == P.AddSession(config, old(State()), m, now)
      ensures P.Mirror(old(State())) && (m.id in old(meta) ==> old(meta)[m.id].connectionKey == m.Key()) ==>
                P.Mirror(State())
      ensures P.WithinLimits(config, old(State())) ==> P.WithinLimits(config, State())
    {
      if P.Mirror(State()) { P.InsertKeepsMirrorIff(State(), m, now); }
      if P.WithinLimits(config, State()) { P.AddKeepsLimits(config, State(), m, now); }
      if !config.enabled || (m.status != Idle && m.status != Active) {
        return false;
      }
      var key := m.Key();
      if key in pools && |pools[key]| >= config.maxSessionsPerConnection {
        return false;
      }
      if |meta| >= config.maxTotalSessions {
        return false;
      }
      pools := Push(pools, key, m.id);
      meta := meta[m.id := P.Pooled(key, now, m.priority, m.useCount)];
      added := true;
    }

    method RemoveSession(id: SessionId) returns (removed: bool)
      modifies this
      ensures removed <==> id in old(meta)
      ensures State() == P.RemoveSession(old(State()), id)
      ensures P.Mirror(old(State())) ==> P.Erases(old(State()), State(), {id})
    {
      if P.Mirror(State()) { P.RemoveErases(State(), id); }
      if id !in meta {
        return false;
      }
      pools := Erase(pools, meta[id].connectionKey, id);
      meta := meta - {id};
      removed := true;
    }

    /** The scan keeps the best session so far and replaces it only by a strictly better one. */
    method FindSession(key: string, now: Time) returns (best: Option<SessionId>)
      ensures best == P.FindSession(config, State(), key, now)
    {
      if !config.enabled || !config.preferReuse || key !in pools {
        return None;
      }
      best := None;
      var bestScore := 0;
      var ids := pools[key];
      for i := 0 to |ids|
        invariant best == P.Best(config, State(), ids[..i], now)
        invariant bestScore == if best.Some? then P.Score(meta[best.value], now) else 0
      {
        assert ids[..i + 1][..i] == ids[..i];
        if ids[i] in meta {
          var entry := meta[ids[i]];
          if Elapsed(now, entry.pooledAt) >= config.minIdleTime * SECOND {
            var score := P.Score(entry, now);
            if score > bestScore {
              bestScore := score;
              best := Some(ids[i]);
            }
          }
        }
      }
      assert ids[..|ids|] == ids;
    }

    /** `order` is the order in which the hash map of metadata is iterated. */
    method CleanupExpired(order: seq<SessionId>, maxIdleTime: nat, now: Time) returns (expired: seq<SessionId>)
      modifies this
      ensures expired == P.Expired(old(meta), order, maxIdleTime, now)
      ensures State() == P.CleanupExpired(old(State()), order, maxIdleTime, now)
      ensures P.Mirror(old(State())) && Enumerates(order, old(meta).Keys) ==>
                P.Erases(old(State()), State(), P.TooOldIds(old(meta), maxIdleTime, now))
    {
      if P.Mirror(State()) && Enumerates(order, meta.Keys) { P.CleanupIsExact(State(), order, maxIdleTime, now); }
      expired := [];
      for i := 0 to |order|
        invariant State() == old(State())
        invariant expired == P.Expired(meta, order[..i], maxIdleTime, now)
      {
        assert order[..i + 1][..i] == order[..i];
        var id := order[i];
        if id in meta && now >= meta[id].pooledAt && now - meta[id].pooledAt > maxIdleTime {
          expired := expired + [id];
        }
      }
      assert order[..|order|] == order;
      for i := 0 to |expired|
        invariant P.RemoveAll(State(), expired[i..]) == P.RemoveAll(old(State()), expired)
      {
        assert expired[i..][1..] == expired[i + 1..];
        var _ := RemoveSession(expired[i]);
      }
    }
  }
}
