/** Secondary indexes from a text key to a list of session ids: the registry keeps two, the pool keeps one. */
module IdIndex {
  import opened Common
  import opened Session

  type Index = map<string, seq<SessionId>>

  function Ids(ix: Index, key: string): seq<SessionId> {
    if key in ix then ix[key] else []
  }

  /** `entry(key).or_default().push(id)` */
  function Push(ix: Index, key: string, id: SessionId): Index {
    ix[key := Ids(ix, key) + [id]]
  }

  /** `retain` of the ids outside `dead`: every occurrence goes, the others keep their order. */
  function Drop(ids: seq<SessionId>, dead: set<SessionId>): (rest: seq<SessionId>)
    ensures forall x :: x in rest <==> x in ids && x !in dead
    ensures |rest| <= |ids|
    ensures NoDup(ids) ==> NoDup(rest)
    ensures (forall x :: x in ids ==> x !in dead) ==> rest == ids
  {
    if ids == [] then [] else
      var tail := Drop(ids[1..], dead);
      assert NoDup(ids) ==> NoDup(ids[1..]) && ids[0] !in ids[1..];
      assert ids == [ids[0]] + ids[1..];
      if ids[0] in dead then tail else [ids[0]] + tail
  }

  /** `rest` is `ids` at the positions `at`, which go upwards. */
  ghost predicate TakenAt(ids: seq<SessionId>, rest: seq<SessionId>, at: seq<nat>) {
    && |at| == |rest|
    && (forall i :: 0 <= i < |at| ==> at[i] < |ids| && ids[at[i]] == rest[i])
    && (forall i, j :: 0 <= i < j < |at| ==> at[i] < at[j])
  }

  function Shifted(at: seq<nat>): (shifted: seq<nat>)
    ensures |shifted| == |at| && forall i :: 0 <= i < |at| ==> shifted[i] == at[i] + 1
  {
    seq(|at|, i requires 0 <= i < |at| => at[i] + 1)
  }

  lemma ShiftedHolds(at: seq<nat>, k: nat)
    ensures k in Shifted(at) <==> k > 0 && k - 1 in at
  {
    if k > 0 && k - 1 in at {
      var i :| 0 <= i < |at| && at[i] == k - 1;
      assert Shifted(at)[i] == k;
    }
  }

  lemma PutInFront(ids: seq<SessionId>, rest: seq<SessionId>, at: seq<nat>)
    requires ids != [] && TakenAt(ids[1..], rest, at)
    ensures TakenAt(ids, rest, Shifted(at)) && TakenAt(ids, [ids[0]] + rest, [0] + Shifted(at))
  {
  }

  /** `at` holds exactly the positions of the living ids. */
  ghost predicate LivingAt(ids: seq<SessionId>, dead: set<SessionId>, at: seq<nat>) {
    forall k :: 0 <= k < |ids| ==> (k in at <==> ids[k] !in dead)
  }

  lemma FrontLives(ids: seq<SessionId>, dead: set<SessionId>, at: seq<nat>)
    requires ids != [] && LivingAt(ids[1..], dead, at)
    ensures LivingAt(ids, dead, if ids[0] in dead then Shifted(at) else [0] + Shifted(at))
  {
    forall k | 0 <= k < |ids|
      ensures k in (if ids[0] in dead then Shifted(at) else [0] + Shifted(at)) <==> ids[k] !in dead
    {
      ShiftedHolds(at, k);
      if k > 0 {
        assert k - 1 in at <==> ids[1..][k - 1] !in dead;
      }
    }
  }

  /** The survivors keep their order: they are the entries at all positions of living ids, from left to right. */
  lemma {:induction false} DropKeepsOrder(ids: seq<SessionId>, dead: set<SessionId>) returns (at: seq<nat>)
    ensures TakenAt(ids, Drop(ids, dead), at) && LivingAt(ids, dead, at)
  {
    if ids == [] {
      at := [];
    } else {
      var before := DropKeepsOrder(ids[1..], dead);
      PutInFront(ids, Drop(ids[1..], dead), before);
      FrontLives(ids, dead, before);
      at := if ids[0] in dead then Shifted(before) else [0] + Shifted(before);
    }
  }

  function Without(ids: seq<SessionId>, id: SessionId): seq<SessionId> {
    Drop(ids, {id})
  }

  lemma {:induction false} DropTwice(ids: seq<SessionId>, a: set<SessionId>, b: set<SessionId>)
    ensures Drop(Drop(ids, a), b) == Drop(ids, a + b)
  {
    if ids == [] {
    } else {
      DropTwice(ids[1..], a, b);
    }
  }

  /** Remove `id` from the list of `key`, and the list itself when nothing is left. */
  function Erase(ix: Index, key: string, id: SessionId): Index {
    if key !in ix then ix
    else if Without(ix[key], id) == [] then ix - {key}
    else ix[key := Without(ix[key], id)]
  }

  /** No list is empty, and the list of a key holds exactly the ids whose owner entry is that key. */
  ghost predicate Agrees(ix: Index, owner: map<SessionId, string>) {
    && (forall k :: k in ix ==> ix[k] != [])
    && (forall k, id :: id in Ids(ix, k) <==> id in owner && owner[id] == k)
  }

  ghost predicate NoDuplicates(ix: Index) {
    forall k :: k in ix ==> NoDup(ix[k])
  }

  lemma PushAgrees(ix: Index, owner: map<SessionId, string>, key: string, id: SessionId)
    requires Agrees(ix, owner)
    requires id in owner ==> owner[id] == key
    ensures Agrees(Push(ix, key, id), owner[id := key])
    ensures NoDuplicates(ix) && id !in owner ==> NoDuplicates(Push(ix, key, id))
  {
    var pushed := Push(ix, key, id);
    forall k, x ensures x in Ids(pushed, k) <==> x in owner[id := key] && owner[id := key][x] == k {
      assert x in Ids(ix, k) <==> x in owner && owner[x] == k;
    }
    assert id !in owner ==> id !in Ids(ix, key);
  }

  /** A push under a new key of an id that still owns another key breaks the agreement. */
  lemma PushUnderOtherKey(ix: Index, owner: map<SessionId, string>, key: string, id: SessionId)
    requires Agrees(ix, owner)
    requires id in owner && owner[id] != key
    ensures !Agrees(Push(ix, key, id), owner[id := key])
  {
    var stale := owner[id];
    assert id in Ids(ix, stale);
    var pushed, after := Push(ix, key, id), owner[id := key];
    assert Ids(pushed, stale) == Ids(ix, stale);
    assert !(id in Ids(pushed, stale) <==> id in after && after[id] == stale);
  }

  /** After an erasure the list of `key` has lost the id and the other lists are as before. */
  lemma EraseEffect(ix: Index, key: string, id: SessionId)
    ensures Ids(Erase(ix, key, id), key) == Without(Ids(ix, key), id)
    ensures forall k :: k != key ==> Ids(Erase(ix, key, id), k) == Ids(ix, k)
  {
  }

  lemma EraseAgrees(ix: Index, owner: map<SessionId, string>, id: SessionId)
    requires Agrees(ix, owner)
    requires id in owner
    ensures Agrees(Erase(ix, owner[id], id), owner - {id})
    ensures NoDuplicates(ix) ==> NoDuplicates(Erase(ix, owner[id], id))
    ensures forall k :: k != owner[id] ==> Ids(Erase(ix, owner[id], id), k) == Ids(ix, k)
  {
    var key := owner[id];
    EraseEffect(ix, key, id);
    forall k, x ensures x in Ids(Erase(ix, key, id), k) <==> x in owner - {id} && (owner - {id})[x] == k {
      assert x in Ids(ix, k) <==> x in owner && owner[x] == k;
    }
  }
}
