/** Vocabulary shared by the session, protocol and fault-handling models. */
module Common {

  datatype Option<+T> = None | Some(value: T)

  datatype Result<+T, +E> = Ok(value: T) | Err(error: E)

  /** Clock readings and durations, in nanoseconds. */
  type Time = nat

  const MILLISECOND: nat := 1_000_000
  const SECOND: nat := 1_000_000_000

  /** `now.duration_since(since).unwrap_or(ZERO)`: a clock that runs backwards gives zero. */
  function Elapsed(now: Time, since: Time): nat {
    if now >= since then now - since else 0
  }

  function SaturatingSub(a: nat, b: nat): nat {
    if a >= b then a - b else 0
  }

  function Min(a: int, b: int): int {
    if a <= b then a else b
  }

  function Max(a: int, b: int): int {
    if a >= b then a else b
  }

  function CountIf(b: bool): nat {
    if b then 1 else 0
  }

  ghost predicate NoDup<T>(s: seq<T>) {
    forall i, j :: 0 <= i < j < |s| ==> s[i] != s[j]
  }

  function Elements<T>(s: seq<T>): set<T> {
    set x | x in s
  }

  /** `order` lists every element of `s` once: one possible iteration order of a hash map with key set `s`. */
  ghost predicate Enumerates<T>(order: seq<T>, s: set<T>) {
    NoDup(order) && Elements(order) == s
  }

  function Flatten<T>(parts: seq<seq<T>>): seq<T> {
    if parts == [] then [] else parts[0] + Flatten(parts[1..])
  }

  lemma {:induction false} FlattenAppend<T>(parts: seq<seq<T>>, last: seq<T>)
    ensures Flatten(parts + [last]) == Flatten(parts) + last
  {
    if parts == [] {
    } else {
      assert (parts + [last])[1..] == parts[1..] + [last];
      FlattenAppend(parts[1..], last);
    }
  }

  /** Sum of the values of a finite map. */
  ghost function MapSum<K>(m: map<K, nat>): nat {
    if m == map[] then 0 else
      var k :| k in m;
      m[k] + MapSum(m - {k})
  }

  lemma {:induction false} MapSumRemove<K>(m: map<K, nat>, k: K)
    requires k in m
    ensures MapSum(m) == m[k] + MapSum(m - {k})
    decreases |m|
  {
    var p :| p in m && MapSum(m) == m[p] + MapSum(m - {p});
    if p != k {
      MapSumRemove(m - {p}, k);
      MapSumRemove(m - {k}, p);
      assert (m - {p}) - {k} == (m - {k}) - {p};
    }
  }

  lemma MapSumUpdate<K>(m: map<K, nat>, k: K, v: nat)
    ensures MapSum(m[k := v]) == MapSum(m) - (if k in m then m[k] else 0) + v
  {
    MapSumRemove(m[k := v], k);
    if k in m {
      MapSumRemove(m, k);
      assert m[k := v] - {k} == m - {k};
    } else {
      assert m[k := v] - {k} == m;
    }
  }

  function Restrict<K, V>(m: map<K, V>, keep: set<K>): map<K, V> {
    map k | k in m && k in keep :: m[k]
  }

  lemma RestrictRemove<K, V>(m: map<K, V>, part: set<K>, k: K)
    requires k in m && k in part
    ensures (m - {k}) - part == m - part
    ensures Restrict(m - {k}, part) == Restrict(m, part) - {k}
  {
  }

  lemma {:induction false} MapSumSplit<K>(m: map<K, nat>, part: set<K>)
    ensures MapSum(m) == MapSum(m - part) + MapSum(Restrict(m, part))
    decreases |m|
  {
    if m.Keys !! part {
      assert m - part == m;
      assert Restrict(m, part) == map[];
    } else {
      var k :| k in m && k in part;
      RestrictRemove(m, part, k);
      MapSumRemove(m, k);
      MapSumRemove(Restrict(m, part), k);
      MapSumSplit(m - {k}, part);
    }
  }

  /** A finite set of numbers does not hold them all. */
  lemma {:induction false} Above(s: set<nat>) returns (bound: nat)
    ensures forall x :: x in s ==> x < bound
    decreases |s|
  {
    if s == {} {
      bound := 0;
    } else {
      var x :| x in s;
      var rest := Above(s - {x});
      bound := if rest > x then rest else x + 1;
      assert forall y :: y in s && y != x ==> y in s - {x};
    }
  }
}
