/** The sharded map: 256 maps that together behave as one. */
module ShardedMap {
  import opened Wire

  const SHARD_COUNT: nat := 256

  function ShardOf(key: nat): (i: nat)
    ensures i < SHARD_COUNT
  {
    key % SHARD_COUNT
  }

  class ShardedMapImpl<V> {
    const shards: array<map<nat, V>>

    /** The shards partition the keys by their remainder. */
    ghost predicate Valid()
      reads this, shards
    {
      && shards.Length == SHARD_COUNT
      && forall i, k :: 0 <= i < SHARD_COUNT && k in shards[i] ==> ShardOf(k) == i
    }

    ghost function Keys(): set<nat>
      requires Valid()
      reads this, shards
    {
      set i, k | 0 <= i < SHARD_COUNT && k in shards[i] :: k
    }

    /** The one map that the shards stand for. */
    ghost function Contents(): (m: map<nat, V>)
      requires Valid()
      reads this, shards
      ensures forall k: nat :: k in m <==> k in shards[ShardOf(k)]
      ensures forall k :: k in m ==> m[k] == shards[ShardOf(k)][k]
    {
      map k | k in Keys() :: shards[ShardOf(k)][k]
    }

    constructor ()
      ensures Valid() && fresh(shards) && Contents() == map[]
    {
      shards := new map<nat, V>[SHARD_COUNT](_ => map[]);
    }

    method Store(key: nat, value: V)
      requires Valid()
      modifies shards
      ensures Valid() && Contents() == old(Contents())[key := value]
    {
      hide ShardOf;
      var i := ShardOf(key);
      shards[i] := shards[i][key := value];
    }

    method LoadAndDelete(key: nat) returns (r: Option<V>)
      requires Valid()
      modifies shards
      ensures Valid() && Contents() == old(Contents()) - {key}
      ensures r == if key in old(Contents()) then Some(old(Contents())[key]) else None
    {
      hide ShardOf;
      var i := ShardOf(key);
      r := None;
      if key in shards[i] {
        r := Some(shards[i][key]);
        shards[i] := shards[i] - {key};
      }
    }

    method Delete(key: nat)
      requires Valid()
      modifies shards
      ensures Valid() && Contents() == old(Contents()) - {key}
    {
      hide ShardOf;
      var i := ShardOf(key);
      shards[i] := shards[i] - {key};
    }
  }

  /** Where the one map's keys are kept: key `k` in shard `k % 256`, and in no other. */
  lemma ShardsPartition<V>(m: ShardedMapImpl<V>, k: nat, i: nat)
    requires m.Valid() && i < 256
    ensures m.shards.Length == 256
    ensures k in m.shards[i] <==> k in m.Contents() && i == k % 256
  {
  }

  // ---- Whole histories -----------------------------------------------------------------------

  /** One critical section; the value stored by operation number `n` is `n`. */
  datatype Op = StoreOp(key: nat) | TakeOp(key: nat) | DeleteOp(key: nat)

  /** One map after a history: which store operation each key's value comes from. */
  function Table(ops: seq<Op>): map<nat, nat>
  {
    if ops == [] then map[]
    else
      var n := |ops| - 1;
      match ops[n]
      case StoreOp(k) => Table(ops[..n])[k := n]
      case TakeOp(k) => Table(ops[..n]) - {k}
      case DeleteOp(k) => Table(ops[..n]) - {k}
  }

  /** What operation `n` of a history returns. */
  function Taken(ops: seq<Op>, n: nat): Option<nat>
    requires n < |ops|
  {
    match ops[n]
    case TakeOp(k) => if k in Table(ops[..n]) then Some(Table(ops[..n])[k]) else None
    case _ => None
  }

  lemma TableStep(ops: seq<Op>, n: nat)
    requires n < |ops|
    ensures ops[..n + 1] != [] && ops[..n + 1][..n] == ops[..n] && ops[..n + 1][n] == ops[n]
  {
  }

  /** A key's value was stored under that key. */
  lemma {:induction false} TableIsSound(ops: seq<Op>, n: nat)
    requires n <= |ops|
    ensures forall k :: k in Table(ops[..n]) ==> Table(ops[..n])[k] < n && ops[Table(ops[..n])[k]] == StoreOp(k)
  {
    if n > 0 {
      TableIsSound(ops, n - 1);
      TableStep(ops, n - 1);
    }
  }

  /** Once taken, a value never comes back. */
  lemma {:induction false} TakenIsGone(ops: seq<Op>, i: nat, n: nat)
    requires i < n <= |ops| && Taken(ops, i).Some?
    ensures forall k :: k in Table(ops[..n]) ==> Table(ops[..n])[k] != Taken(ops, i).value
  {
    TableStep(ops, n - 1);
    TableIsSound(ops, n - 1);
    if n == i + 1 {
      TableIsSound(ops, i);
    } else {
      TakenIsGone(ops, i, n - 1);
      TableIsSound(ops, i);
    }
  }

  /** Each stored value is returned by at most one `LoadAndDelete`, and only for its own key. */
  lemma TakenAtMostOnce(ops: seq<Op>, i: nat, j: nat)
    requires i < j < |ops| && Taken(ops, i).Some? && Taken(ops, j).Some?
    ensures Taken(ops, i) != Taken(ops, j)
    ensures Taken(ops, i).value < i && ops[Taken(ops, i).value] == StoreOp(ops[i].key)
  {
    TableIsSound(ops, i);
    TakenIsGone(ops, i, j);
  }

  /** One critical section of a history. */
  method Perform(m: ShardedMapImpl<nat>, ops: seq<Op>, n: nat) returns (r: Option<nat>)
    requires n < |ops| && m.Valid() && m.Contents() == Table(ops[..n])
    modifies m.shards
    ensures m.Valid() && m.Contents() == Table(ops[..n + 1]) && r == Taken(ops, n)
  {
    TableStep(ops, n);
    r := None;
    match ops[n] {
      case StoreOp(k) => m.Store(k, n);
      case TakeOp(k) => r := m.LoadAndDelete(k);
      case DeleteOp(k) => m.Delete(k);
    }
  }

  /** The sharded map runs any history as the single map does. */
  method Replay(ops: seq<Op>) returns (results: seq<Option<nat>>)
    ensures |results| == |ops| && forall i :: 0 <= i < |ops| ==> results[i] == Taken(ops, i)
  {
    hide Taken;
    var m := new ShardedMapImpl<nat>();
    results := [];
    for n := 0 to |ops|
      invariant fresh(m.shards) && m.Valid() && m.Contents() == Table(ops[..n])
      invariant |results| == n && forall i :: 0 <= i < n ==> results[i] == Taken(ops, i)
    {
      var r := Perform(m, ops, n);
      results := results + [r];
    }
  }
}
