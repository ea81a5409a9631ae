/**
 A model of `KvStore` from kvs/src/kv.rs: a string-to-string map with
 `new`, `set`, `get` and `remove`. The inner `HashMap<String, String>` is a
 Dafny `map<string, string>`. `set` and `remove` take `&mut self` and are
 modelled as functions returning the new store; `get` takes `&self` and
 returns only the looked-up value, so it cannot change the store.
 */
module KvStore {
  import opened Wrappers

  datatype Store = Store(entries: map<string, string>)

  /** `KvStore::new`: a store with no bindings. */
  function New(): (s: Store)
    ensures forall k :: Get(s, k) == None
    ensures |s.entries| == 0
  {
    Store(map[])
  }

  /** `get`: a copy of the value bound to `key`, or `None` if there is none. */
  function Get(s: Store, key: string): (r: Option<string>)
    ensures r.Some? <==> key in s.entries
    ensures r.Some? ==> r.value == s.entries[key]
  {
    Lookup(s.entries, key)
  }

  /** `set`: binds `key` to `value`, replacing any earlier binding of `key`. */
  function Set(s: Store, key: string, value: string): (r: Store)
    ensures Get(r, key) == Some(value)
    ensures forall k :: k != key ==> Get(r, k) == Get(s, k)
    ensures r.entries.Keys == s.entries.Keys + {key}
  {
    Store(s.entries[key := value])
  }

  /** `remove`: drops the binding of `key`, if there is one. */
  function Remove(s: Store, key: string): (r: Store)
    ensures Get(r, key) == None
    ensures forall k :: k != key ==> Get(r, k) == Get(s, k)
    ensures r.entries.Keys == s.entries.Keys - {key}
    ensures key !in s.entries ==> r == s
  {
    Store(s.entries - {key})
  }

  /** Setting the same key twice is the same as setting it once, to the second value. */
  lemma SetOverwrites(s: Store, key: string, v1: string, v2: string)
    ensures Set(Set(s, key, v1), key, v2) == Set(s, key, v2)
    ensures Get(Set(Set(s, key, v1), key, v2), key) == Some(v2)
  {
  }

  /** Removing twice is the same as removing once. */
  lemma RemoveIdempotent(s: Store, key: string)
    ensures Remove(Remove(s, key), key) == Remove(s, key)
  {
  }

  /** One mutating call on the store, as a value; a history is a sequence of them. */
  datatype Op = SetOp(key: string, value: string) | RemoveOp(key: string)

  function Apply(s: Store, op: Op): Store {
    match op
    case SetOp(k, v) => Set(s, k, v)
    case RemoveOp(k) => Remove(s, k)
  }

  /** The store after running `ops` in order, starting from `s`. */
  function Replay(s: Store, ops: seq<Op>): Store
    decreases |ops|
  {
    if |ops| == 0 then s else Replay(Apply(s, ops[0]), ops[1..])
  }

  /**
   The reference meaning of a history: what `get(key)` observes is decided by
   the LAST operation on `key` (a `set` gives its value, a `remove` gives
   `None`); a key the history never mentions reads as it did in `s`.
   */
  function LastWrite(s: Store, ops: seq<Op>, key: string): Option<string>
    decreases |ops|
  {
    if |ops| == 0 then Get(s, key)
    else
      var last := ops[|ops| - 1];
      if last.key != key then LastWrite(s, ops[..|ops| - 1], key)
      else if last.SetOp? then Some(last.value)
      else None
  }

  lemma {:induction false} ReplaySnoc(s: Store, ops: seq<Op>, op: Op)
    ensures Replay(s, ops + [op]) == Apply(Replay(s, ops), op)
    decreases |ops|
  {
    if |ops| == 0 {
      assert ops + [op] == [op];
    } else {
      assert (ops + [op])[1..] == ops[1..] + [op];
      ReplaySnoc(Apply(s, ops[0]), ops[1..], op);
    }
  }

  /** Replaying a history and then reading a key agrees with the reference `LastWrite`. */
  lemma {:induction false} ReplayMatchesLastWrite(s: Store, ops: seq<Op>, key: string)
    ensures Get(Replay(s, ops), key) == LastWrite(s, ops, key)
    decreases |ops|
  {
    if |ops| > 0 {
      var init, last := ops[..|ops| - 1], ops[|ops| - 1];
      assert ops == init + [last];
      ReplaySnoc(s, init, last);
      ReplayMatchesLastWrite(s, init, key);
    }
  }

  lemma {:induction false} UntouchedLastWrite(s: Store, ops: seq<Op>, key: string)
    requires forall i :: 0 <= i < |ops| ==> ops[i].key != key
    ensures LastWrite(s, ops, key) == Get(s, key)
    decreases |ops|
  {
    if |ops| > 0 {
      UntouchedLastWrite(s, ops[..|ops| - 1], key);
    }
  }

  /**
   A key that no operation of the history mentions keeps its binding; in
   particular, on a store built by `New` it reads as `None`.
   */
  lemma UntouchedKeyKeepsValue(s: Store, ops: seq<Op>, key: string)
    requires forall i :: 0 <= i < |ops| ==> ops[i].key != key
    ensures Get(Replay(s, ops), key) == Get(s, key)
    ensures s == New() ==> Get(Replay(s, ops), key) == None
  {
    ReplayMatchesLastWrite(s, ops, key);
    UntouchedLastWrite(s, ops, key);
  }

  /** A key whose last operation in the history is a `remove` reads as `None`. */
  lemma RemovedIsNone(s: Store, ops: seq<Op>, j: nat)
    requires j < |ops| && ops[j].RemoveOp?
    requires forall m :: j < m < |ops| ==> ops[m].key != ops[j].key
    ensures Get(Replay(s, ops), ops[j].key) == None
  {
    var key := ops[j].key;
    var pre, post := ops[..j + 1], ops[j + 1..];
    assert ops == pre + post;
    ReplayAppend(s, pre, post);
    ReplayMatchesLastWrite(s, pre, key);
    ReplayMatchesLastWrite(Replay(s, pre), post, key);
    forall i | 0 <= i < |post| ensures post[i].key != key {
      assert post[i] == ops[j + 1 + i];
    }
    UntouchedLastWrite(Replay(s, pre), post, key);
  }

  lemma {:induction false} ReplayAppend(s: Store, a: seq<Op>, b: seq<Op>)
    ensures Replay(s, a + b) == Replay(Replay(s, a), b)
    decreases |a|
  {
    if |a| > 0 {
      assert (a + b)[1..] == a[1..] + b;
      ReplayAppend(Apply(s, a[0]), a[1..], b);
    } else {
      assert a + b == b;
    }
  }
}
