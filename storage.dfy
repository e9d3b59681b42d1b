/**
 * The key-value backend (`localStorage`/`sessionStorage`) as seen by a
 * store: string keys in `key(idx)` order, each holding a decoded record.
 */
module Storage {
  import opened Wrappers
  import opened Engine

  predicate Distinct(keys: seq<string>) {
    forall i, j | 0 <= i < j < |keys| :: keys[i] != keys[j]
  }

  /** The key order after `removeItem(k)`. */
  function Without(keys: seq<string>, k: string): (r: seq<string>)
    ensures forall x :: x in r <==> x in keys && x != k
    ensures Distinct(keys) ==> Distinct(r)
  {
    if keys == [] then []
    else
      var rest := Without(keys[1..], k);
      assert forall x :: x in keys[1..] ==> x in keys;
      assert Distinct(keys) ==> Distinct(keys[1..]) && keys[0] !in keys[1..];
      if keys[0] == k then rest else [keys[0]] + rest
  }

  /** The key order after `removeItem` of every key in `gone`, in any order. */
  function WithoutAll(keys: seq<string>, gone: set<string>): (r: seq<string>)
    ensures forall x :: x in r <==> x in keys && x !in gone
  {
    if keys == [] then []
    else
      assert forall x :: x in keys <==> x == keys[0] || x in keys[1..];
      (if keys[0] in gone then [] else [keys[0]]) + WithoutAll(keys[1..], gone)
  }

  /** Removing nothing keeps the key order. */
  lemma {:induction false} WithoutNothing(keys: seq<string>)
    ensures WithoutAll(keys, {}) == keys
  {
    if keys != [] {
      WithoutNothing(keys[1..]);
      assert [keys[0]] + keys[1..] == keys;
    }
  }

  /** One more `removeItem` after removing `gone` is removing `gone` and `k`. */
  lemma {:induction false} WithoutAllStep(keys: seq<string>, gone: set<string>, k: string)
    ensures Without(WithoutAll(keys, gone), k) == WithoutAll(keys, gone + {k})
  {
    if keys != [] {
      var rest := WithoutAll(keys[1..], gone);
      var after := WithoutAll(keys[1..], gone + {k});
      WithoutAllStep(keys[1..], gone, k);
      if keys[0] in gone {
        assert WithoutAll(keys, gone) == [] + rest == rest;
        assert WithoutAll(keys, gone + {k}) == [] + after;
      } else {
        var w := [keys[0]] + rest;
        assert WithoutAll(keys, gone) == w;
        assert w[0] == keys[0] && w[1..] == rest;
        if keys[0] == k {
          assert WithoutAll(keys, gone + {k}) == [] + after;
        } else {
          assert WithoutAll(keys, gone + {k}) == [keys[0]] + after;
        }
      }
    }
  }

  class Backend {
    /** The keys, in the order `key(0) .. key(length - 1)` enumerates them. */
    var keys: seq<string>
    /** What each key holds, already decoded. */
    var items: map<string, Rec>

    ghost predicate Valid()
      reads this
    {
      Distinct(keys) && forall k :: k in keys <==> k in items
    }

    constructor ()
      ensures Valid() && keys == [] && items == map[]
    {
      keys := [];
      items := map[];
    }

    /** `length`. */
    function Length(): (n: nat)
      reads this
      ensures n == |keys|
    {
      |keys|
    }

    /** `key(idx)`: null past the end. */
    function Key(idx: nat): (r: Option<string>)
      reads this
      requires Valid()
      ensures r.Some? <==> idx < |keys|
      ensures r.Some? ==> r.value == keys[idx] && r.value in items
    {
      if idx < |keys| then Some(keys[idx]) else None
    }

    /** `getItem(k)`: null for an absent key. */
    function GetItem(k: string): (r: Option<Rec>)
      reads this
      ensures r.Some? <==> k in items
      ensures r.Some? ==> r.value == items[k]
    {
      if k in items then Some(items[k]) else None
    }

    /** `setItem(k, v)`: a new key goes last, a present key keeps its place. */
    method SetItem(k: string, v: Rec)
      requires Valid()
      modifies this
      ensures Valid()
      ensures items == old(items)[k := v]
      ensures keys == if k in old(items) then old(keys) else old(keys) + [k]
    {
      if k !in items {
        keys := keys + [k];
      }
      items := items[k := v];
    }

    /** `removeItem(k)`: nothing happens for an absent key. */
    method RemoveItem(k: string)
      requires Valid()
      modifies this
      ensures Valid()
      ensures items == old(items) - {k}
      ensures keys == Without(old(keys), k)
    {
      keys := Without(keys, k);
      items := items - {k};
    }
  }
}
