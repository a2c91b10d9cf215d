/**
 * android.util.LruCache with every entry of size one: a map kept in access
 * order (least recently used first), trimmed back to `maxSize` after each
 * put by evicting the eldest entries.
 */
module Lru {
  import opened Wrappers

  datatype Cache<V> = Cache(maxSize: nat, order: seq<int>, values: map<int, V>)

  /** Distinct keys. */
  predicate Distinct(s: seq<int>)
  {
    forall i, j :: 0 <= i < j < |s| ==> s[i] != s[j]
  }

  /** `order` lists each key once, eldest first, and the size is within the bound. */
  ghost predicate Valid<V>(c: Cache<V>)
  {
    && 0 < c.maxSize
    && Distinct(c.order)
    && (forall k :: k in c.values <==> k in c.order)
    && |c.order| == |c.values.Keys|
    && |c.order| <= c.maxSize
  }

  /** new LruCache(maxSize) */
  function Empty<V>(maxSize: nat): (c: Cache<V>)
    requires 0 < maxSize
    ensures Valid(c) && c.values == map[]
  {
    Cache(maxSize, [], map[])
  }

  /** The keys of `s` other than `k`, in order. */
  function RemoveKey(s: seq<int>, k: int): (r: seq<int>)
    ensures forall x :: x in r <==> x in s && x != k
    ensures Distinct(s) ==> Distinct(r)
    ensures Distinct(s) && k in s ==> |r| == |s| - 1
    ensures k !in s ==> r == s
  {
    if |s| == 0 then []
    else
      var rest := RemoveKey(s[1..], k);
      assert forall x :: x in s <==> x == s[0] || x in s[1..];
      if s[0] == k then
        assert Distinct(s) ==> k !in s[1..];
        rest
      else
        assert Distinct(s) ==> s[0] !in s[1..] && Distinct(s[1..]);
        [s[0]] + rest
  }

  /**
   * Removing a key that occurs once cuts it out at its position: the keys
   * before and after it stay, in their order.
   */
  lemma {:induction false} RemoveKeyAt(s: seq<int>, k: int) returns (i: nat)
    requires Distinct(s) && k in s
    ensures i < |s| && s[i] == k && RemoveKey(s, k) == s[..i] + s[i + 1..]
  {
    if s[0] == k {
      assert k !in s[1..];
      i := 0;
    } else {
      assert Distinct(s[1..]);
      var j := RemoveKeyAt(s[1..], k);
      i := j + 1;
      assert s[..i] == [s[0]] + s[1..][..j];
      assert s[i + 1..] == s[1..][j + 1..];
    }
  }

  /** An access: `k` becomes the most recently used key. */
  function Touch(order: seq<int>, k: int): seq<int>
  {
    RemoveKey(order, k) + [k]
  }

  /** get: the value, with the key moved to the most recent end; a miss changes nothing. */
  function Get<V>(c: Cache<V>, k: int): (Cache<V>, Option<V>)
  {
    if k in c.values then (c.(order := Touch(c.order, k)), Some(c.values[k])) else (c, None)
  }

  /** trimToSize: evict the eldest entry while the cache is over its bound. */
  function TrimToSize<V>(c: Cache<V>): Cache<V>
    decreases |c.order|
  {
    if |c.order| <= c.maxSize || |c.order| == 0 then c
    else TrimToSize(c.(order := c.order[1..], values := c.values - {c.order[0]}))
  }

  /** put: store the value as the most recently used entry, then trim. */
  function Put<V>(c: Cache<V>, k: int, v: V): Cache<V>
  {
    var order := if k in c.values then Touch(c.order, k) else c.order + [k];
    TrimToSize(c.(order := order, values := c.values[k := v]))
  }

  lemma TouchKeeps(order: seq<int>, k: int)
    requires Distinct(order) && k in order
    ensures Distinct(Touch(order, k)) && |Touch(order, k)| == |order|
    ensures forall x :: x in Touch(order, k) <==> x in order
  {
    var r := RemoveKey(order, k);
    var t := r + [k];
    forall i, j | 0 <= i < j < |t| ensures t[i] != t[j] {
      if j == |r| { assert t[i] in r; }
    }
  }

  /**
   * A hit returns the stored value, keeps the entries and the cache valid,
   * and moves the key from its place to the most recent end, the other keys
   * keeping their order; a miss changes nothing.
   */
  lemma GetSpec<V>(c: Cache<V>, k: int)
    requires Valid(c)
    ensures Valid(Get(c, k).0) && Get(c, k).0.values == c.values
    ensures Get(c, k).1 == if k in c.values then Some(c.values[k]) else None
    ensures k in c.values ==> Get(c, k).0.order[|c.order| - 1] == k
    ensures k in c.values ==> exists i :: 0 <= i < |c.order| && c.order[i] == k
                                 && Get(c, k).0.order == c.order[..i] + c.order[i + 1..] + [k]
    ensures k !in c.values ==> Get(c, k).0 == c
  {
    if k in c.values {
      TouchKeeps(c.order, k);
      var i := RemoveKeyAt(c.order, k);
    }
  }

  lemma AppendDistinct(s: seq<int>, k: int)
    requires Distinct(s) && k !in s
    ensures Distinct(s + [k])
  {
    var t := s + [k];
    forall i, j | 0 <= i < j < |t| ensures t[i] != t[j] {
      if j == |s| { assert t[i] in s; }
    }
  }

  lemma DropEldestDistinct(s: seq<int>)
    requires Distinct(s) && |s| > 0
    ensures Distinct(s[1..])
    ensures forall x :: x in s[1..] <==> x in s && x != s[0]
  {
    forall i, j | 0 <= i < j < |s| - 1 ensures s[1..][i] != s[1..][j] {
      assert s[1..][i] == s[i + 1] && s[1..][j] == s[j + 1];
    }
  }

  /** A put of a present key moves it to the most recent end and evicts nothing. */
  lemma PutHit<V>(c: Cache<V>, k: int, v: V)
    requires Valid(c) && k in c.values
    ensures Put(c, k, v) == c.(order := Touch(c.order, k), values := c.values[k := v])
    ensures Valid(Put(c, k, v))
  {
    TouchKeeps(c.order, k);
    assert c.values[k := v].Keys == c.values.Keys;
  }

  /** A put of a new key while there is room appends it and evicts nothing. */
  lemma PutRoom<V>(c: Cache<V>, k: int, v: V)
    requires Valid(c) && k !in c.values && |c.order| < c.maxSize
    ensures Put(c, k, v) == c.(order := c.order + [k], values := c.values[k := v])
    ensures Valid(Put(c, k, v))
  {
    AppendDistinct(c.order, k);
    assert c.values[k := v].Keys == c.values.Keys + {k};
  }

  /** A put of a new key into a full cache evicts the eldest key. */
  lemma PutEvict<V>(c: Cache<V>, k: int, v: V)
    requires Valid(c) && k !in c.values && |c.order| == c.maxSize
    ensures Put(c, k, v) == Cache(c.maxSize, (c.order + [k])[1..], c.values[k := v] - {c.order[0]})
    ensures Valid(Put(c, k, v))
  {
    var order := c.order + [k];
    var values := c.values[k := v];
    AppendDistinct(c.order, k);
    DropEldestDistinct(order);
    assert order[0] == c.order[0] && order[0] != k;
    assert values.Keys == c.values.Keys + {k};
    assert (values - {order[0]}).Keys == values.Keys - {order[0]};
    var c2 := Cache(c.maxSize, order[1..], values - {order[0]});
    assert TrimToSize(c2) == c2;
  }

  /**
   * After a put the key maps to the new value and is the most recently
   * used; the cache stays valid. When the key was present or there was
   * room, nothing is evicted; otherwise exactly the least recently used
   * key goes.
   */
  lemma PutSpec<V>(c: Cache<V>, k: int, v: V)
    requires Valid(c)
    ensures var c' := Put(c, k, v);
            && Valid(c') && k in c'.values && c'.values[k] == v
            && c'.order[|c'.order| - 1] == k
            && ((k in c.values || |c.order| < c.maxSize) ==>
                  c'.values.Keys == c.values.Keys + {k}
                  && forall x :: x in c.values && x != k ==> c'.values[x] == c.values[x])
            && ((k !in c.values && |c.order| == c.maxSize) ==>
                  c'.values.Keys == c.values.Keys - {c.order[0]} + {k}
                  && forall x :: x in c.values && x != k && x != c.order[0] ==> c'.values[x] == c.values[x])
  {
    if k in c.values {
      PutHit(c, k, v);
    } else if |c.order| < c.maxSize {
      PutRoom(c, k, v);
    } else {
      PutEvict(c, k, v);
    }
  }

  /**
   * The access order after a put: a present key moves from its place to the
   * most recent end; a new key is appended, and when the cache was full the
   * eldest key drops off the front. The other keys keep their order.
   */
  lemma PutOrder<V>(c: Cache<V>, k: int, v: V)
    requires Valid(c)
    ensures k in c.values ==> exists i :: 0 <= i < |c.order| && c.order[i] == k
                                 && Put(c, k, v).order == c.order[..i] + c.order[i + 1..] + [k]
    ensures k !in c.values && |c.order| < c.maxSize ==> Put(c, k, v).order == c.order + [k]
    ensures k !in c.values && |c.order| == c.maxSize ==> Put(c, k, v).order == c.order[1..] + [k]
  {
    if k in c.values {
      PutHit(c, k, v);
      var i := RemoveKeyAt(c.order, k);
    } else if |c.order| < c.maxSize {
      PutRoom(c, k, v);
    } else {
      PutEvict(c, k, v);
      assert (c.order + [k])[1..] == c.order[1..] + [k];
    }
  }
}
