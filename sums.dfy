/** Sums of counters over the entries of a dictionary, taken in the dictionary's
    insertion order. A Python dictionary is modelled as a `map` together with the
    sequence of its keys in insertion order. */
module Sums {

  /** No key occurs twice. */
  ghost predicate NoDup<K(!new)>(keys: seq<K>) {
    forall i, j :: 0 <= i < j < |keys| ==> keys[i] != keys[j]
  }

  /** `keys` lists the keys of `m`, each once: the iteration order of a dictionary. */
  ghost predicate Keyed<K(!new), V>(keys: seq<K>, m: map<K, V>) {
    NoDup(keys) && forall k :: k in m <==> k in keys
  }

  /** The sum of `f` over the entries of `m` named by `keys`. */
  function Total<K(==), V>(m: map<K, V>, keys: seq<K>, f: V -> nat): nat
    requires forall k :: k in keys ==> k in m
  {
    if keys == [] then 0 else Total(m, keys[..|keys| - 1], f) + f(m[keys[|keys| - 1]])
  }

  /** Changing an entry that `keys` does not name leaves the sum alone. */
  lemma {:induction false} TotalFrame<K(!new), V>(m: map<K, V>, keys: seq<K>, f: V -> nat, k: K, v: V)
    requires forall x :: x in keys ==> x in m
    requires k !in keys
    ensures Total(m[k := v], keys, f) == Total(m, keys, f)
  {
    if keys != [] {
      var init := keys[..|keys| - 1];
      assert forall x :: x in init ==> x in keys;
      TotalFrame(m, init, f, k, v);
    }
  }

  /** A key added at the end of the order adds its value to the sum. */
  lemma TotalAppend<K(!new), V>(m: map<K, V>, keys: seq<K>, f: V -> nat, k: K, v: V)
    requires forall x :: x in keys ==> x in m
    requires k !in keys
    ensures Total(m[k := v], keys + [k], f) == Total(m, keys, f) + f(v)
  {
    assert (keys + [k])[..|keys|] == keys;
    TotalFrame(m, keys, f, k, v);
  }

  /** Replacing the value of a key listed once changes the sum by the difference. */
  lemma {:induction false} TotalUpdate<K(!new), V>(m: map<K, V>, keys: seq<K>, f: V -> nat, k: K, v: V)
    requires forall x :: x in keys ==> x in m
    requires NoDup(keys) && k in keys
    ensures Total(m[k := v], keys, f) + f(m[k]) == Total(m, keys, f) + f(v)
  {
    var init := keys[..|keys| - 1];
    var last := keys[|keys| - 1];
    assert forall x :: x in init ==> x in keys;
    assert NoDup(init);
    if last == k {
      assert k !in init;
      TotalFrame(m, init, f, k, v);
    } else {
      assert k in init by {
        var i :| 0 <= i < |keys| && keys[i] == k;
        assert i < |keys| - 1 && init[i] == k;
      }
      TotalUpdate(m, init, f, k, v);
    }
  }

  /** Appending a key that is not yet listed keeps the keys distinct. */
  lemma KeyedAppend<K(!new), V>(keys: seq<K>, m: map<K, V>, k: K, v: V)
    requires Keyed(keys, m) && k !in m
    ensures Keyed(keys + [k], m[k := v])
  {
    forall i, j | 0 <= i < j < |keys + [k]|
      ensures (keys + [k])[i] != (keys + [k])[j]
    {
      if j == |keys| {
        assert keys[i] in keys;
      }
    }
  }

  /** Two dictionaries that agree under `f` on the listed keys have the same sum. */
  lemma {:induction false} TotalSame<K(!new), V>(m: map<K, V>, n: map<K, V>, keys: seq<K>, f: V -> nat)
    requires forall x :: x in keys ==> x in m && x in n && f(m[x]) == f(n[x])
    ensures Total(m, keys, f) == Total(n, keys, f)
  {
    if keys != [] {
      var init := keys[..|keys| - 1];
      assert forall x :: x in init ==> x in keys;
      TotalSame(m, n, init, f);
    }
  }

  /** In a list without repeats, an element does not occur before its own position. */
  lemma NoDupPrefix<K(!new)>(keys: seq<K>, j: nat)
    requires NoDup(keys) && j < |keys|
    ensures keys[j] !in keys[..j]
  {
  }

  /** `f` applied to each element of `s`, in order. */
  function Mapped<A, B>(f: A -> B, s: seq<A>): (r: seq<B>)
    ensures |r| == |s|
    ensures forall i :: 0 <= i < |s| ==> r[i] == f(s[i])
  {
    if s == [] then [] else Mapped(f, s[..|s| - 1]) + [f(s[|s| - 1])]
  }

  lemma MappedConcat<A, B>(f: A -> B, a: seq<A>, b: seq<A>)
    ensures Mapped(f, a + b) == Mapped(f, a) + Mapped(f, b)
  {
  }

  lemma MappedSingle<A, B>(f: A -> B, x: A)
    ensures Mapped(f, [x]) == [f(x)]
  {
  }
}
