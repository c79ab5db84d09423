/** A Python `dict` from keys to lists that a loop fills from a stream of
    (key, value) pairs: `if k not in d: d[k] = []`, then `d[k].append(v)`. The
    dictionary is a sequence of groups in insertion order, which is the order in
    which `dict.items()` lists them. Its reference definition, `GroupAll`, says
    what the loop builds without following the loop: one group per distinct key,
    in the order in which the keys first occur, each with the values paired with
    its key, in stream order. */
module Groups {
  /** One entry of the dictionary: a key and its list. */
  datatype Group<K, V> = Group(key: K, values: seq<V>)

  /** The keys of the dictionary, in insertion order. */
  function Keys<K, V>(groups: seq<Group<K, V>>): seq<K> {
    seq(|groups|, i requires 0 <= i < |groups| => groups[i].key)
  }

  /** `d[k].append(v)`: the list of `k` gets `v` at its end; nothing else changes. */
  function AppendTo<K(==), V>(groups: seq<Group<K, V>>, k: K, v: V): seq<Group<K, V>> {
    seq(|groups|, i requires 0 <= i < |groups| =>
      if groups[i].key == k then Group(k, groups[i].values + [v]) else groups[i])
  }

  /** The keys of a stream of pairs. */
  function Firsts<K, V>(pairs: seq<(K, V)>): seq<K> {
    seq(|pairs|, i requires 0 <= i < |pairs| => pairs[i].0)
  }

  /** The distinct elements of `s`, each where it first occurs. */
  function Dedup<K(==)>(s: seq<K>): seq<K> {
    if s == [] then []
    else
      var d := Dedup(s[..|s| - 1]);
      if s[|s| - 1] in d then d else d + [s[|s| - 1]]
  }

  /** The values paired with `k` in the stream, in stream order. */
  function ValuesOf<K(==), V>(pairs: seq<(K, V)>, k: K): seq<V> {
    if pairs == [] then []
    else ValuesOf(pairs[..|pairs| - 1], k) + (if pairs[|pairs| - 1].0 == k then [pairs[|pairs| - 1].1] else [])
  }

  /** What the loop builds from `pairs`. */
  function GroupAll<K(==), V>(pairs: seq<(K, V)>): seq<Group<K, V>> {
    var keys := Dedup(Firsts(pairs));
    seq(|keys|, i requires 0 <= i < |keys| => Group(keys[i], ValuesOf(pairs, keys[i])))
  }

  lemma DedupSnoc<K>(s: seq<K>, x: K)
    ensures Dedup(s + [x]) == if x in Dedup(s) then Dedup(s) else Dedup(s) + [x]
  {
    assert (s + [x])[..|s|] == s;
  }

  lemma ValuesOfSnoc<K, V>(pairs: seq<(K, V)>, p: (K, V), k: K)
    ensures ValuesOf(pairs + [p], k) == ValuesOf(pairs, k) + (if p.0 == k then [p.1] else [])
  {
    assert (pairs + [p])[..|pairs|] == pairs;
  }

  /** The distinct elements are those of `s`. */
  lemma {:induction false} DedupMembers<K>(s: seq<K>, x: K)
    ensures x in Dedup(s) <==> x in s
    decreases |s|, 1
  {
    if s != [] {
      var init, y := s[..|s| - 1], s[|s| - 1];
      assert s == init + [y];
      DedupMembersSnoc(init, y, x);
    }
  }

  lemma {:induction false} DedupMembersSnoc<K>(init: seq<K>, y: K, x: K)
    ensures x in Dedup(init + [y]) <==> x in init + [y]
    decreases |init| + 1, 0
  {
    DedupMembers(init, x);
    DedupSnoc(init, y);
  }

  /** No element is kept twice. */
  predicate Distinct<K(==)>(s: seq<K>) {
    forall i, j :: 0 <= i < j < |s| ==> s[i] != s[j]
  }

  lemma {:induction false} DedupDistinct<K>(s: seq<K>)
    ensures Distinct(Dedup(s))
    decreases |s|, 1
  {
    if s != [] {
      var init, y := s[..|s| - 1], s[|s| - 1];
      assert s == init + [y];
      DedupDistinctSnoc(init, y);
    }
  }

  lemma {:induction false} DedupDistinctSnoc<K>(init: seq<K>, y: K)
    ensures Distinct(Dedup(init + [y]))
    decreases |init| + 1, 0
  {
    DedupDistinct(init);
    DedupSnoc(init, y);
  }

  /** The position at which `x` first occurs in `s`. */
  function FirstIndex<K(==)>(s: seq<K>, x: K): (r: nat)
    requires x in s
    ensures r < |s| && s[r] == x
    ensures forall b :: 0 <= b < r ==> s[b] != x
  {
    if s[0] == x then 0 else 1 + FirstIndex(s[1..], x)
  }

  /** Appending leaves the first occurrence of an element already present alone. */
  lemma {:induction false} FirstIndexSnoc<K>(s: seq<K>, y: K, x: K)
    requires x in s
    ensures FirstIndex(s + [y], x) == FirstIndex(s, x)
  {
    var r := FirstIndex(s, x);
    var q := FirstIndex(s + [y], x);
    assert (s + [y])[r] == x;
    assert s[q] == x by {
      if q >= |s| {
        assert false;
      }
    }
  }

  /** The distinct elements are kept in the order of their first occurrences. */
  lemma {:induction false} DedupOrder<K>(s: seq<K>)
    ensures forall x :: x in Dedup(s) ==> x in s
    ensures forall i, j :: 0 <= i < j < |Dedup(s)| ==>
      FirstIndex(s, Dedup(s)[i]) < FirstIndex(s, Dedup(s)[j])
    decreases |s|, 1
  {
    if s != [] {
      var init, y := s[..|s| - 1], s[|s| - 1];
      assert s == init + [y];
      DedupOrderSnoc(init, y);
    }
  }

  lemma {:induction false} DedupOrderSnoc<K>(init: seq<K>, y: K)
    ensures forall x :: x in Dedup(init + [y]) ==> x in init + [y]
    ensures forall i, j :: 0 <= i < j < |Dedup(init + [y])| ==>
      FirstIndex(init + [y], Dedup(init + [y])[i]) < FirstIndex(init + [y], Dedup(init + [y])[j])
    decreases |init| + 1, 0
  {
    var s := init + [y];
    var d := Dedup(init);
    DedupOrder(init);
    DedupSnoc(init, y);
    forall x | x in d
      ensures FirstIndex(s, x) == FirstIndex(init, x)
    {
      FirstIndexSnoc(init, y, x);
    }
    if y !in d {
      DedupMembers(init, y);
      assert FirstIndex(s, y) == |init| by {
        assert s[|init|] == y;
        assert forall b :: 0 <= b < |init| ==> s[b] != y;
      }
    }
  }

  /** One more pair is one more dictionary step: the key gets an empty list if it
      is new, and then the value at the end of its list. */
  lemma GroupAllSnoc<K, V>(pairs: seq<(K, V)>, k: K, v: V)
    ensures GroupAll(pairs + [(k, v)])
      == AppendTo(if k in Keys(GroupAll(pairs)) then GroupAll(pairs) else GroupAll(pairs) + [Group(k, [])], k, v)
  {
    assert Keys(GroupAll(pairs)) == Dedup(Firsts(pairs));
    if k in Dedup(Firsts(pairs)) {
      GroupAllSnocKnown(pairs, k, v);
    } else {
      GroupAllSnocNew(pairs, k, v);
    }
  }

  lemma GroupAllSnocKnown<K, V>(pairs: seq<(K, V)>, k: K, v: V)
    requires k in Dedup(Firsts(pairs))
    ensures GroupAll(pairs + [(k, v)]) == AppendTo(GroupAll(pairs), k, v)
  {
    var next := pairs + [(k, v)];
    var keys := Dedup(Firsts(pairs));
    assert Firsts(next) == Firsts(pairs) + [k];
    DedupSnoc(Firsts(pairs), k);
    assert Dedup(Firsts(next)) == keys;
    var after := GroupAll(next);
    var stepped := AppendTo(GroupAll(pairs), k, v);
    forall i | 0 <= i < |keys|
      ensures after[i] == stepped[i]
    {
      ValuesOfSnoc(pairs, (k, v), keys[i]);
    }
  }

  lemma GroupAllSnocNew<K, V>(pairs: seq<(K, V)>, k: K, v: V)
    requires k !in Dedup(Firsts(pairs))
    ensures GroupAll(pairs + [(k, v)]) == AppendTo(GroupAll(pairs) + [Group(k, [])], k, v)
  {
    var next := pairs + [(k, v)];
    var keys := Dedup(Firsts(pairs));
    assert Firsts(next) == Firsts(pairs) + [k];
    DedupSnoc(Firsts(pairs), k);
    assert Dedup(Firsts(next)) == keys + [k];
    DedupMembers(Firsts(pairs), k);
    ValuesOfAbsent(pairs, k);
    var after := GroupAll(next);
    var grown := GroupAll(pairs) + [Group(k, [])];
    var stepped := AppendTo(grown, k, v);
    assert |after| == |keys| + 1 == |stepped|;
    forall i | 0 <= i < |keys|
      ensures after[i] == stepped[i]
    {
      assert grown[i] == Group(keys[i], ValuesOf(pairs, keys[i])) && keys[i] != k;
      ValuesOfSnoc(pairs, (k, v), keys[i]);
    }
    assert grown[|keys|] == Group(k, []);
    ValuesOfSnoc(pairs, (k, v), k);
  }

  /** A key that never occurs has no values. */
  lemma {:induction false} ValuesOfAbsent<K, V>(pairs: seq<(K, V)>, k: K)
    requires k !in Firsts(pairs)
    ensures ValuesOf(pairs, k) == []
  {
    if pairs != [] {
      var init := pairs[..|pairs| - 1];
      assert forall i :: 0 <= i < |init| ==> Firsts(init)[i] == Firsts(pairs)[i];
      assert Firsts(pairs)[|pairs| - 1] == pairs[|pairs| - 1].0;
      ValuesOfAbsent(init, k);
    }
  }

  /** What the dictionary holds: each key of the stream once, in the order of first
      occurrence, with exactly the values paired with it, in stream order. */
  lemma GroupAllMeaning<K, V>(pairs: seq<(K, V)>)
    ensures var g := GroupAll(pairs);
      && Distinct(Keys(g))
      && (forall i :: 0 <= i < |g| ==> g[i].key in Firsts(pairs))
      && (forall k :: k in Firsts(pairs) ==> k in Keys(g))
      && (forall i, j :: 0 <= i < j < |g| ==>
            FirstIndex(Firsts(pairs), g[i].key) < FirstIndex(Firsts(pairs), g[j].key))
      && (forall i :: 0 <= i < |g| ==> g[i].values == ValuesOf(pairs, g[i].key))
  {
    var keys := Dedup(Firsts(pairs));
    assert Keys(GroupAll(pairs)) == keys;
    DedupDistinct(Firsts(pairs));
    DedupOrder(Firsts(pairs));
    forall k
      ensures k in keys <==> k in Firsts(pairs)
    {
      DedupMembers(Firsts(pairs), k);
    }
  }

  /** Every key of `keys` paired with the one value `v`. */
  function WithValue<K, V>(keys: seq<K>, v: V): seq<(K, V)> {
    seq(|keys|, i requires 0 <= i < |keys| => (keys[i], v))
  }

  /** `ValuesOf` distributes over two stretches of the stream. */
  lemma {:induction false} ValuesOfAppend<K, V>(a: seq<(K, V)>, b: seq<(K, V)>, k: K)
    ensures ValuesOf(a + b, k) == ValuesOf(a, k) + ValuesOf(b, k)
    decreases |b|, 1
  {
    if b != [] {
      var init, p := b[..|b| - 1], b[|b| - 1];
      assert b == init + [p];
      ValuesOfAppendSnoc(a, init, p, k);
    } else {
      assert a + b == a;
    }
  }

  lemma {:induction false} ValuesOfAppendSnoc<K, V>(a: seq<(K, V)>, init: seq<(K, V)>, p: (K, V), k: K)
    ensures ValuesOf(a + (init + [p]), k) == ValuesOf(a, k) + ValuesOf(init + [p], k)
    decreases |init| + 1, 0
  {
    ValuesOfAppend(a, init, k);
    assert a + (init + [p]) == (a + init) + [p];
    ValuesOfSnoc(a + init, p, k);
    ValuesOfSnoc(init, p, k);
  }

  /** A key listed `n` times with one value has that value `n` times. */
  lemma {:induction false} ValuesOfWithValue<K, V>(keys: seq<K>, v: V, k: K)
    ensures ValuesOf(WithValue(keys, v), k) == seq(multiset(keys)[k], _ => v)
    decreases |keys|, 1
  {
    if keys != [] {
      var init, x := keys[..|keys| - 1], keys[|keys| - 1];
      assert keys == init + [x];
      ValuesOfWithValueSnoc(init, x, v, k);
    }
  }

  lemma {:induction false} ValuesOfWithValueSnoc<K, V>(init: seq<K>, x: K, v: V, k: K)
    ensures ValuesOf(WithValue(init + [x], v), k) == seq(multiset(init + [x])[k], _ => v)
    decreases |init| + 1, 0
  {
    ValuesOfWithValue(init, v, k);
    assert WithValue(init + [x], v) == WithValue(init, v) + [(x, v)];
    ValuesOfSnoc(WithValue(init, v), (x, v), k);
    assert multiset(init + [x]) == multiset(init) + multiset{x};
  }

  lemma FirstsAppend<K, V>(a: seq<(K, V)>, b: seq<(K, V)>)
    ensures Firsts(a + b) == Firsts(a) + Firsts(b)
  {
  }

  lemma FirstsWithValue<K, V>(keys: seq<K>, v: V)
    ensures Firsts(WithValue(keys, v)) == keys
  {
  }

  /** Two pairs with different keys give two groups of one value each. */
  lemma TwoKeyGroups<K, V>(a: K, b: K, x: V, y: V)
    requires a != b
    ensures GroupAll([(a, x), (b, y)]) == [Group(a, [x]), Group(b, [y])]
  {
    var pairs := [(a, x), (b, y)];
    assert pairs == [(a, x)] + [(b, y)] && [(a, x)] == [] + [(a, x)];
    assert Firsts(pairs) == [a] + [b] && [a] == [] + [a];
    DedupSnoc([], a);
    DedupSnoc([a], b);
    ValuesOfSnoc([], (a, x), a);
    ValuesOfSnoc([(a, x)], (b, y), a);
    ValuesOfSnoc([], (a, x), b);
    ValuesOfSnoc([(a, x)], (b, y), b);
    assert Dedup(Firsts(pairs)) == [a, b];
    assert ValuesOf(pairs, a) == [x] && ValuesOf(pairs, b) == [y];
  }
}
