/** A table of owned keys and its reverse index, a list of keys per owner. */
module Indexes {

  predicate Distinct<T(==)>(s: seq<T>) {
    forall i, j :: 0 <= i < j < |s| ==> s[i] != s[j]
  }

  lemma DistinctPush<T>(s: seq<T>, x: T)
    ensures Distinct(s + [x]) <==> x !in s && Distinct(s)
  {
    var more := s + [x];
    if Distinct(more) {
      forall i, j | 0 <= i < j < |s| ensures s[i] != s[j] {
        assert more[i] != more[j];
      }
      forall i | 0 <= i < |s| ensures s[i] != x {
        assert more[i] != more[|s|];
      }
    }
  }

  /** `retain(|y| y != x)` */
  function Without<T(==, !new)>(s: seq<T>, x: T): (r: seq<T>)
    ensures forall y :: y in r <==> y in s && y != x
    ensures Distinct(s) ==> Distinct(r)
    ensures x !in s ==> r == s
  {
    if s == [] then [] else
      var front, last := s[..|s| - 1], s[|s| - 1];
      assert s == front + [last];
      assert Distinct(s) ==> Distinct(front) && last !in front;
      var rest := Without(front, x);
      if last == x then rest else rest + [last]
  }

  function Listed<K, G(==)>(index: map<G, seq<K>>, g: G): seq<K> {
    if g in index then index[g] else []
  }

  ghost predicate ListsExactly<K, G>(owner: map<K, G>, index: map<G, seq<K>>, g: G, k: K) {
    k in Listed(index, g) <==> k in owner && owner[k] == g
  }

  /** Every owner lists, without duplicates, exactly the keys it owns. */
  ghost predicate Indexed<K(!new), G(!new)>(owner: map<K, G>, index: map<G, seq<K>>) {
    && (forall g :: Distinct(Listed(index, g)))
    && (forall g, k :: ListsExactly(owner, index, g, k))
  }

  /** `index.entry(g).or_default().push(k)` */
  function Pushed<K, G(==)>(index: map<G, seq<K>>, g: G, k: K): map<G, seq<K>> {
    index[g := Listed(index, g) + [k]]
  }

  /** `index.get_mut(&g)`, then `retain(|y| y != k)` */
  function Dropped<K(==, !new), G(==)>(index: map<G, seq<K>>, g: G, k: K): map<G, seq<K>> {
    if g in index then index[g := Without(index[g], k)] else index
  }

  lemma Regroup<T>(a: seq<T>, b: seq<T>, c: seq<T>)
    ensures a + (b + c) == (a + b) + c
  {
  }

  lemma WithoutSnoc<T(!new)>(s: seq<T>, y: T, x: T)
    ensures Without(s + [y], x) == Without(s, x) + if y == x then [] else [y]
  {
    assert (s + [y])[..|s|] == s;
  }

  /** `retain` keeps the order, and how often each of the others occurs. */
  lemma {:induction false} WithoutConcat<T(!new)>(s: seq<T>, t: seq<T>, x: T)
    ensures Without(s + t, x) == Without(s, x) + Without(t, x)
  {
    if t == [] {
      assert s + t == s;
      assert Without(t, x) == [];
    } else {
      var front, last := t[..|t| - 1], t[|t| - 1];
      WithoutConcat(s, front, x);
      WithoutSnoc(front, last, x);
      WithoutSnoc(s + front, last, x);
      Regroup(s, front, [last]);
      Regroup(Without(s, x), Without(front, x), if last == x then [] else [last]);
      assert front + [last] == t;
    }
  }

  /** A pushed key is listed last under its owner, and no other list changes. */
  lemma PushedLast<K, G(!new)>(index: map<G, seq<K>>, g: G, k: K)
    ensures Listed(Pushed(index, g, k), g) == Listed(index, g) + [k]
    ensures forall h :: h != g ==> Listed(Pushed(index, g, k), h) == Listed(index, h)
  {
  }

  /** Dropping a key changes only its owner's list. */
  lemma DroppedElsewhere<K(!new), G(!new)>(index: map<G, seq<K>>, g: G, k: K)
    ensures Listed(Dropped(index, g, k), g) == Without(Listed(index, g), k)
    ensures forall h :: h != g ==> Listed(Dropped(index, g, k), h) == Listed(index, h)
  {
  }

  lemma PushIndexed<K(!new), G(!new)>(owner: map<K, G>, index: map<G, seq<K>>, g: G, k: K)
    requires Indexed(owner, index) && k !in owner
    ensures Indexed(owner[k := g], Pushed(index, g, k))
  {
    var owner', index' := owner[k := g], Pushed(index, g, k);
    forall h ensures Distinct(Listed(index', h)) {
      assert ListsExactly(owner, index, h, k);
      assert Distinct(Listed(index, h));
    }
    forall h, y ensures ListsExactly(owner', index', h, y) {
      assert ListsExactly(owner, index, h, y);
    }
  }

  lemma DropIndexed<K(!new), G(!new)>(owner: map<K, G>, index: map<G, seq<K>>, k: K)
    requires Indexed(owner, index) && k in owner
    ensures Indexed(owner - {k}, Dropped(index, owner[k], k))
  {
    var owner', index' := owner - {k}, Dropped(index, owner[k], k);
    forall h ensures Distinct(Listed(index', h)) {
      assert Distinct(Listed(index, h));
    }
    forall h, y ensures ListsExactly(owner', index', h, y) {
      assert ListsExactly(owner, index, h, y);
    }
  }

  /** An owner without keys can be dropped from the index. */
  lemma ForgetIndexed<K(!new), G(!new)>(owner: map<K, G>, index: map<G, seq<K>>, g: G)
    requires Indexed(owner, index) && forall k :: k in owner ==> owner[k] != g
    ensures Indexed(owner, index - {g})
  {
    var index' := index - {g};
    forall h ensures Distinct(Listed(index', h)) {
      assert Distinct(Listed(index, h));
    }
    forall h, y ensures ListsExactly(owner, index', h, y) {
      assert ListsExactly(owner, index, h, y);
    }
  }
}
