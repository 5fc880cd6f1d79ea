/** Fixed counting windows, one per key: what the identifier limiter and the API quota both keep. */
module Windows {
  type Key = string

  datatype Window = Window(count: int, resetAt: int)

  type Store = map<Key, Window>

  predicate Live(store: Store, key: Key, at: int) {
    key in store && store[key].resetAt > at
  }

  /** Two stores that hold the same live windows: expired ones never matter again. */
  ghost predicate Agree(a: Store, b: Store, at: int) {
    forall key :: AgreeOn(a, b, key, at)
  }

  predicate AgreeOn(a: Store, b: Store, key: Key, at: int) {
    (Live(a, key, at) <==> Live(b, key, at)) && (Live(a, key, at) ==> a[key] == b[key])
  }

  lemma AgreeLater(a: Store, b: Store, at: int, later: int)
    requires Agree(a, b, at) && at <= later
    ensures Agree(a, b, later)
  {
    forall key ensures AgreeOn(a, b, key, later) {
      assert AgreeOn(a, b, key, at);
    }
  }

  function Swept(store: Store, at: int): (swept: Store)
    ensures forall key :: key in swept <==> Live(store, key, at)
    ensures forall key :: key in swept ==> key in store && swept[key] == store[key]
    ensures |swept| <= |store|
  {
    var swept := map key | key in store && store[key].resetAt > at :: store[key];
    assert |swept.Keys| <= |store.Keys| by { SubsetSize(swept.Keys, store.Keys); }
    swept
  }

  lemma SubsetSize<T>(a: set<T>, b: set<T>)
    requires a <= b
    ensures |a| <= |b|
  {
    if a != {} {
      var x :| x in a;
      SubsetSize(a - {x}, b - {x});
    }
  }

  lemma SweepAgrees(store: Store, other: Store, at: int)
    requires Agree(store, other, at)
    ensures Agree(Swept(store, at), other, at)
  {
    forall key ensures AgreeOn(Swept(store, at), other, key, at) {
      assert AgreeOn(store, other, key, at);
    }
  }
}
