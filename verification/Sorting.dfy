/**
 * Sorting entries by a string key with `<`, as `canonicalise` and `canonicalQuery` do. Keys are
 * compared by code point, which is JavaScript's order on the ASCII keys both sites sort.
 */
module Sorting {

  predicate Before(a: string, b: string) {
    if |b| == 0 then false
    else if |a| == 0 then true
    else if a[0] != b[0] then a[0] < b[0]
    else Before(a[1..], b[1..])
  }

  lemma {:induction false} BeforeIsOrder(a: string, b: string)
    ensures !(Before(a, b) && Before(b, a))
    ensures a != b ==> Before(a, b) || Before(b, a)
    ensures !Before(a, a)
    decreases |a|
  {
    if |a| == 0 {
    } else {
      BeforeIsOrder(a[1..], a[1..]);
      if |b| > 0 && a[0] == b[0] {
        BeforeIsOrder(a[1..], b[1..]);
        assert a == [a[0]] + a[1..] && b == [b[0]] + b[1..];
      }
    }
  }

  /** The first characters that differ are at k, and `a` has the smaller one. */
  ghost predicate SmallerAt(a: string, b: string, k: nat) {
    k < |a| && k < |b| && a[..k] == b[..k] && a[k] < b[k]
  }

  lemma AgreeBefore(a: string, b: string, k: nat)
    requires SmallerAt(a, b, k)
    ensures k > 0 ==> a[0] == b[0]
  {
    if k > 0 { assert a[..k][0] == b[..k][0]; }
  }

  /** The order is the dictionary's: the first difference decides, and a proper prefix comes first. */
  lemma {:induction false} BeforeIff(a: string, b: string)
    ensures Before(a, b) <==> a < b || exists k: nat :: SmallerAt(a, b, k)
    decreases |a|
  {
    if |a| == 0 || |b| == 0 {
    } else if a[0] != b[0] {
      assert Before(a, b) ==> SmallerAt(a, b, 0);
      if k: nat :| SmallerAt(a, b, k) {
        AgreeBefore(a, b, k);
      }
    } else {
      BeforeIff(a[1..], b[1..]);
      assert a == [a[0]] + a[1..] && b == [a[0]] + b[1..];
      if k: nat :| SmallerAt(a[1..], b[1..], k) {
        assert a[..k + 1] == [a[0]] + a[1..][..k] && b[..k + 1] == [a[0]] + b[1..][..k];
        assert SmallerAt(a, b, k + 1);
      }
      if k: nat :| SmallerAt(a, b, k) {
        assert a[1..][..k - 1] == a[..k][1..] && b[1..][..k - 1] == b[..k][1..];
        assert SmallerAt(a[1..], b[1..], k - 1);
      }
      assert a[1..] < b[1..] <==> a < b;
    }
  }

  lemma {:induction false} BeforeTransitive(a: string, b: string, c: string)
    requires Before(a, b) && Before(b, c)
    ensures Before(a, c)
    decreases |a|
  {
    if |a| == 0 || a[0] != b[0] || b[0] != c[0] {
    } else {
      BeforeTransitive(a[1..], b[1..], c[1..]);
    }
  }

  function Insert<V>(entry: (string, V), sorted: seq<(string, V)>): (r: seq<(string, V)>)
    ensures |r| == |sorted| + 1
  {
    if |sorted| == 0 then [entry]
    else if Before(sorted[0].0, entry.0) then [sorted[0]] + Insert(entry, sorted[1..])
    else [entry] + sorted
  }

  function SortByKey<V>(entries: seq<(string, V)>): (r: seq<(string, V)>)
    ensures |r| == |entries|
  {
    if |entries| == 0 then [] else Insert(entries[0], SortByKey(entries[1..]))
  }

  ghost predicate StrictlySorted<V>(s: seq<(string, V)>) {
    forall i, j :: 0 <= i < j < |s| ==> Before(s[i].0, s[j].0)
  }

  ghost predicate DistinctKeys<V>(s: seq<(string, V)>) {
    forall i, j :: 0 <= i < j < |s| ==> s[i].0 != s[j].0
  }

  lemma {:induction false} InsertMember<V>(e: (string, V), entry: (string, V), sorted: seq<(string, V)>)
    ensures e in Insert(entry, sorted) <==> e == entry || e in sorted
    decreases |sorted|
  {
    if |sorted| == 0 {
    } else {
      assert sorted == [sorted[0]] + sorted[1..];
      InsertMember(e, entry, sorted[1..]);
    }
  }

  lemma {:induction false} InsertSorts<V>(entry: (string, V), sorted: seq<(string, V)>)
    requires StrictlySorted(sorted) && forall k :: 0 <= k < |sorted| ==> sorted[k].0 != entry.0
    ensures StrictlySorted(Insert(entry, sorted))
    decreases |sorted|
  {
    if |sorted| == 0 {
    } else {
      if Before(sorted[0].0, entry.0) {
        InsertSorts(entry, sorted[1..]);
        var rest := Insert(entry, sorted[1..]);
        forall k | 0 <= k < |rest| ensures Before(sorted[0].0, rest[k].0) {
          var e := rest[k];
          InsertMember(e, entry, sorted[1..]);
          assert e in rest;
          if e != entry {
            var m :| 0 <= m < |sorted| - 1 && sorted[1..][m] == e;
            assert sorted[m + 1] == e;
          }
        }
      } else {
        BeforeIsOrder(sorted[0].0, entry.0);
        forall k | 0 <= k < |sorted| ensures Before(entry.0, sorted[k].0) {
          if k > 0 { BeforeTransitive(entry.0, sorted[0].0, sorted[k].0); }
        }
      }
    }
  }

  lemma {:induction false} SortMember<V>(e: (string, V), entries: seq<(string, V)>)
    ensures e in SortByKey(entries) <==> e in entries
    decreases |entries|
  {
    if |entries| == 0 {
    } else {
      assert entries == [entries[0]] + entries[1..];
      SortMember(e, entries[1..]);
      InsertMember(e, entries[0], SortByKey(entries[1..]));
    }
  }

  lemma {:induction false} SortByKeySorts<V>(entries: seq<(string, V)>)
    requires DistinctKeys(entries)
    ensures StrictlySorted(SortByKey(entries))
    decreases |entries|
  {
    if |entries| == 0 {
    } else {
      SortByKeySorts(entries[1..]);
      var rest := SortByKey(entries[1..]);
      forall k | 0 <= k < |rest| ensures rest[k].0 != entries[0].0 {
        var e := rest[k];
        SortMember(e, entries[1..]);
        assert e in rest;
        var m :| 0 <= m < |entries| - 1 && entries[1..][m] == e;
        assert entries[m + 1] == e;
      }
      InsertSorts(entries[0], rest);
    }
  }

  lemma HeadsAgree<V>(a: seq<(string, V)>, b: seq<(string, V)>)
    requires StrictlySorted(a) && StrictlySorted(b) && |a| > 0 && |b| > 0
    requires a[0] in b && b[0] in a
    ensures a[0] == b[0]
  {
    var i :| 0 <= i < |b| && b[i] == a[0];
    var j :| 0 <= j < |a| && a[j] == b[0];
    BeforeIsOrder(a[0].0, b[0].0);
  }

  lemma TailMembers<V>(a: seq<(string, V)>, b: seq<(string, V)>)
    requires |a| > 0 && |b| > 0 && a[0] == b[0] && StrictlySorted(a)
    requires forall e :: e in a ==> e in b
    ensures forall e :: e in a[1..] ==> e in b[1..]
  {
    forall e | e in a[1..] ensures e in b[1..] {
      var k :| 0 <= k < |a| - 1 && a[1..][k] == e;
      assert a[k + 1] == e && Before(a[0].0, e.0);
      BeforeIsOrder(e.0, e.0);
      assert e in a && e in b;
    }
  }

  /** There is one strictly sorted arrangement of a collection of entries. */
  lemma {:induction false} SortedIsUnique<V>(a: seq<(string, V)>, b: seq<(string, V)>)
    requires StrictlySorted(a) && StrictlySorted(b) && |a| == |b|
    requires forall e :: e in a <==> e in b
    ensures a == b
    decreases |a|
  {
    if |a| == 0 {
    } else {
      assert a[0] in b;
      assert b[0] in a;
      HeadsAgree(a, b);
      TailMembers(a, b);
      TailMembers(b, a);
      SortedIsUnique(a[1..], b[1..]);
      assert a == [a[0]] + a[1..] && b == [b[0]] + b[1..];
    }
  }

  /** Sorting forgets the order the entries were added in. */
  lemma SortIgnoresOrder<V>(a: seq<(string, V)>, b: seq<(string, V)>)
    requires DistinctKeys(a) && DistinctKeys(b) && |a| == |b|
    requires forall e :: e in a <==> e in b
    ensures SortByKey(a) == SortByKey(b)
  {
    SortByKeySorts(a);
    SortByKeySorts(b);
    forall e ensures e in SortByKey(a) <==> e in SortByKey(b) {
      SortMember(e, a);
      SortMember(e, b);
    }
    SortedIsUnique(SortByKey(a), SortByKey(b));
  }
}
