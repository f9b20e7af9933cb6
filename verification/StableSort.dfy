/** `Array.prototype.sort` by a numeric key: stable, ascending. */
module StableSort {
  import opened Collections

  /** The position behind the last value whose key is not larger. */
  function Place<T>(s: seq<T>, k: real, key: T -> real): (p: nat)
    ensures p <= |s|
  {
    if s == [] || key(s[|s| - 1]) <= k then |s| else Place(s[..|s| - 1], k, key)
  }

  function Insert<T>(s: seq<T>, x: T, key: T -> real): seq<T> {
    var p := Place(s, key(x), key);
    s[..p] + [x] + s[p..]
  }

  function Sort<T>(s: seq<T>, key: T -> real): seq<T> {
    if s == [] then [] else Insert(Sort(s[..|s| - 1], key), s[|s| - 1], key)
  }

  predicate Ascending<T>(s: seq<T>, key: T -> real) {
    forall i, j :: 0 <= i < j < |s| ==> key(s[i]) <= key(s[j])
  }

  /** Ascending by key, and by rank among equal keys. */
  predicate Lexicographic<T>(s: seq<T>, key: T -> real, rank: T -> int) {
    forall i, j :: 0 <= i < j < |s| ==> key(s[i]) < key(s[j]) || (key(s[i]) == key(s[j]) && rank(s[i]) < rank(s[j]))
  }

  lemma {:induction false} PlaceSplits<T>(s: seq<T>, k: real, key: T -> real)
    requires Ascending(s, key)
    ensures forall i :: 0 <= i < Place(s, k, key) ==> key(s[i]) <= k
    ensures forall i :: Place(s, k, key) <= i < |s| ==> key(s[i]) > k
  {
    if s != [] && key(s[|s| - 1]) > k {
      var init := s[..|s| - 1];
      PlaceSplits(init, k, key);
      forall i | Place(s, k, key) <= i < |s| ensures key(s[i]) > k {
        assert i < |s| - 1 ==> init[i] == s[i];
      }
      forall i | 0 <= i < Place(s, k, key) ensures key(s[i]) <= k {
        assert init[i] == s[i];
      }
    }
  }

  lemma InsertSorts<T>(s: seq<T>, x: T, key: T -> real)
    requires Ascending(s, key)
    ensures Ascending(Insert(s, x, key), key)
    ensures multiset(Insert(s, x, key)) == multiset(s) + multiset{x}
  {
    PlaceSplits(s, key(x), key);
    var p := Place(s, key(x), key);
    assert s == s[..p] + s[p..];
  }

  lemma {:induction false} SortSorts<T>(s: seq<T>, key: T -> real)
    ensures Ascending(Sort(s, key), key)
    ensures multiset(Sort(s, key)) == multiset(s)
  {
    if s != [] {
      var init, last := s[..|s| - 1], s[|s| - 1];
      assert s == init + [last];
      SortSorts(init, key);
      InsertSorts(Sort(init, key), last, key);
    }
  }

  lemma SortKeepsElements<T>(s: seq<T>, key: T -> real)
    ensures |Sort(s, key)| == |s|
    ensures forall x :: x in Sort(s, key) <==> x in s
  {
    SortSorts(s, key);
    assert |multiset(Sort(s, key))| == |multiset(s)|;
    forall x ensures x in Sort(s, key) <==> x in s {
      assert x in Sort(s, key) <==> x in multiset(Sort(s, key));
      assert x in s <==> x in multiset(s);
    }
  }

  lemma SortMember<T>(s: seq<T>, key: T -> real, i: nat)
    requires i < |Sort(s, key)|
    ensures Sort(s, key)[i] in s
  {
    SortSorts(s, key);
    assert Sort(s, key)[i] in multiset(Sort(s, key));
  }

  lemma InsertKeepsRanks<T>(s: seq<T>, x: T, key: T -> real, rank: T -> int)
    requires Lexicographic(s, key, rank)
    requires forall i :: 0 <= i < |s| ==> rank(s[i]) < rank(x)
    ensures Lexicographic(Insert(s, x, key), key, rank)
  {
    assert Ascending(s, key);
    PlaceSplits(s, key(x), key);
  }

  /** Values that come in by increasing rank leave ordered by (key, rank): this is stability. */
  lemma {:induction false} SortIsStable<T>(s: seq<T>, key: T -> real, rank: T -> int)
    requires forall i, j :: 0 <= i < j < |s| ==> rank(s[i]) < rank(s[j])
    ensures Lexicographic(Sort(s, key), key, rank)
  {
    if s != [] {
      var init, last := s[..|s| - 1], s[|s| - 1];
      forall i, j | 0 <= i < j < |init| ensures rank(init[i]) < rank(init[j]) {
        assert init[i] == s[i] && init[j] == s[j];
      }
      SortIsStable(init, key, rank);
      SortKeepsElements(init, key);
      forall i | 0 <= i < |init| ensures rank(init[i]) < rank(last) {
        assert init[i] == s[i];
      }
      forall i | 0 <= i < |Sort(init, key)| ensures rank(Sort(init, key)[i]) < rank(last) {
        SortMember(init, key, i);
        var k :| 0 <= k < |init| && init[k] == Sort(init, key)[i];
      }
      InsertKeepsRanks(Sort(init, key), last, key, rank);
    }
  }

  lemma SamePermutationNoDup<T>(s: seq<T>, t: seq<T>)
    requires NoDup(s) && multiset(s) == multiset(t)
    ensures NoDup(t)
  {
    forall i, j | 0 <= i < j < |t| ensures t[i] != t[j] {
      var x := t[i];
      assert t == t[..i] + [x] + t[i + 1..j] + [t[j]] + t[j + 1..];
      assert t[j] == x ==> multiset(t)[x] >= 2;
      OnceIfNoDup(s, x);
    }
  }

  lemma OnceIfNoDup<T>(s: seq<T>, x: T)
    requires NoDup(s)
    ensures multiset(s)[x] <= 1
  {
    if x in s {
      var k :| 0 <= k < |s| && s[k] == x;
      assert s == s[..k] + [x] + s[k + 1..];
      assert x !in s[..k] && x !in s[k + 1..];
    }
  }
}
