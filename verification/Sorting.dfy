/** Sorting by a strict order: what `ORDER BY` and `sort.Slice` deliver when
    no two elements compare equal. */
module Sorting {
  /** Irreflexive and transitive everywhere. */
  ghost predicate StrictOrder<T(!new)>(lt: (T, T) -> bool) {
    && (forall a :: !lt(a, a))
    && (forall a, b, c :: lt(a, b) && lt(b, c) ==> lt(a, c))
  }

  /** Any two elements of `s` at different positions compare. */
  ghost predicate Comparable<T>(lt: (T, T) -> bool, s: seq<T>) {
    forall i, j :: 0 <= i < j < |s| ==> lt(s[i], s[j]) || lt(s[j], s[i])
  }

  ghost predicate Sorted<T>(lt: (T, T) -> bool, s: seq<T>) {
    forall i, j :: 0 <= i < j < |s| ==> lt(s[i], s[j])
  }

  function Insert<T>(lt: (T, T) -> bool, x: T, s: seq<T>): seq<T> {
    if s == [] || lt(x, s[0]) then [x] + s else [s[0]] + Insert(lt, x, s[1..])
  }

  function Sort<T>(lt: (T, T) -> bool, s: seq<T>): seq<T> {
    if s == [] then [] else Insert(lt, s[0], Sort(lt, s[1..]))
  }

  lemma {:induction false} InsertIsPermutation<T>(lt: (T, T) -> bool, x: T, s: seq<T>)
    ensures multiset(Insert(lt, x, s)) == multiset([x] + s)
  {
    if s != [] && !lt(x, s[0]) {
      InsertIsPermutation(lt, x, s[1..]);
      assert s == [s[0]] + s[1..];
    }
  }

  lemma {:induction false} SortIsPermutation<T>(lt: (T, T) -> bool, s: seq<T>)
    ensures multiset(Sort(lt, s)) == multiset(s)
    ensures |Sort(lt, s)| == |s|
    ensures forall x :: x in Sort(lt, s) <==> x in s
  {
    if s != [] {
      SortIsPermutation(lt, s[1..]);
      InsertIsPermutation(lt, s[0], Sort(lt, s[1..]));
      assert s == [s[0]] + s[1..];
    }
    SameMultiset(Sort(lt, s), s);
  }

  lemma SameMultiset<T>(a: seq<T>, b: seq<T>)
    requires multiset(a) == multiset(b)
    ensures |a| == |b|
    ensures forall x :: x in a <==> x in b
  {
    assert |multiset(a)| == |a| && |multiset(b)| == |b|;
    forall x ensures x in a <==> x in b {
      assert x in a <==> x in multiset(a);
      assert x in b <==> x in multiset(b);
    }
  }

  lemma {:induction false} InsertIsSorted<T(!new)>(lt: (T, T) -> bool, x: T, s: seq<T>)
    requires StrictOrder(lt) && Sorted(lt, s)
    requires forall y :: y in s ==> lt(x, y) || lt(y, x)
    ensures Sorted(lt, Insert(lt, x, s))
  {
    if s != [] && !lt(x, s[0]) {
      InsertIsSorted(lt, x, s[1..]);
      InsertIsPermutation(lt, x, s[1..]);
      SameMultiset(Insert(lt, x, s[1..]), [x] + s[1..]);
      var rest := Insert(lt, x, s[1..]);
      forall i | 0 <= i < |rest| ensures lt(s[0], rest[i]) {
        assert rest[i] in [x] + s[1..];
        assert s[0] in s;
      }
    }
  }

  lemma {:induction false} SortIsSorted<T(!new)>(lt: (T, T) -> bool, s: seq<T>)
    requires StrictOrder(lt) && Comparable(lt, s)
    ensures Sorted(lt, Sort(lt, s))
  {
    if s != [] {
      SortIsSorted(lt, s[1..]);
      SortIsPermutation(lt, s[1..]);
      forall y | y in Sort(lt, s[1..]) ensures lt(s[0], y) || lt(y, s[0]) {
        assert y in s[1..];
        var k :| 0 <= k < |s[1..]| && s[1..][k] == y;
        assert s[k + 1] == y;
      }
      InsertIsSorted(lt, s[0], Sort(lt, s[1..]));
    }
  }

  /** A sorted sequence is determined by its elements. */
  lemma {:induction false} SortedIsUnique<T(!new)>(lt: (T, T) -> bool, a: seq<T>, b: seq<T>)
    requires StrictOrder(lt) && Sorted(lt, a) && Sorted(lt, b)
    requires forall x :: x in a <==> x in b
    ensures a == b
  {
    assert a != [] ==> a[0] in a;
    assert b != [] ==> b[0] in b;
    if a != [] && b != [] {
      assert a[0] in b && b[0] in a;
      assert a[0] == b[0];
      forall x ensures x in a[1..] <==> x in b[1..] {
        if x in a[1..] {
          var k :| 0 <= k < |a[1..]| && a[1..][k] == x;
          assert lt(a[0], a[k + 1]);
          assert x in a && x in b && x != b[0];
        }
        if x in b[1..] {
          var k :| 0 <= k < |b[1..]| && b[1..][k] == x;
          assert lt(b[0], b[k + 1]);
          assert x in b && x in a && x != a[0];
        }
      }
      SortedIsUnique(lt, a[1..], b[1..]);
    }
  }

  /** The elements of `s` that satisfy `p`, in order. */
  function Filter<T(!new)>(p: T -> bool, s: seq<T>): (r: seq<T>)
    ensures forall x :: x in r <==> x in s && p(x)
    ensures |r| <= |s|
  {
    if s == [] then []
    else if p(s[0]) then [s[0]] + Filter(p, s[1..]) else Filter(p, s[1..])
  }

  lemma {:induction false} FilterAppend<T(!new)>(p: T -> bool, a: seq<T>, b: seq<T>)
    ensures Filter(p, a + b) == Filter(p, a) + Filter(p, b)
  {
    if a == [] {
      assert a + b == b;
    } else {
      assert (a + b)[1..] == a[1..] + b;
      FilterAppend(p, a[1..], b);
    }
  }

  lemma {:induction false} FilterAll<T(!new)>(p: T -> bool, s: seq<T>)
    requires forall x :: x in s ==> p(x)
    ensures Filter(p, s) == s
  {
    if s != [] { FilterAll(p, s[1..]); }
  }

  lemma {:induction false} FilterNone<T(!new)>(p: T -> bool, s: seq<T>)
    requires forall x :: x in s ==> !p(x)
    ensures Filter(p, s) == []
  {
    if s != [] { FilterNone(p, s[1..]); }
  }

  /** Filtering keeps a sequence free of repeats. */
  lemma {:induction false} FilterKeepsDistinct<T(!new)>(p: T -> bool, s: seq<T>)
    requires forall i, j :: 0 <= i < j < |s| ==> s[i] != s[j]
    ensures forall i, j :: 0 <= i < j < |Filter(p, s)| ==> Filter(p, s)[i] != Filter(p, s)[j]
  {
    if s != [] {
      FilterKeepsDistinct(p, s[1..]);
      if p(s[0]) {
        var rest := Filter(p, s[1..]);
        forall j | 0 <= j < |rest| ensures rest[j] != s[0] {
          assert rest[j] in s[1..];
        }
      }
    }
  }

  predicate Any<T(!new)>(p: T -> bool, s: seq<T>) {
    exists i :: 0 <= i < |s| && p(s[i])
  }

  lemma AnyLast<T(!new)>(p: T -> bool, s: seq<T>)
    requires s != []
    ensures Any(p, s) <==> Any(p, s[..|s| - 1]) || p(s[|s| - 1])
  {
    assert forall i :: 0 <= i < |s| - 1 ==> s[..|s| - 1][i] == s[i];
  }

  predicate HasKey<T(!new), K(==)>(key: T -> K, s: seq<T>, k: K) {
    exists i :: 0 <= i < |s| && key(s[i]) == k
  }

  lemma HasKeyNext<T(!new), K>(key: T -> K, s: seq<T>, x: T, k: K)
    ensures HasKey(key, s + [x], k) <==> HasKey(key, s, k) || key(x) == k
  {
    var all := s + [x];
    assert all[|s|] == x;
    if i :| 0 <= i < |s| && key(s[i]) == k {
      assert key(all[i]) == k;
    }
    if i :| 0 <= i < |s| && key(all[i]) == k {
      assert key(s[i]) == k;
    }
  }

  /** The elements of `s` whose key no earlier element has: what a loop with a seen-set keeps. */
  function FirstBy<T(!new), K(==)>(key: T -> K, s: seq<T>): seq<T> {
    if s == [] then []
    else
      var n := |s| - 1;
      FirstBy(key, s[..n]) + if HasKey(key, s[..n], key(s[n])) then [] else [s[n]]
  }

  lemma FirstByNext<T(!new), K>(key: T -> K, s: seq<T>, x: T)
    ensures FirstBy(key, s + [x]) == FirstBy(key, s) + if HasKey(key, s, key(x)) then [] else [x]
  {
    assert (s + [x])[..|s|] == s;
  }

  lemma {:induction false} FirstByIs<T(!new), K>(key: T -> K, s: seq<T>, x: T)
    ensures x in FirstBy(key, s) <==> exists i :: 0 <= i < |s| && s[i] == x && !HasKey(key, s[..i], key(x))
  {
    if s != [] {
      var n := |s| - 1;
      FirstByIs(key, s[..n], x);
      assert forall i :: 0 <= i < n ==> s[..n][i] == s[i] && s[..n][..i] == s[..i];
    }
  }

  lemma {:induction false} FirstByIsDistinct<T(!new), K>(key: T -> K, s: seq<T>)
    ensures forall i, j :: 0 <= i < j < |FirstBy(key, s)| ==> key(FirstBy(key, s)[i]) != key(FirstBy(key, s)[j])
  {
    if s != [] {
      var n := |s| - 1;
      FirstByIsDistinct(key, s[..n]);
      var before := FirstBy(key, s[..n]);
      forall i | 0 <= i < |before| ensures HasKey(key, s[..n], key(before[i])) {
        FirstByIs(key, s[..n], before[i]);
      }
    }
  }

  /** Every key of `s` is kept. */
  lemma {:induction false} FirstByCovers<T(!new), K>(key: T -> K, s: seq<T>, i: nat) returns (k: nat)
    requires i < |s|
    ensures k <= i && key(s[k]) == key(s[i]) && s[k] in FirstBy(key, s)
  {
    if HasKey(key, s[..i], key(s[i])) {
      var j :| 0 <= j < i && key(s[..i][j]) == key(s[i]);
      k := FirstByCovers(key, s, j);
    } else {
      k := i;
      FirstByIs(key, s, s[i]);
    }
  }

  lemma HasKeyAt<T(!new), K>(key: T -> K, s: seq<T>, i: nat, n: nat)
    requires i < n <= |s|
    ensures HasKey(key, s[..n], key(s[i]))
  {
    assert s[..n][i] == s[i];
  }

  /** Nothing is dropped exactly when equal keys mean equal elements. */
  lemma FirstByKeepsAllIff<T(!new), K>(key: T -> K, s: seq<T>)
    ensures (forall x :: x in s ==> x in FirstBy(key, s)) <==> (forall x, y :: x in s && y in s && key(x) == key(y) ==> x == y)
  {
    if forall x :: x in s ==> x in FirstBy(key, s) {
      forall x, y | x in s && y in s && key(x) == key(y) ensures x == y {
        FirstByIs(key, s, x);
        FirstByIs(key, s, y);
        var i :| 0 <= i < |s| && s[i] == x && !HasKey(key, s[..i], key(x));
        var j :| 0 <= j < |s| && s[j] == y && !HasKey(key, s[..j], key(y));
        if i < j {
          HasKeyAt(key, s, i, j);
        } else if j < i {
          HasKeyAt(key, s, j, i);
        }
      }
    }
    if forall x, y :: x in s && y in s && key(x) == key(y) ==> x == y {
      forall x | x in s ensures x in FirstBy(key, s) {
        var i :| 0 <= i < |s| && s[i] == x;
        var k := FirstByCovers(key, s, i);
      }
    }
  }

  /** What a loop's seen-set holds. */
  ghost predicate KeysSeen<T(!new), K(!new)>(key: T -> K, s: seq<T>, seen: set<K>) {
    forall k :: k in seen <==> HasKey(key, s, k)
  }

  lemma KeysSeenNext<T(!new), K(!new)>(key: T -> K, s: seq<T>, x: T, seen: set<K>)
    requires KeysSeen(key, s, seen)
    ensures KeysSeen(key, s + [x], seen + {key(x)})
    ensures FirstBy(key, s + [x]) == FirstBy(key, s) + if key(x) in seen then [] else [x]
  {
    FirstByNext(key, s, x);
    forall k ensures HasKey(key, s + [x], k) <==> HasKey(key, s, k) || key(x) == k {
      HasKeyNext(key, s, x, k);
    }
  }

  lemma FilterNext<T(!new)>(p: T -> bool, s: seq<T>, i: nat)
    requires i < |s|
    ensures Filter(p, s[..i + 1]) == if p(s[i]) then Filter(p, s[..i]) + [s[i]] else Filter(p, s[..i])
  {
    assert s[..i + 1] == s[..i] + [s[i]];
    FilterAppend(p, s[..i], [s[i]]);
    assert [s[i]][1..] == [];
  }

  /** One turn of the loop below. */
  lemma KeepNext<T(!new), K(!new)>(p: T -> bool, key: T -> K, s: seq<T>, i: nat, seen: set<K>)
    requires i < |s| && KeysSeen(key, Filter(p, s[..i]), seen)
    ensures !p(s[i]) || key(s[i]) in seen ==>
              FirstBy(key, Filter(p, s[..i + 1])) == FirstBy(key, Filter(p, s[..i])) && KeysSeen(key, Filter(p, s[..i + 1]), seen)
    ensures p(s[i]) && key(s[i]) !in seen ==>
              FirstBy(key, Filter(p, s[..i + 1])) == FirstBy(key, Filter(p, s[..i])) + [s[i]]
              && KeysSeen(key, Filter(p, s[..i + 1]), seen + {key(s[i])})
  {
    FilterNext(p, s, i);
    if p(s[i]) {
      KeysSeenNext(key, Filter(p, s[..i]), s[i], seen);
      if key(s[i]) in seen {
        assert seen + {key(s[i])} == seen;
      }
    }
  }

  /** The element is usable, and no usable one before it has its key. */
  predicate IsFirstUsable<T(!new), K(==)>(p: T -> bool, key: T -> K, s: seq<T>, i: nat)
    requires i < |s|
  {
    p(s[i]) && forall j :: 0 <= j < i && p(s[j]) ==> key(s[j]) != key(s[i])
  }

  lemma {:induction false} FilterHasKey<T(!new), K>(p: T -> bool, key: T -> K, s: seq<T>, n: nat, k: K)
    requires n <= |s|
    ensures HasKey(key, Filter(p, s[..n]), k) <==> exists j :: 0 <= j < n && p(s[j]) && key(s[j]) == k
  {
    if n == 0 {
      assert s[..0] == [];
    } else {
      FilterHasKey(p, key, s, n - 1, k);
      FilterNext(p, s, n - 1);
      HasKeyNext(key, Filter(p, s[..n - 1]), s[n - 1], k);
    }
  }

  /** The numbers below `n` that pass, in ascending order. */
  ghost predicate Places(good: nat -> bool, n: nat, places: seq<nat>) {
    && (forall j, k :: 0 <= j < k < |places| ==> places[j] < places[k])
    && forall i: nat :: i in places <==> i < n && good(i)
  }

  lemma PlacesNext(good: nat -> bool, n: nat, places: seq<nat>)
    requires Places(good, n, places)
    ensures Places(good, n + 1, if good(n) then places + [n] else places)
  {
    forall k | 0 <= k < |places| ensures places[k] < n {
      assert places[k] in places;
    }
    assert (places + [n])[|places|] == n;
  }

  ghost function FirstUsable<T(!new), K>(p: T -> bool, key: T -> K, s: seq<T>): nat -> bool {
    (i: nat) => i < |s| && IsFirstUsable(p, key, s, i)
  }

  /** What the loop below keeps, in order: the first usable element of each key. */
  lemma {:induction false} KeptAre<T(!new), K>(p: T -> bool, key: T -> K, s: seq<T>, n: nat) returns (places: seq<nat>)
    requires n <= |s|
    ensures Places(FirstUsable(p, key, s), n, places) && |places| == |FirstBy(key, Filter(p, s[..n]))|
    ensures forall k :: 0 <= k < |places| ==> places[k] < n && FirstBy(key, Filter(p, s[..n]))[k] == s[places[k]]
  {
    if n == 0 {
      assert s[..0] == [];
      return [];
    }
    var m := n - 1;
    places := KeptAre(p, key, s, m);
    PlacesNext(FirstUsable(p, key, s), m, places);
    KeptNext(p, key, s, m);
    if IsFirstUsable(p, key, s, m) {
      places := places + [m];
    }
  }

  lemma KeptNext<T(!new), K>(p: T -> bool, key: T -> K, s: seq<T>, m: nat)
    requires m < |s|
    ensures FirstBy(key, Filter(p, s[..m + 1]))
            == FirstBy(key, Filter(p, s[..m])) + if IsFirstUsable(p, key, s, m) then [s[m]] else []
  {
    FilterNext(p, s, m);
    FilterHasKey(p, key, s, m, key(s[m]));
    if p(s[m]) {
      FirstByNext(key, Filter(p, s[..m]), s[m]);
    } else {
      assert FirstBy(key, Filter(p, s[..m])) + [] == FirstBy(key, Filter(p, s[..m]));
    }
  }

  /** The loop that keeps the usable elements whose key it has not seen. */
  method KeepFirst<T(!new), K(!new, ==)>(p: T -> bool, key: T -> K, s: seq<T>) returns (kept: seq<T>)
    ensures kept == FirstBy(key, Filter(p, s))
  {
    kept := [];
    var seen: set<K> := {};
    for i := 0 to |s|
      invariant kept == FirstBy(key, Filter(p, s[..i])) && KeysSeen(key, Filter(p, s[..i]), seen)
    {
      KeepNext(p, key, s, i, seen);
      if !p(s[i]) {
        continue;
      }
      if key(s[i]) in seen {
        continue;
      }
      seen := seen + {key(s[i])};
      kept := kept + [s[i]];
    }
    assert s[..|s|] == s;
  }

  lemma {:induction false} SubsetIsNoLarger<T>(a: set<T>, b: set<T>)
    requires a <= b
    ensures |a| <= |b|
  {
    if x :| x in a {
      SubsetIsNoLarger(a - {x}, b - {x});
    }
  }
}
