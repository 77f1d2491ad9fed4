/** The Kotlin collection operations the adapters use: `LinkedHashSet` (an
    insertion-ordered set, modelled as a duplicate-free sequence),
    `listOfNotNull` and `firstNotNullOfOrNull`. */
module KotlinCollections {
  import opened Optional

  predicate NoDuplicates<T(==)>(s: seq<T>) {
    forall i, j :: 0 <= i < j < |s| ==> s[i] != s[j]
  }

  function Elements<T>(s: seq<T>): set<T> {
    set x | x in s
  }

  // ---------------------------------------------------------------------------
  // LinkedHashSet
  // ---------------------------------------------------------------------------

  /** `LinkedHashSet.add`: appends `x` unless it is already present. */
  function Add<T(==)>(s: seq<T>, x: T): (r: seq<T>)
    requires NoDuplicates(s)
    ensures NoDuplicates(r)
    ensures Elements(r) == Elements(s) + {x}
    ensures s <= r
    ensures x in s ==> r == s
    ensures x !in s ==> |r| == |s| + 1 && r[|s|] == x
  {
    if x in s then s else s + [x]
  }

  /** `LinkedHashSet.addAll`: adds the elements one after the other. */
  function AddAll<T(==)>(s: seq<T>, xs: seq<T>): (r: seq<T>)
    requires NoDuplicates(s)
    ensures NoDuplicates(r)
    ensures Elements(r) == Elements(s) + Elements(xs)
    ensures s <= r
    ensures |r| <= |s| + |xs|
    decreases |xs|
  {
    if |xs| == 0 then s
    else
      assert Elements(xs) == {xs[0]} + Elements(xs[1..]) by {
        assert xs == [xs[0]] + xs[1..];
      }
      AddAll(Add(s, xs[0]), xs[1..])
  }

  /** `LinkedHashSet(collection)`: the distinct elements in first-occurrence order. */
  function LinkedHashSetOf<T(==)>(xs: seq<T>): (r: seq<T>)
    ensures NoDuplicates(r)
    ensures Elements(r) == Elements(xs)
    ensures |r| <= |xs|
  {
    AddAll([], xs)
  }

  /** Adding two lists is adding the first, then the second. */
  lemma {:induction false} AddAllAppend<T>(s: seq<T>, a: seq<T>, b: seq<T>)
    requires NoDuplicates(s)
    ensures AddAll(s, a + b) == AddAll(AddAll(s, a), b)
    decreases |a|
  {
    if |a| > 0 {
      assert (a + b)[0] == a[0] && (a + b)[1..] == a[1..] + b;
      AddAllAppend(Add(s, a[0]), a[1..], b);
    } else {
      assert a + b == b;
    }
  }

  /** Building the set of `xs + [x]` is building the set of `xs`, then adding `x`. */
  lemma LinkedHashSetOfSnoc<T>(xs: seq<T>, x: T)
    ensures LinkedHashSetOf(xs + [x]) == Add(LinkedHashSetOf(xs), x)
  {
    AddAllAppend([], xs, [x]);
    assert [x][1..] == [];
  }

  /** The set of `a + b` is the set of `a` with the elements of `b` added. */
  lemma LinkedHashSetOfAppend<T>(a: seq<T>, b: seq<T>)
    ensures LinkedHashSetOf(a + b) == AddAll(LinkedHashSetOf(a), b)
  {
    AddAllAppend([], a, b);
  }

  /** The set of `xs` holds exactly the elements of `xs`. */
  lemma LinkedHashSetOfMembers<T>(xs: seq<T>)
    ensures forall o :: o in LinkedHashSetOf(xs) <==> o in xs
  {
    var r := LinkedHashSetOf(xs);
    assert forall o :: o in r <==> o in Elements(r);
    assert forall o :: o in xs <==> o in Elements(xs);
  }

  /** After adding `xs`, the set holds exactly the old elements and those of `xs`,
      and each element of `xs` exactly once. */
  lemma AddAllMembers<T>(s: seq<T>, xs: seq<T>)
    requires NoDuplicates(s)
    ensures forall o :: o in AddAll(s, xs) <==> o in s || o in xs
    ensures forall o :: o in xs ==> multiset(AddAll(s, xs))[o] == 1
  {
    var r := AddAll(s, xs);
    assert forall o :: o in r <==> o in Elements(r);
    forall o | o in xs ensures multiset(r)[o] == 1 {
      assert o in Elements(xs);
      assert o in Elements(r);
      OccursOnce(r, o);
    }
  }

  /** Adding `[x] + xs` is adding `x`, then `xs`. */
  lemma AddAllCons<T>(s: seq<T>, x: T, xs: seq<T>)
    requires NoDuplicates(s)
    ensures AddAll(s, [x] + xs) == AddAll(Add(s, x), xs)
  {
    assert ([x] + xs)[0] == x && ([x] + xs)[1..] == xs;
  }

  /** Adding a list of four is adding its elements one after the other. */
  lemma AddAllFour<T>(s: seq<T>, a: T, b: T, c: T, d: T)
    requires NoDuplicates(s)
    ensures AddAll(s, [a, b, c, d]) == Add(Add(Add(Add(s, a), b), c), d)
  {
    var s1 := Add(s, a);
    var s2 := Add(s1, b);
    var s3 := Add(s2, c);
    var s4 := Add(s3, d);
    AddAllCons(s3, d, []);
    assert AddAll(s3, [d]) == s4;
    AddAllCons(s2, c, [d]);
    assert AddAll(s2, [c, d]) == s4;
    AddAllCons(s1, b, [c, d]);
    assert AddAll(s1, [b, c, d]) == s4;
    AddAllCons(s, a, [b, c, d]);
  }

  /** The set keeps first-occurrence order: an element listed before another
      occurs in `xs` before every occurrence of the other. */
  lemma {:induction false} LinkedHashSetOrder<T>(xs: seq<T>)
    ensures var r := LinkedHashSetOf(xs);
            forall i, j, k :: 0 <= i < j < |r| && 0 <= k < |xs| && xs[k] == r[j] ==> r[i] in xs[..k]
    decreases |xs|
  {
    if |xs| > 0 {
      var p, x := xs[..|xs| - 1], xs[|xs| - 1];
      assert xs == p + [x];
      LinkedHashSetOrder(p);
      LinkedHashSetOfSnoc(p, x);
      var r' := LinkedHashSetOf(p);
      var r := LinkedHashSetOf(xs);
      forall i, j, k | 0 <= i < j < |r| && 0 <= k < |xs| && xs[k] == r[j]
        ensures r[i] in xs[..k]
      {
        assert r[i] == r'[i];
        assert r'[i] in Elements(p);
        if k == |p| {
          assert xs[..k] == p;
        } else {
          assert xs[k] == p[k] && xs[..k] == p[..k];
          if j < |r'| {
            assert r[j] == r'[j];
          }
        }
      }
    }
  }

  /** A duplicate-free sequence has as many elements as its set. */
  lemma {:induction false} NoDuplicatesSize<T>(s: seq<T>)
    requires NoDuplicates(s)
    ensures |Elements(s)| == |s|
    decreases |s|
  {
    if |s| > 0 {
      var t := s[..|s| - 1];
      assert s == t + [s[|s| - 1]];
      NoDuplicatesSize(t);
      assert Elements(s) == Elements(t) + {s[|s| - 1]};
      assert s[|s| - 1] !in Elements(t);
    }
  }

  /** A member of a duplicate-free sequence occurs in it exactly once. */
  lemma {:induction false} OccursOnce<T>(s: seq<T>, x: T)
    requires NoDuplicates(s) && x in s
    ensures multiset(s)[x] == 1
    decreases |s|
  {
    var t := s[..|s| - 1];
    assert s == t + [s[|s| - 1]];
    assert multiset(s) == multiset(t) + multiset{s[|s| - 1]};
    if s[|s| - 1] == x {
      assert x !in t;
    } else {
      assert x in t;
      OccursOnce(t, x);
    }
  }

  // ---------------------------------------------------------------------------
  // Nullable elements
  // ---------------------------------------------------------------------------

  /** `listOfNotNull(...)`: the present values, in order. */
  function ListOfNotNull<T>(xs: seq<Option<T>>): (r: seq<T>)
    ensures |r| <= |xs|
    ensures forall i :: 0 <= i < |r| ==> Some(r[i]) in xs
    ensures forall i :: 0 <= i < |xs| && xs[i].Some? ==> xs[i].value in r
  {
    if |xs| == 0 then []
    else
      var rest := ListOfNotNull(xs[1..]);
      assert forall i :: 1 <= i < |xs| ==> xs[i] == xs[1..][i - 1];
      match xs[0]
      case Some(v) => [v] + rest
      case None => rest
  }

  /** `firstNotNullOfOrNull(transform)`: the first non-null transformed element. */
  function FirstNotNullOfOrNull<T, U>(xs: seq<T>, transform: T -> Option<U>): (r: Option<U>)
    ensures r.Some? ==> exists i :: 0 <= i < |xs| && transform(xs[i]) == r
                                   && forall j :: 0 <= j < i ==> transform(xs[j]).None?
    ensures r.None? ==> forall i :: 0 <= i < |xs| ==> transform(xs[i]).None?
  {
    if |xs| == 0 then None
    else if transform(xs[0]).Some? then
      assert transform(xs[0]) == transform(xs[0]);
      transform(xs[0])
    else
      var r := FirstNotNullOfOrNull(xs[1..], transform);
      assert forall i :: 1 <= i < |xs| ==> xs[1..][i - 1] == xs[i];
      r
  }
}
