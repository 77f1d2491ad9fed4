/** The sorted set of license findings built by `toSortedSet(compareBy(...))`:
    findings ordered by license string, then path, then start line, where a
    finding whose key equals one already present is not added again. The set is
    a strictly increasing sequence. */
module FindingSet {
  import opened OrtModel
  import Lexicographic

  /** The three values the comparator looks at. */
  datatype Key = Key(license: string, path: string, startLine: int)

  function KeyOf(f: LicenseFinding): Key {
    Key(f.license, f.location.path, f.location.startLine)
  }

  /** `Int.compareTo`: -1, 0 or 1. */
  function CompareInt(a: int, b: int): int {
    if a < b then -1 else if a == b then 0 else 1
  }

  /** `compareBy({ license.toString() }, { location.path }, { location.startLine })`:
      the first non-zero comparison of the three keys. */
  function CompareFindings(x: LicenseFinding, y: LicenseFinding): int {
    var c1 := Lexicographic.CompareTo(x.license, y.license);
    if c1 != 0 then c1
    else
      var c2 := Lexicographic.CompareTo(x.location.path, y.location.path);
      if c2 != 0 then c2
      else CompareInt(x.location.startLine, y.location.startLine)
  }

  predicate Before(x: LicenseFinding, y: LicenseFinding) {
    CompareFindings(x, y) < 0
  }

  /** The comparator sees two findings as equal exactly when their keys agree. */
  lemma CompareFindingsZero(x: LicenseFinding, y: LicenseFinding)
    ensures CompareFindings(x, y) == 0 <==> KeyOf(x) == KeyOf(y)
  {
    Lexicographic.CompareToZero(x.license, y.license);
    Lexicographic.CompareToZero(x.location.path, y.location.path);
  }

  /** Swapping the findings flips the sign of the comparison. */
  lemma CompareFindingsAntisymmetric(x: LicenseFinding, y: LicenseFinding)
    ensures CompareFindings(x, y) < 0 <==> CompareFindings(y, x) > 0
  {
    Lexicographic.CompareToAntisymmetric(x.license, y.license);
    Lexicographic.CompareToAntisymmetric(x.location.path, y.location.path);
  }

  /** `Before` is transitive. */
  lemma BeforeTransitive(x: LicenseFinding, y: LicenseFinding, z: LicenseFinding)
    requires Before(x, y) && Before(y, z)
    ensures Before(x, z)
  {
    var lx, ly, lz := x.license, y.license, z.license;
    var px, py, pz := x.location.path, y.location.path, z.location.path;
    Lexicographic.CompareToZero(lx, ly);
    Lexicographic.CompareToZero(ly, lz);
    Lexicographic.CompareToZero(px, py);
    Lexicographic.CompareToZero(py, pz);
    if Lexicographic.CompareTo(lx, ly) < 0 && Lexicographic.CompareTo(ly, lz) < 0 {
      Lexicographic.CompareToTransitive(lx, ly, lz);
    }
    if Lexicographic.CompareTo(px, py) < 0 && Lexicographic.CompareTo(py, pz) < 0 {
      Lexicographic.CompareToTransitive(px, py, pz);
    }
  }

  /** Every finding precedes every later one: sorted and duplicate-free. */
  predicate StrictlySorted(s: seq<LicenseFinding>) {
    forall i, j :: 0 <= i < j < |s| ==> Before(s[i], s[j])
  }

  function Keys(s: seq<LicenseFinding>): set<Key> {
    set f | f in s :: KeyOf(f)
  }

  /** In a strictly sorted set no two findings share a key. */
  lemma SortedKeysDistinct(s: seq<LicenseFinding>)
    requires StrictlySorted(s)
    ensures forall i, j :: 0 <= i < j < |s| ==> KeyOf(s[i]) != KeyOf(s[j])
  {
    forall i, j | 0 <= i < j < |s| ensures KeyOf(s[i]) != KeyOf(s[j]) {
      CompareFindingsZero(s[i], s[j]);
    }
  }

  /** `TreeSet.add`: inserts `x` at its place in the order, unless a finding with
      the same key is already present, in which case the set is unchanged. */
  function Insert(s: seq<LicenseFinding>, x: LicenseFinding): (r: seq<LicenseFinding>)
    requires StrictlySorted(s)
    ensures StrictlySorted(r)
    ensures Keys(r) == Keys(s) + {KeyOf(x)}
    ensures forall f :: f in r ==> f in s || f == x
    ensures KeyOf(x) in Keys(s) ==> r == s
    ensures KeyOf(x) !in Keys(s) ==> |r| == |s| + 1 && x in r
  {
    if |s| == 0 then [x]
    else
      var c := CompareFindings(x, s[0]);
      CompareFindingsZero(x, s[0]);
      if c < 0 then
        InsertFront(s, x);
        [x] + s
      else if c == 0 then
        assert KeyOf(x) == KeyOf(s[0]);
        s
      else
        CompareFindingsAntisymmetric(s[0], x);
        var tail := Insert(s[1..], x);
        InsertBehindHead(s, x, tail);
        [s[0]] + tail
  }

  /** The step of `Insert` that keeps the first finding and inserts into the rest. */
  lemma InsertBehindHead(s: seq<LicenseFinding>, x: LicenseFinding, tail: seq<LicenseFinding>)
    requires StrictlySorted(s) && |s| > 0 && Before(s[0], x)
    requires StrictlySorted(tail)
    requires Keys(tail) == Keys(s[1..]) + {KeyOf(x)}
    requires forall f :: f in tail ==> f in s[1..] || f == x
    requires KeyOf(x) in Keys(s[1..]) ==> tail == s[1..]
    requires KeyOf(x) !in Keys(s[1..]) ==> |tail| == |s[1..]| + 1 && x in tail
    ensures StrictlySorted([s[0]] + tail)
    ensures Keys([s[0]] + tail) == Keys(s) + {KeyOf(x)}
    ensures KeyOf(x) in Keys(s) ==> [s[0]] + tail == s
    ensures KeyOf(x) !in Keys(s) ==> |[s[0]] + tail| == |s| + 1 && x in [s[0]] + tail
  {
    assert s == [s[0]] + s[1..];
    KeysCons(s[0], s[1..]);
    KeysCons(s[0], tail);
    CompareFindingsZero(s[0], x);
    forall f | f in tail ensures Before(s[0], f) {
      if f in s[1..] {
        var j :| 1 <= j < |s| && s[j] == f;
      }
    }
    ConsSorted(s[0], tail);
  }

  lemma KeysCons(h: LicenseFinding, t: seq<LicenseFinding>)
    ensures Keys([h] + t) == {KeyOf(h)} + Keys(t)
  {
    assert forall f :: f in [h] + t <==> f == h || f in t;
  }

  lemma ConsSorted(h: LicenseFinding, t: seq<LicenseFinding>)
    requires StrictlySorted(t)
    requires forall f :: f in t ==> Before(h, f)
    ensures StrictlySorted([h] + t)
  {
    var r := [h] + t;
    forall i, j | 0 <= i < j < |r| ensures Before(r[i], r[j]) {
      if i == 0 {
        assert r[j] == t[j - 1];
      } else {
        assert r[i] == t[i - 1] && r[j] == t[j - 1];
      }
    }
  }

  /** Putting a finding that precedes the whole set in front keeps it sorted. */
  lemma InsertFront(s: seq<LicenseFinding>, x: LicenseFinding)
    requires StrictlySorted(s) && |s| > 0 && Before(x, s[0])
    ensures StrictlySorted([x] + s)
    ensures KeyOf(x) !in Keys(s)
  {
    forall j | 0 <= j < |s| ensures Before(x, s[j]) {
      if j > 0 {
        BeforeTransitive(x, s[0], s[j]);
      }
    }
    forall f | f in s ensures KeyOf(f) != KeyOf(x) {
      CompareFindingsZero(x, f);
    }
  }

  /** Adds the findings one after the other, as `toSortedSet` does. */
  function AddAll(s: seq<LicenseFinding>, xs: seq<LicenseFinding>): (r: seq<LicenseFinding>)
    requires StrictlySorted(s)
    ensures StrictlySorted(r)
    ensures Keys(r) == Keys(s) + Keys(xs)
    ensures forall f :: f in r ==> f in s || f in xs
    ensures |r| <= |s| + |xs|
    decreases |xs|
  {
    if |xs| == 0 then s
    else
      assert xs == [xs[0]] + xs[1..];
      assert Keys(xs) == {KeyOf(xs[0])} + Keys(xs[1..]);
      AddAll(Insert(s, xs[0]), xs[1..])
  }

  /** `toSortedSet(comparator)`: the strictly sorted, key-distinct set of the
      given findings. */
  function ToSortedSet(xs: seq<LicenseFinding>): (r: seq<LicenseFinding>)
    ensures StrictlySorted(r)
    ensures Keys(r) == Keys(xs)
    ensures forall f :: f in r ==> f in xs
    ensures |r| <= |xs|
  {
    AddAll([], xs)
  }

  /** In a strictly sorted set, position order and finding order agree. */
  lemma SortedPositionsAgree(s: seq<LicenseFinding>, i: int, j: int)
    requires StrictlySorted(s)
    requires 0 <= i < |s| && 0 <= j < |s|
    ensures i < j <==> Before(s[i], s[j])
  {
    if j <= i {
      CompareFindingsZero(s[i], s[j]);
      if j < i {
        CompareFindingsAntisymmetric(s[j], s[i]);
      }
    }
  }

  /** A strictly sorted set is determined by its elements: two of them holding
      the same findings are equal. */
  lemma {:induction false} StrictlySortedUnique(a: seq<LicenseFinding>, b: seq<LicenseFinding>)
    requires StrictlySorted(a) && StrictlySorted(b)
    requires forall f :: f in a <==> f in b
    ensures a == b
    decreases |a|
  {
    if |a| > 0 {
      assert a[0] in b;
    }
    if |b| > 0 {
      assert b[0] in a;
    }
    if |a| > 0 && |b| > 0 {
      if a[0] != b[0] {
        assert b[0] in a && a[0] in b;
        var i :| 0 <= i < |a| && a[i] == b[0];
        var j :| 0 <= j < |b| && b[j] == a[0];
        SortedPositionsAgree(a, 0, i);
        SortedPositionsAgree(b, 0, j);
        CompareFindingsAntisymmetric(a[0], b[0]);
      }
      forall f ensures f in a[1..] <==> f in b[1..] {
        if f in a[1..] {
          var i :| 1 <= i < |a| && a[i] == f;
          SortedPositionsAgree(a, 0, i);
          assert f in b;
          var j :| 0 <= j < |b| && b[j] == f;
          if j == 0 {
            CompareFindingsZero(a[0], f);
          }
        }
        if f in b[1..] {
          var j :| 1 <= j < |b| && b[j] == f;
          SortedPositionsAgree(b, 0, j);
          assert f in a;
          var i :| 0 <= i < |a| && a[i] == f;
          if i == 0 {
            CompareFindingsZero(b[0], f);
          }
        }
      }
      StrictlySortedUnique(a[1..], b[1..]);
      assert a == [a[0]] + a[1..] && b == [b[0]] + b[1..];
    }
  }
}
