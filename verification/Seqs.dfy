/** Sequences without repetition, their elements, and the sizes of sets. */
module Seqs {
  ghost predicate Distinct<T>(s: seq<T>) {
    forall i, j :: 0 <= i < j < |s| ==> s[i] != s[j]
  }

  function ToSet<T>(s: seq<T>): set<T> {
    set x | x in s
  }

  lemma {:induction false} DistinctSize<T>(s: seq<T>)
    requires Distinct(s)
    ensures |ToSet(s)| == |s|
  {
    if s != [] {
      var n := |s| - 1;
      DistinctSize(s[..n]);
      assert ToSet(s) == ToSet(s[..n]) + {s[n]};
    }
  }

  lemma SomethingIn<T>(s: seq<T>)
    ensures ToSet(s) == {} <==> s == []
  {
    assert s == [] || s[0] in ToSet(s);
  }

  lemma {:induction false} Smaller<T>(a: set<T>, b: set<T>)
    requires a < b
    ensures |a| < |b|
  {
    assert |b| == |a| + |b - a| by { assert b == a + (b - a); }
  }

  lemma SubsetSize<T>(a: set<T>, b: set<T>)
    requires a <= b
    ensures |a| <= |b|
  {
    if a != b { Smaller(a, b); }
  }

  lemma DistinctCons<T>(x: T, t: seq<T>)
    ensures Distinct([x] + t) <==> x !in t && Distinct(t)
  {
    var s := [x] + t;
    if Distinct(s) {
      forall i | 0 <= i < |t| ensures t[i] != x { assert s[i + 1] == t[i] && s[0] != s[i + 1]; }
      forall i, j | 0 <= i < j < |t| ensures t[i] != t[j] { assert s[i + 1] != s[j + 1]; }
    }
  }

  lemma DistinctTogether<T>(s: seq<T>, t: seq<T>)
    requires Distinct(s) && Distinct(t) && ToSet(s) * ToSet(t) == {}
    ensures Distinct(s + t)
  {
    forall i, j | 0 <= i < |s| && 0 <= j < |t| ensures s[i] != t[j] {
      assert s[i] in ToSet(s) && s[i] !in ToSet(s) * ToSet(t);
    }
  }

  /** s without the first occurrence of x. */
  function Without<T(==)>(s: seq<T>, x: T): seq<T> {
    if s == [] then [] else if s[0] == x then s[1..] else [s[0]] + Without(s[1..], x)
  }

  lemma {:induction false} WithoutContents<T>(s: seq<T>, x: T)
    requires Distinct(s)
    ensures Distinct(Without(s, x)) && ToSet(Without(s, x)) == ToSet(s) - {x}
  {
    if s != [] {
      assert s == [s[0]] + s[1..];
      DistinctCons(s[0], s[1..]);
      if s[0] != x {
        WithoutContents(s[1..], x);
        assert s[0] !in ToSet(Without(s[1..], x));
        DistinctCons(s[0], Without(s[1..], x));
        assert ToSet(Without(s, x)) == {s[0]} + ToSet(Without(s[1..], x));
      }
      assert ToSet(s) == {s[0]} + ToSet(s[1..]);
    }
  }

  /** Taking out the i-th of a sequence, where no earlier one is the same. */
  lemma {:induction false} WithoutAt<T>(s: seq<T>, i: nat)
    requires i < |s| && s[i] !in s[..i]
    ensures Without(s, s[i]) == s[..i] + s[i + 1..]
  {
    if i > 0 {
      assert s[1..][..i - 1] == s[..i][1..];
      WithoutAt(s[1..], i - 1);
      assert s[0] != s[i] by { assert s[0] == s[..i][0]; }
    }
  }

  lemma {:induction false} WithoutNone<T>(s: seq<T>, x: T)
    requires x !in s
    ensures Without(s, x) == s
  {
    if s != [] {
      WithoutNone(s[1..], x);
    }
  }

  /** `after` is `before` with its first x taken out. */
  ghost predicate OneLess<T>(before: seq<T>, after: seq<T>, x: T) {
    exists i :: 0 <= i < |before| && before[i] == x && x !in before[..i] && after == before[..i] + before[i + 1..]
  }

  lemma {:induction false} WithoutIsOneLess<T>(s: seq<T>, x: T)
    requires x in s
    ensures OneLess(s, Without(s, x), x)
  {
    var i := FirstOf(s, x);
    WithoutAt(s, i);
  }

  lemma {:induction false} FirstOf<T>(s: seq<T>, x: T) returns (i: nat)
    requires x in s
    ensures i < |s| && s[i] == x && x !in s[..i]
  {
    if s[0] == x {
      i := 0;
    } else {
      var k := FirstOf(s[1..], x);
      i := k + 1;
      assert s[..i] == [s[0]] + s[1..][..k];
    }
  }
}
