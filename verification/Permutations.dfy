/** Sequences without repetition, and when they are rearrangements of each other. */
module Permutations {

  ghost predicate Distinct<T(!new)>(s: seq<T>) {
    forall i, j :: 0 <= i < j < |s| ==> s[i] != s[j]
  }

  function Elements<T>(s: seq<T>): set<T> { set x | x in s }

  lemma {:induction false} DistinctSize<T(!new)>(s: seq<T>)
    requires Distinct(s)
    ensures |Elements(s)| == |s|
  {
    if s != [] {
      DistinctSize(s[1..]);
      assert Elements(s) == Elements(s[1..]) + {s[0]};
      assert s[0] !in s[1..];
    }
  }

  lemma {:induction false} DistinctMultiplicity<T(!new)>(s: seq<T>, x: T)
    requires Distinct(s)
    ensures multiset(s)[x] == if x in s then 1 else 0
  {
    if s != [] {
      DistinctMultiplicity(s[1..], x);
      assert s == [s[0]] + s[1..];
      assert s[0] !in s[1..];
    }
  }

  lemma SameElementsSameMultiset<T(!new)>(a: seq<T>, b: seq<T>)
    requires Distinct(a) && Distinct(b) && forall x :: x in a <==> x in b
    ensures multiset(a) == multiset(b)
  {
    forall x ensures multiset(a)[x] == multiset(b)[x] {
      DistinctMultiplicity(a, x);
      DistinctMultiplicity(b, x);
    }
  }

  /** As many different elements as there are, all from `b`: a rearrangement of `b`. */
  lemma Pigeonhole<T(!new)>(a: seq<T>, b: seq<T>)
    requires Distinct(a) && Distinct(b) && |a| == |b| && forall x :: x in a ==> x in b
    ensures multiset(a) == multiset(b)
  {
    DistinctSize(a);
    DistinctSize(b);
    var rest := Elements(b) - Elements(a);
    assert Elements(a) <= Elements(b);
    assert |rest| == 0;
    forall x | x in b ensures x in a { assert x !in rest; }
    SameElementsSameMultiset(a, b);
  }

  lemma RearrangedElements<T(!new)>(a: seq<T>, b: seq<T>)
    requires multiset(a) == multiset(b)
    ensures |a| == |b| && forall x :: x in a <==> x in b
  {
    assert |a| == |multiset(a)| && |b| == |multiset(b)|;
    forall x ensures x in a <==> x in b {
      assert x in a <==> x in multiset(a);
      assert x in b <==> x in multiset(b);
    }
  }

  lemma RepeatedMultiplicity<T(!new)>(a: seq<T>, i: nat, j: nat)
    requires i < j < |a| && a[i] == a[j]
    ensures multiset(a)[a[i]] >= 2
  {
    assert a == a[..i] + [a[i]] + a[i + 1..j] + [a[j]] + a[j + 1..];
  }

  lemma RearrangedDistinct<T(!new)>(a: seq<T>, b: seq<T>)
    requires multiset(a) == multiset(b) && Distinct(b)
    ensures Distinct(a)
  {
    forall i, j | 0 <= i < j < |a| ensures a[i] != a[j] {
      DistinctMultiplicity(b, a[i]);
      if a[i] == a[j] {
        RepeatedMultiplicity(a, i, j);
      }
    }
  }

  /** `len(set(names)) == len(names)` */
  predicate NoRepeats(names: seq<string>) { |Elements(names)| == |names| }

  /** Counting the set finds every repetition. */
  lemma NoRepeatsExactlyWhen(names: seq<string>)
    ensures NoRepeats(names) <==> Distinct(names)
  {
    if Distinct(names) {
      DistinctSize(names);
    }
    if !Distinct(names) {
      var i, j :| 0 <= i < j < |names| && names[i] == names[j];
      var rest := names[..i] + names[i + 1..];
      assert Elements(names) <= Elements(rest) by {
        forall x | x in names ensures x in rest {
          var k :| 0 <= k < |names| && names[k] == x;
          if k < i { assert rest[k] == x; } else if k > i { assert rest[k - 1] == x; } else { assert rest[j - 1] == x; }
        }
      }
      SubsetSize(Elements(names), Elements(rest));
      ElementsAtMost(rest);
    }
  }

  lemma SubsetSize(a: set<string>, b: set<string>)
    requires a <= b
    ensures |a| <= |b|
  {
    assert b == a + (b - a);
  }

  lemma {:induction false} ElementsAtMost(names: seq<string>)
    ensures |Elements(names)| <= |names|
  {
    if names != [] {
      ElementsAtMost(names[1..]);
      assert Elements(names) == Elements(names[1..]) + {names[0]};
    }
  }
}
