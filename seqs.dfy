/** Sequences used as Python lists: duplicate-freedom, element sets, `[x] * n`,
    `lst[:n]` and `list(some_set)`. */
module Seqs {

  /** No element occurs twice. */
  predicate NoDup<T(==)>(s: seq<T>)
  {
    forall i, j :: 0 <= i < j < |s| ==> s[i] != s[j]
  }

  /** The set of elements of a sequence. */
  function Elems<T>(s: seq<T>): set<T>
  {
    set x | x in s
  }

  /** Python's `[x] * n`, which is empty when `n` is zero or negative. */
  function Repeat<T(!new)>(x: T, n: int): (r: seq<T>)
    ensures |r| == if n > 0 then n else 0
    ensures forall y :: multiset(r)[y] == if y == x && n > 0 then n else 0
    decreases n
  {
    if n <= 0 then [] else Repeat(x, n - 1) + [x]
  }

  /** `p.extend([x] * n)` adds `n` copies of `x` and nothing else. */
  lemma ExtendCount<T(!new)>(p: seq<T>, x: T, n: int)
    ensures forall y :: multiset(p + Repeat(x, n))[y] == multiset(p)[y] + (if y == x && n > 0 then n else 0)
  {
    assert multiset(p + Repeat(x, n)) == multiset(p) + multiset(Repeat(x, n));
  }

  /** Python's `s[:n]`; a negative `n` counts from the end. */
  function SliceTo<T>(s: seq<T>, n: int): (r: seq<T>)
    ensures r <= s
    ensures n >= |s| ==> r == s
    ensures 0 <= n ==> |r| == (if n < |s| then n else |s|)
    ensures n < 0 ==> |r| == (if |s| + n > 0 then |s| + n else 0)
  {
    if n >= 0 then s[..if n < |s| then n else |s|]
    else s[..if |s| + n > 0 then |s| + n else 0]
  }

  /** Duplicate-freedom is the same as every count being at most one. */
  lemma {:induction false} NoDupIffCountsAtMostOne<T>(s: seq<T>)
    ensures NoDup(s) <==> forall x :: multiset(s)[x] <= 1
  {
    if s != [] {
      var t := s[1..];
      assert s == [s[0]] + t;
      NoDupIffCountsAtMostOne(t);
      if NoDup(s) {
        assert NoDup(t) by {
          forall i, j | 0 <= i < j < |t| ensures t[i] != t[j] {
            assert t[i] == s[i + 1] && t[j] == s[j + 1];
          }
        }
        assert s[0] !in t by {
          forall j | 0 <= j < |t| ensures t[j] != s[0] {
            assert t[j] == s[j + 1];
          }
        }
      }
      if forall x :: multiset(s)[x] <= 1 {
        forall x ensures multiset(t)[x] <= 1 {
          assert multiset(s)[x] == multiset{s[0]}[x] + multiset(t)[x];
        }
        assert multiset(s)[s[0]] == 1 + multiset(t)[s[0]];
        assert s[0] !in t;
        forall i, j | 0 <= i < j < |s| ensures s[i] != s[j] {
          if i == 0 {
            assert s[j] == t[j - 1];
          } else {
            assert s[i] == t[i - 1] && s[j] == t[j - 1];
          }
        }
      }
    }
  }

  /** A permutation of a duplicate-free sequence is duplicate-free. */
  lemma NoDupPermutation<T>(a: seq<T>, b: seq<T>)
    requires multiset(a) == multiset(b)
    requires NoDup(a)
    ensures NoDup(b)
  {
    NoDupIffCountsAtMostOne(a);
    NoDupIffCountsAtMostOne(b);
  }

  /** A duplicate-free sequence has as many distinct elements as entries. */
  lemma {:induction false} NoDupCardinality<T>(s: seq<T>)
    requires NoDup(s)
    ensures |Elems(s)| == |s|
  {
    if s != [] {
      var t := s[..|s| - 1];
      var x := s[|s| - 1];
      assert s == t + [x];
      assert NoDup(t);
      NoDupCardinality(t);
      assert x !in Elems(t);
      assert Elems(s) == Elems(t) + {x};
    }
  }

  /** Removing one value from a set removes at most one element. */
  lemma CardinalityWithout<T>(s: set<T>, x: T)
    ensures |s - {x}| == if x in s then |s| - 1 else |s|
  {
    if x in s {
      assert s == (s - {x}) + {x};
    } else {
      assert s - {x} == s;
    }
  }

  /** `list(s)` for a set `s`: every element once, in an order the model leaves open. */
  method ListOfSet<T>(s: set<T>) returns (xs: seq<T>)
    ensures NoDup(xs)
    ensures Elems(xs) == s
  {
    xs := [];
    var rest := s;
    while rest != {}
      invariant NoDup(xs)
      invariant forall x :: x in xs ==> x !in rest
      invariant Elems(xs) + rest == s
      decreases rest
    {
      var x :| x in rest;
      xs := xs + [x];
      rest := rest - {x};
    }
  }
}
