/** The three functions of Python's `random` module the quiz engine calls.
    Every random draw is a nondeterministic choice (`:|`), so what these
    methods ensure holds for every outcome the generator could produce. */
module PyRandom {
  import opened Wrappers
  import opened Seqs

  /** The Python exceptions the modelled code can raise. */
  datatype PyError = IndexError | ValueError

  /** `random.choice(s)`: some element of `s`; IndexError when `s` is empty. */
  method Choice<T>(s: seq<T>) returns (r: Result<T, PyError>)
    ensures r.Ok? <==> s != []
    ensures r.Err? ==> r.error == IndexError
    ensures r.Ok? ==> r.value in s
  {
    if s == [] {
      return Err(IndexError);
    }
    var i :| 0 <= i < |s|;
    return Ok(s[i]);
  }

  /** `random.sample(population, k)`: the entries at `k` distinct positions of
      `population`, in any order; ValueError when `k` is negative or larger
      than the population. */
  method Sample<T>(population: seq<T>, k: int) returns (r: Result<seq<T>, PyError>)
    ensures r.Ok? <==> 0 <= k <= |population|
    ensures r.Err? ==> r.error == ValueError
    ensures r.Ok? ==> |r.value| == k && forall x :: x in r.value ==> x in population
    ensures r.Ok? && NoDup(population) ==> NoDup(r.value)
  {
    if k < 0 || k > |population| {
      return Err(ValueError);
    }
    var leading: seq<int> := seq(k, p => p);
    assert |leading| == k && forall m :: 0 <= m < k ==> leading[m] == m;
    var positions: seq<int> :|
      && |positions| == k
      && (forall m :: 0 <= m < k ==> 0 <= positions[m] < |population|)
      && (forall m, n :: 0 <= m < n < k ==> positions[m] != positions[n]);
    var picked := seq(k, m requires 0 <= m < |positions| && 0 <= positions[m] < |population| => population[positions[m]]);
    assert forall m :: 0 <= m < k ==> picked[m] == population[positions[m]];
    assert forall x :: x in picked ==> x in population by {
      forall x | x in picked ensures x in population {
        var m :| 0 <= m < k && picked[m] == x;
      }
    }
    if NoDup(population) {
      forall m, n | 0 <= m < n < k ensures picked[m] != picked[n] {
        assert positions[m] != positions[n];
      }
    }
    return Ok(picked);
  }

  /** `random.shuffle(a)` in place: CPython's Fisher-Yates pass, from the last
      position down to position 1, each swap partner an arbitrary position at
      or before the current one. */
  method Shuffle<T>(a: array<T>)
    modifies a
    ensures multiset(a[..]) == old(multiset(a[..]))
  {
    var i := a.Length - 1;
    while i > 0
      invariant -1 <= i < a.Length
      invariant multiset(a[..]) == old(multiset(a[..]))
      decreases i
    {
      var j :| 0 <= j <= i;
      a[i], a[j] := a[j], a[i];
      i := i - 1;
    }
  }

  /** A Python list `s` shuffled in place by `random.shuffle`: the list is
      copied into an array, shuffled there, and read back. */
  method ShuffleList<T>(s: seq<T>) returns (r: seq<T>)
    ensures multiset(r) == multiset(s)
    ensures |r| == |s|
  {
    var a := new T[|s|](i requires 0 <= i < |s| => s[i]);
    assert a[..] == s;
    Shuffle(a);
    r := a[..];
    assert |multiset(r)| == |r| && |multiset(s)| == |s|;
  }
}
