/** Distractor choice (src/option_selection.py, `_filter_similar_words` and
    `_find_plausible_distractors`). The similarity score (Jaro-Winkler in the
    source) is a parameter: any total function from two words to a real. */
module Distractors {
  import opened Wrappers
  import opened Seqs
  import opened PyRandom

  /** A similarity score between two words; higher is more similar. */
  type Similarity = (string, string) -> real

  /** The keys of `{word: ... for word in words if word != base}`: the words
      other than `base`, each at the place of its first occurrence. */
  function Candidates(base: string, words: seq<string>): (c: seq<string>)
    ensures NoDup(c)
    ensures Elems(c) == Elems(words) - {base}
  {
    if words == [] then []
    else
      var c := Candidates(base, words[..|words| - 1]);
      var w := words[|words| - 1];
      assert words == words[..|words| - 1] + [w];
      assert Elems(words) == Elems(words[..|words| - 1]) + {w};
      if w == base || w in c then c
      else
        assert Elems(c + [w]) == Elems(c) + {w};
        c + [w]
  }

  /** The words of `s` other than `x`, in order. */
  function Without(s: seq<string>, x: string): seq<string>
  {
    if s == [] then [] else (if s[0] == x then [] else [s[0]]) + Without(s[1..], x)
  }

  /** `Without` of a list with a given last element. */
  lemma {:induction false} WithoutSnoc(s: seq<string>, w: string, x: string)
    ensures Without(s + [w], x) == Without(s, x) + (if w == x then [] else [w])
  {
    if s == [] {
      assert ([] + [w])[1..] == [];
    } else {
      assert (s + [w])[1..] == s[1..] + [w];
      WithoutSnoc(s[1..], w, x);
    }
  }

  /** With no repeated word, the candidates are the words other than `base`
      in their input order. */
  lemma {:induction false} CandidatesKeepOrder(base: string, words: seq<string>)
    requires NoDup(words)
    ensures Candidates(base, words) == Without(words, base)
  {
    if words != [] {
      var init, w := words[..|words| - 1], words[|words| - 1];
      assert words == init + [w];
      assert NoDup(init) by {
        forall i, j | 0 <= i < j < |init| ensures init[i] != init[j] {
          assert init[i] == words[i] && init[j] == words[j];
        }
      }
      CandidatesKeepOrder(base, init);
      WithoutSnoc(init, w, base);
      if w != base {
        assert w !in Candidates(base, init) by {
          forall i | 0 <= i < |init| ensures init[i] != w {
            assert init[i] == words[i];
          }
          assert w !in Elems(init);
          assert w !in Elems(Candidates(base, init));
        }
      }
    }
  }

  /** The score of each word against `base`. */
  function ScoreAgainst(base: string, sim: Similarity): string -> real
  {
    w => sim(base, w)
  }

  ghost predicate SortedDesc(s: seq<string>, key: string -> real)
  {
    forall i, j :: 0 <= i < j < |s| ==> key(s[i]) >= key(s[j])
  }

  /** Inserts `x` into `s` in front of the first word whose key is not
      larger than its own. */
  function InsertDesc(x: string, s: seq<string>, key: string -> real): (r: seq<string>)
    requires SortedDesc(s, key)
    ensures SortedDesc(r, key)
    ensures multiset(r) == multiset(s) + multiset{x}
  {
    if s == [] || key(s[0]) <= key(x) then
      ConsSorted(x, s, key);
      [x] + s
    else
      var rest := InsertDesc(x, s[1..], key);
      InsertBehind(x, s, rest, key);
      [s[0]] + rest
  }

  /** Putting the head of `s` back in front of the insertion into its tail
      gives a sorted list holding `s` and `x`. */
  lemma InsertBehind(x: string, s: seq<string>, rest: seq<string>, key: string -> real)
    requires SortedDesc(s, key) && s != [] && key(s[0]) > key(x)
    requires SortedDesc(rest, key) && multiset(rest) == multiset(s[1..]) + multiset{x}
    ensures SortedDesc([s[0]] + rest, key)
    ensures multiset([s[0]] + rest) == multiset(s) + multiset{x}
  {
    assert s == [s[0]] + s[1..];
    forall y | y in rest ensures key(s[0]) >= key(y) {
      assert y in multiset(rest);
      if y != x {
        assert y in s[1..];
      }
    }
    ConsSorted(s[0], rest, key);
  }

  /** A word scoring at least as high as every word of a sorted list can go
      in front of it. */
  lemma ConsSorted(h: string, t: seq<string>, key: string -> real)
    requires SortedDesc(t, key)
    requires forall y :: y in t ==> key(h) >= key(y)
    ensures SortedDesc([h] + t, key)
  {
    forall i, j | 0 <= i < j < |[h] + t| ensures key(([h] + t)[i]) >= key(([h] + t)[j]) {
      if i == 0 {
        assert ([h] + t)[j] in t;
      }
    }
  }

  /** `sorted(s, key=key, reverse=True)`: an insertion sort, stable like
      Python's (see `SortDescStable`). */
  function SortDesc(s: seq<string>, key: string -> real): (r: seq<string>)
    ensures SortedDesc(r, key)
    ensures multiset(r) == multiset(s)
  {
    if s == [] then []
    else
      assert s == [s[0]] + s[1..];
      InsertDesc(s[0], SortDesc(s[1..], key), key)
  }

  /** The words of `s` whose key is `v`, in order. */
  function WithKey(s: seq<string>, key: string -> real, v: real): seq<string>
  {
    if s == [] then [] else (if key(s[0]) == v then [s[0]] else []) + WithKey(s[1..], key, v)
  }

  lemma {:induction false} InsertDescStable(x: string, s: seq<string>, key: string -> real, v: real)
    requires SortedDesc(s, key)
    ensures WithKey(InsertDesc(x, s, key), key, v) == (if key(x) == v then [x] else []) + WithKey(s, key, v)
  {
    if s == [] || key(s[0]) <= key(x) {
      assert InsertDesc(x, s, key) == [x] + s;
      WithKeyCons(x, s, key, v);
    } else {
      var rest := InsertDesc(x, s[1..], key);
      assert InsertDesc(x, s, key) == [s[0]] + rest;
      InsertDescStable(x, s[1..], key, v);
      WithKeyCons(s[0], rest, key, v);
      WithKeyCons(s[0], s[1..], key, v);
      assert [s[0]] + s[1..] == s;
    }
  }

  /** `WithKey` of a list with a given head. */
  lemma WithKeyCons(h: string, t: seq<string>, key: string -> real, v: real)
    ensures WithKey([h] + t, key, v) == (if key(h) == v then [h] else []) + WithKey(t, key, v)
  {
    assert ([h] + t)[1..] == t;
  }

  /** Stability: among words with equal keys the sort keeps the input order. */
  lemma {:induction false} SortDescStable(s: seq<string>, key: string -> real, v: real)
    ensures WithKey(SortDesc(s, key), key, v) == WithKey(s, key, v)
  {
    if s != [] {
      SortDescStable(s[1..], key, v);
      InsertDescStable(s[0], SortDesc(s[1..], key), key, v);
    }
  }

  /** `_filter_similar_words`: every word of `words` other than `baseStr`,
      once, most similar first. */
  function FilterSimilarWords(baseStr: string, words: seq<string>, sim: Similarity): (r: seq<string>)
    ensures NoDup(r)
    ensures Elems(r) == Elems(words) - {baseStr}
    ensures |r| == |Elems(words) - {baseStr}|
    ensures forall i, j :: 0 <= i < j < |r| ==> sim(baseStr, r[i]) >= sim(baseStr, r[j])
  {
    var candidates := Candidates(baseStr, words);
    var r := SortDesc(candidates, ScoreAgainst(baseStr, sim));
    NoDupPermutation(candidates, r);
    assert Elems(r) == Elems(candidates) by {
      forall w ensures w in Elems(r) <==> w in Elems(candidates) {
        assert w in r <==> w in multiset(r);
        assert w in candidates <==> w in multiset(candidates);
      }
    }
    NoDupCardinality(r);
    r
  }

  /** Python's sort is stable, so words of equal similarity keep the order
      in which they first occur in `words`. */
  lemma FilterSimilarWordsStable(baseStr: string, words: seq<string>, sim: Similarity, v: real)
    ensures WithKey(FilterSimilarWords(baseStr, words, sim), ScoreAgainst(baseStr, sim), v)
         == WithKey(Candidates(baseStr, words), ScoreAgainst(baseStr, sim), v)
  {
    SortDescStable(Candidates(baseStr, words), ScoreAgainst(baseStr, sim), v);
  }

  /** The first ranked word is at least as similar as every other candidate. */
  lemma TopIsMostSimilar(word: string, optionsPool: seq<string>, sim: Similarity)
    requires FilterSimilarWords(word, optionsPool, sim) != []
    ensures forall w :: w in optionsPool && w != word ==>
      sim(word, FilterSimilarWords(word, optionsPool, sim)[0]) >= sim(word, w)
  {
    var similar := FilterSimilarWords(word, optionsPool, sim);
    forall w | w in optionsPool && w != word ensures sim(word, similar[0]) >= sim(word, w) {
      assert w in Elems(similar);
      var j :| 0 <= j < |similar| && similar[j] == w;
    }
  }

  /** A slice after the head of a duplicate-free ranking is duplicate-free and
      does not contain the head. */
  lemma TailSliceFacts(s: seq<string>, hi: int)
    requires NoDup(s) && 1 <= hi <= |s|
    ensures NoDup(s[1..hi]) && s[0] !in s[1..hi]
    ensures forall w :: w in s[1..hi] ==> w in s
  {
    var t := s[1..hi];
    forall i, j | 0 <= i < j < |t| ensures t[i] != t[j] {
      assert t[i] == s[i + 1] && t[j] == s[j + 1];
    }
    forall i | 0 <= i < |t| ensures t[i] != s[0] {
      assert t[i] == s[i + 1];
    }
  }

  /** `similar[1:][:n + 2]` is `similar[1 .. WindowEnd(n + 1, similar)]`. */
  lemma WindowIsSlice(similar: seq<string>, n: int)
    requires similar != [] && n >= 0
    ensures SliceTo(similar[1..], n + 2) == similar[1..WindowEnd(n + 1, similar)]
  {
  }

  /** Words taken from a ranking of the pool other than `word` are pool words
      other than `word`. */
  lemma ChosenAreCandidates(similar: seq<string>, chosen: seq<string>, word: string, optionsPool: seq<string>)
    requires Elems(similar) == Elems(optionsPool) - {word}
    requires forall w :: w in chosen ==> w in similar
    ensures word !in chosen && Elems(chosen) <= Elems(optionsPool)
  {
    forall w | w in Elems(chosen) ensures w in Elems(optionsPool) && w != word {
      assert w in similar;
      assert w in Elems(similar);
    }
  }

  /** The end of the sampling window: the non-first distractors come from
      `similar[1 .. WindowEnd]`, the `numDistractors + 1` words ranked right
      after the top one (fewer when the ranking is shorter). */
  function WindowEnd(numDistractors: int, similar: seq<string>): int
  {
    if numDistractors + 2 < |similar| then numDistractors + 2 else |similar|
  }

  /** `_find_plausible_distractors`: keep the most similar word, then sample
      `numDistractors - 1` of the `numDistractors + 1` words ranked after it.
      IndexError when no word other than `word` is available, ValueError when
      the sample cannot be drawn (too few candidates, or `numDistractors < 1`). */
  method FindPlausibleDistractors(word: string, optionsPool: seq<string>, numDistractors: int, sim: Similarity)
    returns (r: Result<seq<string>, PyError>)
    ensures r.Ok? <==> 1 <= numDistractors <= |Elems(optionsPool) - {word}|
    ensures r.Err? ==> (r.error == IndexError <==> Elems(optionsPool) - {word} == {})
    ensures r.Ok? ==> |r.value| == numDistractors && NoDup(r.value)
    ensures r.Ok? ==> word !in r.value && Elems(r.value) <= Elems(optionsPool)
    ensures r.Ok? ==> r.value[0] == FilterSimilarWords(word, optionsPool, sim)[0]
    ensures r.Ok? ==> forall w :: w in optionsPool && w != word ==> sim(word, r.value[0]) >= sim(word, w)
    ensures r.Ok? ==>
      var similar := FilterSimilarWords(word, optionsPool, sim);
      forall i :: 1 <= i < |r.value| ==> r.value[i] in similar[1..WindowEnd(numDistractors, similar)]
  {
    var similarWords := FilterSimilarWords(word, optionsPool, sim);
    if similarWords == [] {
      return Err(IndexError);
    }
    var mostSimilarWord := similarWords[0];
    var remaining := numDistractors - 1;
    var remainingWords := similarWords[1..];
    var window := SliceTo(remainingWords, remaining + 2);
    var sampled := Sample(window, remaining);
    if sampled.Err? {
      return Err(sampled.error);
    }
    r := Ok([mostSimilarWord] + sampled.value);
    WindowIsSlice(similarWords, remaining);
    TailSliceFacts(similarWords, WindowEnd(numDistractors, similarWords));
    TopIsMostSimilar(word, optionsPool, sim);
    ChosenAreCandidates(similarWords, r.value, word, optionsPool);
  }
}
