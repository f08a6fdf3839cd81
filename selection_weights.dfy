/** The weighted pool of words to ask (src/option_selection.py,
    `update_selection_algorithm`). Record weights are sums of products of
    1/2, 2, 3/4, 5/4 and 1, so the source's floating-point arithmetic is exact
    and is modelled by `real`; `int(weight)` of a non-negative weight is its
    floor. Timestamps are integers in microseconds and `now` is a parameter. */
module SelectionWeights {
  import opened Seqs
  import opened PyRandom
  import opened Preprocessing

  /** One answered question, as the quiz records it. */
  datatype QuizResult = QuizResult(query: string, correctTranslation: string, userCorrect: bool, timestamp: int)

  /** `timedelta(days=1)` and `timedelta(days=7)` in microseconds. */
  const DAY: int := 86_400_000_000
  const WEEK: int := 7 * DAY

  /** The copies of a word that was never asked. */
  const NEVER_QUERIED_WEIGHT: int := 10

  /** The weight of one record: correctness factor times day factor times
      week factor, each comparison a strict "later than". */
  function Weight(r: QuizResult, now: int): (w: real)
    ensures 0.1875 <= w <= 2.5
  {
    (if r.userCorrect then 0.5 else 2.0)
    * (if r.timestamp > now - DAY then 0.5 else 1.0)
    * (if r.timestamp > now - WEEK then 0.75 else 1.25)
  }

  /** Every wrong answer weighs more than every right one, whatever their ages. */
  lemma IncorrectOutweighsCorrect(wrong: QuizResult, right: QuizResult, now: int)
    requires !wrong.userCorrect && right.userCorrect
    ensures Weight(wrong, now) > Weight(right, now)
  {
  }

  /** Among records equally right or wrong, an older one never weighs less. */
  lemma OlderNeverWeighsLess(older: QuizResult, newer: QuizResult, now: int)
    requires older.userCorrect == newer.userCorrect
    requires older.timestamp <= newer.timestamp
    ensures Weight(older, now) >= Weight(newer, now)
  {
  }

  /** The summed weight of the records whose query is `word`
      (`df.groupby("query")["weight"].sum()` for one group). */
  function TotalWeight(records: seq<QuizResult>, word: string, now: int): (t: real)
    ensures t >= 0.0
  {
    if records == [] then 0.0
    else
      var last := records[|records| - 1];
      TotalWeight(records[..|records| - 1], word, now) + (if last.query == word then Weight(last, now) else 0.0)
  }

  /** Some record asks `word`. */
  predicate Queried(records: seq<QuizResult>, word: string)
  {
    exists r :: r in records && r.query == word
  }

  /** A word no record asks has summed weight zero. */
  lemma {:induction false} UnqueriedWeighsNothing(records: seq<QuizResult>, word: string, now: int)
    requires !Queried(records, word)
    ensures TotalWeight(records, word, now) == 0.0
  {
    if records != [] {
      var init := records[..|records| - 1];
      assert records == init + [records[|records| - 1]];
      forall r | r in init ensures r.query != word {
        assert r in records;
      }
      UnqueriedWeighsNothing(init, word, now);
    }
  }

  /** One more record adds its weight to its own query's sum and to no other. */
  lemma AppendRecord(records: seq<QuizResult>, record: QuizResult, now: int)
    ensures forall w ::
      TotalWeight(records + [record], w, now) == TotalWeight(records, w, now) + (if record.query == w then Weight(record, now) else 0.0)
    ensures forall w :: Queried(records + [record], w) <==> Queried(records, w) || record.query == w
  {
    assert (records + [record])[..|records|] == records;
    forall w ensures Queried(records + [record], w) <==> Queried(records, w) || record.query == w {
      if Queried(records + [record], w) {
        var r :| r in records + [record] && r.query == w;
        assert r in records || r == record;
      }
      if Queried(records, w) {
        var r :| r in records && r.query == w;
        assert r in records + [record];
      }
      if record.query == w {
        assert record in records + [record];
      }
    }
  }

  /** The summed weight of two concatenated record lists is the sum of
      their summed weights. */
  lemma {:induction false} TotalWeightConcat(a: seq<QuizResult>, b: seq<QuizResult>, word: string, now: int)
    ensures TotalWeight(a + b, word, now) == TotalWeight(a, word, now) + TotalWeight(b, word, now)
  {
    if b == [] {
      assert a + b == a;
    } else {
      var init := b[..|b| - 1];
      assert (a + b)[..|a + b| - 1] == a + init;
      assert (a + b)[|a + b| - 1] == b[|b| - 1];
      TotalWeightConcat(a, init, word, now);
    }
  }

  /** A word is asked in two concatenated record lists iff it is asked in one of them. */
  lemma QueriedConcat(a: seq<QuizResult>, b: seq<QuizResult>, word: string)
    ensures Queried(a + b, word) <==> Queried(a, word) || Queried(b, word)
  {
    if Queried(a + b, word) {
      var r :| r in a + b && r.query == word;
      assert r in a || r in b;
    }
    if Queried(a, word) {
      var r :| r in a && r.query == word;
      assert r in a + b;
    }
    if Queried(b, word) {
      var r :| r in b && r.query == word;
      assert r in a + b;
    }
  }

  /** The summed weight does not depend on the order of the records. */
  lemma {:induction false} TotalWeightPermutation(a: seq<QuizResult>, b: seq<QuizResult>, word: string, now: int)
    requires multiset(a) == multiset(b)
    ensures TotalWeight(a, word, now) == TotalWeight(b, word, now)
  {
    if a == [] {
      assert |b| == |multiset(b)| == 0;
    } else {
      var x := a[|a| - 1];
      var init := a[..|a| - 1];
      assert a == init + [x];
      assert x in multiset(b);
      var j :| 0 <= j < |b| && b[j] == x;
      var rest := b[..j] + b[j + 1..];
      RemoveAtPreservesRest(a, b, j);
      TotalWeightPermutation(init, rest, word, now);
      TotalWeightRemoveAt(b, j, word, now);
      TotalWeightConcat(init, [x], word, now);
    }
  }

  /** Removing the same record from two permutations of each other leaves
      permutations of each other. */
  lemma RemoveAtPreservesRest(a: seq<QuizResult>, b: seq<QuizResult>, j: int)
    requires multiset(a) == multiset(b) && a != []
    requires 0 <= j < |b| && b[j] == a[|a| - 1]
    ensures multiset(a[..|a| - 1]) == multiset(b[..j] + b[j + 1..])
  {
    var x, init, rest := a[|a| - 1], a[..|a| - 1], b[..j] + b[j + 1..];
    assert a == init + [x];
    assert b == b[..j] + [x] + b[j + 1..];
    assert multiset(rest) == multiset(b[..j]) + multiset(b[j + 1..]);
    forall y ensures multiset(init)[y] == multiset(rest)[y] {
      assert multiset(a)[y] == multiset(init)[y] + multiset{x}[y];
      assert multiset(b)[y] == multiset(b[..j])[y] + multiset{x}[y] + multiset(b[j + 1..])[y];
    }
  }

  /** Taking one record out of a list takes its weight out of the sum. */
  lemma TotalWeightRemoveAt(b: seq<QuizResult>, j: int, word: string, now: int)
    requires 0 <= j < |b|
    ensures TotalWeight(b, word, now) == TotalWeight(b[..j] + b[j + 1..], word, now) + TotalWeight([b[j]], word, now)
  {
    assert b == b[..j] + [b[j]] + b[j + 1..];
    TotalWeightConcat(b[..j] + [b[j]], b[j + 1..], word, now);
    TotalWeightConcat(b[..j], [b[j]], word, now);
    TotalWeightConcat(b[..j], b[j + 1..], word, now);
  }

  /** The pool does not depend on the order of the records. */
  lemma PoolCountPermutation(a: seq<QuizResult>, b: seq<QuizResult>, dicts: (Dict, Dict), word: string, now: int)
    requires multiset(a) == multiset(b)
    ensures PoolCount(a, dicts, word, now) == PoolCount(b, dicts, word, now)
  {
    TotalWeightPermutation(a, b, word, now);
    assert Queried(a, word) <==> Queried(b, word) by {
      forall r ensures r in a <==> r in b {
        assert r in a <==> r in multiset(a);
        assert r in b <==> r in multiset(b);
      }
    }
  }

  /** One more record never lowers a word's summed weight, and raises the
      sum of the word it asks by at least the lightest weight. */
  lemma RecordRaisesWeight(records: seq<QuizResult>, record: QuizResult, word: string, now: int)
    ensures TotalWeight(records + [record], word, now) >= TotalWeight(records, word, now)
    ensures record.query == word ==> TotalWeight(records + [record], word, now) >= TotalWeight(records, word, now) + 0.1875
  {
    AppendRecord(records, record, now);
  }

  /** The copies of `word` that the loops over one dictionary's keys add to
      the pool: none for a word that is not a key, `int` of the summed weight
      for a queried key, the default for a key never asked. */
  function Copies(records: seq<QuizResult>, keys: set<string>, word: string, now: int): nat
  {
    if word !in keys then 0
    else if Queried(records, word) then TotalWeight(records, word, now).Floor
    else NEVER_QUERIED_WEIGHT
  }

  /** The copies of `word` in the pool: its copies as a key of `dicts.0`
      plus its copies as a key of `dicts.1`. */
  function PoolCount(records: seq<QuizResult>, dicts: (Dict, Dict), word: string, now: int): nat
  {
    Copies(records, dicts.0.Keys, word, now) + Copies(records, dicts.1.Keys, word, now)
  }

  /** Whether the historical results come before or after the current ones
      does not change the pool. */
  lemma SessionOrderIrrelevant(historical: seq<QuizResult>, current: seq<QuizResult>, dicts: (Dict, Dict), word: string, now: int)
    ensures PoolCount(historical + current, dicts, word, now) == PoolCount(current + historical, dicts, word, now)
  {
    TotalWeightConcat(historical, current, word, now);
    TotalWeightConcat(current, historical, word, now);
    QueriedConcat(historical, current, word);
    QueriedConcat(current, historical, word);
  }

  /** A word already asked keeps at least as many copies when one more
      record is added. */
  lemma MoreRecordsNeverFewerCopies(records: seq<QuizResult>, record: QuizResult, keys: set<string>, word: string, now: int)
    requires Queried(records, word)
    ensures Copies(records + [record], keys, word, now) >= Copies(records, keys, word, now)
  {
    AppendRecord(records, record, now);
    RecordRaisesWeight(records, record, word, now);
  }

  /** A record whose query is a key of neither dictionary changes no word's
      number of copies. */
  lemma ForeignRecordIgnored(records: seq<QuizResult>, record: QuizResult, dicts: (Dict, Dict), word: string, now: int)
    requires record.query !in dicts.0 && record.query !in dicts.1
    ensures PoolCount(records + [record], dicts, word, now) == PoolCount(records, dicts, word, now)
  {
    AppendRecord(records, record, now);
  }

  /** With no records at all, every key gets the default number of copies
      for each dictionary it belongs to. */
  lemma {:induction false} NoRecordsAllDefault(dicts: (Dict, Dict), word: string, now: int)
    ensures PoolCount([], dicts, word, now)
      == (if word in dicts.0 then NEVER_QUERIED_WEIGHT else 0) + (if word in dicts.1 then NEVER_QUERIED_WEIGHT else 0)
  {
    assert !Queried([], word);
  }

  /** Soft pruning: a word answered once, correctly, within the last day
      weighs 0.5 * 0.5 * 0.75 = 0.1875, whose `int` is 0, so it has no copy in
      the pool, while every other key, never asked, keeps ten copies per
      dictionary. */
  lemma SoftPruning(word: string, answer: string, dicts: (Dict, Dict), other: string, now: int)
    requires other != word
    ensures PoolCount([QuizResult(word, answer, true, now)], dicts, word, now) == 0
    ensures PoolCount([QuizResult(word, answer, true, now)], dicts, other, now)
      == (if other in dicts.0 then NEVER_QUERIED_WEIGHT else 0) + (if other in dicts.1 then NEVER_QUERIED_WEIGHT else 0)
  {
    var records := [QuizResult(word, answer, true, now)];
    assert records == [] + [records[0]];
    assert Queried(records, word) by { assert records[0] in records; }
    assert TotalWeight(records, word, now) == 0.1875;
    assert !Queried(records, other);
  }

  /** A word answered once, wrongly, within the last day weighs
      2 * 0.5 * 0.75 = 0.75, so it also drops out of the pool. */
  lemma RecentMistakeDropsOut(word: string, answer: string, dicts: (Dict, Dict), now: int)
    ensures PoolCount([QuizResult(word, answer, false, now)], dicts, word, now) == 0
  {
    var records := [QuizResult(word, answer, false, now)];
    assert records == [] + [records[0]];
    assert Queried(records, word) by { assert records[0] in records; }
    assert TotalWeight(records, word, now) == 0.75;
  }

  /** `df[df["query"].isin(keys)].groupby("query")["weight"].sum().to_dict()`
      as one pass over the records: the summed weight of each key that some
      record asks. */
  method SumWeightsByQuery(records: seq<QuizResult>, keys: set<string>, now: int) returns (weights: map<string, real>)
    ensures forall w :: w in weights <==> w in keys && Queried(records, w)
    ensures forall w :: w in weights ==> weights[w] == TotalWeight(records, w, now)
  {
    weights := map[];
    for i := 0 to |records|
      invariant forall w :: w in weights <==> w in keys && Queried(records[..i], w)
      invariant forall w :: w in weights ==> weights[w] == TotalWeight(records[..i], w, now)
    {
      var record := records[i];
      assert records[..i + 1] == records[..i] + [record];
      AppendRecord(records[..i], record, now);
      if record.query in keys {
        if record.query !in weights {
          UnqueriedWeighsNothing(records[..i], record.query, now);
        }
        var sum := if record.query in weights then weights[record.query] else 0.0;
        weights := weights[record.query := sum + Weight(record, now)];
      }
    }
    assert records[..|records|] == records;
  }

  /** `for word, weight in weights.items(): pool.extend([word] * int(weight))`. */
  method ExtendByWeights(pool: seq<string>, weights: map<string, real>) returns (pool': seq<string>)
    ensures forall w :: multiset(pool')[w] == multiset(pool)[w] + (if w in weights && weights[w] >= 0.0 then weights[w].Floor else 0)
  {
    pool' := pool;
    var words := ListOfSet(weights.Keys);
    for i := 0 to |words|
      invariant forall w :: multiset(pool')[w] == multiset(pool)[w] + (if w in words[..i] && weights[w] >= 0.0 then weights[w].Floor else 0)
    {
      var word := words[i];
      assert forall w :: w in words[..i + 1] <==> w in words[..i] || w == word by {
        assert words[..i + 1] == words[..i] + [word];
      }
      assert word !in words[..i];
      pool' := AddCopies(pool', word, weights[word].Floor);
    }
    assert words[..|words|] == words;
  }

  /** The default copies of `word` once the keys `words` are processed. */
  function DefaultCopies(words: seq<string>, empty: bool, weights: map<string, real>, word: string): int
  {
    if word in words && (empty || word !in weights) then NEVER_QUERIED_WEIGHT else 0
  }

  /** Appends `n` copies of `word` (none when `n <= 0`). */
  method AddCopies(pool: seq<string>, word: string, n: int) returns (pool': seq<string>)
    ensures forall w :: multiset(pool')[w] == multiset(pool)[w] + (if w == word && n > 0 then n else 0)
  {
    ExtendCount(pool, word, n);
    pool' := pool + Repeat(word, n);
  }

  /** Processing one more (not yet seen) key adds its default copies only. */
  lemma DefaultCopiesStep(words: seq<string>, i: int, empty: bool, weights: map<string, real>)
    requires NoDup(words) && 0 <= i < |words|
    ensures forall w ::
              DefaultCopies(words[..i + 1], empty, weights, w)
              == DefaultCopies(words[..i], empty, weights, w)
                 + (if w == words[i] && (empty || words[i] !in weights) then NEVER_QUERIED_WEIGHT else 0)
  {
    assert words[..i + 1] == words[..i] + [words[i]];
    assert words[i] !in words[..i];
  }

  /** `for word in keys: if df.empty or word not in weights:
      pool.extend([word] * never_queried_weight)`. */
  method ExtendByDefault(pool: seq<string>, keys: set<string>, empty: bool, weights: map<string, real>) returns (pool': seq<string>)
    ensures forall w :: multiset(pool')[w] == multiset(pool)[w] + (if w in keys && (empty || w !in weights) then NEVER_QUERIED_WEIGHT else 0)
  {
    pool' := pool;
    var words := ListOfSet(keys);
    for i := 0 to |words|
      invariant forall w :: multiset(pool')[w] == multiset(pool)[w] + DefaultCopies(words[..i], empty, weights, w)
    {
      var word := words[i];
      var extend := empty || word !in weights;
      pool' := AddCopies(pool', word, if extend then NEVER_QUERIED_WEIGHT else 0);
      DefaultCopiesStep(words, i, empty, weights);
    }
    assert words[..|words|] == words;
    assert forall w :: w in words <==> w in keys by {
      assert Elems(words) == keys;
    }
  }

  /** The copies added by the four loops of `update_selection_algorithm`
      make up `PoolCount`: the summed copies for the asked keys, the default
      for the other keys, per dictionary. */
  lemma CountsAddUp(records: seq<QuizResult>, dicts: (Dict, Dict), empty: bool,
                    weightsKorean: map<string, real>, weightsTranslation: map<string, real>, now: int, w: string)
    requires empty <==> records == []
    requires empty ==> weightsKorean == map[] && weightsTranslation == map[]
    requires !empty ==> forall w :: w in weightsKorean <==> w in dicts.0 && Queried(records, w)
    requires !empty ==> forall w :: w in weightsTranslation <==> w in dicts.1 && Queried(records, w)
    requires forall w :: w in weightsKorean ==> weightsKorean[w] == TotalWeight(records, w, now)
    requires forall w :: w in weightsTranslation ==> weightsTranslation[w] == TotalWeight(records, w, now)
    ensures (if w in weightsKorean && weightsKorean[w] >= 0.0 then weightsKorean[w].Floor else 0)
          + (if w in weightsTranslation && weightsTranslation[w] >= 0.0 then weightsTranslation[w].Floor else 0)
          + (if w in dicts.0 && (empty || w !in weightsKorean) then NEVER_QUERIED_WEIGHT else 0)
          + (if w in dicts.1 && (empty || w !in weightsTranslation) then NEVER_QUERIED_WEIGHT else 0)
          == PoolCount(records, dicts, w, now)
  {
    if empty {
      assert !Queried(records, w);
    }
  }

  /** `update_selection_algorithm`: the pool holds each word exactly
      `PoolCount` times, in an order left to `random.shuffle`. */
  method UpdateSelectionAlgorithm(historicalResults: seq<QuizResult>, currentResults: seq<QuizResult>, dicts: (Dict, Dict), now: int)
    returns (weightedVocab: seq<string>)
    ensures forall w :: multiset(weightedVocab)[w] == PoolCount(historicalResults + currentResults, dicts, w, now)
    ensures forall w :: w in weightedVocab ==> w in dicts.0 || w in dicts.1
  {
    var allResults := historicalResults + currentResults;
    var empty := allResults == [];
    weightedVocab := [];
    var weightsKorean: map<string, real> := map[];
    var weightsTranslation: map<string, real> := map[];
    if !empty {
      weightsKorean := SumWeightsByQuery(allResults, dicts.0.Keys, now);
      weightsTranslation := SumWeightsByQuery(allResults, dicts.1.Keys, now);
      weightedVocab := ExtendByWeights(weightedVocab, weightsKorean);
      weightedVocab := ExtendByWeights(weightedVocab, weightsTranslation);
    }
    weightedVocab := ExtendByDefault(weightedVocab, dicts.0.Keys, empty, weightsKorean);
    weightedVocab := ExtendByDefault(weightedVocab, dicts.1.Keys, empty, weightsTranslation);
    ghost var unshuffled := weightedVocab;
    weightedVocab := ShuffleList(weightedVocab);
    forall w ensures multiset(weightedVocab)[w] == PoolCount(allResults, dicts, w, now) {
      assert multiset(weightedVocab)[w] == multiset(unshuffled)[w];
      CountsAddUp(allResults, dicts, empty, weightsKorean, weightsTranslation, now, w);
    }
    forall w | w in weightedVocab ensures w in dicts.0 || w in dicts.1 {
      assert w in multiset(weightedVocab);
    }
  }
}
