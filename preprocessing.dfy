/** Building the two vocabulary dictionaries from the word list
    (src/preprocessing.py, `get_dicts_from_df`). */
module Preprocessing {
  import opened Wrappers
  import opened Seqs
  import opened Strings

  /** One row of the word list: its "Deutsch" cell and its "한국어" cell,
      `None` where pandas reads a missing value. */
  datatype Row = Row(german: Option<string>, korean: Option<string>)

  /** A word -> translations dictionary. */
  type Dict = map<string, seq<string>>

  /** A row is used only when neither cell is missing. */
  predicate Accepted(row: Row)
  {
    row.german.Some? && row.korean.Some?
  }

  /** The (German, Korean) pair an accepted row contributes: both cells stripped. */
  function PairOf(row: Row): (string, string)
    requires Accepted(row)
  {
    (Strip(row.german.value), Strip(row.korean.value))
  }

  /** The pairs of the accepted rows, in row order. */
  function Pairs(rows: seq<Row>): seq<(string, string)>
  {
    if rows == [] then []
    else
      var last := rows[|rows| - 1];
      Pairs(rows[..|rows| - 1]) + (if Accepted(last) then [PairOf(last)] else [])
  }

  /** `forward` indexes the pairs `ps` by their German word: a word is a key
      exactly when some pair has it first, and its list holds, once each,
      exactly the Korean words paired with it. */
  ghost predicate IndexesByGerman(ps: seq<(string, string)>, forward: Dict)
  {
    && (forall g :: g in forward <==> exists k :: (g, k) in ps)
    && (forall g, k :: g in forward ==> (k in forward[g] <==> (g, k) in ps))
    && (forall g :: g in forward ==> NoDup(forward[g]))
  }

  /** `backward` indexes the pairs `ps` by their Korean word, likewise. */
  ghost predicate IndexesByKorean(ps: seq<(string, string)>, backward: Dict)
  {
    && (forall k :: k in backward <==> exists g :: (g, k) in ps)
    && (forall g, k :: k in backward ==> (g in backward[k] <==> (g, k) in ps))
    && (forall k :: k in backward ==> NoDup(backward[k]))
  }

  /** The two dictionaries index the same pairs from both sides. */
  ghost predicate Indexes(ps: seq<(string, string)>, forward: Dict, backward: Dict)
  {
    IndexesByGerman(ps, forward) && IndexesByKorean(ps, backward)
  }

  /** Appending a pair (g, k) and replacing g's list by a duplicate-free list of
      its old entries plus k keeps `forward` an index. */
  lemma AddToGermanIndex(ps: seq<(string, string)>, forward: Dict, g: string, k: string, list: seq<string>)
    requires IndexesByGerman(ps, forward)
    requires NoDup(list) && Elems(list) == Elems(ListAt(forward, g)) + {k}
    ensures IndexesByGerman(ps + [(g, k)], forward[g := list])
  {
    var ps', forward' := ps + [(g, k)], forward[g := list];
    forall x ensures x in forward' <==> exists y :: (x, y) in ps' {
      AddedKey(ps, forward.Keys, g, k, x);
    }
    forall x, y | x in forward' ensures y in forward'[x] <==> (x, y) in ps' {
      if x == g {
        assert y in list <==> y in Elems(list);
        assert y in ListAt(forward, g) <==> (g, y) in ps;
      }
    }
  }

  /** A key set holding exactly the first components of `ps` grows by `g`
      when (g, k) is appended. */
  lemma AddedKey(ps: seq<(string, string)>, keys: set<string>, g: string, k: string, x: string)
    requires forall x :: x in keys <==> exists y :: (x, y) in ps
    ensures x in keys + {g} <==> exists y :: (x, y) in ps + [(g, k)]
  {
    if x == g {
      assert (g, k) in ps + [(g, k)];
    } else if x in keys {
      var y :| (x, y) in ps;
      assert (x, y) in ps + [(g, k)];
    } else {
      forall y ensures (x, y) !in ps + [(g, k)] {
        assert (x, y) !in ps;
      }
    }
  }

  /** A key set holding exactly the second components of `ps` grows by `k`
      when (g, k) is appended. */
  lemma AddedValue(ps: seq<(string, string)>, keys: set<string>, g: string, k: string, y: string)
    requires forall y :: y in keys <==> exists x :: (x, y) in ps
    ensures y in keys + {k} <==> exists x :: (x, y) in ps + [(g, k)]
  {
    if y == k {
      assert (g, k) in ps + [(g, k)];
    } else if y in keys {
      var x :| (x, y) in ps;
      assert (x, y) in ps + [(g, k)];
    } else {
      forall x ensures (x, y) !in ps + [(g, k)] {
        assert (x, y) !in ps;
      }
    }
  }

  /** The same for `backward`. */
  lemma AddToKoreanIndex(ps: seq<(string, string)>, backward: Dict, g: string, k: string, list: seq<string>)
    requires IndexesByKorean(ps, backward)
    requires NoDup(list) && Elems(list) == Elems(ListAt(backward, k)) + {g}
    ensures IndexesByKorean(ps + [(g, k)], backward[k := list])
  {
    var ps', backward' := ps + [(g, k)], backward[k := list];
    forall y ensures y in backward' <==> exists x :: (x, y) in ps' {
      AddedValue(ps, backward.Keys, g, k, y);
    }
    forall x, y | y in backward' ensures x in backward'[y] <==> (x, y) in ps' {
      if y == k {
        assert x in list <==> x in Elems(list);
        assert x in ListAt(backward, k) <==> (x, k) in ps;
      }
    }
  }

  /** `d.setdefault(key, [])` read without the insertion. */
  function ListAt(d: Dict, key: string): seq<string>
  {
    if key in d then d[key] else []
  }

  /** `d.setdefault(key, []).append(value)` followed by
      `d[key] = list(set(d[key]))`: the key's list becomes a duplicate-free
      list of its old entries and `value`, in an order left open; no other
      key changes. */
  method AppendDistinct(d: Dict, key: string, value: string) returns (d': Dict)
    ensures key in d' && d' == d[key := d'[key]]
    ensures NoDup(d'[key]) && Elems(d'[key]) == Elems(ListAt(d, key)) + {value}
  {
    d' := d[key := ListAt(d, key) + [value]];
    var deduplicated := ListOfSet(Elems(d'[key]));
    d' := d'[key := deduplicated];
  }

  /** `get_dicts_from_df`: one pass over the rows; a row with a missing cell is
      skipped, the cells of the others are stripped and each is added to the
      other's list. */
  method GetDictsFromRows(rows: seq<Row>) returns (translationsToKorean: Dict, koreanToTranslations: Dict)
    ensures Indexes(Pairs(rows), translationsToKorean, koreanToTranslations)
  {
    translationsToKorean, koreanToTranslations := map[], map[];
    for i := 0 to |rows|
      invariant Indexes(Pairs(rows[..i]), translationsToKorean, koreanToTranslations)
    {
      assert rows[..i + 1][..i] == rows[..i];
      var row := rows[i];
      if row.german.None? || row.korean.None? {
        continue;
      }
      var germanWord := Strip(row.german.value);
      var koreanWord := Strip(row.korean.value);
      ghost var ps := Pairs(rows[..i]);
      assert Pairs(rows[..i + 1]) == ps + [(germanWord, koreanWord)];

      ghost var forwardBefore := translationsToKorean;
      translationsToKorean := AppendDistinct(translationsToKorean, germanWord, koreanWord);
      AddToGermanIndex(ps, forwardBefore, germanWord, koreanWord, translationsToKorean[germanWord]);

      ghost var backwardBefore := koreanToTranslations;
      koreanToTranslations := AppendDistinct(koreanToTranslations, koreanWord, germanWord);
      AddToKoreanIndex(ps, backwardBefore, germanWord, koreanWord, koreanToTranslations[koreanWord]);
    }
    assert rows[..|rows|] == rows;
  }

  /** The pairs of two row lists, one after the other. */
  lemma {:induction false} PairsAppend(a: seq<Row>, b: seq<Row>)
    ensures Pairs(a + b) == Pairs(a) + Pairs(b)
    decreases |b|
  {
    if b != [] {
      var b' := b[..|b| - 1];
      assert (a + b)[..|a + b| - 1] == a + b';
      PairsAppend(a, b');
    } else {
      assert a + b == a;
    }
  }

  /** A row whose German or Korean cell is missing contributes nothing,
      wherever it stands. */
  lemma MissingRowAddsNothing(before: seq<Row>, row: Row, after: seq<Row>)
    requires !Accepted(row)
    ensures Pairs(before + [row] + after) == Pairs(before + after)
  {
    PairsAppend(before + [row], after);
    PairsAppend(before, [row]);
    PairsAppend(before, after);
    assert Pairs([row]) == Pairs([]) + [];
  }

  /** A pair is in `Pairs(rows)` exactly when some accepted row yields it. */
  lemma {:induction false} PairsFromRows(rows: seq<Row>, g: string, k: string)
    ensures (g, k) in Pairs(rows) <==> exists row :: row in rows && Accepted(row) && PairOf(row) == (g, k)
  {
    if (g, k) in Pairs(rows) {
      var row := PairSource(rows, g, k);
    }
    forall row | row in rows && Accepted(row) && PairOf(row) == (g, k) ensures (g, k) in Pairs(rows) {
      RowYieldsPair(rows, row);
    }
  }

  /** Every pair comes from an accepted row. */
  lemma {:induction false} PairSource(rows: seq<Row>, g: string, k: string) returns (row: Row)
    requires (g, k) in Pairs(rows)
    ensures row in rows && Accepted(row) && PairOf(row) == (g, k)
  {
    var init, last := rows[..|rows| - 1], rows[|rows| - 1];
    assert rows == init + [last];
    if (g, k) in Pairs(init) {
      row := PairSource(init, g, k);
    } else {
      row := last;
    }
  }

  /** Every accepted row yields a pair. */
  lemma {:induction false} RowYieldsPair(rows: seq<Row>, row: Row)
    requires row in rows && Accepted(row)
    ensures PairOf(row) in Pairs(rows)
  {
    var init, last := rows[..|rows| - 1], rows[|rows| - 1];
    assert rows == init + [last];
    if row != last {
      RowYieldsPair(init, row);
    }
  }

  /** Every accepted row (g, k) is indexed both ways: k is in the list of the
      key g of `forward`, and g in the list of the key k of `backward`. */
  lemma AcceptedRowIsIndexed(rows: seq<Row>, forward: Dict, backward: Dict, row: Row)
    requires Indexes(Pairs(rows), forward, backward)
    requires row in rows && Accepted(row)
    ensures PairOf(row).0 in forward && PairOf(row).1 in forward[PairOf(row).0]
    ensures PairOf(row).1 in backward && PairOf(row).0 in backward[PairOf(row).1]
  {
    var (g, k) := PairOf(row);
    PairsFromRows(rows, g, k);
  }

  /** Symmetry: k is in the list of g in `forward` exactly when g is in the
      list of k in `backward`. */
  lemma Symmetric(ps: seq<(string, string)>, forward: Dict, backward: Dict, g: string, k: string)
    requires Indexes(ps, forward, backward)
    ensures (g in forward && k in forward[g]) <==> (k in backward && g in backward[k])
  {
    if (g, k) in ps {
      assert g in forward && k in backward;
    }
  }

  /** No key maps to an empty list. */
  lemma ListsNonEmpty(ps: seq<(string, string)>, forward: Dict, backward: Dict)
    requires Indexes(ps, forward, backward)
    ensures forall g :: g in forward ==> forward[g] != []
    ensures forall k :: k in backward ==> backward[k] != []
  {
    forall g | g in forward ensures forward[g] != [] {
      var k :| (g, k) in ps;
      assert k in forward[g];
    }
    forall k | k in backward ensures backward[k] != [] {
      var g :| (g, k) in ps;
      assert g in backward[k];
    }
  }

  /** The keys of `forward` are exactly the stripped German cells of the
      accepted rows, and the keys of `backward` exactly their stripped Korean
      cells. */
  lemma KeysAreStrippedCells(rows: seq<Row>, forward: Dict, backward: Dict, word: string)
    requires Indexes(Pairs(rows), forward, backward)
    ensures word in forward <==> exists row :: row in rows && Accepted(row) && Strip(row.german.value) == word
    ensures word in backward <==> exists row :: row in rows && Accepted(row) && Strip(row.korean.value) == word
  {
    if word in forward {
      var k :| (word, k) in Pairs(rows);
      PairsFromRows(rows, word, k);
    }
    if exists row :: row in rows && Accepted(row) && Strip(row.german.value) == word {
      var row :| row in rows && Accepted(row) && Strip(row.german.value) == word;
      AcceptedRowIsIndexed(rows, forward, backward, row);
    }
    if word in backward {
      var g :| (g, word) in Pairs(rows);
      PairsFromRows(rows, g, word);
    }
    if exists row :: row in rows && Accepted(row) && Strip(row.korean.value) == word {
      var row :| row in rows && Accepted(row) && Strip(row.korean.value) == word;
      AcceptedRowIsIndexed(rows, forward, backward, row);
    }
  }

  /** Every stored key and list entry is already stripped: stripping it again
      changes nothing. */
  lemma StoredWordsAreStripped(rows: seq<Row>, forward: Dict, backward: Dict, g: string, k: string)
    requires Indexes(Pairs(rows), forward, backward)
    requires (g in forward && k in forward[g]) || (k in backward && g in backward[k])
    ensures Strip(g) == g && Strip(k) == k
  {
    assert (g, k) in Pairs(rows);
    PairsFromRows(rows, g, k);
    var row :| row in rows && Accepted(row) && PairOf(row) == (g, k);
    StripIdempotent(row.german.value);
    StripIdempotent(row.korean.value);
  }

  /** Two row lists with the same rows have the same pairs. */
  lemma SameRowsSamePairs(rows1: seq<Row>, rows2: seq<Row>)
    requires Elems(rows1) == Elems(rows2)
    ensures Elems(Pairs(rows1)) == Elems(Pairs(rows2))
  {
    forall p ensures p in Elems(Pairs(rows1)) <==> p in Elems(Pairs(rows2)) {
      PairsFromRows(rows1, p.0, p.1);
      PairsFromRows(rows2, p.0, p.1);
      forall row ensures row in rows1 <==> row in rows2 {
        assert row in rows1 <==> row in Elems(rows1);
        assert row in rows2 <==> row in Elems(rows2);
      }
    }
  }

  /** An index by German word is determined by the set of pairs, up to the
      order of each list. */
  lemma GermanIndexUnique(ps1: seq<(string, string)>, ps2: seq<(string, string)>, forward1: Dict, forward2: Dict)
    requires Elems(ps1) == Elems(ps2)
    requires IndexesByGerman(ps1, forward1) && IndexesByGerman(ps2, forward2)
    ensures forward1.Keys == forward2.Keys
    ensures forall g :: g in forward1 ==> Elems(forward1[g]) == Elems(forward2[g])
  {
    assert forall p :: p in ps1 <==> p in ps2 by {
      forall p ensures p in ps1 <==> p in ps2 {
        assert p in ps1 <==> p in Elems(ps1);
        assert p in ps2 <==> p in Elems(ps2);
      }
    }
    forall g ensures g in forward1 <==> g in forward2 {
      if g in forward1 {
        var k :| (g, k) in ps1;
        assert (g, k) in ps2;
      }
      if g in forward2 {
        var k :| (g, k) in ps2;
        assert (g, k) in ps1;
      }
    }
    forall g | g in forward1 ensures Elems(forward1[g]) == Elems(forward2[g]) {
      forall k ensures k in Elems(forward1[g]) <==> k in Elems(forward2[g]) {
        assert k in Elems(forward1[g]) <==> k in forward1[g];
        assert k in Elems(forward2[g]) <==> k in forward2[g];
      }
    }
  }

  /** An index by Korean word is determined by the set of pairs likewise. */
  lemma KoreanIndexUnique(ps1: seq<(string, string)>, ps2: seq<(string, string)>, backward1: Dict, backward2: Dict)
    requires Elems(ps1) == Elems(ps2)
    requires IndexesByKorean(ps1, backward1) && IndexesByKorean(ps2, backward2)
    ensures backward1.Keys == backward2.Keys
    ensures forall k :: k in backward1 ==> Elems(backward1[k]) == Elems(backward2[k])
  {
    assert forall p :: p in ps1 <==> p in ps2 by {
      forall p ensures p in ps1 <==> p in ps2 {
        assert p in ps1 <==> p in Elems(ps1);
        assert p in ps2 <==> p in Elems(ps2);
      }
    }
    forall k ensures k in backward1 <==> k in backward2 {
      if k in backward1 {
        var g :| (g, k) in ps1;
        assert (g, k) in ps2;
      }
      if k in backward2 {
        var g :| (g, k) in ps2;
        assert (g, k) in ps1;
      }
    }
    forall k | k in backward1 ensures Elems(backward1[k]) == Elems(backward2[k]) {
      forall g ensures g in Elems(backward1[k]) <==> g in Elems(backward2[k]) {
        assert g in Elems(backward1[k]) <==> g in backward1[k];
        assert g in Elems(backward2[k]) <==> g in backward2[k];
      }
    }
  }

  /** Row order, repeated rows and repeated runs do not matter: two row lists
      with the same rows give dictionaries with the same keys and, key by key,
      the same translations (list order aside). */
  lemma SameRowsSameIndex(rows1: seq<Row>, rows2: seq<Row>, forward1: Dict, backward1: Dict, forward2: Dict, backward2: Dict)
    requires Elems(rows1) == Elems(rows2)
    requires Indexes(Pairs(rows1), forward1, backward1)
    requires Indexes(Pairs(rows2), forward2, backward2)
    ensures forward1.Keys == forward2.Keys && backward1.Keys == backward2.Keys
    ensures forall g :: g in forward1 ==> Elems(forward1[g]) == Elems(forward2[g])
    ensures forall k :: k in backward1 ==> Elems(backward1[k]) == Elems(backward2[k])
  {
    SameRowsSamePairs(rows1, rows2);
    GermanIndexUnique(Pairs(rows1), Pairs(rows2), forward1, forward2);
    KoreanIndexUnique(Pairs(rows1), Pairs(rows2), backward1, backward2);
  }
}
