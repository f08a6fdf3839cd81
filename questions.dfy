/** Question assembly (src/option_selection.py, `create_multiple_choice_question`).
    The two dictionaries are referred to by position, as in the source:
    `dicts.0` and `dicts.1`. */
module Questions {
  import opened Wrappers
  import opened Seqs
  import opened PyRandom
  import opened Preprocessing
  import opened Distractors

  /** What the source returns: the prompt, its correct answer, the shuffled
      options and the direction flag. */
  datatype Question = Question(questionWord: string, correctAnswer: string, options: seq<string>, fromKorean: bool)

  /** The default `num_distractors` of `_find_plausible_distractors`. */
  const NUM_DISTRACTORS: int := 3

  /** `from_dict, to_dict = dicts if from_korean else dicts[::-1]`. */
  function Directed(dicts: (Dict, Dict), fromKorean: bool): (Dict, Dict)
  {
    if fromKorean then dicts else (dicts.1, dicts.0)
  }

  /** `chosenWord` only fixes the direction (whether it is a key of
      `dicts.1`); the prompt is an arbitrary key of the prompt dictionary and
      the correct answer an arbitrary entry of its list. The options are the
      distractors and the correct answer, shuffled. */
  method CreateMultipleChoiceQuestion(dicts: (Dict, Dict), chosenWord: string, sim: Similarity)
    returns (r: Result<Question, PyError>)
    ensures r.Ok? ==> r.value.fromKorean == (chosenWord in dicts.1)
    ensures
      var (fromDict, toDict) := Directed(dicts, chosenWord in dicts.1);
      && (fromDict == map[] ==> r == Err(IndexError))
      && (fromDict != map[] && (forall q :: q in fromDict ==> fromDict[q] != []) && |toDict.Keys| > NUM_DISTRACTORS
          ==> r.Ok?)
    ensures r.Ok? ==>
      var (fromDict, toDict) := Directed(dicts, chosenWord in dicts.1);
      var Question(questionWord, correctAnswer, options, _) := r.value;
      && questionWord in fromDict
      && correctAnswer in fromDict[questionWord]
      && |options| == NUM_DISTRACTORS + 1
      && NoDup(options)
      && multiset(options)[correctAnswer] == 1
      && (forall o :: o in options && o != correctAnswer ==> o in toDict)
      && (exists o :: o in options && o != correctAnswer &&
            forall w :: w in toDict && w != correctAnswer ==> sim(correctAnswer, o) >= sim(correctAnswer, w))
  {
    var fromKorean := chosenWord in dicts.1;
    var (fromDict, toDict) := Directed(dicts, fromKorean);
    var promptKeys := ListOfSet(fromDict.Keys);
    var questionWord :- Choice(promptKeys);
    var correctAnswers := fromDict[questionWord];
    var correctAnswer :- Choice(correctAnswers);

    var optionsPool := ListOfSet(toDict.Keys);
    CardinalityWithout(toDict.Keys, correctAnswer);
    var distractors :- FindPlausibleDistractors(correctAnswer, optionsPool, NUM_DISTRACTORS, sim);

    var options := distractors + [correctAnswer];
    options := ShuffleList(options);

    ShuffledOptions(distractors, correctAnswer, options, optionsPool, toDict, sim);
    return Ok(Question(questionWord, correctAnswer, options, fromKorean));
  }

  /** The shuffled options of a question whose distractors came from the
      answer dictionary's keys: four distinct words, the answer once, the
      others answer keys, one of them most similar to the answer. */
  lemma ShuffledOptions(distractors: seq<string>, correctAnswer: string, options: seq<string>,
                        optionsPool: seq<string>, toDict: Dict, sim: Similarity)
    requires Elems(optionsPool) == toDict.Keys
    requires |distractors| == NUM_DISTRACTORS && NoDup(distractors)
    requires correctAnswer !in distractors && Elems(distractors) <= Elems(optionsPool)
    requires forall w :: w in optionsPool && w != correctAnswer ==> sim(correctAnswer, distractors[0]) >= sim(correctAnswer, w)
    requires multiset(options) == multiset(distractors + [correctAnswer])
    ensures |options| == NUM_DISTRACTORS + 1
    ensures NoDup(options)
    ensures multiset(options)[correctAnswer] == 1
    ensures forall o :: o in options && o != correctAnswer ==> o in toDict
    ensures exists o :: o in options && o != correctAnswer &&
              forall w :: w in toDict && w != correctAnswer ==> sim(correctAnswer, o) >= sim(correctAnswer, w)
  {
    OptionsFacts(distractors, correctAnswer, options);
    forall o | o in options && o != correctAnswer ensures o in toDict {
      assert o in Elems(distractors);
    }
    var top := distractors[0];
    assert top in options by {
      assert top in multiset(distractors + [correctAnswer]);
    }
    forall w | w in toDict && w != correctAnswer ensures sim(correctAnswer, top) >= sim(correctAnswer, w) {
      assert w in Elems(optionsPool);
    }
  }

  /** A shuffle of the distractors plus the correct answer holds the correct
      answer once, has no duplicates, and otherwise holds distractors. */
  lemma OptionsFacts(distractors: seq<string>, correctAnswer: string, options: seq<string>)
    requires NoDup(distractors) && correctAnswer !in distractors
    requires multiset(options) == multiset(distractors + [correctAnswer])
    ensures |options| == |distractors| + 1
    ensures NoDup(options)
    ensures multiset(options)[correctAnswer] == 1
    ensures forall o :: o in options && o != correctAnswer ==> o in distractors
  {
    assert |multiset(options)| == |options|;
    NoDupIffCountsAtMostOne(distractors);
    NoDupIffCountsAtMostOne(distractors + [correctAnswer]);
    NoDupPermutation(distractors + [correctAnswer], options);
    forall o | o in options && o != correctAnswer ensures o in distractors {
      assert o in multiset(options);
    }
  }

  /** With dictionaries built by `GetDictsFromRows`, the correct answer of
      either direction is itself a key of the answer dictionary, so every
      option is. */
  lemma CorrectAnswerIsAnswerKey(ps: seq<(string, string)>, dicts: (Dict, Dict), fromKorean: bool, questionWord: string, correctAnswer: string)
    requires Indexes(ps, dicts.0, dicts.1)
    requires questionWord in Directed(dicts, fromKorean).0
    requires correctAnswer in Directed(dicts, fromKorean).0[questionWord]
    ensures correctAnswer in Directed(dicts, fromKorean).1
  {
    if fromKorean {
      assert (questionWord, correctAnswer) in ps;
    } else {
      assert (correctAnswer, questionWord) in ps;
    }
  }
}
