/**
 * The grading pass `saveTest` runs in api/tests.js and in controllers/tests.js. The answers
 * are compared, in order, with the keys of the test object: the first part against the
 * translations (English to Polish), the rest against the words themselves (Polish to
 * English), case ignored. Each graded word is counted in one more test and, when answered
 * correctly, marked learnt.
 */
module Grading {
  import opened Wrappers
  import opened Strings
  import opened Js
  import opened Store

  /** The answers a pass grades: indexes below `forward` against translations, the rest below `total` against words. */
  datatype Plan = Plan(forward: nat, total: nat)

  /**
   * Where `for (; i < (answers.length - 1) / 2; i++)` stops when started at 0. The division is
   * exact, so the loop stops at the least `i` with `2 * i >= n - 1`.
   */
  function ForwardEnd(n: nat): (r: nat)
    ensures 2 * r >= n - 1
    ensures r == 0 || 2 * (r - 1) < n - 1
  {
    if n <= 1 then 0 else n / 2
  }

  /**
   * The loops as written: the second, `for (; i < (answers.length - 1); i++)`, carries on from
   * where the first stopped and ends one short of the answers.
   */
  function AsWritten(n: nat): (r: Plan)
    ensures r.forward <= r.total <= n
    ensures n >= 1 ==> r.total == n - 1
  {
    var f := ForwardEnd(n);
    Plan(f, if n - 1 > f then n - 1 else f)
  }

  /** The loops as evidently intended: the second one runs to `answers.length`, so every answer is graded. */
  function Intended(n: nat): (r: Plan)
    ensures r.forward <= r.total == n
  {
    Plan(ForwardEnd(n), n)
  }

  /** The answers after `body(`answers[${i}]`).trim().escape()` for every `i`; `clean` stands for the sanitiser. */
  function Cleaned(answers: seq<string>, clean: string -> string): seq<string>
  {
    seq(|answers|, i requires 0 <= i < |answers| => clean(answers[i]))
  }

  /** The sanitising loop: each answer in turn is replaced by its cleaned form. */
  method CleanAnswers(answers: seq<string>, clean: string -> string) returns (r: seq<string>)
    ensures r == Cleaned(answers, clean)
  {
    r := answers;
    for i := 0 to |answers|
      invariant |r| == |answers|
      invariant forall j :: 0 <= j < i ==> r[j] == clean(answers[j])
      invariant forall j :: i <= j < |r| ==> r[j] == answers[j]
    {
      r := r[i := clean(r[i])];
    }
  }

  /** Whether answer `i` is right, case ignored: it must give the word's translation before `forward`, the word itself from there on. */
  predicate Correct(test: JsObject, answers: seq<string>, forward: nat, i: nat)
    requires WellFormed(test) && i < |test.keys| && i < |answers|
  {
    var word := test.keys[i];
    ToLower(answers[i]) == ToLower(if i < forward then test.values[word] else word)
  }

  /** The entry `results.words[word]` that answer `i` produces. */
  function GradeWord(test: JsObject, answers: seq<string>, forward: nat, i: nat): (string, GradedWord)
    requires WellFormed(test) && i < |test.keys| && i < |answers|
  {
    var word := test.keys[i];
    (word, GradedWord(test.values[word], answers[i], Correct(test, answers, forward, i)))
  }

  /** The entries of the first `m` answers, in order. */
  function GradedUpTo(test: JsObject, answers: seq<string>, forward: nat, m: nat): (r: seq<(string, GradedWord)>)
    requires WellFormed(test) && m <= |test.keys| && m <= |answers|
    ensures |r| == m
  {
    if m == 0 then [] else GradedUpTo(test, answers, forward, m - 1) + [GradeWord(test, answers, forward, m - 1)]
  }

  /** Entry `i` of a pass is the grade of answer `i`, whatever the pass's length. */
  lemma {:induction false} GradedUpToEntries(test: JsObject, answers: seq<string>, forward: nat, m: nat)
    requires WellFormed(test) && m <= |test.keys| && m <= |answers|
    ensures forall i :: 0 <= i < m ==> GradedUpTo(test, answers, forward, m)[i] == GradeWord(test, answers, forward, i)
  {
    if m > 0 {
      GradedUpToEntries(test, answers, forward, m - 1);
    }
  }

  /**
   * Whether the pass throws: once `i` reaches the number of keys, `keys[i]` is undefined and
   * the lookup through it throws a TypeError.
   */
  predicate Throws(test: JsObject, plan: Plan)
  {
    plan.total > |test.keys|
  }

  /** The entries a pass produces before it ends or throws. */
  function Graded(test: JsObject, answers: seq<string>, plan: Plan): (r: seq<(string, GradedWord)>)
    requires WellFormed(test) && plan.total <= |answers|
    ensures |r| <= plan.total
    ensures |r| == plan.total <==> !Throws(test, plan)
  {
    GradedUpTo(test, answers, plan.forward, if Throws(test, plan) then |test.keys| else plan.total)
  }

  /** `results.points`: one point per correct entry. */
  function Points(graded: seq<(string, GradedWord)>): (r: nat)
    ensures r <= |graded|
  {
    if |graded| == 0 then 0
    else Points(graded[..|graded| - 1]) + (if graded[|graded| - 1].1.correct then 1 else 0)
  }

  /** Full points exactly when every entry is correct. */
  lemma {:induction false} PointsAllCorrect(graded: seq<(string, GradedWord)>)
    ensures Points(graded) == |graded| <==> forall i :: 0 <= i < |graded| ==> graded[i].1.correct
  {
    if |graded| > 0 {
      var init := graded[..|graded| - 1];
      PointsAllCorrect(init);
      assert forall i :: 0 <= i < |init| ==> init[i] == graded[i];
    }
  }

  /** The words collection after the pass's `updateWord` calls, one per entry, in order. */
  function ApplyGrades(words: map<string, WordRecord>, graded: seq<(string, GradedWord)>, finish: Timestamp): (r: map<string, WordRecord>)
    ensures r.Keys == words.Keys
  {
    if |graded| == 0 then words
    else
      var last := graded[|graded| - 1];
      UpdateOne(ApplyGrades(words, graded[..|graded| - 1], finish), last.0, GradedUpdate(last.1.correct, finish))
  }

  /**
   * A graded word is counted in one more test; a correct one is marked learnt with the finish
   * date in `learntDate`; nothing else changes, `dateLearnt` included.
   */
  lemma GradedUpdateEffect(w: WordRecord, correct: bool, finish: Timestamp)
    ensures var r := Apply(w, GradedUpdate(correct, finish));
      && r.timesInTest == w.timesInTest + 1
      && (correct ==> r == w.(learnt := true, learntDate := Some(finish), timesInTest := w.timesInTest + 1))
      && (!correct ==> r == w.(timesInTest := w.timesInTest + 1))
  {
  }

  /**
   * With distinct keys, each stored graded word receives its grade's update exactly once, and
   * words the pass does not name are untouched.
   */
  lemma {:induction false} GradesEffect(words: map<string, WordRecord>, graded: seq<(string, GradedWord)>, finish: Timestamp)
    requires DistinctKeys(graded)
    ensures var r := ApplyGrades(words, graded, finish);
      && (forall i :: 0 <= i < |graded| && graded[i].0 in words ==>
            r[graded[i].0] == Apply(words[graded[i].0], GradedUpdate(graded[i].1.correct, finish)))
      && (forall k :: k in words && (forall i :: 0 <= i < |graded| ==> graded[i].0 != k) ==> r[k] == words[k])
  {
    if |graded| > 0 {
      var init := graded[..|graded| - 1];
      var last := graded[|graded| - 1];
      assert forall i :: 0 <= i < |init| ==> init[i] == graded[i];
      GradesEffect(words, init, finish);
      var prev := ApplyGrades(words, init, finish);
      var r := ApplyGrades(words, graded, finish);
      assert r == UpdateOne(prev, last.0, GradedUpdate(last.1.correct, finish));
      forall i | 0 <= i < |graded| && graded[i].0 in words
        ensures r[graded[i].0] == Apply(words[graded[i].0], GradedUpdate(graded[i].1.correct, finish))
      {
        if i < |init| {
          assert graded[i].0 != last.0;
        }
      }
      forall k | k in words && (forall i :: 0 <= i < |graded| ==> graded[i].0 != k)
        ensures r[k] == words[k]
      {
        assert k != last.0;
      }
    }
  }

  /** The keys of a test object are distinct, so are the entries of a pass. */
  lemma GradedDistinct(test: JsObject, answers: seq<string>, forward: nat, m: nat)
    requires WellFormed(test) && m <= |test.keys| && m <= |answers|
    ensures DistinctKeys(GradedUpTo(test, answers, forward, m))
  {
    GradedUpToEntries(test, answers, forward, m);
  }

  /**
   * The two grading loops, `updateWord` writing into `store`: the entries of `results.words`
   * and `results.points`, or `thrown` when a lookup throws part-way (the updates made so far stay).
   */
  method GradeAnswers(store: UserStore, test: JsObject, answers: seq<string>, plan: Plan, finish: Timestamp)
    returns (graded: seq<(string, GradedWord)>, points: nat, thrown: bool)
    requires WellFormed(test)
    requires plan.forward <= plan.total <= |answers|
    modifies store
    ensures thrown <==> Throws(test, plan)
    ensures graded == Graded(test, answers, plan)
    ensures points == Points(graded)
    ensures store.words == ApplyGrades(old(store.words), graded, finish)
    ensures store.wordAmount == old(store.wordAmount) && store.name == old(store.name) && store.tests == old(store.tests)
  {
    var end;
    graded, points, end, thrown := GradeTranslations(store, test, answers, plan, finish);
    if !thrown {
      graded, points, end, thrown := GradeWords(store, old(store.words), test, answers, plan, finish, graded, points);
    }
  }

  /** The first loop, English to Polish: the answers below `plan.forward` against the translations. */
  method GradeTranslations(store: UserStore, test: JsObject, answers: seq<string>, plan: Plan, finish: Timestamp)
    returns (graded: seq<(string, GradedWord)>, points: nat, end: nat, thrown: bool)
    requires WellFormed(test)
    requires plan.forward <= plan.total <= |answers|
    modifies store
    ensures thrown <==> plan.forward > |test.keys|
    ensures end == if thrown then |test.keys| else plan.forward
    ensures graded == GradedUpTo(test, answers, plan.forward, end)
    ensures points == Points(graded)
    ensures store.words == ApplyGrades(old(store.words), graded, finish)
    ensures store.wordAmount == old(store.wordAmount) && store.name == old(store.name) && store.tests == old(store.tests)
  {
    ghost var start := store.words;
    graded := [];
    points := 0;
    // `keys[i]` is undefined from `|test.keys|` on, where the lookup throws
    end := if plan.forward <= |test.keys| then plan.forward else |test.keys|;
    for i := 0 to end
      invariant graded == GradedUpTo(test, answers, plan.forward, i)
      invariant points == Points(graded)
      invariant store.words == ApplyGrades(start, graded, finish)
      invariant store.wordAmount == old(store.wordAmount) && store.name == old(store.name) && store.tests == old(store.tests)
    {
      graded, points := GradeNext(store, start, test, answers, plan.forward, i, test.values[test.keys[i]], graded, points, finish);
    }
    thrown := end < plan.forward;
  }

  /** The second loop, Polish to English: the answers from `plan.forward` to `plan.total` against the words. */
  method GradeWords(store: UserStore, ghost start: map<string, WordRecord>, test: JsObject, answers: seq<string>, plan: Plan,
                    finish: Timestamp, graded0: seq<(string, GradedWord)>, points0: nat)
    returns (graded: seq<(string, GradedWord)>, points: nat, end: nat, thrown: bool)
    requires WellFormed(test)
    requires plan.forward <= plan.total <= |answers| && plan.forward <= |test.keys|
    requires graded0 == GradedUpTo(test, answers, plan.forward, plan.forward)
    requires points0 == Points(graded0)
    requires store.words == ApplyGrades(start, graded0, finish)
    modifies store
    ensures thrown <==> plan.total > |test.keys|
    ensures end == if thrown then |test.keys| else plan.total
    ensures graded == GradedUpTo(test, answers, plan.forward, end)
    ensures points == Points(graded)
    ensures store.words == ApplyGrades(start, graded, finish)
    ensures store.wordAmount == old(store.wordAmount) && store.name == old(store.name) && store.tests == old(store.tests)
  {
    graded, points := graded0, points0;
    // `keys[i]` is undefined from `|test.keys|` on, where the lookup throws
    end := if plan.total <= |test.keys| then plan.total else |test.keys|;
    for i := plan.forward to end
      invariant graded == GradedUpTo(test, answers, plan.forward, i)
      invariant points == Points(graded)
      invariant store.words == ApplyGrades(start, graded, finish)
      invariant store.wordAmount == old(store.wordAmount) && store.name == old(store.name) && store.tests == old(store.tests)
    {
      graded, points := GradeNext(store, start, test, answers, plan.forward, i, test.keys[i], graded, points, finish);
    }
    thrown := end < plan.total;
  }

  /**
   * One iteration of either loop: answer `i` is compared, case ignored, with `expected` (the
   * translation in the first loop, the word in the second), `updateWord` records the result,
   * `results.points++` counts a correct answer, and `results.words[word]` gets its entry.
   */
  method GradeNext(store: UserStore, ghost start: map<string, WordRecord>, test: JsObject, answers: seq<string>,
                   forward: nat, i: nat, expected: string, graded: seq<(string, GradedWord)>, points: nat, finish: Timestamp)
    returns (graded': seq<(string, GradedWord)>, points': nat)
    requires WellFormed(test) && i < |test.keys| && i < |answers|
    requires expected == if i < forward then test.values[test.keys[i]] else test.keys[i]
    requires graded == GradedUpTo(test, answers, forward, i)
    requires points == Points(graded)
    requires store.words == ApplyGrades(start, graded, finish)
    modifies store
    ensures graded' == GradedUpTo(test, answers, forward, i + 1)
    ensures points' == Points(graded')
    ensures store.words == ApplyGrades(start, graded', finish)
    ensures store.wordAmount == old(store.wordAmount) && store.name == old(store.name) && store.tests == old(store.tests)
  {
    var word := test.keys[i];
    var correct := ToLower(answers[i]) == ToLower(expected);
    assert (word, GradedWord(test.values[word], answers[i], correct)) == GradeWord(test, answers, forward, i);
    store.UpdateWord(word, GradedUpdate(correct, finish));
    points' := if correct then points + 1 else points;
    graded' := graded + [(word, GradedWord(test.values[word], answers[i], correct))];
    assert graded'[..|graded'| - 1] == graded;
  }

  // ---------------------------------------------------------------------------------------
  // What the grading loops deliver
  // ---------------------------------------------------------------------------------------

  /** A pass over the first `m` answers depends on those answers only. */
  lemma {:induction false} GradedUpToAgree(test: JsObject, a: seq<string>, b: seq<string>, forward: nat, m: nat)
    requires WellFormed(test) && m <= |test.keys| && m <= |a| && m <= |b|
    requires forall i :: 0 <= i < m ==> a[i] == b[i]
    ensures GradedUpTo(test, a, forward, m) == GradedUpTo(test, b, forward, m)
  {
    if m > 0 {
      GradedUpToAgree(test, a, b, forward, m - 1);
      assert GradeWord(test, a, forward, m - 1) == GradeWord(test, b, forward, m - 1);
    }
  }

  /**
   * As written, the pass never looks at the last answer: at most `n - 1` answers are graded,
   * whatever the last one is the outcome is the same, and a test can never earn its
   * `maxPoints`, which is `answers.length`.
   */
  lemma LastAnswerNeverGraded(test: JsObject, answers: seq<string>, other: string)
    requires WellFormed(test) && |answers| >= 1
    ensures var n := |answers|;
      var g := Graded(test, answers, AsWritten(n));
      && |g| <= n - 1
      && Points(g) < n
      && g == Graded(test, answers[..n - 1] + [other], AsWritten(n))
  {
    var n := |answers|;
    var plan := AsWritten(n);
    var m := if Throws(test, plan) then |test.keys| else plan.total;
    assert m <= n - 1;
    var g := GradedUpTo(test, answers, plan.forward, m);
    assert g == Graded(test, answers, plan);
    var changed := answers[..n - 1] + [other];
    forall i | 0 <= i < n - 1
      ensures changed[i] == answers[i]
    {
      assert changed[i] == answers[..n - 1][i];
    }
    LastAnswerIgnored(test, answers, changed, plan);
  }

  /** A pass whose second loop stops short of the last answer never reads that answer. */
  lemma LastAnswerIgnored(test: JsObject, answers: seq<string>, changed: seq<string>, plan: Plan)
    requires WellFormed(test) && |changed| == |answers|
    requires plan.total < |answers|
    requires forall i :: 0 <= i < |answers| - 1 ==> changed[i] == answers[i]
    ensures Graded(test, answers, plan) == Graded(test, changed, plan)
  {
    var m := if Throws(test, plan) then |test.keys| else plan.total;
    GradedUpToAgree(test, answers, changed, plan.forward, m);
  }

  /**
   * As written, a pass that does not throw grades every answer but the last, each against the
   * test's key at its index, and never reaches `answers.length` points.
   */
  lemma AsWrittenGrades(test: JsObject, answers: seq<string>)
    requires WellFormed(test) && 1 <= |answers|
    requires !Throws(test, AsWritten(|answers|))
    ensures var n := |answers|;
      var g := Graded(test, answers, AsWritten(n));
      && |g| == n - 1
      && (forall i :: 0 <= i < n - 1 ==> g[i].0 == test.keys[i] && g[i].1.answer == answers[i])
      && Points(g) < n
      && (Points(g) == n - 1 <==> forall i :: 0 <= i < n - 1 ==> Correct(test, answers, AsWritten(n).forward, i))
  {
    var n := |answers|;
    var g := Graded(test, answers, AsWritten(n));
    GradedUpToEntries(test, answers, AsWritten(n).forward, n - 1);
    PointsAllCorrect(g);
  }

  /** As written, the word the last answer belongs to is not updated by the pass. */
  lemma LastWordUntouched(words: map<string, WordRecord>, test: JsObject, answers: seq<string>, finish: Timestamp)
    requires WellFormed(test) && 1 <= |answers| <= |test.keys|
    ensures var last := test.keys[|answers| - 1];
      last in words ==> ApplyGrades(words, Graded(test, answers, AsWritten(|answers|)), finish)[last] == words[last]
  {
    var n := |answers|;
    var f := AsWritten(n).forward;
    assert Graded(test, answers, AsWritten(n)) == GradedUpTo(test, answers, f, n - 1);
    GradingSkipsLaterKeys(words, test, answers, f, finish, n - 1, n - 1);
  }

  /** Grading the first `m` answers leaves the word of every later key as it was: the keys are distinct. */
  lemma {:induction false} GradingSkipsLaterKeys(words: map<string, WordRecord>, test: JsObject, answers: seq<string>,
                                                  forward: nat, finish: Timestamp, m: nat, j: nat)
    requires WellFormed(test) && m <= j < |test.keys| && m <= |answers|
    ensures test.keys[j] in words ==> ApplyGrades(words, GradedUpTo(test, answers, forward, m), finish)[test.keys[j]] == words[test.keys[j]]
  {
    if m > 0 {
      GradingSkipsLaterKeys(words, test, answers, forward, finish, m - 1, j);
      var g := GradedUpTo(test, answers, forward, m);
      assert g[..m - 1] == GradedUpTo(test, answers, forward, m - 1);
      assert g[m - 1].0 == test.keys[m - 1] != test.keys[j];
    }
  }

  /**
   * With the second loop running to `answers.length`, a test with no more answers than keys is
   * graded in full: entry `i` is the test's `i`-th key, and full points mean every answer is right.
   */
  lemma IntendedGradesAll(test: JsObject, answers: seq<string>)
    requires WellFormed(test) && |answers| <= |test.keys|
    ensures var n := |answers|;
      var g := Graded(test, answers, Intended(n));
      && !Throws(test, Intended(n))
      && |g| == n
      && (forall i :: 0 <= i < n ==> g[i].0 == test.keys[i] && g[i].1.answer == answers[i])
      && (Points(g) == n <==> forall i :: 0 <= i < n ==> Correct(test, answers, Intended(n).forward, i))
  {
    var n := |answers|;
    var g := Graded(test, answers, Intended(n));
    GradedUpToEntries(test, answers, Intended(n).forward, n);
    PointsAllCorrect(g);
  }

  /** The test of four words `dog`, `cat`, `house` and `tree` with their translations, created at `created`. */
  function FourWordTest(created: Timestamp): (r: JsObject)
    ensures WellFormed(r)
  {
    JsObject(["dog", "cat", "house", "tree", "dateCreated"],
             map["dog" := "pies", "cat" := "kot", "house" := "dom", "tree" := "drzewo", "dateCreated" := created])
  }

  /**
   * Answering all four words right (two translations, then two words) scores 3 of 4 as
   * written, and 4 of 4 with every answer graded.
   */
  lemma FourRightAnswers(created: Timestamp)
    ensures var answers := ["pies", "kot", "house", "tree"];
      && Points(Graded(FourWordTest(created), answers, AsWritten(4))) == 3
      && Points(Graded(FourWordTest(created), answers, Intended(4))) == 4
  {
    var test := FourWordTest(created);
    var answers := ["pies", "kot", "house", "tree"];
    assert AsWritten(4) == Plan(2, 3) && Intended(4) == Plan(2, 4);
    forall i | 0 <= i < 4
      ensures Correct(test, answers, 2, i)
    {
      if i < 2 {
        assert answers[i] == test.values[test.keys[i]];
      } else {
        assert answers[i] == test.keys[i];
      }
    }
    var written := GradedUpTo(test, answers, 2, 3);
    GradedUpToEntries(test, answers, 2, 3);
    PointsAllCorrect(written);
    IntendedGradesAll(test, answers);
  }
}
