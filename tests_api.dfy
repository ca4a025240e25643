/**
 * The tests API of api/tests.js: `getNewTest` hands out a generated test as JSON, `saveTest`
 * checks a submitted test, grades it, saves it and sends the results back.
 */
module TestsApi {
  import opened Wrappers
  import opened Js
  import opened Store
  import opened Selection
  import opened Grading
  import opened Http
  import opened TestsController

  const NotEnoughForTest := "This user does not have enough words ready for test generation."
  const AnswersNotSpecified := "Answers not specified"
  const TestDataNotSpecified := "Test data not specified"
  const NoCreationDate := "Test data does not contain creation date"

  /** The number of words asked for: `req.params.amount`, or 24 when it is undefined. */
  function AmountOr24(amount: Option<int>): int
  {
    if amount.None? then 24 else amount.value
  }

  /**
   * The reply once the generator has answered: `null` is a 409; anything else is sent with
   * status 200 and no errors (the rejection handler on the generator never runs, since the
   * generator itself never rejects).
   */
  function TestReply(generated: Generated): (r: Reply)
    ensures r.NoResponse? <==> generated.StillRunning?
    ensures r == Sent(409, ErrorBody(NotEnoughForTest)) <==> generated == Returned(JsNull)
    ensures r.Sent? ==> r.status == 200 || r.status == 409
  {
    match generated
    case StillRunning => NoResponse
    case Returned(v) => if v == JsNull then Sent(409, ErrorBody(NotEnoughForTest)) else Sent(200, TestBody(v, []))
  }

  /** `getNewTest` on the route parameters `uid` and `amount`, with the generator as shipped. */
  method GetNewTest(store: UserStore, uid: Option<string>, amount: Option<int>, docs: seq<string>, oracle: seq<nat>, now: Timestamp)
    returns (reply: Reply)
    requires Enumerates(docs, Qualifying(store.words, true))
    ensures uid.None? ==> reply == Sent(400, ErrorBody(UidNotSpecified))
    ensures uid.Some? ==> reply == TestReply(TestQuestions(ShippedLow, store.words, docs, AmountOr24(amount), oracle, now))
  {
    var n := if amount.None? then 24 else amount.value;
    if uid.None? {
      return Sent(400, ErrorBody(UidNotSpecified));
    }
    var generated := GenerateTestQuestions(store, docs, n, oracle, now);
    if generated.StillRunning? {
      return NoResponse;
    }
    if generated.value == JsNull {
      return Sent(409, ErrorBody(NotEnoughForTest));
    }
    return Sent(200, TestBody(generated.value, []));
  }

  /**
   * With a user named, the answer is a 409 exactly when fewer words qualify than asked for,
   * and otherwise, once the loop has finished, a 200 carrying a test object and no errors.
   * This holds wherever the draw starts.
   */
  lemma GetNewTestStatuses(low: int, words: map<string, WordRecord>, docs: seq<string>, amount: Option<int>, oracle: seq<nat>, now: Timestamp)
    requires Enumerates(docs, Qualifying(words, true))
    ensures var reply := TestReply(TestQuestions(low, words, docs, AmountOr24(amount), oracle, now));
      && (reply.Sent? && reply.status == 409 <==> |docs| < AmountOr24(amount))
      && (reply.Sent? ==> reply.status in {200, 409})
      && (reply.Sent? && reply.status == 200 ==> reply.body.testData.JsObj? && reply.body.errors == [])
  {
    TestQuestionsContents(low, words, docs, AmountOr24(amount), oracle, now);
  }

  /**
   * As shipped, when exactly as many words qualify as are asked for (at least two), the
   * generator never finishes and no reply is ever sent.
   */
  lemma ShippedExactAmountNeverReplies(words: map<string, WordRecord>, docs: seq<string>, amount: Option<int>, oracle: seq<nat>, now: Timestamp)
    requires Enumerates(docs, Qualifying(words, true))
    requires |docs| == AmountOr24(amount) >= 2
    ensures TestReply(TestQuestions(ShippedLow, words, docs, AmountOr24(amount), oracle, now)) == NoResponse
  {
    ShippedTestNeverCompletes(words, docs, AmountOr24(amount), oracle, now);
  }

  /**
   * `saveTest` once the fields are present and the answers cleaned: a test without
   * `dateCreated` is a 400; a creation or finish date without a `T` throws in `parseDate`
   * before anything is graded; otherwise the answers are graded by the loops as written, which
   * stop before the last answer (a lookup past the keys
   * throws), the results saved with the parsed dates (the store accepts whatever `new Date`
   * makes of their `D-M-Y h:m` text), and sent with status 200 and no errors,
   * since `updateWord` swallows its own failures.
   */
  function SubmitOutcome(test: JsObject, answers: seq<string>, finish: Timestamp): (r: (Reply, seq<(string, GradedWord)>, Option<TestResults>))
    requires WellFormed(test)
    ensures r.0.Sent? && r.0.status == 200 <==> r.2.Some?
    ensures r.2.Some? ==> r.2.value.words == r.1 && 0 <= r.2.value.points <= r.2.value.maxPoints == |answers|
    ensures "dateCreated" !in test.values ==> r.1 == [] && r.2 == None
  {
    if "dateCreated" !in test.values then (Sent(400, ErrorBody(NoCreationDate)), [], None)
    else
      match (ParseDate(test.values["dateCreated"]), ParseDate(finish))
      case (Some(started), Some(finished)) =>
        var plan := AsWritten(|answers|);
        var graded := Graded(test, answers, plan);
        if Throws(test, plan) then (NoResponse, graded, None)
        else
          var results := TestResults(graded, started, finished, Points(graded), |answers|);
          (Sent(200, ResultsBody(results, [])), graded, Some(results))
      case _ => (NoResponse, [], None)
  }

  /** `saveTest` on the body fields `uid`, `answers` and `testData`. */
  method SaveTest(store: UserStore, uid: Option<string>, answers: Option<seq<string>>, testData: Option<JsObject>,
                  clean: string -> string, finish: Timestamp)
    returns (reply: Reply)
    requires testData.Some? ==> WellFormed(testData.value)
    modifies store
    ensures store.wordAmount == old(store.wordAmount) && store.name == old(store.name)
    ensures uid.None? || answers.None? || testData.None? ==>
      && reply == Sent(400, ErrorBody(if uid.None? then UidNotSpecified else if answers.None? then AnswersNotSpecified else TestDataNotSpecified))
      && store.words == old(store.words) && store.tests == old(store.tests)
    ensures uid.Some? && answers.Some? && testData.Some? ==>
      var (expected, graded, saved) := SubmitOutcome(testData.value, Cleaned(answers.value, clean), finish);
      && reply == expected
      && store.words == ApplyGrades(old(store.words), graded, finish)
      && store.tests == old(store.tests) + (if saved.Some? then [RecordOf(saved.value)] else [])
  {
    if uid.None? {
      return Sent(400, ErrorBody(UidNotSpecified));
    }
    if answers.None? {
      return Sent(400, ErrorBody(AnswersNotSpecified));
    }
    if testData.None? {
      return Sent(400, ErrorBody(TestDataNotSpecified));
    }
    var test := testData.value;
    if "dateCreated" !in test.values {
      return Sent(400, ErrorBody(NoCreationDate));
    }
    var cleaned := CleanAnswers(answers.value, clean);
    var started := ParseDate(test.values["dateCreated"]);
    var finished := ParseDate(finish);
    if started.None? || finished.None? {
      return NoResponse;
    }
    var graded, points, thrown := GradeAnswers(store, test, cleaned, AsWritten(|cleaned|), finish);
    if thrown {
      return NoResponse;
    }
    var results := TestResults(graded, started.value, finished.value, points, |cleaned|);
    store.SaveTest(results);
    return Sent(200, ResultsBody(results, []));
  }

  /**
   * A 200 reports the graded answers, all but the last: `maxPoints` is the number of answers,
   * every answer but the last is graded against the key at its index, the points count the
   * correct entries and so never reach `maxPoints`, the last answer's word is left as it was,
   * and the same results are the ones saved.
   */
  lemma SubmitReportsGrades(words: map<string, WordRecord>, test: JsObject, answers: seq<string>, finish: Timestamp)
    requires WellFormed(test)
    ensures var (reply, graded, saved) := SubmitOutcome(test, answers, finish);
      reply.Sent? && reply.status == 200 ==>
        var r := reply.body.results;
        var n := |answers|;
        && saved == Some(r) && reply.body.errors == []
        && r.maxPoints == n && r.points == Points(graded)
        && r.words == graded && |graded| == (if n == 0 then 0 else n - 1)
        && (forall i :: 0 <= i < n - 1 ==> graded[i].0 == test.keys[i] && graded[i].1.answer == answers[i])
        && (n >= 1 ==> r.points < r.maxPoints)
        && (1 <= n <= |test.keys| && test.keys[n - 1] in words ==>
              ApplyGrades(words, graded, finish)[test.keys[n - 1]] == words[test.keys[n - 1]])
  {
    var (reply, graded, saved) := SubmitOutcome(test, answers, finish);
    if reply.Sent? && reply.status == 200 && |answers| >= 1 {
      AsWrittenGrades(test, answers);
      if |answers| <= |test.keys| {
        LastWordUntouched(words, test, answers, finish);
      }
    }
  }
}
