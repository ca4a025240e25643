/**
 * The test pages of controllers/tests.js: `parseDate`, `showNewTest`, which generates a test of
 * 24 words and keeps it in the session, and `saveTest`, which grades the answers against the
 * test kept in the session, saves the test and renders the results.
 */
module TestsController {
  import opened Wrappers
  import opened Strings
  import opened Js
  import opened Store
  import opened Selection
  import opened Grading

  // ---------------------------------------------------------------------------------------
  // parseDate
  // ---------------------------------------------------------------------------------------

  /** `parts[i]` inside a template literal: the piece, or `undefined` past the end. */
  function PieceOr(parts: seq<string>, i: nat): string
  {
    if i < |parts| then parts[i] else "undefined"
  }

  /**
   * `parseDate(s)`: the part before the first `T` is split at `-`, the part after it at `:`, and
   * the pieces are reassembled as `D-M-Y h:m`. Without a `T` the second part is undefined and
   * splitting it throws: `None`.
   */
  function ParseDate(s: string): Option<string>
  {
    var halves := Split(s, 'T');
    if |halves| < 2 then None
    else
      var date := Split(halves[0], '-');
      var time := Split(halves[1], ':');
      Some(PieceOr(date, 2) + "-" + PieceOr(date, 1) + "-" + PieceOr(date, 0) + " " + PieceOr(time, 0) + ":" + PieceOr(time, 1))
  }

  /** `parseDate` throws exactly on strings without a `T`. */
  lemma ParseDateThrows(s: string)
    ensures ParseDate(s).None? <==> 'T' !in s
  {
    SplitMany(s, 'T');
  }

  /**
   * On an ISO 8601 timestamp `Y-M-DTh:m:rest`, as `toISOString` writes it, `parseDate` gives
   * `D-M-Y h:m`: day first, and the seconds dropped.
   */
  lemma ParseDateIso(y: string, mo: string, d: string, h: string, mi: string, rest: string)
    requires '-' !in y && '-' !in mo && '-' !in d
    requires ':' !in h && ':' !in mi
    requires 'T' !in y && 'T' !in mo && 'T' !in d && 'T' !in h && 'T' !in mi && 'T' !in rest
    ensures ParseDate(y + "-" + mo + "-" + d + "T" + h + ":" + mi + ":" + rest) == Some(d + "-" + mo + "-" + y + " " + h + ":" + mi)
  {
    var date := y + "-" + mo + "-" + d;
    var time := h + ":" + mi + ":" + rest;
    assert 'T' !in date;
    assert 'T' !in time;
    assert y + "-" + mo + "-" + d + "T" + h + ":" + mi + ":" + rest == date + ['T'] + time;
    SplitAtSeparator(date, time, 'T');
    SplitNone(time, 'T');
    DatePieces(y, mo, d);
    TimePieces(h, mi, rest);
  }

  /** The date half `Y-M-D` splits at `-` into its three pieces. */
  lemma DatePieces(y: string, mo: string, d: string)
    requires '-' !in y && '-' !in mo && '-' !in d
    ensures Split(y + "-" + mo + "-" + d, '-') == [y, mo, d]
  {
    assert y + "-" + mo + "-" + d == y + ['-'] + (mo + ['-'] + d);
    SplitAtSeparator(y, mo + ['-'] + d, '-');
    SplitAtSeparator(mo, d, '-');
    SplitNone(d, '-');
  }

  /** The time half `h:m:rest` splits at `:` into the hour, the minutes and the pieces of the rest. */
  lemma TimePieces(h: string, mi: string, rest: string)
    requires ':' !in h && ':' !in mi
    ensures Split(h + ":" + mi + ":" + rest, ':') == [h, mi] + Split(rest, ':')
  {
    assert h + ":" + mi + ":" + rest == h + [':'] + (mi + [':'] + rest);
    SplitAtSeparator(h, mi + [':'] + rest, ':');
    SplitAtSeparator(mi, rest, ':');
  }

  // ---------------------------------------------------------------------------------------
  // The session and the pages
  // ---------------------------------------------------------------------------------------

  /** The fields of `req.session` the test pages read and write. */
  class Session {
    var uid: Option<string>
    var idToken: Option<string>
    var testData: JsValue

    /** A session after signing in, with no test kept. */
    constructor (uid: Option<string>, idToken: Option<string>)
      ensures this.uid == uid && this.idToken == idToken && testData == JsUndefined
    {
      this.uid := uid;
      this.idToken := idToken;
      testData := JsUndefined;
    }
  }

  /** A rendered page, or none when the handler throws or never finishes. */
  datatype Page =
    | IndexPage(message: string)
    | TestPage(error: Option<string>)
    | ResultsPage(results: TestResults)
    | NoPage

  const LoginToTakeTest := "Nie możesz wykonać testu bez zalogowania!"
  const LoginToSaveTest := "Nie możesz zapisać testu bez zalogowania!"
  const NotEnoughWords := "Brak wystarczającej ilości nowych przerobionych słówek (minimum 24). Przejdź do seksji \"Nauka\" i naucz się nowych słówek, aby wygenerować test."

  /** The number of words `showNewTest` asks for. */
  const TestSize := 24

  /** The value `showNewTest` takes for "not enough words": `undefined` as shipped. */
  const ShippedMissing := JsUndefined

  /** The value the generator actually hands back for "not enough words". */
  const IntendedMissing := JsNull

  // ---------------------------------------------------------------------------------------
  // showNewTest
  // ---------------------------------------------------------------------------------------

  /**
   * `showNewTest` once the generator has answered `generated`, comparing against `missing`:
   * the page rendered and the test kept in the session afterwards (`stored` before).
   */
  function NewTestOutcome(idToken: Option<string>, generated: Generated, missing: JsValue, stored: JsValue): (r: (Page, JsValue))
    ensures idToken.None? ==> r.0.IndexPage?
    ensures r.1 == stored || (r.0 == TestPage(None) && generated == Returned(r.1))
    ensures r.0 == NoPage <==> idToken.Some? && generated.StillRunning?
  {
    if idToken.None? then (IndexPage(LoginToTakeTest), stored)
    else match generated
      case StillRunning => (NoPage, stored)
      case Returned(v) =>
        if v == missing then (TestPage(Some(NotEnoughWords)), stored) else (TestPage(None), v)
  }

  /**
   * `showNewTest` as shipped: the generator draws from index 1 and the shortage check compares
   * its answer with `undefined`.
   */
  method ShowNewTest(session: Session, store: UserStore, docs: seq<string>, oracle: seq<nat>, now: Timestamp) returns (page: Page)
    requires Enumerates(docs, Qualifying(store.words, true))
    modifies session
    ensures (page, session.testData)
      == NewTestOutcome(old(session.idToken), TestQuestions(ShippedLow, store.words, docs, TestSize, oracle, now), ShippedMissing, old(session.testData))
    ensures session.uid == old(session.uid) && session.idToken == old(session.idToken)
  {
    if session.idToken.None? {
      return IndexPage(LoginToTakeTest);
    }
    var generated := GenerateTestQuestions(store, docs, TestSize, oracle, now);
    if generated.StillRunning? {
      return NoPage;
    }
    if generated.value == ShippedMissing {
      return TestPage(Some(NotEnoughWords));
    }
    session.testData := generated.value;
    return TestPage(None);
  }

  /**
   * As shipped the shortage page is never shown: the generator never hands back `undefined`,
   * so with fewer than 24 qualifying words the test page opens and `null` is kept as the test.
   * This holds wherever the draw starts.
   */
  lemma ShippedShortageStoresNull(low: int, idToken: string, words: map<string, WordRecord>, docs: seq<string>, oracle: seq<nat>,
                                  now: Timestamp, stored: JsValue)
    requires Enumerates(docs, Qualifying(words, true))
    ensures TestQuestions(low, words, docs, TestSize, oracle, now) != Returned(ShippedMissing)
    ensures |docs| < TestSize ==>
      NewTestOutcome(Some(idToken), TestQuestions(low, words, docs, TestSize, oracle, now), ShippedMissing, stored)
        == (TestPage(None), JsNull)
  {
    TestQuestionsContents(low, words, docs, TestSize, oracle, now);
  }

  /**
   * Checking for `null` shows the shortage page exactly when fewer than 24 words qualify, and
   * then keeps the session's test as it was; otherwise the generated test is kept. This holds
   * wherever the draw starts.
   */
  lemma IntendedShortageReported(low: int, idToken: string, words: map<string, WordRecord>, docs: seq<string>, oracle: seq<nat>,
                                 now: Timestamp, stored: JsValue)
    requires Enumerates(docs, Qualifying(words, true))
    ensures var generated := TestQuestions(low, words, docs, TestSize, oracle, now);
      var (page, kept) := NewTestOutcome(Some(idToken), generated, IntendedMissing, stored);
      && (page == TestPage(Some(NotEnoughWords)) <==> |docs| < TestSize)
      && (page == TestPage(Some(NotEnoughWords)) ==> kept == stored)
      && (page == TestPage(None) ==> kept == generated.value && kept.JsObj?)
  {
    TestQuestionsContents(low, words, docs, TestSize, oracle, now);
  }

  // ---------------------------------------------------------------------------------------
  // saveTest
  // ---------------------------------------------------------------------------------------

  /** What a submission leads to: the page, the entries graded (their updates made), and the results saved, if any. */
  datatype Submission = Submission(page: Page, graded: seq<(string, GradedWord)>, saved: Option<TestResults>)

  /**
   * `results.dateStarted` of a test without `dateCreated`: `undefined`, carried as its text.
   * `new Date` yields an Invalid Date for either, and `parseDate` fails on either.
   */
  const MissingDate := "undefined"

  /** The test's `dateCreated`, or `MissingDate` when it has none. */
  function DateCreated(test: JsObject): string
  {
    if "dateCreated" in test.values then test.values["dateCreated"] else MissingDate
  }

  /**
   * `saveTest` once the session's test `testData` has been taken and the answers cleaned. Reading
   * `dateCreated` of anything but an object throws. The answers are graded against the object's
   * keys by the loops as written and the results saved (the store accepts whatever `new Date`
   * makes of the dates); a date without a `T`, a missing `dateCreated` included, then makes
   * `parseDate` throw after the save.
   */
  function SaveOutcome(testData: JsValue, answers: seq<string>, finish: Timestamp): (r: Submission)
    requires testData.JsObj? ==> WellFormed(testData.obj)
    ensures !testData.JsObj? ==> r == Submission(NoPage, [], None)
    ensures r.saved.Some? <==> testData.JsObj? && !Throws(testData.obj, AsWritten(|answers|))
    ensures r.page.ResultsPage? ==> r.saved.Some? && r.page.results.words == r.saved.value.words == r.graded
    ensures r.saved.Some? ==> 0 <= r.saved.value.points <= r.saved.value.maxPoints == |answers|
  {
    if !testData.JsObj? then Submission(NoPage, [], None)
    else
      var test := testData.obj;
      var plan := AsWritten(|answers|);
      var graded := Graded(test, answers, plan);
      if Throws(test, plan) then Submission(NoPage, graded, None)
      else
        var results := TestResults(graded, DateCreated(test), finish, Points(graded), |answers|);
        match (ParseDate(results.dateStarted), ParseDate(finish))
        case (Some(started), Some(finished)) =>
          Submission(ResultsPage(results.(dateStarted := started, dateFinished := finished)), graded, Some(results))
        case _ => Submission(NoPage, graded, Some(results))
  }

  /**
   * `saveTest`: without a signed-in user the index page; answers missing throw; otherwise the
   * answers are graded and saved against the session's test, which is taken out of the session.
   * `session` is the request's copy: express-session (with `resave: false`) stores it only when
   * a page is sent, so when the handler throws the stored session keeps its test.
   */
  method SaveTest(session: Session, store: UserStore, answers: Option<seq<string>>, clean: string -> string, finish: Timestamp)
    returns (page: Page)
    requires session.testData.JsObj? ==> WellFormed(session.testData.obj)
    modifies session, store
    ensures session.uid == old(session.uid) && session.idToken == old(session.idToken)
    ensures store.wordAmount == old(store.wordAmount) && store.name == old(store.name)
    ensures old(session.uid).None? || answers.None? ==>
      && page == (if old(session.uid).None? then IndexPage(LoginToSaveTest) else NoPage)
      && session.testData == old(session.testData)
      && store.words == old(store.words) && store.tests == old(store.tests)
    ensures old(session.uid).Some? && answers.Some? ==>
      var out := SaveOutcome(old(session.testData), Cleaned(answers.value, clean), finish);
      && page == out.page
      && session.testData == (if out.page == NoPage then old(session.testData) else JsUndefined)
      && store.words == ApplyGrades(old(store.words), out.graded, finish)
      && store.tests == old(store.tests) + (if out.saved.Some? then [RecordOf(out.saved.value)] else [])
  {
    if session.uid.None? {
      return IndexPage(LoginToSaveTest);
    }
    if answers.None? {
      return NoPage;
    }
    var cleaned := CleanAnswers(answers.value, clean);
    var testData := session.testData;
    if !testData.JsObj? {
      return NoPage;
    }
    var test := testData.obj;
    var graded, points, thrown := GradeAnswers(store, test, cleaned, AsWritten(|cleaned|), finish);
    if thrown {
      return NoPage;
    }
    var results := TestResults(graded, DateCreated(test), finish, points, |cleaned|);
    store.SaveTest(results);
    var started := ParseDate(results.dateStarted);
    var finished := ParseDate(results.dateFinished);
    if started.None? || finished.None? {
      return NoPage;
    }
    // the cleared test reaches the session store only with the rendered page
    session.testData := JsUndefined;
    return ResultsPage(results.(dateStarted := started.value, dateFinished := finished.value));
  }

  /**
   * A rendered result scores the answers it received, all but the last: `maxPoints` is their
   * number, every answer but the last is graded against the key at its index, the points count
   * the correct entries and so never reach `maxPoints`, the last answer's word is left as it
   * was, and the saved results are the rendered ones with their dates before `parseDate`.
   */
  lemma ResultsScoreAnswers(words: map<string, WordRecord>, testData: JsValue, answers: seq<string>, finish: Timestamp)
    requires testData.JsObj? ==> WellFormed(testData.obj)
    ensures var out := SaveOutcome(testData, answers, finish);
      out.page.ResultsPage? ==>
        var r := out.page.results;
        var n := |answers|;
        && out.saved.Some?
        && r == out.saved.value.(dateStarted := r.dateStarted, dateFinished := r.dateFinished)
        && r.maxPoints == n
        && r.points == Points(r.words)
        && |r.words| == (if n == 0 then 0 else n - 1)
        && (forall i :: 0 <= i < n - 1 ==> r.words[i].0 == testData.obj.keys[i] && r.words[i].1.answer == answers[i])
        && (n >= 1 ==> r.points < r.maxPoints)
        && (1 <= n <= |testData.obj.keys| && testData.obj.keys[n - 1] in words ==>
              ApplyGrades(words, out.graded, finish)[testData.obj.keys[n - 1]] == words[testData.obj.keys[n - 1]])
  {
    var out := SaveOutcome(testData, answers, finish);
    if out.page.ResultsPage? && |answers| >= 1 {
      AsWrittenGrades(testData.obj, answers);
      if |answers| <= |testData.obj.keys| {
        LastWordUntouched(words, testData.obj, answers, finish);
      }
    }
  }

  /**
   * A test without `dateCreated` is graded and saved, and then `parseDate(undefined)` throws:
   * no page is rendered, so the session keeps its test.
   */
  lemma MissingDateSavedThenThrows(testData: JsValue, answers: seq<string>, finish: Timestamp)
    requires testData.JsObj? && WellFormed(testData.obj)
    requires "dateCreated" !in testData.obj.values && !Throws(testData.obj, AsWritten(|answers|))
    ensures var out := SaveOutcome(testData, answers, finish);
      && out.page == NoPage
      && out.saved.Some? && out.saved.value.dateStarted == MissingDate
      && out.graded == Graded(testData.obj, answers, AsWritten(|answers|))
  {
    ParseDateThrows(MissingDate);
  }

  /**
   * Without a test in the session the save throws and changes nothing: after a rendered
   * submission has cleared the test, or after the shipped shortage check kept `null`.
   */
  lemma NoTestNoChange(answers: seq<string>, finish: Timestamp)
    ensures SaveOutcome(JsUndefined, answers, finish) == Submission(NoPage, [], None)
    ensures SaveOutcome(JsNull, answers, finish) == Submission(NoPage, [], None)
  {
  }
}
