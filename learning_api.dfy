/**
 * The learning API of api/learning.js: `getNewSetOfWordsForLearning` hands out words not yet
 * seen, `saveSetOfWordsAsAppearedInLearning` marks a list of words as seen, all or nothing.
 */
module LearningApi {
  import opened Wrappers
  import opened Js
  import opened Store
  import opened Selection
  import opened Http

  const NotEnoughForLearning := "This user does not have enough non learnt words ready for a word set generation"
  const WordsNotSpecified := "Words not specified"

  // ---------------------------------------------------------------------------------------
  // getNewSetOfWordsForLearning
  // ---------------------------------------------------------------------------------------

  /** The `amount` field of the request body: absent, the text `'undefined'`, or a number. */
  datatype AmountField = Missing | UndefinedText | Given(n: int)

  /**
   * The number of words asked for. Only the text `'undefined'` equals `'undefined'` and gives 24;
   * an absent field passes `undefined` on, and the generator's default parameter makes it 20.
   */
  function RequestedAmount(amount: AmountField): int
  {
    match amount
    case Missing => 20
    case UndefinedText => 24
    case Given(n) => n
  }

  /** The reply once the generator has answered: `null` would be a 409; anything else is sent with status 200. */
  function LearningReply(generated: Generated): (r: Reply)
    ensures r.NoResponse? <==> generated.StillRunning?
    ensures r == Sent(409, ErrorBody(NotEnoughForLearning)) <==> generated == Returned(JsNull)
    ensures r.Sent? ==> r.status == 200 || r.status == 409
  {
    match generated
    case StillRunning => NoResponse
    case Returned(v) => if v == JsNull then Sent(409, ErrorBody(NotEnoughForLearning)) else Sent(200, WordsBody(v, []))
  }

  /** `getNewSetOfWordsForLearning` on the body fields `uid` and `amount`, with the generator as shipped. */
  method GetNewSetOfWordsForLearning(store: UserStore, uid: Option<string>, amount: AmountField, docs: seq<string>, oracle: seq<nat>)
    returns (reply: Reply)
    requires Enumerates(docs, Qualifying(store.words, false))
    ensures uid.None? ==> reply == Sent(400, ErrorBody(UidNotSpecified))
    ensures uid.Some? ==> reply == LearningReply(WordsForLearning(ShippedLow, store.words, docs, RequestedAmount(amount), oracle))
  {
    var n := RequestedAmount(amount);
    if uid.None? {
      return Sent(400, ErrorBody(UidNotSpecified));
    }
    var generated := GenerateWordsForLearning(store, docs, n, oracle);
    if generated.StillRunning? {
      return NoResponse;
    }
    if generated.value == JsNull {
      return Sent(409, ErrorBody(NotEnoughForLearning));
    }
    return Sent(200, WordsBody(generated.value, []));
  }

  /**
   * The 409 is never sent: the generator signals a shortage with `true`, not `null`, so fewer
   * than 20 unseen words are answered with status 200 and `wordData: true`. This holds
   * wherever the draw starts.
   */
  lemma LearningNeverConflicts(low: int, words: map<string, WordRecord>, docs: seq<string>, amount: AmountField, oracle: seq<nat>)
    requires Enumerates(docs, Qualifying(words, false))
    ensures var reply := LearningReply(WordsForLearning(low, words, docs, RequestedAmount(amount), oracle));
      && (reply.Sent? ==> reply.status == 200)
      && (reply == Sent(200, WordsBody(JsTrue, [])) <==> |docs| < 20)
  {
    WordsForLearningContents(low, words, docs, RequestedAmount(amount), oracle);
  }

  // ---------------------------------------------------------------------------------------
  // saveSetOfWordsAsAppearedInLearning
  // ---------------------------------------------------------------------------------------

  /** The error reported for a listed word that is not stored (its spelling kept as shipped). */
  function NotFound(word: string): string
  {
    word + " cannot be set as appearead, because it does not exist."
  }

  /** The errors of the existence loop: one per listed word the check `found` rejects, in list order. */
  function Reports(list: seq<string>, found: string -> bool): (r: seq<string>)
    ensures |r| <= |list|
  {
    if |list| == 0 then []
    else Reports(list[..|list| - 1], found) + (if found(list[|list| - 1]) then [] else [NotFound(list[|list| - 1])])
  }

  /** The existence check its documentation describes: the word is stored. */
  function Stored(words: map<string, WordRecord>): string -> bool
  {
    k => k in words
  }

  /** No errors exactly when every listed word passes the check. */
  lemma {:induction false} ReportsEmpty(list: seq<string>, found: string -> bool)
    ensures Reports(list, found) == [] <==> forall i :: 0 <= i < |list| ==> found(list[i])
  {
    if |list| > 0 {
      ReportsEmpty(list[..|list| - 1], found);
      assert forall i :: 0 <= i < |list| - 1 ==> list[..|list| - 1][i] == list[i];
    }
  }

  /** Each listed word the check rejects is reported, and every report names such a word. */
  lemma {:induction false} ReportsName(list: seq<string>, found: string -> bool)
    ensures forall i :: 0 <= i < |list| && !found(list[i]) ==> NotFound(list[i]) in Reports(list, found)
    ensures forall e :: e in Reports(list, found) ==> exists i :: 0 <= i < |list| && !found(list[i]) && e == NotFound(list[i])
  {
    if |list| > 0 {
      var init := list[..|list| - 1];
      ReportsName(init, found);
      assert forall i :: 0 <= i < |init| ==> init[i] == list[i];
    }
  }

  /**
   * `saveSetOfWordsAsAppearedInLearning` on the body fields `uid` and `words`: every listed
   * word is checked with `checkIfWordExists`, a word it rejects is reported and the status set
   * to 409; only when none is rejected are the words marked as seen. As shipped the check
   * rejects every word, so a non-empty list is always answered 409 and nothing is marked.
   */
  method SaveSetOfWordsAsAppeared(store: UserStore, uid: Option<string>, words: Option<seq<string>>) returns (reply: Reply)
    modifies store
    ensures store.wordAmount == old(store.wordAmount) && store.name == old(store.name) && store.tests == old(store.tests)
    ensures uid.None? || words.None? ==>
      reply == Sent(400, ErrorBody(if uid.None? then UidNotSpecified else WordsNotSpecified)) && store.words == old(store.words)
    ensures uid.Some? && words.Some? ==>
      var errors := Reports(words.value, ShippedCheckIfWordExists);
      && reply == Sent(if errors == [] then 200 else 409, ErrorsBody(errors))
      && store.words == if errors == [] then MarkAllAppeared(old(store.words), words.value) else old(store.words)
    ensures uid.Some? && words.Some? && |words.value| > 0 ==> reply.Sent? && reply.status == 409 && store.words == old(store.words)
  {
    if uid.None? {
      return Sent(400, ErrorBody(UidNotSpecified));
    }
    if words.None? {
      return Sent(400, ErrorBody(WordsNotSpecified));
    }
    var list := words.value;
    var status := 200;
    var errors: seq<string> := [];
    for i := 0 to |list|
      invariant errors == Reports(list[..i], ShippedCheckIfWordExists)
      invariant status == if errors == [] then 200 else 409
    {
      assert list[..i + 1][..i] == list[..i];
      var found := ShippedCheckIfWordExists(list[i]);
      if !found {
        status := 409;
        errors := errors + [NotFound(list[i])];
      }
    }
    assert list[..|list|] == list;
    if |list| > 0 {
      ShippedRejectsEveryList(list);
    }
    if |errors| == 0 {
      store.UpdateWords(list);
    }
    return Sent(status, ErrorsBody(errors));
  }

  /**
   * With the existence check its documentation describes, all or nothing: with no errors every
   * listed stored word is marked as seen and nothing else changes; with any error the
   * collection is untouched and each missing word is reported.
   */
  lemma AllOrNothing(words: map<string, WordRecord>, list: seq<string>)
    ensures var errors := Reports(list, Stored(words));
      var after := if errors == [] then MarkAllAppeared(words, list) else words;
      && (errors == [] <==> forall i :: 0 <= i < |list| ==> list[i] in words)
      && (errors == [] ==> forall k :: k in words ==> after[k] == if k in list then words[k].(appeared := true) else words[k])
      && (errors != [] ==> after == words && exists i :: 0 <= i < |list| && list[i] !in words && NotFound(list[i]) in errors)
  {
    ReportsEmpty(list, Stored(words));
    ReportsName(list, Stored(words));
    MarkAllAppearedEffect(words, list);
  }

  /**
   * As shipped, `checkIfWordExists` is never true, so every non-empty list is answered 409 with
   * one error per listed word and nothing is marked as seen.
   */
  lemma ShippedRejectsEveryList(list: seq<string>)
    requires |list| > 0
    ensures var errors := Reports(list, ShippedCheckIfWordExists);
      && errors != []
      && |errors| == |list|
      && (forall i :: 0 <= i < |list| ==> errors[i] == NotFound(list[i]))
  {
    ShippedReportsAll(list);
  }

  /** Under the shipped check each listed word yields its own error, in order. */
  lemma {:induction false} ShippedReportsAll(list: seq<string>)
    ensures Reports(list, ShippedCheckIfWordExists) == seq(|list|, i requires 0 <= i < |list| => NotFound(list[i]))
  {
    if |list| > 0 {
      ShippedReportsAll(list[..|list| - 1]);
    }
  }
}
