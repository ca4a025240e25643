/**
 * The word store of one user (database.js): the user document with its `wordAmount` counter
 * and `name`, the `words` collection keyed by the word itself, and the `tests` collection.
 * Firestore becomes a map; each awaited read or write becomes one step of a method.
 */
module Store {
  import opened Wrappers

  /** A point in time as the ISO 8601 string of a `Date`; `new Date()` enters as a parameter. */
  type Timestamp = string

  /** The document `users/{uid}/words/{text}`. */
  datatype WordRecord = WordRecord(
    id: int,
    translation: string,
    priority: int,
    learnt: bool,
    appeared: bool,
    dateAdded: Timestamp,
    dateLearnt: Option<Timestamp>,
    timesInTest: int,
    learntDate: Option<Timestamp>)

  /** One entry of the object `saveWords` receives: a translated word and how often it was detected. */
  datatype Incoming = Incoming(translation: string, priority: int)

  /** The fields an `updateWord` call names; `None` leaves a field as it is. */
  datatype WordUpdate = WordUpdate(
    priority: Option<int>,
    appeared: Option<bool>,
    learnt: Option<bool>,
    learntDate: Option<Timestamp>,
    countInTest: bool)

  /** Firestore `update`: the named fields are overwritten, `increment(1)` adds one, the rest stays. */
  function Apply(w: WordRecord, u: WordUpdate): (r: WordRecord)
    ensures r.id == w.id && r.translation == w.translation
    ensures r.dateAdded == w.dateAdded && r.dateLearnt == w.dateLearnt
    ensures r.timesInTest == w.timesInTest + (if u.countInTest then 1 else 0)
  {
    w.(priority := if u.priority.Some? then u.priority.value else w.priority,
       appeared := if u.appeared.Some? then u.appeared.value else w.appeared,
       learnt := if u.learnt.Some? then u.learnt.value else w.learnt,
       learntDate := if u.learntDate.Some? then Some(u.learntDate.value) else w.learntDate,
       timesInTest := if u.countInTest then w.timesInTest + 1 else w.timesInTest)
  }

  lemma ApplyPriority(w: WordRecord, p: int)
    ensures Apply(w, WordUpdate(Some(p), None, None, None, false)) == w.(priority := p)
  {
  }

  /** `{appeared: true}`, the update the learning module sends. */
  const MarkAppeared := WordUpdate(None, Some(true), None, None, false)

  /** The update a graded test word receives: one more test, and marked learnt when answered correctly. */
  function GradedUpdate(correct: bool, finish: Timestamp): WordUpdate
  {
    if correct then WordUpdate(None, None, Some(true), Some(finish), true)
    else WordUpdate(None, None, None, None, true)
  }

  /** The record `saveWords` creates for a new word. */
  function NewRecord(id: int, w: Incoming, now: Timestamp): WordRecord
  {
    WordRecord(id, w.translation, w.priority, false, false, now, None, 0, None)
  }

  // ---------------------------------------------------------------------------------------
  // saveWords as a function of the store
  // ---------------------------------------------------------------------------------------

  /** The words collection and the counter `saveWords` keeps in its local `wordAmount`. */
  datatype Saved = Saved(words: map<string, WordRecord>, amount: int)

  /**
   * One iteration of `saveWords` when the existence check answers `exists`: a word reported
   * absent is written as a new record with the next id (a Firestore `set`, replacing any
   * document of that name); a word reported present has its priority raised by the incoming one.
   */
  function SaveStep(s: Saved, key: string, w: Incoming, now: Timestamp, found: bool): (r: Saved)
    requires found ==> key in s.words
    ensures r.words.Keys == s.words.Keys + {key}
  {
    if !found then Saved(s.words[key := NewRecord(s.amount + 1, w, now)], s.amount + 1)
    else Saved(s.words[key := s.words[key].(priority := s.words[key].priority + w.priority)], s.amount)
  }

  /** `saveWords` with the existence check its documentation describes: a lookup in the collection. */
  function SaveAll(s: Saved, entries: seq<(string, Incoming)>, now: Timestamp): (r: Saved)
    ensures r.words.Keys == s.words.Keys + KeySet(entries)
  {
    if |entries| == 0 then s
    else
      var last := entries[|entries| - 1];
      var prev := SaveAll(s, entries[..|entries| - 1], now);
      SaveStep(prev, last.0, last.1, now, last.0 in prev.words)
  }

  lemma SaveAllSnoc(s: Saved, entries: seq<(string, Incoming)>, i: nat, now: Timestamp)
    requires i < |entries|
    ensures var prev := SaveAll(s, entries[..i], now);
      SaveAll(s, entries[..i + 1], now) == SaveStep(prev, entries[i].0, entries[i].1, now, entries[i].0 in prev.words)
  {
    assert entries[..i + 1][..i] == entries[..i];
  }

  /** The keys of an object given as its entries. */
  function KeySet<T>(entries: seq<(string, T)>): (r: set<string>)
    ensures forall i :: 0 <= i < |entries| ==> entries[i].0 in r
  {
    if |entries| == 0 then {}
    else KeySet(entries[..|entries| - 1]) + {entries[|entries| - 1].0}
  }

  /**
   * `saveWords` as shipped: the existence check reads `.exists` on the pending promise and so
   * is never true, and every entry is written as a new record.
   */
  function SaveAllShipped(s: Saved, entries: seq<(string, Incoming)>, now: Timestamp): (r: Saved)
    ensures r.amount == s.amount + |entries|
  {
    if |entries| == 0 then s
    else
      var last := entries[|entries| - 1];
      SaveStep(SaveAllShipped(s, entries[..|entries| - 1], now), last.0, last.1, now, ShippedCheckIfWordExists(last.0))
  }

  /** `checkIfWordExists` as shipped: `.exists` of a promise is undefined, which is falsy. */
  function ShippedCheckIfWordExists(text: string): (r: bool)
    ensures !r
  {
    false
  }

  /**
   * The counter and the collection agree: there are `amount` words and their ids are distinct
   * numbers between 1 and `amount`, so they are exactly 1 to `amount`.
   */
  predicate Consistent(s: Saved)
  {
    |s.words| == s.amount && DistinctIds(s)
  }

  /** The ids are distinct numbers between 1 and the counter, so the next id is never taken. */
  predicate DistinctIds(s: Saved)
  {
    && 0 <= s.amount
    && (forall k :: k in s.words ==> 1 <= s.words[k].id <= s.amount)
    && (forall k1, k2 :: k1 in s.words && k2 in s.words && k1 != k2 ==> s.words[k1].id != s.words[k2].id)
  }

  /** Every step of the documented `saveWords` keeps the counter equal to the number of words and the ids distinct. */
  lemma {:induction false} SaveAllConsistent(s: Saved, entries: seq<(string, Incoming)>, now: Timestamp)
    requires Consistent(s)
    ensures Consistent(SaveAll(s, entries, now))
  {
    if |entries| > 0 {
      SaveAllConsistent(s, entries[..|entries| - 1], now);
      var last := entries[|entries| - 1];
      SaveStepConsistent(SaveAll(s, entries[..|entries| - 1], now), last.0, last.1, now);
    }
  }

  lemma SaveStepConsistent(s: Saved, key: string, w: Incoming, now: Timestamp)
    requires Consistent(s)
    ensures Consistent(SaveStep(s, key, w, now, key in s.words))
  {
    if key !in s.words {
      CreateConsistent(s, key, NewRecord(s.amount + 1, w, now));
    } else {
      ReplaceConsistent(s, key, s.words[key].(priority := s.words[key].priority + w.priority));
    }
  }

  lemma CreateConsistent(s: Saved, key: string, record: WordRecord)
    requires Consistent(s) && key !in s.words && record.id == s.amount + 1
    ensures Consistent(Saved(s.words[key := record], s.amount + 1))
  {
    var m := s.words[key := record];
    forall k1, k2 | k1 in m && k2 in m && k1 != k2 ensures m[k1].id != m[k2].id {
      if k1 != key && k2 != key {
        assert m[k1] == s.words[k1] && m[k2] == s.words[k2];
      }
    }
  }

  lemma ReplaceConsistent(s: Saved, key: string, record: WordRecord)
    requires Consistent(s) && key in s.words && record.id == s.words[key].id
    ensures Consistent(Saved(s.words[key := record], s.amount))
  {
    var m := s.words[key := record];
    assert m.Keys == s.words.Keys;
    assert |m| == |m.Keys| == |s.words.Keys| == |s.words|;
    assert forall k :: k in m ==> m[k].id == s.words[k].id;
  }

  /** The counter only grows, by one for each word created. */
  lemma {:induction false} SaveAllCounter(s: Saved, entries: seq<(string, Incoming)>, now: Timestamp)
    ensures var r := SaveAll(s, entries, now);
      s.amount <= r.amount <= s.amount + |entries| && r.amount - s.amount == |r.words| - |s.words|
  {
    if |entries| > 0 {
      var prev := SaveAll(s, entries[..|entries| - 1], now);
      SaveAllCounter(s, entries[..|entries| - 1], now);
      var last := entries[|entries| - 1];
      var r := SaveAll(s, entries, now);
      if last.0 !in prev.words {
        assert |r.words| == |prev.words| + 1;
      } else {
        assert r.words.Keys == prev.words.Keys;
        assert |r.words| == |r.words.Keys| == |prev.words.Keys| == |prev.words|;
      }
    }
  }

  /**
   * Saving a word already stored changes only its priority, to the stored priority plus the
   * incoming one, and leaves the counter alone.
   */
  lemma SaveExistingMergesPriority(s: Saved, key: string, w: Incoming, now: Timestamp)
    requires key in s.words
    ensures var r := SaveAll(s, [(key, w)], now);
      && r.amount == s.amount
      && r.words == s.words[key := s.words[key].(priority := s.words[key].priority + w.priority)]
  {
    assert [(key, w)][..0] == [];
  }

  /** Saving an absent word creates it with the next id, the incoming translation and priority, and fresh flags. */
  lemma SaveAbsentCreates(s: Saved, key: string, w: Incoming, now: Timestamp)
    requires key !in s.words
    ensures var r := SaveAll(s, [(key, w)], now);
      && r.amount == s.amount + 1
      && r.words == s.words[key := WordRecord(s.amount + 1, w.translation, w.priority, false, false, now, None, 0, None)]
  {
    assert [(key, w)][..0] == [];
  }

  /** A key that no entry carries is not among the entries' keys. */
  lemma {:induction false} KeySetAvoids<T>(entries: seq<(string, T)>, k: string)
    requires forall i :: 0 <= i < |entries| ==> entries[i].0 != k
    ensures k !in KeySet(entries)
  {
    if |entries| > 0 {
      KeySetAvoids(entries[..|entries| - 1], k);
    }
  }

  /**
   * What the documented `saveWords` does to each word, for entries with distinct keys (as
   * `sanitizeData` produces them): a stored word has its priority raised by the incoming one,
   * an absent word is created with the incoming data and a new id above the old counter, and
   * every other word stays as it was.
   */
  lemma {:induction false} SaveAllEffect(s: Saved, entries: seq<(string, Incoming)>, now: Timestamp)
    requires DistinctKeys(entries)
    ensures var r := SaveAll(s, entries, now);
      && s.amount <= r.amount
      && (forall i :: 0 <= i < |entries| && entries[i].0 in s.words ==>
            r.words[entries[i].0] == s.words[entries[i].0].(priority := s.words[entries[i].0].priority + entries[i].1.priority))
      && (forall i :: 0 <= i < |entries| && entries[i].0 !in s.words ==>
            && r.words[entries[i].0] == NewRecord(r.words[entries[i].0].id, entries[i].1, now)
            && s.amount < r.words[entries[i].0].id <= r.amount)
      && (forall k :: k in s.words && k !in KeySet(entries) ==> r.words[k] == s.words[k])
  {
    if |entries| > 0 {
      var n := |entries|;
      var init := entries[..n - 1];
      var last := entries[n - 1];
      assert forall i :: 0 <= i < |init| ==> init[i] == entries[i];
      SaveAllEffect(s, init, now);
      KeySetAvoids(init, last.0);
      var prev := SaveAll(s, init, now);
      var r := SaveAll(s, entries, now);
      assert r == SaveStep(prev, last.0, last.1, now, last.0 in prev.words);
      forall i | 0 <= i < n && entries[i].0 in s.words
        ensures r.words[entries[i].0] == s.words[entries[i].0].(priority := s.words[entries[i].0].priority + entries[i].1.priority)
      {
        if i < n - 1 {
          assert entries[i].0 != last.0;
        }
      }
      forall i | 0 <= i < n && entries[i].0 !in s.words
        ensures r.words[entries[i].0] == NewRecord(r.words[entries[i].0].id, entries[i].1, now)
        ensures s.amount < r.words[entries[i].0].id <= r.amount
      {
        if i < n - 1 {
          assert entries[i].0 != last.0;
        }
      }
    }
  }

  /**
   * Uploading the same detections (with distinct keys) a second time creates nothing: every
   * word of the batch is stored by then, so each one has its priority raised once more by its
   * count, and all other words stay as they were.
   */
  lemma SaveTwiceAddsPriorityTwice(s: Saved, entries: seq<(string, Incoming)>, now: Timestamp)
    requires DistinctKeys(entries)
    ensures var once := SaveAll(s, entries, now);
      var twice := SaveAll(once, entries, now);
      && twice.amount == once.amount
      && twice.words.Keys == once.words.Keys
      && (forall i :: 0 <= i < |entries| ==>
            twice.words[entries[i].0] == once.words[entries[i].0].(priority := once.words[entries[i].0].priority + entries[i].1.priority))
      && (forall k :: k in once.words && k !in KeySet(entries) ==> twice.words[k] == once.words[k])
  {
    var once := SaveAll(s, entries, now);
    var twice := SaveAll(once, entries, now);
    SaveAllEffect(once, entries, now);
    SaveAllCounter(once, entries, now);
    assert |twice.words| == |twice.words.Keys| == |once.words.Keys| == |once.words|;
  }

  /**
   * As shipped, saving a word already stored replaces its record: the old priority, flags and
   * test count are lost, it gets a new id and the counter moves past the number of words.
   */
  lemma ShippedSaveResetsStoredWord(s: Saved, key: string, w: Incoming, now: Timestamp)
    requires Consistent(s)
    requires key in s.words
    ensures var r := SaveAllShipped(s, [(key, w)], now);
      && r.words[key] == WordRecord(s.amount + 1, w.translation, w.priority, false, false, now, None, 0, None)
      && r.words[key].id != s.words[key].id
      && |r.words| == |s.words|
      && !Consistent(r)
  {
    assert [(key, w)][..0] == [];
    var r := SaveAllShipped(s, [(key, w)], now);
    assert r == SaveStep(SaveAllShipped(s, [], now), key, w, now, false);
    assert r.words.Keys == s.words.Keys;
    assert |r.words| == |r.words.Keys| == |s.words.Keys| == |s.words|;
  }

  lemma SaveAllShippedSnoc(s: Saved, entries: seq<(string, Incoming)>, i: nat, now: Timestamp)
    requires i < |entries|
    ensures SaveAllShipped(s, entries[..i + 1], now)
      == SaveStep(SaveAllShipped(s, entries[..i], now), entries[i].0, entries[i].1, now, ShippedCheckIfWordExists(entries[i].0))
  {
    assert entries[..i + 1][..i] == entries[..i];
  }

  /**
   * What the shipped `saveWords` does to each word, for entries with distinct keys: the `i`-th
   * entry is written as a new record with id `wordAmount + i + 1`, whether or not it was stored,
   * and every other word stays as it was.
   */
  lemma {:induction false} SaveAllShippedEffect(s: Saved, entries: seq<(string, Incoming)>, now: Timestamp)
    requires DistinctKeys(entries)
    ensures var r := SaveAllShipped(s, entries, now);
      && r.words.Keys == s.words.Keys + KeySet(entries)
      && (forall i :: 0 <= i < |entries| ==> r.words[entries[i].0] == NewRecord(s.amount + i + 1, entries[i].1, now))
      && (forall k :: k in s.words && k !in KeySet(entries) ==> r.words[k] == s.words[k])
  {
    if |entries| > 0 {
      var n := |entries|;
      var init := entries[..n - 1];
      var last := entries[n - 1];
      assert forall i :: 0 <= i < |init| ==> init[i] == entries[i];
      SaveAllShippedEffect(s, init, now);
      var prev := SaveAllShipped(s, init, now);
      var r := SaveAllShipped(s, entries, now);
      assert r == SaveStep(prev, last.0, last.1, now, false);
      forall i | 0 <= i < n
        ensures r.words[entries[i].0] == NewRecord(s.amount + i + 1, entries[i].1, now)
      {
        if i < n - 1 {
          assert entries[i].0 != last.0;
        }
      }
    }
  }

  /** Writing a record with the next id, over a stored word or not, keeps the ids distinct and within the counter. */
  lemma CreateKeepsIds(s: Saved, key: string, record: WordRecord)
    requires DistinctIds(s) && record.id == s.amount + 1
    ensures DistinctIds(Saved(s.words[key := record], s.amount + 1))
  {
    var m := s.words[key := record];
    forall k | k in m ensures 1 <= m[k].id <= s.amount + 1 {
      if k != key {
        assert m[k] == s.words[k];
      }
    }
    forall k1, k2 | k1 in m && k2 in m && k1 != k2 ensures m[k1].id != m[k2].id {
      if k1 != key && k2 != key {
        assert m[k1] == s.words[k1] && m[k2] == s.words[k2];
      }
    }
  }

  /**
   * The shipped `saveWords` still hands out distinct ids within the counter: the counter only
   * overtakes the number of words, as `ShippedSaveResetsStoredWord` shows.
   */
  lemma {:induction false} SaveAllShippedDistinctIds(s: Saved, entries: seq<(string, Incoming)>, now: Timestamp)
    requires DistinctIds(s)
    ensures DistinctIds(SaveAllShipped(s, entries, now))
  {
    if |entries| > 0 {
      var init := entries[..|entries| - 1];
      var last := entries[|entries| - 1];
      SaveAllShippedDistinctIds(s, init, now);
      var prev := SaveAllShipped(s, init, now);
      CreateKeepsIds(prev, last.0, NewRecord(prev.amount + 1, last.1, now));
    }
  }

  // ---------------------------------------------------------------------------------------
  // updateWords as a function of the collection
  // ---------------------------------------------------------------------------------------

  /** `updateWord(uid, text, u)`: a stored word is updated; the update of a missing one fails and is only logged. */
  function UpdateOne(words: map<string, WordRecord>, text: string, u: WordUpdate): (r: map<string, WordRecord>)
    ensures r.Keys == words.Keys
  {
    if text in words then words[text := Apply(words[text], u)] else words
  }

  /** `updateWords(uid, list)`: every listed word, in order, gets `{appeared: true}`. */
  function MarkAllAppeared(words: map<string, WordRecord>, list: seq<string>): (r: map<string, WordRecord>)
    ensures r.Keys == words.Keys
  {
    if |list| == 0 then words
    else UpdateOne(MarkAllAppeared(words, list[..|list| - 1]), list[|list| - 1], MarkAppeared)
  }

  /**
   * After `updateWords` every listed stored word has `appeared` set, and nothing else changes:
   * unlisted words are untouched and listed ones differ only in `appeared`.
   */
  lemma {:induction false} MarkAllAppearedEffect(words: map<string, WordRecord>, list: seq<string>)
    ensures var r := MarkAllAppeared(words, list);
      && (forall k :: k in words && k in list ==> r[k] == words[k].(appeared := true))
      && (forall k :: k in words && k !in list ==> r[k] == words[k])
  {
    if |list| > 0 {
      var init := list[..|list| - 1];
      MarkAllAppearedEffect(words, init);
      assert forall k :: k in list <==> k in init || k == list[|list| - 1];
    }
  }

  /** Marking words appeared keeps the counter and the ids consistent. */
  lemma MarkAllAppearedConsistent(s: Saved, list: seq<string>)
    requires Consistent(s)
    ensures Consistent(Saved(MarkAllAppeared(s.words, list), s.amount))
  {
    var r := MarkAllAppeared(s.words, list);
    MarkAllAppearedEffect(s.words, list);
    assert forall k :: k in r ==> r[k].id == s.words[k].id;
  }

  // ---------------------------------------------------------------------------------------
  // Test records
  // ---------------------------------------------------------------------------------------

  /** One entry of `results.words`: the expected translation, the answer given and its grade. */
  datatype GradedWord = GradedWord(translation: string, answer: string, correct: bool)

  /** The `results` object of a graded test; `words` is in insertion order. */
  datatype TestResults = TestResults(
    words: seq<(string, GradedWord)>,
    dateStarted: string,
    dateFinished: string,
    points: int,
    maxPoints: int)

  /** The document `users/{uid}/tests/{id}/words/{key}`. */
  datatype TestWord = TestWord(translation: string, userInput: string)

  /** The document `users/{uid}/tests/{id}` with its `words` sub-collection. */
  datatype TestRecord = TestRecord(
    points: int,
    maxPoints: int,
    dateCreated: string,
    dateFinished: string,
    words: map<string, TestWord>)

  /** The `words` sub-collection written for the graded words, each `set` replacing an earlier one of the same key. */
  function SubEntries(words: seq<(string, GradedWord)>): (r: map<string, TestWord>)
    ensures r.Keys == KeySet(words)
  {
    if |words| == 0 then map[]
    else
      var last := words[|words| - 1];
      SubEntries(words[..|words| - 1])[last.0 := TestWord(last.1.translation, last.1.answer)]
  }

  predicate DistinctKeys<T>(entries: seq<(string, T)>)
  {
    forall i, j :: 0 <= i < j < |entries| ==> entries[i].0 != entries[j].0
  }

  /** With distinct keys, each graded word is stored with its translation and the user's answer. */
  lemma {:induction false} SubEntriesHoldAnswers(words: seq<(string, GradedWord)>, i: nat)
    requires DistinctKeys(words)
    requires i < |words|
    ensures SubEntries(words)[words[i].0] == TestWord(words[i].1.translation, words[i].1.answer)
  {
    if i < |words| - 1 {
      SubEntriesHoldAnswers(words[..|words| - 1], i);
    }
  }

  /** The test record `saveTest` writes for `results`. */
  function RecordOf(results: TestResults): TestRecord
  {
    TestRecord(results.points, results.maxPoints, results.dateStarted, results.dateFinished, SubEntries(results.words))
  }

  // ---------------------------------------------------------------------------------------
  // The store
  // ---------------------------------------------------------------------------------------

  /** One user's documents: `users/{uid}` with its two collections. */
  class UserStore {
    var words: map<string, WordRecord>
    var wordAmount: int
    var name: Option<string>
    var tests: seq<TestRecord>

    /** The user document as account creation writes it: `{wordAmount: 0, name}`. */
    constructor (userName: string)
      ensures words == map[] && wordAmount == 0 && name == Some(userName) && tests == []
    {
      words := map[];
      wordAmount := 0;
      name := Some(userName);
      tests := [];
    }

    /** `getWordAmount` */
    method GetWordAmount() returns (amount: int)
      ensures amount == wordAmount
    {
      amount := wordAmount;
    }

    /** `updateWordAmount`: a `set` of `{wordAmount}`, which replaces the user document and so drops `name`. */
    method UpdateWordAmount(amount: int)
      modifies this
      ensures wordAmount == amount && name == None
      ensures words == old(words) && tests == old(tests)
    {
      wordAmount := amount;
      name := None;
    }

    /**
     * `updateWord`: updates a stored word; the failed update of a missing word is only logged.
     * A key that is not a valid document id, which makes `doc` throw, is not modelled.
     */
    method UpdateWord(text: string, u: WordUpdate)
      modifies this
      ensures words == UpdateOne(old(words), text, u)
      ensures wordAmount == old(wordAmount) && name == old(name) && tests == old(tests)
    {
      if text in words {
        words := words[text := Apply(words[text], u)];
      }
    }

    /** `updateWords`: `{appeared: true}` for every listed word, one after the other. */
    method UpdateWords(list: seq<string>)
      modifies this
      ensures words == MarkAllAppeared(old(words), list)
      ensures wordAmount == old(wordAmount) && name == old(name) && tests == old(tests)
    {
      for i := 0 to |list|
        invariant words == MarkAllAppeared(old(words), list[..i])
        invariant wordAmount == old(wordAmount) && name == old(name) && tests == old(tests)
      {
        assert list[..i + 1][..i] == list[..i];
        UpdateWord(list[i], MarkAppeared);
      }
      assert list[..|list|] == list;
    }

    /**
     * `saveWords`: the counter is read once; each word the existence check reports absent is
     * written with the next id and the counter written back, each word reported present has its
     * priority raised. As shipped the check never reports a word present, so every entry is
     * written anew; the ids stay distinct.
     */
    method SaveWords(entries: seq<(string, Incoming)>, now: Timestamp)
      modifies this
      ensures Saved(words, wordAmount) == SaveAllShipped(Saved(old(words), old(wordAmount)), entries, now)
      ensures name == if wordAmount == old(wordAmount) then old(name) else None
      ensures tests == old(tests)
      ensures DistinctIds(Saved(old(words), old(wordAmount))) ==> DistinctIds(Saved(words, wordAmount))
    {
      ghost var start := Saved(words, wordAmount);
      var amount := GetWordAmount();
      for i := 0 to |entries|
        invariant Saved(words, amount) == SaveAllShipped(start, entries[..i], now)
        invariant amount == wordAmount
        invariant name == if amount == start.amount then old(name) else None
        invariant tests == old(tests)
      {
        SaveAllShippedSnoc(start, entries, i, now);
        var found := ShippedCheckIfWordExists(entries[i].0);
        amount := SaveEntry(entries[i].0, entries[i].1, now, amount, found);
      }
      assert entries[..|entries|] == entries;
      if DistinctIds(start) {
        SaveAllShippedDistinctIds(start, entries, now);
      }
    }

    /**
     * One iteration of `saveWords`, the callback that receives the existence check's answer
     * (`found`), with the counter held in the local `amount`.
     */
    method SaveEntry(key: string, w: Incoming, now: Timestamp, amount: int, found: bool) returns (next: int)
      requires amount == wordAmount
      requires found ==> key in words
      modifies this
      ensures Saved(words, next) == SaveStep(Saved(old(words), amount), key, w, now, found)
      ensures wordAmount == next
      ensures name == if next == amount then old(name) else None
      ensures tests == old(tests)
    {
      next := amount;
      if !found {
        next := next + 1;
        words := words[key := NewRecord(next, w, now)];
        UpdateWordAmount(next);
      } else {
        var priority := words[key].priority;
        ApplyPriority(words[key], priority + w.priority);
        UpdateWord(key, WordUpdate(Some(priority + w.priority), None, None, None, false));
      }
    }

    /** `saveTest`: one test document, then one `words` sub-document per graded word. */
    method SaveTest(results: TestResults)
      modifies this
      ensures tests == old(tests) + [RecordOf(results)]
      ensures words == old(words) && wordAmount == old(wordAmount) && name == old(name)
    {
      var record := TestRecord(results.points, results.maxPoints, results.dateStarted, results.dateFinished, map[]);
      for i := 0 to |results.words|
        invariant record == RecordOf(results).(words := SubEntries(results.words[..i]))
      {
        assert results.words[..i + 1][..i] == results.words[..i];
        var (key, g) := results.words[i];
        record := record.(words := record.words[key := TestWord(g.translation, g.answer)]);
      }
      assert results.words[..|results.words|] == results.words;
      tests := tests + [record];
    }
  }
}
