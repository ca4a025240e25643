/**
 * The selection engine of database.js: `getRandomInt` and the two generators that draw words
 * by rejection sampling, `generateTestQuestions` and `generateWordsForLearning`.
 *
 * `Math.random()` enters as an oracle: the sequence of draws the loop consumes, each draw a
 * natural number standing for where the random value fell. A loop that runs out of draws has
 * not finished within that many iterations; one that never finishes does so for every oracle.
 */
module Selection {
  import opened Js
  import opened Store

  /**
   * `getRandomInt(min, max)` on integer bounds, the draw `u` standing for `Math.random()`: a value
   * in `[min, max)` when `max > min`. Otherwise `Math.random() * (max - min)` lies in `(max - min, 0]`
   * and the result in `[max, min]`.
   */
  function GetRandomInt(min: int, max: int, u: nat): (r: int)
    ensures max > min ==> min <= r < max
    ensures max <= min ==> max <= r <= min
  {
    if max > min then min + u % (max - min) else min - u % (min - max + 1)
  }

  /** Every value of the range can be drawn. */
  lemma GetRandomIntReaches(min: int, max: int, r: int)
    requires min <= r < max
    ensures GetRandomInt(min, max, r - min) == r
  {
  }

  /** The lowest index the generators draw: `getRandomInt(1, documents.size)` as shipped. */
  const ShippedLow := 1

  /** The lowest index that lets every document be drawn. */
  const IntendedLow := 0

  /**
   * The documents of `getAllNonLearntWords(uid).where('appeared', '==', appeared)`: the words
   * not learnt whose `appeared` flag is `appeared`.
   */
  function Qualifying(words: map<string, WordRecord>, appeared: bool): (r: set<string>)
    ensures forall k :: k in r <==> k in words && !words[k].learnt && words[k].appeared == appeared
  {
    set k | k in words && !words[k].learnt && words[k].appeared == appeared
  }

  /** `documents.docs`: the query's documents, each once, in the order the store returns them. */
  predicate Enumerates(docs: seq<string>, keys: set<string>)
  {
    && (forall i, j :: 0 <= i < j < |docs| ==> docs[i] != docs[j])
    && (forall i :: 0 <= i < |docs| ==> docs[i] in keys)
    && (forall k :: k in keys ==> k in docs)
  }

  // ---------------------------------------------------------------------------------------
  // The do-while loop
  // ---------------------------------------------------------------------------------------

  /** How the loop ended: its condition failed, `documents.docs[random]` was undefined, or the draws ran out. */
  datatype DrawEnd = Complete | IndexOutOfRange | OracleExhausted

  /** The indexes pushed, in order, and how the loop ended. */
  datatype Drawn = Drawn(picks: seq<int>, end: DrawEnd)

  /** The number of indexes a completed loop holds: the body runs once even when `amount < 1`. */
  function Target(amount: int): (r: nat)
    ensures r >= 1 && r >= amount
  {
    if amount < 1 then 1 else amount
  }

  /** Distinct indexes of existing documents, none below `low`. */
  predicate ValidPicks(picks: seq<int>, low: int, size: int)
  {
    && (forall i, j :: 0 <= i < j < |picks| ==> picks[i] != picks[j])
    && (forall i :: 0 <= i < |picks| ==> low <= picks[i] && 0 <= picks[i] < size)
  }

  /**
   * The loop from the state `picks` on: draw an index; a new one is pushed (and its document read,
   * which fails outside the documents); repeat while fewer than `amount` are held.
   */
  function Draw(low: int, size: int, amount: int, oracle: seq<nat>, picks: seq<int>): (r: Drawn)
    requires ValidPicks(picks, low, size)
    requires |picks| < Target(amount)
    ensures |picks| <= |r.picks| <= Target(amount)
    ensures r.end == Complete ==> |r.picks| == Target(amount)
    decreases |oracle|
  {
    if |oracle| == 0 then Drawn(picks, OracleExhausted)
    else
      var random := GetRandomInt(low, size, oracle[0]);
      if random in picks then
        Draw(low, size, amount, oracle[1..], picks)
      else if random < 0 || random >= size then Drawn(picks, IndexOutOfRange)
      else if |picks| + 1 < amount then Draw(low, size, amount, oracle[1..], picks + [random])
      else Drawn(picks + [random], Complete)
  }

  /**
   * The loop keeps its indexes distinct and in range, only ever adds to them, completes exactly
   * when it holds `Target(amount)` of them, and cannot meet a missing document while drawing
   * inside the documents.
   */
  lemma {:induction false} DrawFacts(low: int, size: int, amount: int, oracle: seq<nat>, picks: seq<int>)
    requires ValidPicks(picks, low, size)
    requires |picks| < Target(amount)
    ensures var r := Draw(low, size, amount, oracle, picks);
      && ValidPicks(r.picks, low, size)
      && |picks| <= |r.picks| <= Target(amount) && r.picks[..|picks|] == picks
      && (r.end == Complete <==> |r.picks| == Target(amount))
      && (0 <= low < size ==> r.end != IndexOutOfRange)
    decreases |oracle|
  {
    if |oracle| > 0 {
      var random := GetRandomInt(low, size, oracle[0]);
      if random in picks {
        DrawFacts(low, size, amount, oracle[1..], picks);
      } else if 0 <= random < size {
        PushKeepsValid(low, size, picks, random);
        if |picks| + 1 < amount {
          DrawFacts(low, size, amount, oracle[1..], picks + [random]);
          var r := Draw(low, size, amount, oracle[1..], picks + [random]);
          assert r.picks[..|picks|] == r.picks[..|picks| + 1][..|picks|];
        }
      }
    }
  }

  /** Pushing a new index of an existing document, drawn from `low` on, keeps the picks valid. */
  lemma PushKeepsValid(low: int, size: int, picks: seq<int>, random: int)
    requires ValidPicks(picks, low, size)
    requires random !in picks && low <= random && 0 <= random < size
    ensures ValidPicks(picks + [random], low, size)
  {
    var p := picks + [random];
    forall i, j | 0 <= i < j < |p|
      ensures p[i] != p[j]
    {
      if j == |picks| {
        assert p[i] == picks[i];
      }
    }
  }

  /** One iteration of the loop. */
  lemma DrawStep(low: int, size: int, amount: int, oracle: seq<nat>, picks: seq<int>)
    requires ValidPicks(picks, low, size) && |picks| < Target(amount)
    requires |oracle| > 0
    ensures var random := GetRandomInt(low, size, oracle[0]);
      && (random in picks ==> Draw(low, size, amount, oracle, picks) == Draw(low, size, amount, oracle[1..], picks))
      && (random !in picks && (random < 0 || random >= size) ==> Draw(low, size, amount, oracle, picks) == Drawn(picks, IndexOutOfRange))
      && (random !in picks && 0 <= random < size && |picks| + 1 < amount ==>
            Draw(low, size, amount, oracle, picks) == Draw(low, size, amount, oracle[1..], picks + [random]))
      && (random !in picks && 0 <= random < size && |picks| + 1 >= amount ==>
            Draw(low, size, amount, oracle, picks) == Drawn(picks + [random], Complete))
  {
  }

  /** Distinct integers from `[a, b)` number at most `b - a`. */
  lemma {:induction false} DistinctBounded(s: seq<int>, a: int, b: int)
    requires forall i, j :: 0 <= i < j < |s| ==> s[i] != s[j]
    requires forall i :: 0 <= i < |s| ==> a <= s[i] < b
    ensures |s| <= if b > a then b - a else 0
    decreases b - a
  {
    if |s| > 0 {
      assert a <= s[0] < b;
      if b - 1 in s {
        var i :| 0 <= i < |s| && s[i] == b - 1;
        var t := s[..i] + s[i + 1..];
        assert forall j :: 0 <= j < |t| ==> t[j] == (if j < i then s[j] else s[j + 1]);
        DistinctBounded(t, a, b - 1);
      } else {
        DistinctBounded(s, a, b - 1);
      }
    }
  }

  /**
   * A completed loop holds `Target(amount)` distinct indexes from `[max(low, 0), size)`, so it
   * can only complete when the range holds that many; otherwise it runs until the draws run out
   * (or stops at a missing document).
   */
  lemma DrawCompletesOnlyWithRoom(low: int, size: int, amount: int, oracle: seq<nat>)
    requires size - (if low > 0 then low else 0) < Target(amount)
    ensures Draw(low, size, amount, oracle, []).end != Complete
  {
    var r := Draw(low, size, amount, oracle, []);
    DrawFacts(low, size, amount, oracle, []);
    DistinctBounded(r.picks, if low > 0 then low else 0, size);
  }

  /** With enough room, the oracle that draws `0, 1, …` in turn completes the loop from index `low`. */
  lemma {:induction false} DrawCompletesWithRoom(low: int, size: int, amount: int, picks: seq<int>)
    requires 0 <= low
    requires ValidPicks(picks, low, size)
    requires |picks| < Target(amount) <= size - low
    requires forall j :: 0 <= j < |picks| ==> picks[j] == low + j
    ensures Draw(low, size, amount, Ascending(|picks|, Target(amount)), picks) == Drawn(Range(low, Target(amount)), Complete)
    decreases Target(amount) - |picks|
  {
    var next := picks + [low + |picks|];
    AscendingDrawPushes(low, size, amount, picks);
    if |picks| + 1 < amount {
      DrawCompletesWithRoom(low, size, amount, next);
    } else {
      assert next == Range(low, Target(amount));
    }
  }

  /** Under that oracle, each draw pushes the next index. */
  lemma AscendingDrawPushes(low: int, size: int, amount: int, picks: seq<int>)
    requires 0 <= low
    requires ValidPicks(picks, low, size)
    requires |picks| < Target(amount) <= size - low
    requires forall j :: 0 <= j < |picks| ==> picks[j] == low + j
    ensures var next := picks + [low + |picks|];
      && ValidPicks(next, low, size)
      && Draw(low, size, amount, Ascending(|picks|, Target(amount)), picks)
         == if |picks| + 1 < amount then Draw(low, size, amount, Ascending(|picks| + 1, Target(amount)), next)
            else Drawn(next, Complete)
  {
    var oracle := Ascending(|picks|, Target(amount));
    var random := low + |picks|;
    assert oracle[0] == |picks|;
    assert |picks| % (size - low) == |picks|;
    assert GetRandomInt(low, size, oracle[0]) == random;
    assert forall j :: 0 <= j < |picks| ==> picks[j] < random;
    assert oracle[1..] == Ascending(|picks| + 1, Target(amount));
    DrawStep(low, size, amount, oracle, picks);
  }

  /** The draws `lo, lo + 1, …, hi - 1`. */
  function Ascending(lo: nat, hi: nat): (r: seq<nat>)
    decreases hi - lo
    ensures |r| == (if hi > lo then hi - lo else 0)
    ensures forall j :: 0 <= j < |r| ==> r[j] == lo + j
  {
    if lo >= hi then [] else [lo] + Ascending(lo + 1, hi)
  }

  /** The indexes `low, low + 1, …, low + n - 1`. */
  function Range(low: int, n: nat): (r: seq<int>)
    ensures |r| == n
    ensures forall j :: 0 <= j < n ==> r[j] == low + j
  {
    if n == 0 then [] else Range(low, n - 1) + [low + n - 1]
  }

  // ---------------------------------------------------------------------------------------
  // The object the loop fills
  // ---------------------------------------------------------------------------------------

  /** The keys of the picked documents, in the order they were picked. */
  function PickedKeys(docs: seq<string>, picks: seq<int>): (r: seq<string>)
    requires forall i :: 0 <= i < |picks| ==> 0 <= picks[i] < |docs|
    ensures |r| == |picks|
    ensures forall i :: 0 <= i < |picks| ==> r[i] == docs[picks[i]]
  {
    if |picks| == 0 then [] else PickedKeys(docs, picks[..|picks| - 1]) + [docs[picks[|picks| - 1]]]
  }

  /** `{key: translation}` for the picked keys, in insertion order. */
  function Entries(keys: seq<string>, words: map<string, WordRecord>): (r: JsObject)
    requires forall i :: 0 <= i < |keys| ==> keys[i] in words
    ensures r.keys == keys
    ensures (forall i, j :: 0 <= i < j < |keys| ==> keys[i] != keys[j]) ==> WellFormed(r)
  {
    JsObject(keys, map k | k in keys :: words[k].translation)
  }

  /** Assigning a new key's translation extends the entries by that key. */
  lemma EntriesPush(keys: seq<string>, words: map<string, WordRecord>, k: string)
    requires forall i :: 0 <= i < |keys| ==> keys[i] in words
    requires forall i, j :: 0 <= i < j < |keys| ==> keys[i] != keys[j]
    requires k in words && k !in keys
    ensures WellFormed(Entries(keys, words))
    ensures Set(Entries(keys, words), k, words[k].translation) == Entries(keys + [k], words)
  {
    assert (map x | x in keys :: words[x].translation)[k := words[k].translation]
        == map x | x in keys + [k] :: words[x].translation;
  }

  /**
   * What the do-while loop both generators share leaves behind when drawing from `low`: the
   * object filled with the picked words, in the order they were picked, and how the loop ended.
   */
  function Selected(words: map<string, WordRecord>, docs: seq<string>, low: int, amount: int, oracle: seq<nat>): (JsObject, DrawEnd)
    requires forall i :: 0 <= i < |docs| ==> docs[i] in words
  {
    var d := Draw(low, |docs|, amount, oracle, []);
    DrawFacts(low, |docs|, amount, oracle, []);
    (Entries(PickedKeys(docs, d.picks), words), d.end)
  }

  /** Pushing a new index in range keeps the picks valid and adds its document's entry to the object. */
  lemma PickPushes(words: map<string, WordRecord>, docs: seq<string>, low: int, picks: seq<int>, random: int)
    requires forall i, j :: 0 <= i < j < |docs| ==> docs[i] != docs[j]
    requires forall i :: 0 <= i < |docs| ==> docs[i] in words
    requires ValidPicks(picks, low, |docs|)
    requires low <= random && 0 <= random < |docs| && random !in picks
    ensures ValidPicks(picks + [random], low, |docs|)
    ensures WellFormed(Entries(PickedKeys(docs, picks), words))
    ensures Set(Entries(PickedKeys(docs, picks), words), docs[random], words[docs[random]].translation)
      == Entries(PickedKeys(docs, picks + [random]), words)
  {
    var next := picks + [random];
    PickedDistinct(docs, picks);
    EntriesPush(PickedKeys(docs, picks), words, docs[random]);
    assert PickedKeys(docs, next) == PickedKeys(docs, next[..|next| - 1]) + [docs[random]];
    assert next[..|next| - 1] == picks;
  }

  /** What a generator hands back, or that it is still looping when the draws run out. */
  datatype Generated = Returned(value: JsValue) | StillRunning

  /**
   * `generateTestQuestions(uid, amount)` with indexes drawn from `low`: `null` when fewer than
   * `amount` words qualify, else the drawn words with their translations and then `dateCreated`.
   * A missing document throws inside the query callback; the error is logged and the object
   * filled so far is returned.
   */
  function TestQuestions(low: int, words: map<string, WordRecord>, docs: seq<string>, amount: int, oracle: seq<nat>, now: Timestamp): (r: Generated)
    requires Enumerates(docs, Qualifying(words, true))
    ensures r == Returned(JsNull) <==> |docs| < amount
    ensures r.Returned? && |docs| >= amount ==> r.value.JsObj?
  {
    if |docs| < amount then Returned(JsNull)
    else
      var (data, end) := Selected(words, docs, low, amount, oracle);
      match end
      case Complete =>
        DrawFacts(low, |docs|, amount, oracle, []);
        PickedDistinct(docs, Draw(low, |docs|, amount, oracle, []).picks);
        Returned(JsObj(Set(data, "dateCreated", now)))
      case IndexOutOfRange => Returned(JsObj(data))
      case OracleExhausted => StillRunning
  }

  /**
   * `generateWordsForLearning(uid, amount)` with indexes drawn from `low`: `true` when fewer
   * than 20 words qualify, whatever `amount` is; else the drawn words with their translations.
   */
  function WordsForLearning(low: int, words: map<string, WordRecord>, docs: seq<string>, amount: int, oracle: seq<nat>): (r: Generated)
    requires Enumerates(docs, Qualifying(words, false))
    ensures r == Returned(JsTrue) <==> |docs| < 20
    ensures r.Returned? && |docs| >= 20 ==> r.value.JsObj?
  {
    if |docs| < 20 then Returned(JsTrue)
    else
      var (data, end) := Selected(words, docs, low, amount, oracle);
      if end == OracleExhausted then StillRunning else Returned(JsObj(data))
  }

  /** Distinct picks of distinct documents give distinct keys. */
  lemma PickedDistinct(docs: seq<string>, picks: seq<int>)
    requires forall i, j :: 0 <= i < j < |docs| ==> docs[i] != docs[j]
    requires forall i, j :: 0 <= i < j < |picks| ==> picks[i] != picks[j]
    requires forall i :: 0 <= i < |picks| ==> 0 <= picks[i] < |docs|
    ensures forall i, j :: 0 <= i < j < |picks| ==> PickedKeys(docs, picks)[i] != PickedKeys(docs, picks)[j]
  {
  }

  // ---------------------------------------------------------------------------------------
  // The generators
  // ---------------------------------------------------------------------------------------

  /**
   * The do-while loop both generators share, drawing from `low`: it returns the object filled
   * and how the loop ended.
   */
  method SelectDistinct(words: map<string, WordRecord>, docs: seq<string>, low: int, amount: int, oracle: seq<nat>)
    returns (data: JsObject, end: DrawEnd)
    requires forall i, j :: 0 <= i < j < |docs| ==> docs[i] != docs[j]
    requires forall i :: 0 <= i < |docs| ==> docs[i] in words
    ensures (data, end) == Selected(words, docs, low, amount, oracle)
  {
    var indexes: seq<int> := [];
    data := Empty;
    var k := 0;
    while true
      invariant 0 <= k <= |oracle|
      invariant ValidPicks(indexes, low, |docs|) && |indexes| < Target(amount)
      invariant Draw(low, |docs|, amount, oracle, []) == Draw(low, |docs|, amount, oracle[k..], indexes)
      invariant data == Entries(PickedKeys(docs, indexes), words)
      decreases |oracle| - k
    {
      if k == |oracle| {
        return data, OracleExhausted;
      }
      var random := GetRandomInt(low, |docs|, oracle[k]);
      DrawStep(low, |docs|, amount, oracle[k..], indexes);
      assert oracle[k..][1..] == oracle[k + 1..];
      k := k + 1;
      if random !in indexes {
        if random < 0 || random >= |docs| {
          return data, IndexOutOfRange;
        }
        PickPushes(words, docs, low, indexes, random);
        data := Set(data, docs[random], words[docs[random]].translation);
        indexes := indexes + [random];
      }
      if |indexes| >= amount {
        return data, Complete;
      }
    }
  }

  /**
   * `generateTestQuestions(uid, amount)` as shipped, drawing indexes from 1: see `TestQuestions`.
   * `docs` are the qualifying documents as the query returns them.
   */
  method GenerateTestQuestions(store: UserStore, docs: seq<string>, amount: int, oracle: seq<nat>, now: Timestamp)
    returns (result: Generated)
    requires Enumerates(docs, Qualifying(store.words, true))
    ensures result == TestQuestions(ShippedLow, store.words, docs, amount, oracle, now)
  {
    if |docs| < amount {
      return Returned(JsNull);
    }
    var data, end := SelectDistinct(store.words, docs, ShippedLow, amount, oracle);
    if end == OracleExhausted {
      return StillRunning;
    } else if end == IndexOutOfRange {
      return Returned(JsObj(data));
    }
    DrawFacts(ShippedLow, |docs|, amount, oracle, []);
    PickedDistinct(docs, Draw(ShippedLow, |docs|, amount, oracle, []).picks);
    data := Set(data, "dateCreated", now);
    return Returned(JsObj(data));
  }

  /** `generateWordsForLearning(uid, amount)` as shipped, drawing indexes from 1: see `WordsForLearning`. */
  method GenerateWordsForLearning(store: UserStore, docs: seq<string>, amount: int, oracle: seq<nat>)
    returns (result: Generated)
    requires Enumerates(docs, Qualifying(store.words, false))
    ensures result == WordsForLearning(ShippedLow, store.words, docs, amount, oracle)
  {
    if |docs| < 20 {
      return Returned(JsTrue);
    }
    var data, end := SelectDistinct(store.words, docs, ShippedLow, amount, oracle);
    if end == OracleExhausted {
      return StillRunning;
    }
    return Returned(JsObj(data));
  }

  // ---------------------------------------------------------------------------------------
  // What the generators promise
  // ---------------------------------------------------------------------------------------

  /**
   * The object the loop leaves holds distinct keys of documents, each with its translation, at
   * most `Target(amount)` of them, and exactly that many when the loop completed.
   */
  lemma SelectedKeys(words: map<string, WordRecord>, docs: seq<string>, low: int, amount: int, oracle: seq<nat>)
    requires forall i, j :: 0 <= i < j < |docs| ==> docs[i] != docs[j]
    requires forall i :: 0 <= i < |docs| ==> docs[i] in words
    ensures var (o, end) := Selected(words, docs, low, amount, oracle);
      && WellFormed(o)
      && |o.keys| <= Target(amount)
      && (end == Complete <==> |o.keys| == Target(amount))
      && (forall i :: 0 <= i < |o.keys| ==> o.keys[i] in docs && o.values[o.keys[i]] == words[o.keys[i]].translation)
  {
    var d := Draw(low, |docs|, amount, oracle, []);
    DrawFacts(low, |docs|, amount, oracle, []);
    PickedDistinct(docs, d.picks);
  }

  /**
   * A test is `null` exactly when fewer than `amount` words qualify. A completed test holds
   * `Target(amount)` distinct qualifying words, each with its stored translation, and then
   * `dateCreated`.
   */
  lemma TestQuestionsContents(low: int, words: map<string, WordRecord>, docs: seq<string>, amount: int, oracle: seq<nat>, now: Timestamp)
    requires Enumerates(docs, Qualifying(words, true))
    ensures TestQuestions(low, words, docs, amount, oracle, now) == Returned(JsNull) <==> |docs| < amount
    ensures |docs| >= amount && Selected(words, docs, low, amount, oracle).1 == Complete ==>
      var keys := Selected(words, docs, low, amount, oracle).0.keys;
      var o := TestQuestions(low, words, docs, amount, oracle, now).value.obj;
      && |keys| == Target(amount)
      && (forall i, j :: 0 <= i < j < |keys| ==> keys[i] != keys[j])
      && (forall i :: 0 <= i < |keys| ==> keys[i] in words && !words[keys[i]].learnt && words[keys[i]].appeared)
      && (forall i :: 0 <= i < |keys| ==> o.values[keys[i]] == (if keys[i] == "dateCreated" then now else words[keys[i]].translation))
      && o.values["dateCreated"] == now
      && ("dateCreated" !in keys ==> o.keys == keys + ["dateCreated"])
  {
    if |docs| >= amount {
      SelectedKeys(words, docs, low, amount, oracle);
    }
  }

  /** A learning set is `true` exactly when fewer than 20 words qualify; otherwise it is an object of qualifying words. */
  lemma WordsForLearningContents(low: int, words: map<string, WordRecord>, docs: seq<string>, amount: int, oracle: seq<nat>)
    requires Enumerates(docs, Qualifying(words, false))
    ensures WordsForLearning(low, words, docs, amount, oracle) == Returned(JsTrue) <==> |docs| < 20
    ensures WordsForLearning(low, words, docs, amount, oracle) != Returned(JsNull)
    ensures |docs| >= 20 && Selected(words, docs, low, amount, oracle).1 != OracleExhausted ==>
      var keys := WordsForLearning(low, words, docs, amount, oracle).value.obj.keys;
      && |keys| <= Target(amount)
      && (forall i, j :: 0 <= i < j < |keys| ==> keys[i] != keys[j])
      && (forall i :: 0 <= i < |keys| ==> keys[i] in words && !words[keys[i]].learnt && !words[keys[i]].appeared)
  {
    if |docs| >= 20 {
      SelectedKeys(words, docs, low, amount, oracle);
    }
  }

  /**
   * As shipped, index 0 is never drawn: when exactly `amount` words qualify (and at least two),
   * the guard lets the loop start but no sequence of draws ever completes it.
   */
  lemma ShippedTestNeverCompletes(words: map<string, WordRecord>, docs: seq<string>, amount: int, oracle: seq<nat>, now: Timestamp)
    requires Enumerates(docs, Qualifying(words, true))
    requires |docs| == amount >= 2
    ensures TestQuestions(ShippedLow, words, docs, amount, oracle, now) == StillRunning
  {
    DrawCompletesOnlyWithRoom(ShippedLow, |docs|, amount, oracle);
    DrawFacts(ShippedLow, |docs|, amount, oracle, []);
  }

  /** As shipped, the first document the query returns is never picked, however the draws fall. */
  lemma ShippedNeverPicksFirst(words: map<string, WordRecord>, docs: seq<string>, amount: int, oracle: seq<nat>)
    requires forall i, j :: 0 <= i < j < |docs| ==> docs[i] != docs[j]
    requires forall i :: 0 <= i < |docs| ==> docs[i] in words
    requires |docs| > 0
    ensures docs[0] !in Selected(words, docs, ShippedLow, amount, oracle).0.keys
  {
    var d := Draw(ShippedLow, |docs|, amount, oracle, []);
    DrawFacts(ShippedLow, |docs|, amount, oracle, []);
    var keys := PickedKeys(docs, d.picks);
    assert forall i :: 0 <= i < |keys| ==> keys[i] == docs[d.picks[i]] && d.picks[i] != 0;
  }

  /** Drawing from index 0, whenever at least `amount >= 1` words qualify there are draws that complete the test. */
  lemma IntendedTestCompletes(words: map<string, WordRecord>, docs: seq<string>, amount: int, now: Timestamp)
    requires Enumerates(docs, Qualifying(words, true))
    requires 1 <= amount <= |docs|
    ensures TestQuestions(IntendedLow, words, docs, amount, Ascending(0, amount), now).Returned?
    ensures Draw(IntendedLow, |docs|, amount, Ascending(0, amount), []).end == Complete
  {
    DrawCompletesWithRoom(IntendedLow, |docs|, amount, []);
  }

  /**
   * The learning gate checks 20, not `amount`: asking for more words than qualify passes the
   * gate and the loop never completes, whichever index it starts from.
   */
  lemma LearningBeyondQualifyingNeverCompletes(low: int, words: map<string, WordRecord>, docs: seq<string>, amount: int, oracle: seq<nat>)
    requires Enumerates(docs, Qualifying(words, false))
    requires 20 <= |docs| < amount
    ensures WordsForLearning(low, words, docs, amount, oracle) != Returned(JsTrue)
    ensures Draw(low, |docs|, amount, oracle, []).end != Complete
  {
    DrawCompletesOnlyWithRoom(low, |docs|, amount, oracle);
  }

  /**
   * As shipped, index 0 is never drawn: when at least 20 words are unseen but no more than
   * asked for (the default 20 with exactly 20 unseen words, say), no sequence of draws ever
   * completes the learning set.
   */
  lemma ShippedLearningExactNeverCompletes(words: map<string, WordRecord>, docs: seq<string>, amount: int, oracle: seq<nat>)
    requires Enumerates(docs, Qualifying(words, false))
    requires 20 <= |docs| <= amount
    ensures WordsForLearning(ShippedLow, words, docs, amount, oracle) == StillRunning
  {
    DrawCompletesOnlyWithRoom(ShippedLow, |docs|, amount, oracle);
    DrawFacts(ShippedLow, |docs|, amount, oracle, []);
  }
}
