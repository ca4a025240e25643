/**
 * Ingestion of detected words (controllers/upload.js): the normaliser `sanitizeData` that turns
 * raw detections into `{word: {priority}}`, the text-file reader `detectTextFromTextFile`, and
 * the mimetype table `filetypes` with the check that skips unsupported uploads.
 */
module Upload {
  import opened Strings

  // ---------------------------------------------------------------------------------------
  // Normalising one detection
  // ---------------------------------------------------------------------------------------

  /** What survives `replace(/[^\w\s]|_/g, "")`: ASCII letters and digits, and whitespace. */
  predicate Survives(c: char)
  {
    (IsWordChar(c) && c != '_') || IsSpace(c)
  }

  /** `replace(/[^\w\s]|_/g, "")`: punctuation, `_` and every other non-ASCII character go. */
  function StripPunctuation(s: string): (r: string)
    ensures forall i :: 0 <= i < |r| ==> Survives(r[i])
    ensures |r| <= |s|
  {
    if |s| == 0 then ""
    else (if Survives(s[0]) then [s[0]] else []) + StripPunctuation(s[1..])
  }

  /** The rest of `s` after its leading run of whitespace. */
  function SkipSpaces(s: string): (r: string)
    ensures |r| <= |s|
    ensures |s| > 0 && IsSpace(s[0]) ==> |r| < |s|
    ensures |r| > 0 ==> !IsSpace(r[0])
    ensures forall c :: c in r ==> c in s
  {
    if |s| > 0 && IsSpace(s[0]) then SkipSpaces(s[1..]) else s
  }

  /** `replace(/\s+/g, " ")`: every maximal run of whitespace becomes one space. */
  function CollapseWhitespace(s: string): (r: string)
    ensures |s| > 0 ==> |r| > 0 && (r[0] == ' ' <==> IsSpace(s[0]))
    ensures forall i :: 0 <= i < |r| ==> r[i] == ' ' || (r[i] in s && !IsSpace(r[i]))
    ensures forall i :: 0 <= i < |r| - 1 ==> r[i] != ' ' || r[i + 1] != ' '
    decreases |s|
  {
    if |s| == 0 then ""
    else if IsSpace(s[0]) then
      var rest := CollapseWhitespace(SkipSpaces(s));
      assert forall i :: 0 <= i < |rest| && rest[i] != ' ' ==> rest[i] in s;
      " " + rest
    else [s[0]] + CollapseWhitespace(s[1..])
  }

  /**
   * The normalisation `sanitizeData` applies to each detection: strip, collapse whitespace,
   * lowercase. What remains is lowercase ASCII letters, digits and single spaces.
   */
  function Normalise(description: string): (r: string)
    ensures forall i :: 0 <= i < |r| ==> r[i] == ' ' || IsLower(r[i]) || IsDigit(r[i])
    ensures forall i :: 0 <= i < |r| - 1 ==> r[i] != ' ' || r[i + 1] != ' '
  {
    var stripped := StripPunctuation(description);
    var collapsed := CollapseWhitespace(stripped);
    assert forall i :: 0 <= i < |collapsed| ==> collapsed[i] == ' ' || (Survives(collapsed[i]) && !IsSpace(collapsed[i]));
    ToLower(collapsed)
  }

  /** The guard of the counting loop: an entry is counted unless empty, one character long or holding a digit. */
  predicate Retained(entry: string)
  {
    entry != "" && |entry| != 1 && !HasDigit(entry)
  }

  /** What every key of the sanitised result looks like. */
  predicate ValidKey(k: string)
  {
    && |k| >= 2
    && (forall i :: 0 <= i < |k| ==> k[i] == ' ' || IsLower(k[i]))
    && (forall i :: 0 <= i < |k| - 1 ==> k[i] != ' ' || k[i + 1] != ' ')
  }

  // ---------------------------------------------------------------------------------------
  // The entries sanitizeData counts
  // ---------------------------------------------------------------------------------------

  /** `data.shift()`: the first detection is dropped; on an empty array nothing happens. */
  function Shift(data: seq<string>): seq<string>
  {
    if |data| == 0 then [] else data[1..]
  }

  function NormaliseAll(data: seq<string>): (r: seq<string>)
    ensures |r| == |data|
    ensures forall i :: 0 <= i < |data| ==> r[i] == Normalise(data[i])
  {
    if |data| == 0 then [] else [Normalise(data[0])] + NormaliseAll(data[1..])
  }

  /** The entries of `xs` the counting loop does not skip, in order. */
  function Keep(xs: seq<string>): seq<string>
  {
    if |xs| == 0 then []
    else Keep(xs[..|xs| - 1]) + (if Retained(xs[|xs| - 1]) then [xs[|xs| - 1]] else [])
  }

  /** Each retained value occurs in `Keep(xs)` as often as in `xs`; the others do not occur. */
  lemma {:induction false} KeepCount(xs: seq<string>, k: string)
    ensures multiset(Keep(xs))[k] == if Retained(k) then multiset(xs)[k] else 0
  {
    if |xs| > 0 {
      var init := xs[..|xs| - 1];
      assert xs == init + [xs[|xs| - 1]];
      KeepCount(init, k);
    }
  }

  /** The normalised detections, other than the first, that the loop counts. */
  function Counted(data: seq<string>): seq<string>
  {
    Keep(NormaliseAll(Shift(data)))
  }

  lemma CountedAreValidKeys(data: seq<string>, k: string)
    requires k in Counted(data)
    ensures ValidKey(k)
  {
    var normalised := NormaliseAll(Shift(data));
    KeepCount(normalised, k);
    assert k in multiset(normalised);
    var i :| 0 <= i < |normalised| && normalised[i] == k;
    assert k == Normalise(Shift(data)[i]);
  }

  /**
   * The object `sanitizeData(data)` returns, as a map from key to priority: the keys are the
   * retained normalised detections after the first, and each key's priority is the number of
   * those detections that normalise to it.
   */
  function Priorities(data: seq<string>): (r: map<string, nat>)
    ensures forall k :: k in r <==> k in Counted(data)
    ensures forall k :: k in r ==> ValidKey(k) && r[k] >= 1
  {
    var counted := Counted(data);
    forall k | k in counted ensures ValidKey(k) && multiset(counted)[k] >= 1 {
      CountedAreValidKeys(data, k);
    }
    map k | k in counted :: multiset(counted)[k]
  }

  /** The sum of the priorities of `keys`. */
  function SumOf(keys: seq<string>, m: map<string, nat>): int
    requires forall k :: k in keys ==> k in m
  {
    if |keys| == 0 then 0 else SumOf(keys[..|keys| - 1], m) + m[keys[|keys| - 1]]
  }

  lemma {:induction false} SumOfFrame(keys: seq<string>, m: map<string, nat>, x: string, v: nat)
    requires forall k :: k in keys ==> k in m
    requires x !in keys
    ensures SumOf(keys, m[x := v]) == SumOf(keys, m)
  {
    if |keys| > 0 {
      SumOfFrame(keys[..|keys| - 1], m, x, v);
    }
  }

  lemma {:induction false} SumOfIncrement(keys: seq<string>, m: map<string, nat>, x: string)
    requires forall k :: k in keys ==> k in m
    requires forall i, j :: 0 <= i < j < |keys| ==> keys[i] != keys[j]
    requires x in keys
    ensures SumOf(keys, m[x := m[x] + 1]) == SumOf(keys, m) + 1
  {
    var init := keys[..|keys| - 1];
    if keys[|keys| - 1] == x {
      assert x !in init;
      SumOfFrame(init, m, x, m[x] + 1);
    } else {
      assert x in init;
      SumOfIncrement(init, m, x);
    }
  }

  // ---------------------------------------------------------------------------------------
  // sanitizeData and detectTextFromTextFile
  // ---------------------------------------------------------------------------------------

  /**
   * `sanitizeData(data)`, each detection given by its `description`. `result` is the returned
   * object and `uniques` its keys in insertion order: ascending, because the list is sorted
   * before counting. The priorities add up to the number of detections counted.
   */
  method SanitizeData(data: seq<string>) returns (uniques: seq<string>, result: map<string, nat>)
    ensures result == Priorities(data)
    ensures StrictlyAscending(uniques)
    ensures forall k :: k in uniques <==> k in result
    ensures SumOf(uniques, result) == |Counted(data)|
  {
    var sanitized := SortAscending(NormaliseAll(Shift(data)));
    uniques, result := CountSorted(sanitized);
    TallyComplete(uniques, result, data);
  }

  /**
   * The counting loop of `sanitizeData` over the sorted entries: skipped entries aside, the
   * first occurrence of an entry appends it to `uniques` with priority 1 and every later one
   * increments its priority.
   */
  method CountSorted(sorted: seq<string>) returns (uniques: seq<string>, result: map<string, nat>)
    requires Ascending(sorted)
    ensures Tally(uniques, result, Keep(sorted))
  {
    uniques, result := [], map[];
    for i := 0 to |sorted|
      invariant Tally(uniques, result, Keep(sorted[..i]))
      invariant i == 0 ==> uniques == []
      invariant 0 < i ==> AllAtMost(uniques, sorted[i - 1])
    {
      var entry := sorted[i];
      KeepSnoc(sorted, i);
      AscendingStep(uniques, sorted, i);
      if entry == "" || |entry| == 1 || HasDigit(entry) {
        assert !Retained(entry);
      } else if entry !in uniques {
        TallyNew(uniques, result, Keep(sorted[..i]), entry);
        uniques := uniques + [entry];
        result := result[entry := 1];
      } else {
        TallyRepeat(uniques, result, Keep(sorted[..i]), entry);
        result := result[entry := result[entry] + 1];
      }
    }
    assert sorted[..|sorted|] == sorted;
  }

  /** The tally over all sorted entries is the priority map of the detections. */
  lemma TallyComplete(uniques: seq<string>, result: map<string, nat>, data: seq<string>)
    requires Tally(uniques, result, Keep(SortAscending(NormaliseAll(Shift(data)))))
    ensures result == Priorities(data)
    ensures SumOf(uniques, result) == |Counted(data)|
  {
    SortedCounted(data);
  }

  /**
   * The state of the counting loop after the entries `kept`: `uniques` lists the distinct
   * entries in ascending order, `result` counts each, and the counts add up to `|kept|`.
   */
  predicate Tally(uniques: seq<string>, result: map<string, nat>, kept: seq<string>)
  {
    && (forall k :: k in uniques ==> k in result)
    && (forall k :: k in result ==> k in uniques)
    && (forall k :: k in result ==> k in kept)
    && (forall k :: k in kept ==> k in result)
    && (forall k :: k in result ==> result[k] == multiset(kept)[k])
    && StrictlyAscending(uniques)
    && SumOf(uniques, result) == |kept|
  }

  lemma TallyNew(uniques: seq<string>, result: map<string, nat>, kept: seq<string>, entry: string)
    requires Tally(uniques, result, kept)
    requires entry !in uniques
    requires AllAtMost(uniques, entry)
    ensures Tally(uniques + [entry], result[entry := 1], kept + [entry])
    ensures AllAtMost(uniques + [entry], entry)
  {
    AppendAscending(uniques, entry);
    SumOfFrame(uniques, result, entry, 1);
    assert multiset(kept)[entry] == 0;
  }

  lemma TallyRepeat(uniques: seq<string>, result: map<string, nat>, kept: seq<string>, entry: string)
    requires Tally(uniques, result, kept)
    requires entry in uniques
    ensures Tally(uniques, result[entry := result[entry] + 1], kept + [entry])
  {
    DistinctWhenAscending(uniques);
    SumOfIncrement(uniques, result, entry);
  }

  predicate AllAtMost(s: seq<string>, x: string)
  {
    forall j :: 0 <= j < |s| ==> LessEq(s[j], x)
  }

  lemma AscendingStep(uniques: seq<string>, sorted: seq<string>, i: nat)
    requires i < |sorted| && Ascending(sorted)
    requires 0 < i ==> AllAtMost(uniques, sorted[i - 1])
    requires i == 0 ==> uniques == []
    ensures AllAtMost(uniques, sorted[i])
  {
    forall j | 0 <= j < |uniques| ensures LessEq(uniques[j], sorted[i]) {
      if uniques[j] != sorted[i - 1] && sorted[i - 1] != sorted[i] {
        LessTransitive(uniques[j], sorted[i - 1], sorted[i]);
      }
    }
  }

  lemma KeepSnoc(xs: seq<string>, i: nat)
    requires i < |xs|
    ensures Retained(xs[i]) ==> Keep(xs[..i + 1]) == Keep(xs[..i]) + [xs[i]]
    ensures !Retained(xs[i]) ==> Keep(xs[..i + 1]) == Keep(xs[..i])
  {
    assert xs[..i + 1][..i] == xs[..i];
    assert Keep(xs[..i]) + [] == Keep(xs[..i]);
  }

  lemma AppendAscending(s: seq<string>, x: string)
    requires StrictlyAscending(s)
    requires forall j :: 0 <= j < |s| ==> LessEq(s[j], x)
    requires x !in s
    ensures StrictlyAscending(s + [x])
  {
    forall j | 0 <= j < |s| ensures Less(s[j], x) {
      assert s[j] in s;
    }
  }

  lemma DistinctWhenAscending(s: seq<string>)
    requires StrictlyAscending(s)
    ensures forall i, j :: 0 <= i < j < |s| ==> s[i] != s[j]
  {
    forall i, j | 0 <= i < j < |s| ensures s[i] != s[j] {
      LessIrreflexive(s[i]);
    }
  }

  /** Sorting before filtering changes neither which entries are counted nor how often. */
  lemma SortedCounted(data: seq<string>)
    ensures var kept := Keep(SortAscending(NormaliseAll(Shift(data))));
      && multiset(kept) == multiset(Counted(data))
      && |kept| == |Counted(data)|
      && (forall k :: k in kept <==> k in Counted(data))
  {
    var sorted := SortAscending(NormaliseAll(Shift(data)));
    var kept, counted := Keep(sorted), Counted(data);
    forall k ensures multiset(kept)[k] == multiset(counted)[k] {
      KeepCount(sorted, k);
      KeepCount(NormaliseAll(Shift(data)), k);
    }
    assert multiset(kept) == multiset(counted);
    assert |kept| == |multiset(kept)| == |multiset(counted)| == |counted|;
    forall k ensures k in kept <==> k in counted {
      assert k in kept <==> k in multiset(kept);
      assert k in counted <==> k in multiset(counted);
    }
  }

  /** `/\r?\n|\r/g` replaced by a space: a CRLF pair, a lone LF and a lone CR each become one space. */
  function ReplaceLineBreaks(s: string): (r: string)
    ensures '\n' !in r && '\r' !in r
    ensures |r| <= |s|
  {
    if |s| == 0 then ""
    else if |s| >= 2 && s[0] == '\r' && s[1] == '\n' then " " + ReplaceLineBreaks(s[2..])
    else if s[0] == '\n' || s[0] == '\r' then " " + ReplaceLineBreaks(s[1..])
    else [s[0]] + ReplaceLineBreaks(s[1..])
  }

  /** Text without line breaks passes through unchanged, whatever follows it. */
  lemma {:induction false} ReplaceLineBreaksPrefix(a: string, b: string)
    requires '\n' !in a && '\r' !in a
    ensures ReplaceLineBreaks(a + b) == a + ReplaceLineBreaks(b)
  {
    if |a| == 0 {
      assert a + b == b;
    } else {
      assert (a + b)[0] == a[0] && (a + b)[1..] == a[1..] + b;
      ReplaceLineBreaksPrefix(a[1..], b);
      assert [a[0]] + (a[1..] + ReplaceLineBreaks(b)) == a + ReplaceLineBreaks(b);
    }
  }

  /** The tokens of a text file: line breaks become spaces, then the text is split on single spaces. */
  function Tokens(text: string): (r: seq<string>)
    ensures forall i :: 0 <= i < |r| ==> ' ' !in r[i] && '\n' !in r[i] && '\r' !in r[i]
  {
    var flat := ReplaceLineBreaks(text);
    var r := Split(flat, ' ');
    forall i | 0 <= i < |r| ensures '\n' !in r[i] && '\r' !in r[i] {
      JoinSplit(flat, ' ');
      TokenWithin(r, i, ' ');
    }
    r
  }

  /** Every character of a piece appears in the joined string. */
  lemma {:induction false} TokenWithin(parts: seq<string>, i: nat, sep: char)
    requires i < |parts|
    ensures forall c :: c in parts[i] ==> c in Join(parts, sep)
  {
    if |parts| > 1 {
      if i > 0 {
        TokenWithin(parts[1..], i - 1, sep);
      }
      assert Join(parts, sep) == parts[0] + [sep] + Join(parts[1..], sep);
    }
  }

  /**
   * The tokens rejoined with spaces give back the text with its line breaks replaced, so the
   * split loses nothing but the separators.
   */
  lemma TokensRejoin(text: string)
    ensures Join(Tokens(text), ' ') == ReplaceLineBreaks(text)
  {
    JoinSplit(ReplaceLineBreaks(text), ' ');
  }

  /**
   * `detectTextFromTextFile(buffer)` on the decoded text: every token is pushed as one detection,
   * and the detections are sanitised.
   */
  method DetectTextFromTextFile(text: string) returns (uniques: seq<string>, result: map<string, nat>)
    ensures result == Priorities(Tokens(text))
    ensures StrictlyAscending(uniques)
    ensures forall k :: k in uniques <==> k in result
  {
    var contents := Tokens(text);
    var data := [];
    for i := 0 to |contents|
      invariant data == contents[..i]
    {
      data := data + [contents[i]];
    }
    assert data == contents;
    uniques, result := SanitizeData(data);
  }

  /**
   * The first token of a text file is never counted: the file's priorities are those of the
   * text after the first space alone, with every one of its tokens counted.
   */
  lemma TextFirstTokenDropped(first: string, rest: string)
    requires ' ' !in first && '\n' !in first && '\r' !in first
    ensures Counted(Tokens(first + " " + rest)) == Keep(NormaliseAll(Tokens(rest)))
  {
    TokensAfterFirst(first, rest);
  }

  /** A first word free of spaces and line breaks is the first token, and the rest tokenises alone. */
  lemma TokensAfterFirst(first: string, rest: string)
    requires ' ' !in first && '\n' !in first && '\r' !in first
    ensures Tokens(first + " " + rest) == [first] + Tokens(rest)
  {
    var tail := ReplaceLineBreaks(rest);
    ReplaceLineBreaksPrefix(first, " " + rest);
    assert first + " " + rest == first + (" " + rest);
    assert ReplaceLineBreaks(" " + rest) == " " + tail;
    assert ReplaceLineBreaks(first + " " + rest) == first + [' '] + tail;
    SplitAtSeparator(first, tail, ' ');
  }

  // ---------------------------------------------------------------------------------------
  // The mimetype table and the upload check
  // ---------------------------------------------------------------------------------------

  /** The detector `filetypes` names for a mimetype. */
  datatype Handler = ImageHandler | PdfHandler | TextFileHandler

  datatype FileType = FileType(extension: string, handler: Handler)

  /** `filetypes`: the four accepted mimetypes, their file extensions and their detectors. */
  const FileTypes: map<string, FileType> := map[
    "image/jpeg" := FileType("jpg", ImageHandler),
    "image/png" := FileType("png", ImageHandler),
    "application/pdf" := FileType("pdf", PdfHandler),
    "text/plain" := FileType("txt", TextFileHandler)
  ]

  /** A submitted file as the upload handler sees it. */
  datatype UploadedFile = UploadedFile(originalName: string, mimetype: string)

  function InvalidFormat(f: UploadedFile): string
  {
    "Niepoprawny format pliku: " + f.originalName
  }

  /** The submitted files whose mimetype is not in the table, in order. */
  function Rejected(files: seq<UploadedFile>): (r: seq<UploadedFile>)
    ensures forall f :: f in r <==> f in files && f.mimetype !in FileTypes
  {
    if |files| == 0 then []
    else Rejected(files[..|files| - 1]) + (if files[|files| - 1].mimetype in FileTypes then [] else [files[|files| - 1]])
  }

  /** The submitted files whose mimetype is in the table, in order. */
  function Supported(files: seq<UploadedFile>): (r: seq<UploadedFile>)
    ensures forall f :: f in r <==> f in files && f.mimetype in FileTypes
  {
    if |files| == 0 then []
    else Supported(files[..|files| - 1]) + (if files[|files| - 1].mimetype in FileTypes then [files[|files| - 1]] else [])
  }

  /** Every submitted file is either rejected or handed to a detector, never both. */
  lemma {:induction false} EveryFileRejectedOrSupported(files: seq<UploadedFile>)
    ensures |Rejected(files)| + |Supported(files)| == |files|
  {
    if |files| > 0 {
      EveryFileRejectedOrSupported(files[..|files| - 1]);
    }
  }

  /**
   * The check at the head of the upload loop: a file whose mimetype is not in `filetypes` adds
   * an "invalid format" error and is skipped; the others go, in order, to the table's detector.
   */
  method CheckFileTypes(files: seq<UploadedFile>) returns (errors: seq<string>, accepted: seq<(UploadedFile, FileType)>)
    ensures Checked(files, errors, accepted)
  {
    errors, accepted := [], [];
    for i := 0 to |files|
      invariant Checked(files[..i], errors, accepted)
    {
      assert files[..i + 1] == files[..i] + [files[i]];
      var file := files[i];
      if file.mimetype !in FileTypes {
        CheckedReject(files[..i], file, errors, accepted);
        errors := errors + [InvalidFormat(file)];
        continue;
      }
      CheckedAccept(files[..i], file, errors, accepted);
      accepted := accepted + [(file, FileTypes[file.mimetype])];
    }
    assert files[..|files|] == files;
  }

  /**
   * The outcome of the check over `files`: one "invalid format" error per rejected file and one
   * (file, table entry) pair per supported file, each in submission order.
   */
  predicate Checked(files: seq<UploadedFile>, errors: seq<string>, accepted: seq<(UploadedFile, FileType)>)
  {
    && |errors| == |Rejected(files)|
    && (forall j :: 0 <= j < |errors| ==> errors[j] == InvalidFormat(Rejected(files)[j]))
    && |accepted| == |Supported(files)|
    && (forall j :: 0 <= j < |accepted| ==>
          accepted[j].0 == Supported(files)[j] && accepted[j].1 == FileTypes[accepted[j].0.mimetype])
  }

  lemma CheckedReject(files: seq<UploadedFile>, f: UploadedFile, errors: seq<string>, accepted: seq<(UploadedFile, FileType)>)
    requires Checked(files, errors, accepted)
    requires f.mimetype !in FileTypes
    ensures Checked(files + [f], errors + [InvalidFormat(f)], accepted)
  {
    assert (files + [f])[..|files|] == files;
  }

  lemma CheckedAccept(files: seq<UploadedFile>, f: UploadedFile, errors: seq<string>, accepted: seq<(UploadedFile, FileType)>)
    requires Checked(files, errors, accepted)
    requires f.mimetype in FileTypes
    ensures Checked(files + [f], errors, accepted + [(f, FileTypes[f.mimetype])])
  {
    assert (files + [f])[..|files|] == files;
  }
}
