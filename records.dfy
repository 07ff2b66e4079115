/** One user's entry in the progress store (`user_progress.json`), how a
    stored entry is read back, how its sentence block is computed, and what
    the Translate view does with it (app.py, `load_user_progress` and
    `translation_page`). */
module Records {
  import opened Strings
  import opened Dicts

  datatype Option<T> = None | Some(value: T)

  /** A scalar JSON value of the metadata form: text, or the age as a number. */
  datatype Field = Text(text: string) | Number(number: int)

  /** A user's `metadata` object (`name`, `sex`, `age`, `gmail`, `country`
      once saved; `{}` before). */
  type Metadata = map<string, Field>

  /** The three choices of the Sex selectbox. */
  datatype Sex = Male | Female | Other

  /** The Age number input only yields values from 10 to 120. */
  type Age = a: int | 10 <= a <= 120 witness 18

  /** One submitted translation: the sentence as shown, the stripped
      translation and the submission time (an opaque clock reading). */
  datatype Entry = Entry(english: string, translation: string, timestamp: string)

  /** A user's record once loaded: every field is present. `translations` is
      keyed by `str(sentence index)`; `index` is the cursor into `assigned`. */
  datatype UserRecord = UserRecord(
    metadata: Metadata,
    assignedIndices: seq<int>,
    translations: Dict<Entry>,
    index: int)

  /** A user's record as the JSON file may hold it: any field may be missing. */
  datatype RawRecord = RawRecord(
    translations: Option<Dict<Entry>>,
    metadata: Option<Metadata>,
    assignedIndices: Option<seq<int>>,
    index: Option<int>)

  /** The record a first visit to the Translate view creates. */
  function NewRecord(): (r: UserRecord)
    ensures r.metadata == map[] && r.assignedIndices == [] && r.index == 0
    ensures r.translations.Valid() && r.translations.values == map[]
  {
    UserRecord(map[], [], Empty(), 0)
  }

  /** Load-time defaulting: a missing `translations` or `metadata` becomes
      `{}`, a missing `assigned` becomes `[]`, a missing `index` becomes 0;
      a present field is kept as stored. */
  function Normalise(raw: RawRecord): (r: UserRecord)
    ensures raw.translations.Some? ==> r.translations == raw.translations.value
    ensures raw.translations.None? ==> r.translations == Empty()
    ensures raw.metadata.Some? ==> r.metadata == raw.metadata.value
    ensures raw.metadata.None? ==> r.metadata == map[]
    ensures raw.assignedIndices.Some? ==> r.assignedIndices == raw.assignedIndices.value
    ensures raw.assignedIndices.None? ==> r.assignedIndices == []
    ensures raw.index.Some? ==> r.index == raw.index.value
    ensures raw.index.None? ==> r.index == 0
  {
    UserRecord(
      match raw.metadata case Some(m) => m case None => map[],
      match raw.assignedIndices case Some(a) => a case None => [],
      match raw.translations case Some(t) => t case None => Empty(),
      match raw.index case Some(i) => i case None => 0)
  }

  /** How `save_user_progress` writes a loaded record: every field present. */
  function Stored(r: UserRecord): RawRecord {
    RawRecord(Some(r.translations), Some(r.metadata), Some(r.assignedIndices), Some(r.index))
  }

  /** Saving a loaded record and loading it again gives the same record. */
  lemma ReloadIsIdentity(r: UserRecord)
    ensures Normalise(Stored(r)) == r
  {
  }

  /** `metadata_page` saves a user it has not seen as `{"metadata": m}` only;
      the next load reads that back as a fresh record carrying `m`. */
  lemma MetadataOnlyRecordLoads(m: Metadata)
    ensures Normalise(RawRecord(None, Some(m), None, None)) == NewRecord().(metadata := m)
  {
  }

  /** The number of sentences in one user's block. */
  const BlockSize: nat := 100

  /** `list(range(lo, hi))`: the consecutive integers from `lo` up to but
      excluding `hi`; empty when `hi <= lo`. */
  function Range(lo: int, hi: int): (r: seq<int>)
    ensures |r| == if lo < hi then hi - lo else 0
    ensures forall j :: 0 <= j < |r| ==> r[j] == lo + j
    decreases hi - lo
  {
    if lo < hi then [lo] + Range(lo + 1, hi) else []
  }

  /** The block of a user at position `p` of the store, with `n` sentences:
      `range(100 * p, min(100 * p + 100, n))`. */
  function AssignedBlock(p: nat, n: nat): (r: seq<int>)
    ensures |r| <= BlockSize
    ensures r == [] <==> BlockSize * p >= n
    ensures BlockSize * p + BlockSize <= n ==> |r| == BlockSize
    ensures BlockSize * p < n < BlockSize * p + BlockSize ==> |r| == n - BlockSize * p
    ensures forall j :: 0 <= j < |r| ==> r[j] == BlockSize * p + j && r[j] < n
  {
    var start := p * BlockSize;
    Range(start, if start + BlockSize < n then start + BlockSize else n)
  }

  /** Python's `s[i]` on a list: a negative `i` counts from the end; an
      index outside `-len(s) .. len(s) - 1` raises IndexError (`None`). */
  function PyIndex<T>(s: seq<T>, i: int): (r: Option<T>)
    ensures r.Some? <==> -|s| <= i < |s|
    ensures 0 <= i < |s| ==> r == Some(s[i])
    ensures -|s| <= i < 0 ==> r == Some(s[|s| + i])
  {
    if 0 <= i < |s| then Some(s[i])
    else if -|s| <= i < 0 then Some(s[|s| + i])
    else None
  }

  /** The admin table's `Progress (%)`: 0 when nothing is assigned, the
      exact ratio otherwise (the rounding to two places is not modelled). */
  function Percent(translated: nat, total: nat): (r: real)
    ensures total == 0 ==> r == 0.0
    ensures translated <= total ==> 0.0 <= r <= 100.0
    ensures 0 < total == translated ==> r == 100.0
    ensures 0 < total < translated ==> r > 100.0
  {
    if total == 0 then 0.0
    else
      var ratio := (translated as real) / (total as real);
      assert translated <= total ==> ratio <= 1.0;
      assert total < translated ==> ratio > 1.0;
      100.0 * ratio
  }

  /** What the Translate view shows once the record exists and has been
      given its block. */
  datatype TranslateView =
    | DivisionByZero   // the progress line divides by an empty block's length
    | IndexOutOfRange  // `assigned[index]` or `sentences[...]` raised IndexError
    | Completed(translated: nat, total: nat)
    | Prompt(cursor: int, sentenceIndex: int, sentence: string, translated: nat, total: nat)

  /** The Translate view (app.py:110-125). The progress line is rendered
      before the completion check, so an empty block fails with a division
      by zero rather than showing completion. */
  function View(rec: UserRecord, sentences: seq<string>): (v: TranslateView)
    ensures v == DivisionByZero <==> rec.assignedIndices == []
    ensures v.Completed? <==> rec.assignedIndices != [] && rec.index >= |rec.assignedIndices|
    ensures (v.Completed? || v.Prompt?) ==>
              v.translated == |rec.translations.values| && v.total == |rec.assignedIndices|
    ensures v.Prompt? ==> v.cursor == rec.index
                          && PyIndex(rec.assignedIndices, rec.index) == Some(v.sentenceIndex)
                          && PyIndex(sentences, v.sentenceIndex) == Some(v.sentence)
    ensures v == IndexOutOfRange <==>
              0 < |rec.assignedIndices| && rec.index < |rec.assignedIndices|
              && (PyIndex(rec.assignedIndices, rec.index).None?
                  || PyIndex(sentences, PyIndex(rec.assignedIndices, rec.index).value).None?)
  {
    var total := |rec.assignedIndices|;
    if total == 0 then DivisionByZero
    else if rec.index >= total then Completed(|rec.translations.values|, total)
    else
      match PyIndex(rec.assignedIndices, rec.index)
      case None => IndexOutOfRange
      case Some(k) =>
        match PyIndex(sentences, k)
        case None => IndexOutOfRange
        case Some(s) => Prompt(rec.index, k, s, |rec.translations.values|, total)
  }

  /** In a well-placed record the prompt is the sentence under the cursor. */
  lemma PromptAtCursor(rec: UserRecord, sentences: seq<string>)
    requires 0 <= rec.index < |rec.assignedIndices|
    requires 0 <= rec.assignedIndices[rec.index] < |sentences|
    ensures View(rec, sentences) == Prompt(rec.index, rec.assignedIndices[rec.index],
              sentences[rec.assignedIndices[rec.index]], |rec.translations.values|, |rec.assignedIndices|)
  {
  }

  /** The result of pressing "Submit Translation". */
  datatype SubmitOutcome =
    | Blank                       // the stripped text is empty: a warning, nothing stored
    | Accepted(key: string)       // stored under `key`, cursor advanced
    | NoPrompt(view: TranslateView)  // no sentence is shown, so there is no button

  datatype Submission = Submission(outcome: SubmitOutcome, record: UserRecord)

  /** A submission on the Translate view (app.py:119-145): a non-blank text
      is stored, stripped, under `str` of the shown sentence's index, with the
      sentence snapshot and the timestamp, and the cursor moves one past the
      current one. */
  function SubmitRecord(rec: UserRecord, sentences: seq<string>, text: string, timestamp: string): (r: Submission)
    ensures r.record.metadata == rec.metadata && r.record.assignedIndices == rec.assignedIndices
    ensures !r.outcome.Accepted? ==> r.record == rec
    ensures r.outcome.Accepted? <==> View(rec, sentences).Prompt? && Strip(text) != []
    ensures r.outcome == Blank <==> View(rec, sentences).Prompt? && Strip(text) == []
    ensures r.outcome.NoPrompt? ==> r.outcome.view == View(rec, sentences)
    ensures r.outcome.Accepted? ==>
              var v := View(rec, sentences);
              && r.outcome.key == Str(v.sentenceIndex)
              && r.record.index == rec.index + 1
              && r.record.translations.values
                   == rec.translations.values[r.outcome.key := Entry(v.sentence, Strip(text), timestamp)]
              && r.record.translations.keys
                   == (if r.outcome.key in rec.translations.values then rec.translations.keys
                       else rec.translations.keys + [r.outcome.key])
              && (rec.translations.Valid() ==> r.record.translations.Valid())
  {
    var v := View(rec, sentences);
    if !v.Prompt? then Submission(NoPrompt(v), rec)
    else if Strip(text) == [] then Submission(Blank, rec)
    else
      var key := Str(v.sentenceIndex);
      var entry := Entry(v.sentence, Strip(text), timestamp);
      Submission(Accepted(key),
                 rec.(translations := rec.translations.Put(key, entry), index := v.cursor + 1))
  }

  /** The label the Sex selectbox stores. */
  function SexLabel(s: Sex): string {
    match s
    case Male => "Male"
    case Female => "Female"
    case Other => "Other"
  }

  /** The `metadata` object "Save Metadata" writes: exactly the five entered values. */
  function MetadataOf(name: string, sex: Sex, age: Age, gmail: string, country: string): (m: Metadata)
    ensures m.Keys == {"name", "sex", "age", "gmail", "country"}
    ensures m["name"] == Text(name) && m["sex"] == Text(SexLabel(sex)) && m["age"] == Number(age)
    ensures m["gmail"] == Text(gmail) && m["country"] == Text(country)
  {
    map["name" := Text(name), "sex" := Text(SexLabel(sex)), "age" := Number(age),
        "gmail" := Text(gmail), "country" := Text(country)]
  }
}
