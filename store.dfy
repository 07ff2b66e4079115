/** The progress store as the pages use it: loaded from `user_progress.json`
    with missing fields defaulted, then changed one user at a time and
    written back whole (app.py, `load_user_progress`, `metadata_page`,
    `translation_page` and the tables of `admin_page`). Writing back is
    modelled by the new value of `data`; see `ReloadIsIdentity` for why the
    next load reads the same value. */
module Store {
  import opened Strings
  import opened Dicts
  import opened Records
  import opened Progress
  import opened Reporting

  /** The parsed JSON document is a dictionary, and so is every
      `translations` object it holds. */
  ghost predicate FileValid(doc: Dict<RawRecord>) {
    && doc.Valid()
    && forall u :: u in doc.values && doc.values[u].translations.Some? ==>
         doc.values[u].translations.value.Valid()
  }

  /** The loop of `load_user_progress` (app.py:30-38) over the parsed
      document: each record, in key order, with its missing fields defaulted. */
  method NormaliseAll(doc: Dict<RawRecord>) returns (d: Store)
    requires FileValid(doc)
    ensures StoreValid(d)
    ensures d.keys == doc.keys
    ensures forall u :: u in doc.values ==> u in d.values && d.values[u] == Normalise(doc.values[u])
  {
    d := Empty();
    var i := 0;
    while i < |doc.keys|
      invariant 0 <= i <= |doc.keys|
      invariant StoreValid(d)
      invariant d.keys == doc.keys[..i]
      invariant forall u :: u in d.values ==> u in doc.values && d.values[u] == Normalise(doc.values[u])
    {
      var u := doc.keys[i];
      assert u !in d.keys by {
        forall j | 0 <= j < i ensures doc.keys[..i][j] != u {
          assert doc.keys[j] != doc.keys[i];
        }
      }
      var rec := Normalise(doc.values[u]);
      assert rec.translations.Valid();
      d := d.Put(u, rec);
      assert doc.keys[..i + 1] == doc.keys[..i] + [u];
      i := i + 1;
    }
    assert doc.keys[..i] == doc.keys;
  }

  /** Pressing "Submit Translation" on a record whose Translate view is
      `view` (app.py:119-145): a prompt and a non-blank text store the
      stripped text under `str` of the sentence index and advance the cursor.
      This is the handler's statement-by-statement form: it reuses the view
      already rendered instead of recomputing it, and `SubmitRecord` is its
      specification. */
  method SubmitOn(rec: UserRecord, sentences: seq<string>, text: string, timestamp: string, view: TranslateView)
    returns (outcome: SubmitOutcome, updated: UserRecord)
    requires view == View(rec, sentences)
    ensures Submission(outcome, updated) == SubmitRecord(rec, sentences, text, timestamp)
  {
    updated := rec;
    if !view.Prompt? {
      outcome := NoPrompt(view);
    } else {
      var translation := Strip(text);
      if translation == [] {
        outcome := Blank;
      } else {
        var key := Str(view.sentenceIndex);
        var entry := Entry(view.sentence, translation, timestamp);
        updated := rec.(translations := rec.translations.Put(key, entry), index := view.cursor + 1);
        outcome := Accepted(key);
      }
    }
  }

  /** The translation rows of one user (app.py:195-205): one row per
      stored translation, in the order of `translations`. */
  method EntryRows(u: string, t: Dict<Entry>) returns (rows: seq<TranslationRow>)
    requires t.Valid()
    ensures rows == UserRows(u, t.keys, t.values)
  {
    rows := [];
    var j := 0;
    while j < |t.keys|
      invariant 0 <= j <= |t.keys|
      invariant rows == UserRows(u, t.keys[..j], t.values)
    {
      var k := t.keys[j];
      var e := t.values[k];
      assert t.keys[..j + 1][..j] == t.keys[..j];
      rows := rows + [TranslationRow(u, k, e.english, e.translation, e.timestamp)];
      j := j + 1;
    }
    assert t.keys[..j] == t.keys;
  }

  /** The loop of `admin_page` (app.py:178-206): for each user in store
      order, a progress row, a metadata row and the user's translation rows. */
  method Tables(users: seq<string>, recs: map<string, UserRecord>)
    returns (progress: seq<ProgressRow>, people: seq<MetadataRow>, rows: seq<TranslationRow>)
    requires Listed(users, recs)
    ensures progress == ProgressTable(users, recs)
    ensures people == MetadataTable(users, recs)
    ensures rows == TranslationTable(users, recs)
  {
    progress, people, rows := [], [], [];
    var i := 0;
    while i < |users|
      invariant 0 <= i <= |users|
      invariant Listed(users[..i], recs)
      invariant progress == ProgressTable(users[..i], recs)
      invariant people == MetadataTable(users[..i], recs)
      invariant rows == TranslationTable(users[..i], recs)
    {
      TablesStep(users, recs, i);
      var u := users[i];
      var rec := recs[u];
      var translated, blockLength := |rec.translations.values|, |rec.assignedIndices|;
      var percent := if blockLength != 0 then Percent(translated, blockLength) else 0.0;
      progress := progress + [ProgressRow(u, translated, blockLength, percent)];
      var m := rec.metadata;
      people := people + [MetadataRow(u, FieldOr(m, "name"), FieldOr(m, "sex"), FieldOr(m, "age"),
                                      FieldOr(m, "gmail"), FieldOr(m, "country"))];
      var own := EntryRows(u, rec.translations);
      rows := rows + own;
      i := i + 1;
    }
    assert users[..i] == users;
  }

  /** `list(all_progress.keys()).index(username)` (app.py:102-103): the
      position of the first occurrence of `u` among the keys. */
  method Position(keys: seq<string>, u: string) returns (p: nat)
    requires u in keys
    ensures p < |keys| && keys[p] == u
    ensures forall q :: 0 <= q < p ==> keys[q] != u
  {
    p := 0;
    while keys[p] != u
      invariant p < |keys|
      invariant u in keys[p..]
      invariant forall q :: 0 <= q < p ==> keys[q] != u
      decreases |keys| - p
    {
      assert keys[p..] == [keys[p]] + keys[p + 1..];
      p := p + 1;
    }
  }

  class ProgressStore {
    /** `all_progress`: every user's record, in the file's key order. */
    var data: Dict<UserRecord>

    ghost predicate Valid()
      reads this
    {
      StoreValid(data)
    }

    /** `load_user_progress` (app.py:24-40): no file reads as `{}`; otherwise
        every record keeps its place and gets its missing fields defaulted. */
    constructor Load(file: Option<Dict<RawRecord>>)
      requires file.Some? ==> FileValid(file.value)
      ensures Valid()
      ensures file.None? ==> data == Empty()
      ensures file.Some? ==> data.keys == file.value.keys
      ensures file.Some? ==> forall u :: u in file.value.values ==>
                u in data.values && data.values[u] == Normalise(file.value.values[u])
    {
      if file.None? {
        data := Empty();
      } else {
        var d := NormaliseAll(file.value);
        data := d;
      }
    }

    /** The start of `translation_page` (app.py:90-108): create the record
        of an unseen user, and give an empty block the block of the user's
        position. */
    method EnsureAssigned(u: string, sentenceCount: nat)
      requires Valid()
      modifies this
      ensures Valid()
      ensures data == Visited(old(data), u, sentenceCount)
      ensures Consistent(old(data)) ==> Consistent(data)
    {
      ghost var before := data;
      var d := data;
      if u !in d.values {
        d := d.Put(u, NewRecord());
      }
      assert d == Registered(before, u);
      var rec := d.values[u];
      if rec.assignedIndices == [] {
        var p := Position(d.keys, u);
        IndexOfDistinct(d.keys, p);
        var start := p * BlockSize;
        var end := if start + BlockSize < sentenceCount then start + BlockSize else sentenceCount;
        assert Range(start, end) == AssignedBlock(p, sentenceCount);
        d := d.Put(u, rec.(assignedIndices := Range(start, end)));
      }
      assert d == Assigned(Registered(before, u), u, sentenceCount);
      data := d;
      if Consistent(before) {
        VisitKeepsConsistent(before, u, sentenceCount);
      }
    }

    /** A render of the Translate view (app.py:87-125, no button pressed). */
    method VisitTranslate(u: string, sentences: seq<string>) returns (v: TranslateView)
      requires Valid()
      modifies this
      ensures Valid()
      ensures data == Visited(old(data), u, |sentences|)
      ensures Consistent(old(data)) ==> Consistent(data)
      ensures v == View(data.values[u], sentences)
    {
      EnsureAssigned(u, |sentences|);
      var rec := data.values[u];
      var total := |rec.assignedIndices|;
      if total == 0 {
        v := DivisionByZero;
      } else if rec.index >= total {
        v := Completed(|rec.translations.values|, total);
      } else {
        var k := PyIndex(rec.assignedIndices, rec.index);
        if k.None? {
          v := IndexOutOfRange;
        } else {
          var s := PyIndex(sentences, k.value);
          if s.None? {
            v := IndexOutOfRange;
          } else {
            v := Prompt(rec.index, k.value, s.value, |rec.translations.values|, total);
          }
        }
      }
    }

    /** A render of the Translate view with "Submit Translation" pressed
        (app.py:87-145). */
    method SubmitTranslation(u: string, sentences: seq<string>, text: string, timestamp: string)
      returns (outcome: SubmitOutcome)
      requires Valid()
      modifies this
      ensures Valid()
      ensures var visited := Visited(old(data), u, |sentences|);
              var s := SubmitRecord(visited.values[u], sentences, text, timestamp);
              outcome == s.outcome && data == visited.Put(u, s.record)
      ensures Consistent(old(data)) ==> Consistent(data)
    {
      var view := VisitTranslate(u, sentences);
      var d := data;
      var updated;
      outcome, updated := SubmitOn(d.values[u], sentences, text, timestamp, view);
      SubmissionStored(d, u, sentences, text, timestamp, outcome, updated);
      if outcome.Accepted? {
        data := d.Put(u, updated);
      }
    }

    /** "Save Metadata" (app.py:65-74). */
    method SaveMetadata(u: string, metadata: Metadata)
      requires Valid()
      modifies this
      ensures Valid()
      ensures data == WithMetadata(old(data), u, metadata)
      ensures Consistent(old(data)) ==> Consistent(data)
    {
      ghost var before := data;
      var rec := if u in data.values then data.values[u] else NewRecord();
      rec := rec.(metadata := metadata);
      data := data.Put(u, rec);
      if Consistent(before) {
        MetadataKeepsConsistent(before, u, metadata);
      }
    }

    /** The admin tables (app.py:169-206) of a non-empty store: one pass
        over the users; the translation table has a row per stored
        translation. */
    method Report() returns (progress: seq<ProgressRow>, people: seq<MetadataRow>, rows: seq<TranslationRow>)
      requires Valid()
      ensures progress == ProgressTable(data.keys, data.values)
      ensures people == MetadataTable(data.keys, data.values)
      ensures rows == TranslationTable(data.keys, data.values)
      ensures |progress| == |people| == |data.keys|
      ensures |rows| == TranslationCount(data.keys, data.values)
    {
      progress, people, rows := Tables(data.keys, data.values);
    }
  }
}
