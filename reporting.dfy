/** The admin dashboard's three tables (app.py:178-206): one progress row
    and one metadata row per user, and one row per stored translation, all
    in the store's order. */
module Reporting {
  import opened Dicts
  import opened Records
  import opened Progress

  datatype ProgressRow = ProgressRow(user: string, translated: nat, assignedCount: nat, percent: real)

  datatype MetadataRow = MetadataRow(user: string, name: Field, sex: Field, age: Field, gmail: Field, country: Field)

  datatype TranslationRow = TranslationRow(user: string, index: string, english: string, translation: string, timestamp: string)

  /** A user's progress row: `Translated` is `len(translations)`, `Assigned`
      is `len(assigned)`, and the percentage is 0 for an empty block. */
  function ProgressOf(u: string, rec: UserRecord): (row: ProgressRow)
    ensures row.user == u
    ensures row.translated == |rec.translations.values| && row.assignedCount == |rec.assignedIndices|
    ensures rec.assignedIndices == [] ==> row.percent == 0.0
    ensures row.translated <= row.assignedCount ==> 0.0 <= row.percent <= 100.0
  {
    ProgressRow(u, |rec.translations.values|, |rec.assignedIndices|,
                Percent(|rec.translations.values|, |rec.assignedIndices|))
  }

  /** `metadata.get(k, "")` */
  function FieldOr(m: Metadata, k: string): (f: Field)
    ensures k in m ==> f == m[k]
    ensures k !in m ==> f == Text("")
  {
    if k in m then m[k] else Text("")
  }

  /** A user's metadata row; a field never saved shows as "". */
  function MetadataRowOf(u: string, rec: UserRecord): MetadataRow {
    var m := rec.metadata;
    MetadataRow(u, FieldOr(m, "name"), FieldOr(m, "sex"), FieldOr(m, "age"),
                FieldOr(m, "gmail"), FieldOr(m, "country"))
  }

  /** The row of one stored translation. */
  function EntryRow(u: string, k: string, e: Entry): TranslationRow {
    TranslationRow(u, k, e.english, e.translation, e.timestamp)
  }

  /** The progress table, one row appended per user. */
  function ProgressTable(users: seq<string>, recs: map<string, UserRecord>): (rows: seq<ProgressRow>)
    requires forall u :: u in users ==> u in recs
    ensures |rows| == |users|
    ensures forall i :: 0 <= i < |users| ==> rows[i] == ProgressOf(users[i], recs[users[i]])
  {
    if users == [] then []
    else
      var last := users[|users| - 1];
      ProgressTable(users[..|users| - 1], recs) + [ProgressOf(last, recs[last])]
  }

  /** The metadata table, one row appended per user. */
  function MetadataTable(users: seq<string>, recs: map<string, UserRecord>): (rows: seq<MetadataRow>)
    requires forall u :: u in users ==> u in recs
    ensures |rows| == |users|
    ensures forall i :: 0 <= i < |users| ==> rows[i] == MetadataRowOf(users[i], recs[users[i]])
  {
    if users == [] then []
    else
      var last := users[|users| - 1];
      MetadataTable(users[..|users| - 1], recs) + [MetadataRowOf(last, recs[last])]
  }

  /** One user's translation rows, in the order of `translations`. */
  function UserRows(u: string, keys: seq<string>, entries: map<string, Entry>): (rows: seq<TranslationRow>)
    requires forall k :: k in keys ==> k in entries
    ensures |rows| == |keys|
    ensures forall j :: 0 <= j < |keys| ==> rows[j] == EntryRow(u, keys[j], entries[keys[j]])
  {
    if keys == [] then []
    else
      var last := keys[|keys| - 1];
      UserRows(u, keys[..|keys| - 1], entries) + [EntryRow(u, last, entries[last])]
  }

  /** Every `translations` of the listed users holds the keys it lists. */
  ghost predicate Listed(users: seq<string>, recs: map<string, UserRecord>) {
    forall u :: u in users ==> u in recs && recs[u].translations.Valid()
  }

  /** The users of a prefix of a listed sequence are listed. */
  lemma ListedPrefix(users: seq<string>, recs: map<string, UserRecord>, i: nat)
    requires Listed(users, recs) && i <= |users|
    ensures Listed(users[..i], recs)
  {
    forall u | u in users[..i] ensures u in recs && recs[u].translations.Valid() {
      var j :| 0 <= j < i && users[..i][j] == u;
      assert users[j] == u;
    }
  }

  /** The translation table: each user's rows, user after user. It has one
      row per (user, translation key) pair, so as many rows as there are
      stored translations. */
  function TranslationTable(users: seq<string>, recs: map<string, UserRecord>): (rows: seq<TranslationRow>)
    requires Listed(users, recs)
    ensures |rows| == TranslationCount(users, recs)
  {
    if users == [] then []
    else
      var last := users[|users| - 1];
      var t := recs[last].translations;
      SizeIsLength(t);
      TranslationTable(users[..|users| - 1], recs) + UserRows(last, t.keys, t.values)
  }

  /** Each table of one more user is the table so far with that user's
      rows appended. */
  lemma TablesStep(users: seq<string>, recs: map<string, UserRecord>, i: nat)
    requires Listed(users, recs) && i < |users|
    ensures Listed(users[..i], recs) && Listed(users[..i + 1], recs)
    ensures ProgressTable(users[..i + 1], recs)
              == ProgressTable(users[..i], recs) + [ProgressOf(users[i], recs[users[i]])]
    ensures MetadataTable(users[..i + 1], recs)
              == MetadataTable(users[..i], recs) + [MetadataRowOf(users[i], recs[users[i]])]
    ensures TranslationTable(users[..i + 1], recs)
              == TranslationTable(users[..i], recs)
                 + UserRows(users[i], recs[users[i]].translations.keys, recs[users[i]].translations.values)
  {
    ListedPrefix(users, recs, i);
    ListedPrefix(users, recs, i + 1);
    assert users[..i + 1][..i] == users[..i];
  }

  /** The number of stored translations over the listed users. */
  function TranslationCount(users: seq<string>, recs: map<string, UserRecord>): (n: nat)
    requires forall u :: u in users ==> u in recs
    ensures n == 0 <==> forall u :: u in users ==> recs[u].translations.values == map[]
  {
    if users == [] then 0
    else
      var last := users[|users| - 1];
      TranslationCount(users[..|users| - 1], recs) + |recs[last].translations.values|
  }

  /** Every stored translation of a listed user appears in the table. */
  lemma {:induction false} TranslationTableComplete(users: seq<string>, recs: map<string, UserRecord>, u: string, k: string)
    requires Listed(users, recs)
    requires u in users && k in recs[u].translations.values
    ensures EntryRow(u, k, recs[u].translations.values[k]) in TranslationTable(users, recs)
  {
    var last := users[|users| - 1];
    var t := recs[last].translations;
    if u == last {
      var j :| 0 <= j < |t.keys| && t.keys[j] == k;
      assert UserRows(last, t.keys, t.values)[j] == EntryRow(u, k, t.values[k]);
    } else {
      assert u in users[..|users| - 1] by {
        var i :| 0 <= i < |users| && users[i] == u;
        assert users[..|users| - 1][i] == u;
      }
      TranslationTableComplete(users[..|users| - 1], recs, u, k);
    }
  }

  /** Every row of the table is a stored translation of a listed user. */
  lemma {:induction false} TranslationTableSound(users: seq<string>, recs: map<string, UserRecord>, row: TranslationRow)
    requires Listed(users, recs)
    requires row in TranslationTable(users, recs)
    ensures row.user in users && row.index in recs[row.user].translations.values
    ensures row == EntryRow(row.user, row.index, recs[row.user].translations.values[row.index])
  {
    var front := users[..|users| - 1];
    var last := users[|users| - 1];
    var t := recs[last].translations;
    if row in TranslationTable(front, recs) {
      TranslationTableSound(front, recs, row);
      assert row.user in users by {
        var i :| 0 <= i < |front| && front[i] == row.user;
        assert users[i] == row.user;
      }
    } else {
      var rows := UserRows(last, t.keys, t.values);
      assert row in rows;
      var j :| 0 <= j < |rows| && rows[j] == row;
      assert row == EntryRow(last, t.keys[j], t.values[t.keys[j]]);
    }
  }

  /** A complete well-formed record is reported at 100 percent; any
      well-formed record between 0 and 100. */
  lemma WellFormedPercent(u: string, rec: UserRecord, p: nat)
    requires WellFormed(rec, p)
    ensures 0.0 <= ProgressOf(u, rec).percent <= 100.0
    ensures rec.assignedIndices != [] && rec.index == |rec.assignedIndices| ==> ProgressOf(u, rec).percent == 100.0
  {
    WellFormedCounts(rec, p);
  }

  /** The export scenario: two users with one and two stored translations
      give exactly three translation rows. */
  lemma ScenarioExportRows(a: string, b: string, ra: UserRecord, rb: UserRecord)
    requires a != b
    requires ra.translations.Valid() && rb.translations.Valid()
    requires |ra.translations.values| == 1 && |rb.translations.values| == 2
    ensures |TranslationTable([a, b], map[a := ra, b := rb])| == 3
  {
    var users, recs := [a, b], map[a := ra, b := rb];
    assert users[..1] == [a] && [a][..0] == [];
    assert TranslationCount([a], recs) == TranslationCount([], recs) + |ra.translations.values|;
    assert TranslationCount(users, recs) == TranslationCount([a], recs) + |rb.translations.values|;
  }
}
