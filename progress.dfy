/** What the pages do to the whole progress store (app.py, `translation_page`
    and `metadata_page`), and the invariant the store keeps when every record
    in it was written by those pages: each user's block sits at
    `100 * position`, the cursor stays inside the block, and the stored
    translations are exactly those of the sentences before the cursor. */
module Progress {
  import opened Strings
  import opened Dicts
  import opened Records

  /** The progress store: user records keyed by username, in insertion order. */
  type Store = Dict<UserRecord>

  /** The store is a well-formed dictionary, and so is every `translations`. */
  ghost predicate StoreValid(d: Store) {
    d.Valid() && forall u :: u in d.values ==> d.values[u].translations.Valid()
  }

  /** The first step of a Translate-view visit (app.py:90-96): an unseen
      user is appended with a fresh record; a known user is left alone. */
  function Registered(d: Store, u: string): (r: Store)
    requires StoreValid(d)
    ensures StoreValid(r)
    ensures u in r.values
    ensures r.keys == if u in d.values then d.keys else d.keys + [u]
    ensures forall v :: v in d.values ==> v in r.values && r.values[v] == d.values[v]
    ensures u !in d.values ==> r.values[u] == NewRecord()
    ensures IndexOf(r.keys, u) == if u in d.values then IndexOf(d.keys, u) else |d.keys|
  {
    if u in d.values then d
    else
      var r := d.Put(u, NewRecord());
      assert r.keys[|d.keys|] == u;
      IndexOfDistinct(r.keys, |d.keys|);
      r
  }

  /** The second step of a Translate-view visit (app.py:101-107): a record
      whose block is empty is given the block of its position; a non-empty
      block is left as it is. */
  function Assigned(d: Store, u: string, n: nat): (r: Store)
    requires StoreValid(d) && u in d.values
    ensures StoreValid(r)
    ensures r.keys == d.keys
    ensures forall v :: v in d.values && v != u ==> v in r.values && r.values[v] == d.values[v]
    ensures u in r.values
    ensures d.values[u].assignedIndices != [] ==> r.values[u] == d.values[u]
    ensures d.values[u].assignedIndices == [] ==>
              r.values[u] == d.values[u].(assignedIndices := AssignedBlock(IndexOf(d.keys, u), n))
  {
    var rec := d.values[u];
    if rec.assignedIndices != [] then d
    else d.Put(u, rec.(assignedIndices := AssignedBlock(IndexOf(d.keys, u), n)))
  }

  /** The start of every Translate-view visit (app.py:90-108): an unseen user
      is appended with a fresh record; a record whose block is empty is given
      the block of its position, recomputed on every visit; a non-empty block
      is left as it is. */
  function Visited(d: Store, u: string, n: nat): (r: Store)
    requires StoreValid(d)
    ensures StoreValid(r)
    ensures u in r.values
    ensures r.keys == if u in d.values then d.keys else d.keys + [u]
    ensures forall v :: v in d.values && v != u ==> v in r.values && r.values[v] == d.values[v]
    ensures u in d.values && d.values[u].assignedIndices != [] ==> r.values[u] == d.values[u]
    ensures u in d.values && d.values[u].assignedIndices == [] ==>
              r.values[u] == d.values[u].(assignedIndices := AssignedBlock(IndexOf(d.keys, u), n))
    ensures u !in d.values ==>
              r.values[u] == NewRecord().(assignedIndices := AssignedBlock(|d.keys|, n))
  {
    Assigned(Registered(d, u), u, n)
  }

  /** "Save Metadata" (app.py:66-74): only the user's `metadata` is
      replaced; a user not yet in the store is appended. */
  function WithMetadata(d: Store, u: string, m: Metadata): (r: Store)
    requires StoreValid(d)
    ensures StoreValid(r)
    ensures r.keys == if u in d.values then d.keys else d.keys + [u]
    ensures forall v :: v in d.values && v != u ==> v in r.values && r.values[v] == d.values[v]
    ensures u in d.values ==> r.values[u] == d.values[u].(metadata := m)
    ensures u !in d.values ==> r.values[u] == NewRecord().(metadata := m)
  {
    var rec := if u in d.values then d.values[u] else NewRecord();
    d.Put(u, rec.(metadata := m))
  }

  /** The translation keys of a list of sentence indices, in order. */
  function KeyStrings(a: seq<int>): (r: seq<string>)
    ensures |r| == |a| && forall j :: 0 <= j < |a| ==> r[j] == Str(a[j])
  {
    seq(|a|, j requires 0 <= j < |a| => Str(a[j]))
  }

  /** A record as the pages leave it for the user at position `p`. */
  ghost predicate WellFormed(rec: UserRecord, p: nat) {
    && rec.translations.Valid()
    && 0 <= rec.index <= |rec.assignedIndices| <= BlockSize
    && (forall j :: 0 <= j < |rec.assignedIndices| ==> rec.assignedIndices[j] == BlockSize * p + j)
    && rec.translations.keys == KeyStrings(rec.assignedIndices[..rec.index])
  }

  /** Every record of the store is well formed for its position. */
  ghost predicate Consistent(d: Store) {
    && StoreValid(d)
    && forall p :: 0 <= p < |d.keys| ==> WellFormed(d.values[d.keys[p]], p)
  }

  /** An empty (or missing) progress file is consistent. */
  lemma EmptyConsistent()
    ensures Consistent(Empty())
  {
  }

  /** In a well-formed record, `len(translations)` equals the cursor, and
      every translation key is `str` of an assigned index before the cursor. */
  lemma WellFormedCounts(rec: UserRecord, p: nat)
    requires WellFormed(rec, p)
    ensures |rec.translations.values| == rec.index <= |rec.assignedIndices|
    ensures forall k :: k in rec.translations.values ==>
              exists j :: 0 <= j < rec.index && k == Str(rec.assignedIndices[j])
  {
    SizeIsLength(rec.translations);
    forall k | k in rec.translations.values
      ensures exists j :: 0 <= j < rec.index && k == Str(rec.assignedIndices[j])
    {
      var j :| 0 <= j < |rec.translations.keys| && rec.translations.keys[j] == k;
      assert rec.assignedIndices[..rec.index][j] == rec.assignedIndices[j];
    }
  }

  /** The key of the sentence under the cursor of a well-formed record is
      not stored yet. */
  lemma CursorKeyFresh(rec: UserRecord, p: nat)
    requires WellFormed(rec, p) && rec.index < |rec.assignedIndices|
    ensures Str(rec.assignedIndices[rec.index]) !in rec.translations.values
  {
    var a := rec.assignedIndices;
    var key := Str(a[rec.index]);
    if key in rec.translations.values {
      WellFormedCounts(rec, p);
      var j :| 0 <= j < rec.index && key == Str(a[j]);
      StrInjective(a[j], a[rec.index]);
    }
  }

  /** Moving the cursor one step appends one key. */
  lemma KeyStringsStep(a: seq<int>, i: nat)
    requires i < |a|
    ensures KeyStrings(a[..i + 1]) == KeyStrings(a[..i]) + [Str(a[i])]
  {
    assert a[..i + 1] == a[..i] + [a[i]];
  }

  /** An accepted submission on a well-formed record stores a key it did not
      hold yet and moves the cursor past it, so the record stays well formed. */
  lemma SubmitKeepsWellFormed(rec: UserRecord, p: nat, sentences: seq<string>, text: string, timestamp: string)
    requires WellFormed(rec, p)
    ensures WellFormed(SubmitRecord(rec, sentences, text, timestamp).record, p)
  {
    var s := SubmitRecord(rec, sentences, text, timestamp);
    if s.outcome.Accepted? {
      var i := rec.index;
      var a := rec.assignedIndices;
      assert i < |a| && s.outcome.key == Str(a[i]);
      CursorKeyFresh(rec, p);
      assert s.record.translations.keys == rec.translations.keys + [Str(a[i])];
      KeyStringsStep(a, i);
    }
  }

  /** A record with an empty block that is given the block of position `p`
      becomes well formed there. */
  lemma AssignKeepsWellFormed(rec: UserRecord, p: nat, n: nat)
    requires rec.translations.Valid() && rec.assignedIndices == []
    requires rec.index == 0 && rec.translations.keys == []
    ensures WellFormed(rec.(assignedIndices := AssignedBlock(p, n)), p)
  {
    var b := AssignedBlock(p, n);
    assert b[..0] == [];
  }

  /** A Translate-view visit keeps the store consistent. */
  lemma VisitKeepsConsistent(d: Store, u: string, n: nat)
    requires Consistent(d)
    ensures Consistent(Visited(d, u, n))
  {
    var r := Visited(d, u, n);
    forall p | 0 <= p < |r.keys| ensures WellFormed(r.values[r.keys[p]], p) {
      if r.keys[p] != u {
        assert p < |d.keys| && d.keys[p] == r.keys[p];
      } else if u in d.values && d.values[u].assignedIndices != [] {
        assert d.keys[p] == u;
      } else if u in d.values {
        assert d.keys[p] == u;
        IndexOfDistinct(d.keys, p);
        assert WellFormed(d.values[u], p);
        assert KeyStrings([]) == [];
        AssignKeepsWellFormed(d.values[u], p, n);
      } else {
        assert p == |d.keys|;
        AssignKeepsWellFormed(NewRecord(), p, n);
      }
    }
  }

  /** Storing a submission keeps the store consistent. */
  lemma SubmitKeepsConsistent(d: Store, u: string, sentences: seq<string>, text: string, timestamp: string)
    requires Consistent(d) && u in d.values
    ensures Consistent(d.Put(u, SubmitRecord(d.values[u], sentences, text, timestamp).record))
  {
    var r := d.Put(u, SubmitRecord(d.values[u], sentences, text, timestamp).record);
    forall p | 0 <= p < |r.keys| ensures WellFormed(r.values[r.keys[p]], p) {
      assert r.keys[p] == d.keys[p];
      if d.keys[p] == u {
        SubmitKeepsWellFormed(d.values[u], p, sentences, text, timestamp);
      }
    }
  }

  /** Storing the result of a submission: the store stays valid, it is
      unchanged unless the submission was accepted, and it stays consistent. */
  lemma SubmissionStored(d: Store, u: string, sentences: seq<string>, text: string, timestamp: string,
                         outcome: SubmitOutcome, updated: UserRecord)
    requires StoreValid(d) && u in d.values
    requires Submission(outcome, updated) == SubmitRecord(d.values[u], sentences, text, timestamp)
    ensures StoreValid(d.Put(u, updated))
    ensures !outcome.Accepted? ==> d.Put(u, updated) == d
    ensures Consistent(d) ==> Consistent(d.Put(u, updated))
  {
    if !outcome.Accepted? {
      PutSame(d, u);
    }
    if Consistent(d) {
      SubmitKeepsConsistent(d, u, sentences, text, timestamp);
    }
  }

  /** Saving metadata keeps the store consistent. */
  lemma MetadataKeepsConsistent(d: Store, u: string, m: Metadata)
    requires Consistent(d)
    ensures Consistent(WithMetadata(d, u, m))
  {
    var r := WithMetadata(d, u, m);
    forall p | 0 <= p < |r.keys| ensures WellFormed(r.values[r.keys[p]], p) {
      if p < |d.keys| {
        assert r.keys[p] == d.keys[p];
      } else {
        assert r.values[r.keys[p]] == NewRecord().(metadata := m);
        assert KeyStrings([]) == [];
      }
    }
  }

  /** In a consistent store no sentence is assigned to two users. */
  lemma BlocksDisjoint(d: Store, p: nat, q: nat, x: int)
    requires Consistent(d) && p < |d.keys| && q < |d.keys| && p != q
    requires x in d.values[d.keys[p]].assignedIndices
    ensures x !in d.values[d.keys[q]].assignedIndices
  {
    var a, b := d.values[d.keys[p]].assignedIndices, d.values[d.keys[q]].assignedIndices;
    assert WellFormed(d.values[d.keys[p]], p) && WellFormed(d.values[d.keys[q]], q);
    var i :| 0 <= i < |a| && a[i] == x;
    forall j | 0 <= j < |b| ensures b[j] != x {
      assert b[j] == BlockSize * q + j;
    }
  }

  /** A user who registers once the earlier blocks cover every sentence
      (`100 * position >= n`) gets an empty block, and their Translate view
      then fails with a division by zero instead of showing completion. */
  lemma LateUserCrashes(d: Store, u: string, sentences: seq<string>)
    requires StoreValid(d) && u !in d.values
    requires BlockSize * |d.keys| >= |sentences|
    ensures Visited(d, u, |sentences|).values[u].assignedIndices == []
    ensures View(Visited(d, u, |sentences|).values[u], sentences) == DivisionByZero
  {
  }

  /** The scenario of 250 sentences, first user: the first user to open
      Translate gets indices 0 to 99. */
  lemma ScenarioFirstUser(a: string, n: nat)
    requires n == 250
    ensures Visited(Empty(), a, n).keys == [a]
    ensures var block := Visited(Empty(), a, n).values[a].assignedIndices;
            |block| == 100 && block[0] == 0 && block[99] == 99
  {
  }

  /** The scenario of 250 sentences, third user: a user who opens Translate
      after two others gets only indices 200 to 249. */
  lemma ScenarioThirdUser(d: Store, c: string, n: nat)
    requires n == 250 && StoreValid(d) && |d.keys| == 2 && c !in d.values
    ensures Visited(d, c, n).keys == d.keys + [c]
    ensures var block := Visited(d, c, n).values[c].assignedIndices;
            |block| == 50 && block[0] == 200 && block[49] == 249
  {
  }
}
