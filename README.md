# Yorlect Data-Curation progress store, modelled in Dafny

Yorlect Data-Curation is a Streamlit app with a single-file backend,
`app.py`. Contributors log in with a username, fill in a short metadata
form, and translate English sentences. Each contributor gets a block of
at most 100 sentences, chosen by the user's position in the progress file
`user_progress.json`: the user at position `p` gets the sentence indices
`range(100 * p, min(100 * p + 100, n))`. That block is empty once
`100 * p >= n`. An empty block is computed again on each visit, and a
non-empty one never changes. An admin
page reports every user's progress, their metadata and all stored
translations.

This project models the core of that app:

- the progress store and how it is loaded;
- how an unseen user is created, and how a block is assigned to them;
- the Translate view, and what one submission does;
- the metadata save;
- the admin aggregation;
- the page and session state machine, including the admin login.

Modules, in dependency order:

- `Strings` (`strings.dfy`): Python's `str.strip()` over the whitespace set it uses. Also `str()` of an integer, with a proof that it is injective.
- `Dicts` (`dicts.dfy`): insertion-ordered dictionaries with string keys. This covers `d[k] = v`, `len`, and `list.index` over the keys.
- `Records` (`records.dfy`): one user's record, as stored and as loaded. Also the block formula, Python's list indexing (negative indices included), the Translate view and one submission.
- `Progress` (`progress.dfy`): the whole store as the pages change it. It also defines `Consistent`, the invariant the store keeps when every record was written by the pages:
  - the user at position `p` holds the block at `100 * p`;
  - the cursor stays inside the block;
  - the stored translation keys are exactly `str` of the assigned indices before the cursor.
- `Reporting` (`reporting.dfy`): the three admin tables, plus completeness and soundness of the translation table.
- `Store` (`store.dfy`): the `ProgressStore` class. Its `data` field is the in-memory `all_progress` dictionary. Its methods are the loops and updates of `load_user_progress`, `translation_page`, `metadata_page` and `admin_page`. Each method is proved against the functions of `Progress` and `Reporting`.
- `App` (`app.dfy`): the `Session` class. It holds the `st.session_state` fields (`username`, `logged_in`, `page`, `admin_logged_in`). Each method is one run of the script: either a sidebar choice, or a press of the one button the current page shows.

One might expect a user whose block is empty (`100 * p >= n`) to see the
completion message. The code does not: `translation_page` prints the
progress line, which divides by `len(assigned)` (app.py:116-117), before
it checks for completion (app.py:119). Such a user therefore hits a
division by zero. `Records.View` returns `DivisionByZero` for an empty
block, and `Progress.LateUserCrashes` proves that every user who arrives
after the blocks run out ends there.

Two other behaviours of the code are kept as written:

- The block is recomputed on every visit while it is empty. Only a non-empty block is frozen.
- A user who saves metadata before ever opening Translate is written with only a `metadata` field. The next load fills in the rest; `Records.MetadataOnlyRecordLoads` proves what that load yields, and the model stores exactly that.

## Model

| member | source | states |
|---|---|---|
| Strings.Strip | app.py:131 | `strip()` yields a string that neither starts nor ends with Python whitespace. It is empty exactly when the input is blank, and an already stripped string is left alone |
| Strings.TrimStart | app.py:131 | removing leading whitespace leaves the suffix that starts at the first non-space; everything before it is whitespace |
| Strings.TrimEnd | app.py:131 | removing trailing whitespace leaves the prefix that ends at the last non-space; everything after it is whitespace |
| Strings.StripTrims | app.py:131 | `strip()` is exactly the removal of the leading and then the trailing whitespace |
| Strings.Str | app.py:138 | `str(i)` is non-empty and begins with `-` exactly when `i` is negative |
| Strings.NatStrValue | app.py:138 | the decimal numeral of a natural number reads back as that number |
| Strings.StrValue | app.py:138 | `int(str(i)) == i`: a translation key is the decimal numeral of its sentence index, sign included |
| Strings.StrInjective | app.py:138 | distinct sentence indices give distinct translation keys |
| Dicts.Dict.Put | app.py:138-144 | `d[k] = v` keeps the dictionary well formed and updates only `k`. An existing key keeps its place, and a new key goes last |
| Dicts.SizeIsLength | app.py:114 | `len(d)` equals the number of keys in iteration order |
| Dicts.IndexOf | app.py:102-103 | `list.index(k)` is the position of the first occurrence of `k` |
| Records.NewRecord | app.py:90-96 | a new user starts with empty metadata, no block, no translations and cursor 0 |
| Records.Normalise | app.py:30-38 | a missing `translations`, `metadata`, `assigned` or `index` is defaulted to `{}`, `{}`, `[]` or 0, and a present field is kept |
| Records.ReloadIsIdentity | app.py:30-44 | saving a loaded record and loading it again yields the same record |
| Records.MetadataOnlyRecordLoads | app.py:53-73 | a record saved with only `metadata` loads as a fresh record carrying that metadata |
| Records.Range | app.py:106 | `list(range(lo, hi))` has `hi - lo` elements (none when `hi <= lo`), and element `j` is `lo + j` |
| Records.AssignedBlock | app.py:102-106 | the block at position `p` has at most 100 indices. It is empty exactly when `100p >= n`, full when `100p + 100 <= n`, and otherwise holds `n - 100p` indices. Index `j` is `100p + j < n` |
| Records.PyIndex | app.py:123-124 | list indexing succeeds exactly for `-len <= i < len`, and counts from the end for negative `i` |
| Records.Percent | app.py:187 | the percentage is 0 when nothing is assigned, 100 when all of a non-empty block is done, lies between 0 and 100 when no more translations are stored than indices are assigned, and exceeds 100 when a non-empty block has more translations than indices |
| Records.View | app.py:110-125 | an empty block gives the division by zero. A cursor at or past the block's end gives completion, with the counts. Otherwise the view is the prompt for `assigned[index]` and `sentences[...]`, or an index error when either lookup fails |
| Records.PromptAtCursor | app.py:123-125 | with the cursor and the sentence index in range, the prompt shows the sentence under the cursor |
| Records.SubmitRecord | app.py:130-145 | a blank text or a missing prompt changes nothing. A non-blank text is stored under `str(sentence index)`, with the sentence, the stripped text and the timestamp, and the cursor advances by one. A new key goes after the existing ones, and a key already stored keeps its place. Metadata and the block never change |
| Records.MetadataOf | app.py:66-72 | the saved metadata holds exactly the five entered fields |
| Progress.Registered | app.py:90-96 | an unseen user is appended with a fresh record at position `len(store)`; every known user is left as they are |
| Progress.Assigned | app.py:101-107 | a record with an empty block gets the block of its position; a non-empty block and every other user are left as they are |
| Progress.Visited | app.py:90-108 | an unseen user is appended, and an empty block gets the block of the user's position. A non-empty block and every other user are left as they are |
| Progress.WithMetadata | app.py:53-74 | only the user's `metadata` changes; an unseen user is appended |
| Progress.EmptyConsistent | app.py:24-40 | an empty store satisfies the store invariant `Consistent` |
| Progress.WellFormedCounts | app.py:114-119 | in a well-formed record, `len(translations)` equals the cursor, and every key is `str` of an index before the cursor |
| Progress.CursorKeyFresh | app.py:123-138 | in a well-formed record, the key of the sentence under the cursor is not stored yet |
| Progress.SubmitKeepsWellFormed | app.py:138-143 | every submission outcome keeps a record well formed |
| Progress.AssignKeepsWellFormed | app.py:101-107 | a freshly assigned block makes a fresh record well formed at its position |
| Progress.VisitKeepsConsistent | app.py:90-108 | a Translate visit preserves the store invariant |
| Progress.SubmitKeepsConsistent | app.py:138-145 | a submission preserves the store invariant |
| Progress.SubmissionStored | app.py:138-145 | storing a submission's record keeps the store valid, leaves the store unchanged unless the submission was accepted, and preserves the store invariant |
| Progress.MetadataKeepsConsistent | app.py:66-74 | a metadata save preserves the store invariant |
| Progress.BlocksDisjoint | app.py:100-106 | in a consistent store, no sentence is assigned to two users |
| Progress.LateUserCrashes | app.py:104-117 | a new user arriving once `100 * users >= n` gets an empty block, and the view fails with a division by zero |
| Progress.ScenarioFirstUser | app.py:100-106 | with 250 sentences, the first user gets the 100 indices 0-99 |
| Progress.ScenarioThirdUser | app.py:100-106 | with 250 sentences, the third user gets only the 50 indices 200-249 |
| Reporting.ProgressOf | app.py:183-188 | a progress row holds `len(translations)` and `len(assigned)`. Its percentage is 0 for an empty block and lies between 0 and 100 when the count is within the block |
| Reporting.FieldOr | app.py:192-196 | `metadata.get(k, "")` |
| Reporting.ProgressTable | app.py:178-188 | one progress row per user, in store order |
| Reporting.MetadataTable | app.py:190-197 | one metadata row per user, in store order |
| Reporting.UserRows | app.py:199-206 | one row per stored translation of a user, in key order |
| Reporting.TranslationTable | app.py:199-206 | the translation table lists each user's rows, user after user, and has exactly as many rows as there are stored translations |
| Reporting.TranslationCount | app.py:199-206 | the number of stored translations over the users; it is zero exactly when no listed user has a stored translation |
| Reporting.TranslationTableComplete | app.py:199-206 | every stored translation appears in the table |
| Reporting.TranslationTableSound | app.py:199-206 | every table row is a stored translation of a listed user |
| Reporting.WellFormedPercent | app.py:187 | for a well-formed record, the reported percentage lies between 0 and 100, and is 100 once the block is done |
| Reporting.ScenarioExportRows | app.py:199-206 | two users with one and two translations give three exported rows |
| Store.NormaliseAll | app.py:30-38 | the load loop keeps every user, in order, with the record defaulted |
| Store.ProgressStore.Load | app.py:24-40 | a missing file gives `{}`, and otherwise the normalised document |
| Store.Position | app.py:102-103 | yields the position of the user's first occurrence among the keys |
| Store.ProgressStore.EnsureAssigned | app.py:90-108 | the store becomes `Visited` of the old store, and the invariant is kept |
| Store.ProgressStore.VisitTranslate | app.py:87-125 | a visit updates the store as `Visited` does and shows `View` of the user's record |
| Store.SubmitOn | app.py:130-143 | the submission branch computes exactly `SubmitRecord` |
| Store.ProgressStore.SubmitTranslation | app.py:87-145 | visit, then submit. The outcome and the new store are those of `SubmitRecord` on the visited record, and the invariant is kept |
| Store.ProgressStore.SaveMetadata | app.py:65-74 | the store becomes `WithMetadata` of the old store, and the invariant is kept |
| Store.EntryRows | app.py:199-206 | the inner loop yields the user's rows of the translation table |
| Store.Tables | app.py:178-206 | the loop over the users yields the progress, metadata and translation tables |
| Store.ProgressStore.Report | app.py:169-206 | the dashboard shows the three tables of the store, and the translation table has one row per stored translation |
| App.Session.constructor | app.py:240-245 | a session starts on Login, with nobody logged in and no admin |
| App.Session.Navigate | app.py:247-297 | the chosen page becomes current. Refresh clears the session back to Login and drops the admin flag. Metadata and Translate need a login. Translate updates the store by `Visited`. Admin shows the password form, "no user data" for an empty store, or the three tables. Nothing else changes the store |
| App.Session.Login | app.py:251-262 | on the Login page of a logged-out session, a non-blank name logs in as the stripped name and moves to Metadata, while a blank name is refused. Elsewhere nothing changes |
| App.Session.Next | app.py:263-267 | a logged-in session on Login moves to Metadata |
| App.Session.SaveMetadata | app.py:65-79 | on Metadata while logged in, the user's metadata becomes the five values and the page becomes Translate |
| App.Session.SubmitTranslation | app.py:130-147 | on Translate while logged in, the store changes exactly as `SubmitRecord` on the visited record says |
| App.Session.AdminLogin | app.py:155-167 | the admin flag is set exactly when the password matches |

## Left out

- `load_sentences` (the CSV download and its `English` column check): the sentence list is a parameter of every operation that reads it.
- JSON file I/O: the file is read as an already parsed document. Writing is the new value of `ProgressStore.data`, so the next read sees exactly what was written (`Records.ReloadIsIdentity`).
- JSON values of the wrong type (`assigned` not a list of integers, `index` not an integer, `null` fields, extra fields): the record type admits only well-typed values.
- A stored translation entry that lacks `English`, `Translation` or `Timestamp`, and so raises KeyError at app.py:203: entries always have the three fields.
- `datetime.now().isoformat()`: the timestamp is an opaque string parameter.
- The Streamlit rendering: widgets, messages, dataframes, the CSV encoding and the two download buttons (app.py:208-232). The About text is one screen value.
- `st.rerun()` and `st.stop()`: each `Session` method is one run of the script, and the next run is the next method call.
- Concurrency: two sessions writing `user_progress.json` at once can lose updates. The model has one store, changed by one call at a time.
- `st.secrets`: the admin password is a parameter of the session.
- The metadata form's prefill (app.py:56-63): a stored `sex` outside the three labels makes `.index` raise there. The entered values arrive as parameters, and `Age` is the number input's range 10-120.
- The text area's widget key (app.py:127): it only ties the widget to the cursor.
- An absent `admin_logged_in` and `False` behave alike and are one boolean.
- Records.Percent: the ratio is exact. The admin table's `round(..., 2)` and the `:.1f` of the progress line are not modelled, and the zero percentage is `0.0` where the code returns the integer 0.
