# Case register: XML importer and case pages

This project models the core of a small Swedish case-register application
("diarium") that keeps its data in SQLite. It has two parts:

- **The command-line importer.** It reads exported case files (an
  `AErende` element with its `Haendelse` notes and `Logg` change-log
  entries), maps their codes and dates, finds or creates the registry, the
  handler, the dossier and the unit that a case refers to, and inserts the
  case, its notes and its log rows.
- **The case pages of the web application.** They list every case, show one
  case with its notes and log, create a case, edit a case and add a note.
  Each write is logged. Each of these routes commits its row, then its LOG
  row, so a failed log write leaves the row in place.

The database is a class, `Store.Database`. It has one field per table the
program uses (REG, HANDLAEGGARE, DOSSIEPLAN, ENHET, AERENDE, AERENDE_ANT,
LOG), plus the tables as of the last commit. That extra field gives
`commit` and `rollback` their SQLite meaning. The importer's resolvers
commit as they create rows. So a rollback in `import_case` returns only to
the last such commit, and the model states what that leaves behind.

The files:

- `text.dfy`: Python's `str(n)`, `upper()` and `split()`, and SQLite's
  case-insensitive `LIKE '%x%'`.
- `store.dfy`: the tables and the connection.
- `mapping.dfy`: the code and date mappings.
- `extraction.dfy`: field extraction from a parsed document.
- `resolve.dfy`: the get-or-create resolvers and their short-id allocation.
- `importer.dfy`: `import_case` and `main`'s tally.
- `ordering.dfy`: SQLite's ordering of text and NULL, and a verified sort.
- `views.dfy`: the case list and case page.
- `routes.dfy`: the create, edit and add-note routes.

Source cells below are paths relative to the original repository.

## Model

| member | source | states |
|---|---|---|
| Text.Decimal | import_xml.py:196 | The numeral appended as an id suffix is non-empty and all digits, and is one digit exactly for numbers below ten. |
| Text.DecimalRoundTrip | import_xml.py:196 | Reading back the decimal numeral of `n` gives `n`. |
| Text.DecimalInjective | import_xml.py:193-200 | Distinct suffix numbers give distinct numerals, so the 99 suffixed candidates are distinct. |
| Text.Prefix3 | import_xml.py:187 | `s[0:3]` has length min(3, \|s\|) and is a prefix of `s`. |
| Text.UpperChar | import_xml.py:187 | Upper-casing one ASCII or Latin-1 character gives one character, except ß, which gives two ("SS"). Characters with no capital are kept. |
| Text.Upper | import_xml.py:187 | `upper()` is at least as long as its input and at most twice as long. Without ß it keeps the length and upper-cases each character in place. |
| Text.ContainsItself | import_xml.py:180 | A name LIKE-matches `%name%`, so a registry created for a registrator is found by that registrator's next lookup. |
| Text.EmptyIsContained | import_xml.py:180 | `LIKE '%%'` matches every stored name: an empty registrator matches any existing registry. |
| Text.Words | import_xml.py:246 | `split()`: the maximal runs of non-space characters, in order (properties in `Text.WordsAreWords` and `Text.WordsEmptyIffBlank`). |
| Text.WordsAreWords | import_xml.py:246 | Every word of `split()` is non-empty and has no white space. |
| Text.WordsEmptyIffBlank | import_xml.py:246 | `split()` is empty exactly when the name is all white space, the case in which `split()[-1]` raises. |
| Text.Max | app/routes/cases.py:247-252 | SQL `MAX` over a non-empty set of numbers is a member of the set and bounds every member. |
| Store.NextNumber | app/routes/cases.py:247-252 | `MAX(key) + 1`, or 1 for none, is unused and above every key in use, and follows the largest key directly. |
| Store.LogCountAppend | import_xml.py:356-361 | Appending one LOG row adds one to the count of its case and nothing to any other case's count. |
| Store.LogCountConcat | app/routes/cases.py:83-89 | The count of a case's LOG rows over two stretches of log is the sum of the two counts. |
| Store.LogCountOthers | app/routes/cases.py:83-89 | Log rows that all name other cases count zero for a case. |
| Store.NoLogsForAbsentCase | app/routes/cases.py:120-139 | A case that does not exist in a consistent database has no LOG rows. |
| Store.Database.constructor | init_db.py:6-22 | A new database has empty tables and nothing pending. That the tables start empty is an assumption, since `init_db` runs a schema script that is not part of this model. |
| Store.Database.Commit | import_xml.py:363 | A commit leaves the tables as they are and makes them the committed state. |
| Store.Database.Rollback | import_xml.py:366-367 | A rollback restores the tables to the last committed state. |
| Store.Database.InsertRegistry | import_xml.py:203-204 | Inserting into REG succeeds exactly when the REG_ID is new, and then adds only that row. |
| Store.Database.InsertHandler | import_xml.py:262-263 | Inserting into HANDLAEGGARE succeeds exactly when the HAND_ID is new, and then adds only that row. |
| Store.Database.InsertDossier | import_xml.py:223-224 | Inserting into DOSSIEPLAN adds only that row. |
| Store.Database.InsertUnit | import_xml.py:282-283 | Inserting into ENHET adds only that row. |
| Store.Database.InsertCase | import_xml.py:323-334 | Inserting into AERENDE adds only that row. |
| Store.Database.UpdateCase | app/routes/cases.py:190-200 | The UPDATE replaces only the row of that DNR. |
| Store.Database.InsertNote | import_xml.py:341-350 | Inserting into AERENDE_ANT succeeds exactly when (DNR, LNR) is new, and then adds only that row. |
| Store.Database.AppendLog | import_xml.py:356-361 | Inserting into LOG appends exactly that row. |
| Mapping.MapDirection | import_xml.py:130-137 | The result is IN exactly for I, UT exactly for U, and INTERN exactly for every other code. |
| Mapping.MapStatus | import_xml.py:140-147 | The result is Pågående exactly for Ö, Avslutad exactly for A, and Ny exactly for every other code. |
| Mapping.ParseDate | import_xml.py:150-160 | An empty date is NULL, and any other date is stored as given. |
| Mapping.DatePart | import_xml.py:171 | `split('T')[0]` is the prefix without a 'T' that ends the input or stops at a 'T'. |
| Mapping.ParseDatetime | import_xml.py:163-172 | An empty timestamp is NULL; any other is cut just before its first 'T'. |
| Mapping.DatePartUnique | import_xml.py:171 | The three properties of the date part determine it. |
| Mapping.DatePartIdempotent | import_xml.py:171 | Cutting a stored date again changes nothing. |
| Mapping.DatetimeWithoutSeparator | import_xml.py:150-172 | A timestamp without 'T' is stored like a date. |
| Extraction.Extract | import_xml.py:25-127 | Data exists exactly for a well-formed document with an AErende whose `int()` fields convert. DNR defaults to 0 and LNR to the position + 1. The case's direction and status codes are mapped by `MapDirection` and `MapStatus`, its three dates by `ParseDate`, and its AErendemening, MotpartensBeteckning, FraanTill, registrator and handler default to empty text. The dossier number and name are present exactly when the Diarieplan element exists, the number defaulting to 0; the unit code and name are present exactly when the Enhet element exists. There is one note per Haendelse, with its direction and dates mapped the same way, its text, counterpart, registrator and handler defaulting to empty text, and ANMKAL empty, and one log per Logg, with the date part of its change time (`ParseDatetime`), its registrator and the change text "Ändring av " + field name. Every note and log carries the case's DNR. |
| Extraction.NoteOf | import_xml.py:86-103 | A note fails exactly when its LOEPNUMMER does not convert. Otherwise it carries the case's DNR, and its LNR is the number given, or its position + 1 when absent. |
| Extraction.LogOf | import_xml.py:107-117 | The log record of a Logg element: the case's DNR, `ParseDatetime` of the change time, "Ändring av " + field name, and the registrator (stated per log in `Extraction.Extract`). |
| Extraction.CaseOf | import_xml.py:47-84 | The case part of the extracted data: codes mapped by `MapDirection` and `MapStatus`, dates by `ParseDate`, each text field with its default, and the dossier and unit present exactly when their elements exist (stated in `Extraction.Extract`). |
| Extraction.CollectNotes | import_xml.py:86-103 | The note loop fails exactly when some line number does not convert; otherwise it gives each element's note in order. |
| Extraction.CollectLogs | import_xml.py:107-117 | The log loop gives each element's log record in order. |
| Extraction.ParseXmlFile | import_xml.py:25-127 | The loop-built result equals `Extract`. |
| Resolve.FirstFreeSuffix | import_xml.py:193-200 | The result is the least suffix number from `i` up to 99 whose candidate is free, or none exactly when all are taken. |
| Resolve.AllocateId | import_xml.py:187-200 | The new id is free. It is the base when the base is free, otherwise the base with the least free suffix. There is none exactly when the base and all 99 suffixed forms are taken. |
| Resolve.AllocateShortCode | import_xml.py:190-200 | The suffix loop yields the allocated id, or keeps the base when every suffix is taken. |
| Resolve.CandidateInjective | import_xml.py:196 | Distinct suffixes give distinct candidates. |
| Resolve.CandidatesSize | import_xml.py:193-200 | There are n - 1 distinct candidates with suffixes 1 to n - 1. |
| Resolve.ExhaustionNeedsHundredIds | import_xml.py:193-205 | Allocation fails only when at least 100 ids are in use. |
| Resolve.AllocationRoom | import_xml.py:187-205 | With fewer than 100 ids in use an id is always allocated. |
| Resolve.AllocationRoomFor | import_xml.py:187-205 | With fewer than 100 of the ids a base may give (the base and its 99 suffixed forms) taken, an id is allocated from it, however many other ids are taken. |
| Resolve.RegistryBase | import_xml.py:187 | The base id is "R" and then at most three characters, a prefix of the upper-cased name. Without ß these are the first three characters of the name, each upper-cased. |
| Resolve.RegistryBaseOfSharpS | import_xml.py:187 | A registrator "ßen" gets the base id "RSSE", as Python's `upper()` gives. |
| Resolve.GetOrCreateRegistry | import_xml.py:175-207 | On a LIKE hit it returns a matching id and changes nothing. On a miss it inserts the allocated id with the registrator as name and commits. It fails exactly when nothing matches and the base and all 99 suffixed ids are taken, and then nothing changes. The only change to REG is the returned id's new row, and the result's stored name contains the registrator. |
| Resolve.CreatedRegistryIsFound | import_xml.py:180-205 | After a registry is created, the same lookup finds it. |
| Resolve.HandlerBase | import_xml.py:246 | The base id is "H" and then only digits, at least three characters long. It is exactly three long when both the last and the first word are shorter than ten characters. |
| Resolve.GetOrCreateHandler | import_xml.py:230-266 | An empty name gives NULL. A hit returns a matching id. It fails exactly when a non-empty name has no hit and is blank (so `split()[-1]` raises) or every id from its base is taken; then nothing changes. A miss otherwise inserts "H" + the lengths of the last and first words, suffixed if taken, and commits. The only change to HANDLAEGGARE is the returned id's new row. |
| Resolve.CreatedHandlerIsFound | import_xml.py:238-264 | After a handler is created, the same lookup finds it. |
| Resolve.HandlerHitGrows | import_xml.py:236-241 | A name that matches a handler still matches once HANDLAEGGARE has grown. |
| Resolve.GetOrCreateDossier | import_xml.py:210-227 | NULL or 0 gives NULL. Otherwise the number is returned, and inserted with commit only when new and named. Only DOSSIEPLAN changes. |
| Resolve.GetOrCreateUnit | import_xml.py:269-286 | An empty code gives NULL. Otherwise the code is returned, and inserted with commit only when new and named. Only ENHET changes. |
| Importer.OrElse | import_xml.py:339 | Python's `resolved or hand_id`: the resolved handler unless it is NULL or empty, then the case's (used by `Importer.ImportNote`, whose contract states the rule). |
| Importer.CaseRowOf | import_xml.py:323-334 | The AERENDE row of a record with its resolved keys (constrained by `Importer.Imported` in the `Importer.ImportCase` contract). |
| Importer.NoteRowOf | import_xml.py:341-350 | The AERENDE_ANT row of a note: the case's REG_ID and the note's resolved handler (constrained by `Importer.ImportNotes`). |
| Importer.LogRowsCount | import_xml.py:353-361 | The LOG rows of log records that all carry one case's DNR count once each for that case and not at all for others. |
| Importer.NoteKeysSnoc | import_xml.py:337-350 | One more note adds its key to the keys of the notes so far. |
| Importer.NoteKeysHas | import_xml.py:337-350 | Each note's key is among the note keys. |
| Importer.NoteKeysMember | import_xml.py:337-350 | Each note key belongs to some note. |
| Importer.ResolvedHandlerGrows | import_xml.py:339 | A resolved handler stays valid while HANDLAEGGARE only grows. |
| Importer.ResolveKeys | import_xml.py:303-306 | The four resolvers leave the connection clean and touch only the dimension tables, which only grow. They fail exactly when the registry or the case handler fails to resolve. On success they give a registry whose name contains the registrator, a resolved handler, and the dossier and unit keys; a named dossier or unit key is then present in its table; and the only rows added are those of the returned keys, at most one handler row. Whatever they return, a registrator whose registry does not fail then has a matching registry and its named dossier is present, and if the case handler does not fail either, a non-empty handler name has a match and the named unit is present. |
| Importer.ResolversRanGrows | import_xml.py:303-306 | What the resolvers left (a matching registry and handler, the named dossier and unit) stays while the dimension tables only grow. |
| Importer.ImportNote | import_xml.py:338-350 | One note pass changes only HANDLAEGGARE (grown) and the note table, and may commit what is pending. It succeeds exactly when the note's key is free and its handler resolves. A stored note is the only note added. It carries the case's REG_ID and the note's own resolved handler, or the case's handler when the note names none or its name resolves to the empty HAND_ID. The only handler row added is the one the stored note refers to. |
| Importer.NotesImportedNone | import_xml.py:337 | Before the loop no note is imported. |
| Importer.NotesImportedStep | import_xml.py:337-350 | Storing one more note extends the imported prefix by it. |
| Importer.NoteKeysPrefix | import_xml.py:337-350 | The keys of the first notes are keys of all the notes. |
| Importer.AddedHandlersStep | import_xml.py:338-350 | A note added under a new key, adding at most its own handler row, keeps every added handler row referred to by an added note. |
| Importer.NoteLoopHandIds | import_xml.py:338-350 | A stored note keeps every added handler row referred to and adds at most one handler row. |
| Importer.NotesFitAt | import_xml.py:337-350 | In notes that fit, each note's key is new and not an earlier note's, and its handler resolves. |
| Importer.NotesFitGrows | import_xml.py:303-306 | Notes that fit with room for one more handler row still fit after the case handler adds a row: a hit stays a hit, and one more row adds at most one taken id to a base's hundred. |
| Importer.NextNoteFits | import_xml.py:337-350 | In the loop over notes that fit, the next note's key is still free and its handler still resolves. |
| Importer.NoteLoopFrameStep | import_xml.py:337-350 | One pass keeps the frame, with any commit made inside the loop adding only handler rows and the record's notes, and a stored note extends the imported prefix. |
| Importer.NoteLoopStep | import_xml.py:337-350 | One pass keeps the loop's frame, extends the imported prefix, keeps every added handler row referred to by an added note with at most one per note, and stores every note of a sequence that fits. |
| Importer.ImportNotes | import_xml.py:337-350 | The note loop changes only HANDLAEGGARE (grown) and the notes, and any commit it makes adds only handler rows and the record's notes. On success every note is stored under a fresh and distinct key, with the case's REG_ID and its handler chosen as in `Importer.ImportNote`, and every added handler row is referred to by an added note. It succeeds when the notes' keys are free and distinct and each note's handler name is empty, already matched, or has words and fewer than 100 minus the number of notes of its base's hundred ids taken. |
| Importer.NoteLoopCommitted | import_xml.py:337-367 | What a failed note loop leaves committed, the state after the case insert or one committed inside the loop, is grown from the start and consistent when the start was. |
| Importer.AppendLogs | import_xml.py:353-361 | The log loop appends exactly `LogRowsOf` and commits nothing. |
| Importer.ImportKeepsConsistent | import_xml.py:322-363 | An import whose notes and logs carry the case's DNR keeps the database consistent. |
| Importer.StoredCaseImported | import_xml.py:322-363 | The case row, the stored notes and the appended logs together make the record imported, with no earlier row removed or altered and no dimension row added beyond those the record refers to. |
| Importer.ImportedLogCounts | import_xml.py:353-361 | An imported record whose logs carry its DNR adds as many LOG rows to its case as it has log records, and none to any other case. |
| Importer.StoreCase | import_xml.py:322-369 | After the keys are resolved, success imports the record. Failure leaves only grown tables. Notes that fit are always stored, so the import succeeds. The connection ends clean, and no registry, handler, dossier or unit row is removed or altered. |
| Importer.ImportCase | import_xml.py:289-369 | Empty data gives false and no change. Success means the record is imported: no earlier row of any table is removed or altered, the case, its notes (each with its own resolved handler) and its logs are added, the registry, handler, and any named dossier and unit exist, and the only registry, handler, dossier and unit rows added are ones the record refers to. It succeeds whenever the DNR is new, the registry and case handler resolve, and the notes' keys are free and distinct and each note's handler name is empty, already matched, or has words with fewer than 99 minus the number of notes of its base's hundred ids taken. A DNR already present gives false with cases, notes and log untouched. In every outcome, including a DNR already present, the registry, dossier, handler and unit rows the resolvers create stay committed: the registrator has a matching registry unless its allocation fails, and so on down the resolvers in order. Any failure leaves only grown tables. Consistency is kept and the connection ends clean. |
| Importer.ImportFile | import_xml.py:390-411 | A file counts only when it exists and yields data. In a dry run it counts exactly then. Otherwise it counts only when its record is imported, and it does count when the record can be imported. |
| Importer.ImportMain | import_xml.py:372-416 | The tally is at most the number of files that exist and parse, and equals it in a dry run. Consistency is kept and the connection ends clean. |
| Ordering.StrLeTotal | app/routes/cases.py:49 | Code-point order on text is total. |
| Ordering.StrLeTransitive | app/routes/cases.py:49 | Code-point order on text is transitive. |
| Ordering.StrLeAntisymmetric | app/routes/cases.py:49 | Code-point order on text is antisymmetric. |
| Ordering.OptLeTotal | app/routes/cases.py:49 | SQLite's order with NULL smallest is total. |
| Ordering.OptLeTransitive | app/routes/cases.py:49 | SQLite's order with NULL smallest is transitive. |
| Ordering.OptLeAntisymmetric | app/routes/cases.py:49 | SQLite's order with NULL smallest is antisymmetric. |
| Ordering.Insert | app/routes/cases.py:49 | Inserting into a sorted list keeps it sorted and adds exactly the element. |
| Ordering.SortBy | app/routes/cases.py:49 | ORDER BY gives a sorted permutation of the rows. |
| Ordering.SortedLength | app/routes/cases.py:49 | Sorting keeps the number of rows. |
| Ordering.SortedFrom | app/routes/cases.py:49 | Every sorted row is an input row. |
| Ordering.SortedTo | app/routes/cases.py:49 | Every input row is a sorted row. |
| CaseViews.Join | app/routes/cases.py:45-48 | A LEFT JOIN gives the referenced name exactly when the reference is set and points to a row, and NULL otherwise. |
| CaseViews.Ascending | app/routes/cases.py:42-50 | The keys in strictly ascending order, each once. |
| CaseViews.RegdatDescIsPreorder | app/routes/cases.py:49 | `REGDAT DESC` is a total preorder. |
| CaseViews.Listings | app/routes/cases.py:42-48 | One listing per given DNR, in order. |
| CaseViews.Index | app/routes/cases.py:38-52 | The case list: every case with its joined names, sorted by `REGDAT DESC` (properties in `CaseViews.IndexOrdered`, `CaseViews.IndexLength`, `CaseViews.IndexListsEveryCase` and `CaseViews.IndexIsComplete`). |
| CaseViews.IndexOrdered | app/routes/cases.py:49 | The case list is by REGDAT from the latest down, with undated cases last. |
| CaseViews.IndexLength | app/routes/cases.py:42-50 | The case list has as many rows as there are cases. |
| CaseViews.IndexListsEveryCase | app/routes/cases.py:42-50 | Every row of the list is a case with its joined names. |
| CaseViews.IndexIsComplete | app/routes/cases.py:42-50 | Every case is on the list. |
| CaseViews.NoteDescIsPreorder | app/routes/cases.py:79 | `DATUMIN DESC, LNR DESC` is a total preorder. |
| CaseViews.LogDescIsPreorder | app/routes/cases.py:88 | `LOGDAT DESC` is a total preorder. |
| CaseViews.LineNumberIsNote | app/routes/cases.py:74-80 | A line number in use names a note of the case. |
| CaseViews.NoteListings | app/routes/cases.py:74-77 | One listing per line number, with that note's row. |
| CaseViews.LogsOf | app/routes/cases.py:83-87 | The selected log rows all name the case, come from LOG, and number exactly that case's count. |
| CaseViews.LogsOfComplete | app/routes/cases.py:87 | Every LOG row of the case is selected. |
| CaseViews.LogsOfCounts | app/routes/cases.py:87 | `WHERE l.DNR = ?` keeps each row of the case exactly as often as LOG holds it and drops every other row. |
| CaseViews.LogListings | app/routes/cases.py:84-86 | Each log row is listed with its registry's name joined in. |
| CaseViews.LogListingsCount | app/routes/cases.py:84-86 | Joining the registry name in keeps how often each row occurs. |
| CaseViews.ViewCase | app/routes/cases.py:55-91 | There is no page exactly when the case is missing; otherwise the header is the case with its joined names. |
| CaseViews.ViewCaseNotesOrdered | app/routes/cases.py:79 | Notes are shown latest DATUMIN first and, on equal dates, highest LNR first. |
| CaseViews.ViewCaseNoteSource | app/routes/cases.py:74-80 | The page's notes are the sorted listings of the case's line numbers. |
| CaseViews.ViewCaseNotes | app/routes/cases.py:74-80 | The page shows one stored note of the case per line number. |
| CaseViews.ViewCaseNotesComplete | app/routes/cases.py:74-80 | Every note of the case is shown. |
| CaseViews.ViewCaseLogs | app/routes/cases.py:83-89 | The page shows only rows of the case from LOG, every such row, as many rows as the case has, latest LOGDAT first (how often each row appears is in `CaseViews.ViewCaseLogCounts`). |
| CaseViews.ViewCaseLogCounts | app/routes/cases.py:83-89 | LOG has no key, so equal rows can occur: the page lists each row of the case, with its registry name joined, exactly as often as LOG holds it, and no row of another case. |
| CaseViews.ViewCaseLogSource | app/routes/cases.py:83-89 | The page's log list is the case's LOG rows with their registry names, sorted by `LOGDAT DESC`. |
| CaseRoutes.OrNone | app/routes/cases.py:107-112 | `value or None` is NULL exactly for a missing or empty entry, and otherwise the entry. |
| CaseRoutes.NewCaseRow | app/routes/cases.py:105-116 | The new row takes each form field. Blank optional fields become NULL, and REGDAT defaults to today, so it is never NULL. |
| CaseRoutes.NewDnr | app/routes/cases.py:120-130 | The DNR of a new case is unused and above every DNR in use. |
| CaseRoutes.CreateCase | app/routes/cases.py:120-139 | The tables after both writes of `new_case` (properties in `CaseRoutes.CreateCaseEffect`). |
| CaseRoutes.CreateCaseEffect | app/routes/cases.py:120-139 | A new case gets a DNR that is unused and above every DNR. It adds exactly that case, changes no other case or note, and writes exactly one LOG row for it and none for others. Consistency is kept. |
| CaseRoutes.NewCase | app/routes/cases.py:94-154 | With no fault, the tables become `CreateCase` and the answer is the new case's page. If the log write fails, the committed case stays without its log row and the form is shown again. If the first write fails, nothing changes and the form is shown again. |
| CaseRoutes.EditedRow | app/routes/cases.py:175-186 | The edit writes every field, with blank optional fields NULL, REGDAT included. |
| CaseRoutes.EditedAndNewRowsDiffer | app/routes/cases.py:111 | The edited and new rows of one form differ only in REGDAT, and they differ exactly when REGDAT is blank. |
| CaseRoutes.EditCase | app/routes/cases.py:190-209 | The tables after both writes of `edit_case` (properties in `CaseRoutes.EditCaseEffect`). |
| CaseRoutes.EditCaseEffect | app/routes/cases.py:190-209 | An edit replaces only that case's row and keeps every DNR. It adds one LOG row for the case and none for others. Consistency is kept. |
| CaseRoutes.EditCaseRoute | app/routes/cases.py:157-224 | A missing case sends the user to the case list with nothing written. Otherwise the edit and its log are written as the fault allows. The answer is the case page when both writes succeed, and the form shown again otherwise. |
| CaseRoutes.NextLineNumber | app/routes/cases.py:247-252 | The new LNR is not in use for the case, and is 1 or follows an LNR in use. |
| CaseRoutes.NextLineNumberIsFree | app/routes/cases.py:247-252 | The new LNR is free, above every LNR of the case, and 1 for the first note. |
| CaseRoutes.NoteRowFor | app/routes/cases.py:238-263 | A new note takes REG_ID from the case and DATUMIN = today. DATUMUT and ANMKAL are NULL, and blank HAND_ID and AVSMOT become NULL. |
| CaseRoutes.AddNote | app/routes/cases.py:245-272 | The tables after both writes of `add_note` (properties in `CaseRoutes.AddNoteEffect`). |
| CaseRoutes.AddNoteEffect | app/routes/cases.py:247-272 | Adding a note stores exactly one new note under the next LNR, with the case's REG_ID. Other notes and every case stay as they were. One LOG row is added for the case and none for others. Consistency is kept. |
| CaseRoutes.AddNoteKeepsConsistent | app/routes/cases.py:255-272 | A note and a log row for an existing case keep the database consistent. |
| CaseRoutes.AddNoteRoute | app/routes/cases.py:227-277 | A missing case sends the user to the case list with nothing written. Otherwise the note and its log are written as the fault allows, and the user is sent back to the case's page whether or not the writes succeed. |
| CaseRoutes.CreatedCaseView | app/routes/cases.py:120-142 | A new case's page shows no notes and exactly its creation log row. |
| CaseRoutes.AddedNoteIsShown | app/routes/cases.py:247-263 | After a note is added, the case page shows it under its new LNR with the stored row. |

## Left out

- XML parsing itself, file reading and `int()` on text are left out. A document is given as records of child elements, and each `int()` field is given already classified as absent, a number or not a number.
- Python's `upper()` is modelled for ASCII and Latin-1 only, ß, ÿ and µ included. Letters outside Latin-1 are kept as they are, although Python upper-cases many of them. SQLite's LIKE folds case for ASCII only, as SQLite does by default. `%` and `_` inside a name are taken literally rather than as wildcards.
- `print`, `argparse`, the empty-file-list message and closing the connection are left out. The console output has no bearing on the tables or the tally.
- Flask, the templates, `flash` messages, login and sessions are left out. Each route returns which answer it gives: a redirect to a case's page, a redirect to the case list, or the form shown again.
- The GET branches of `new_case` and `edit_case` and their dropdown queries (ORDER BY name) are left out. They only feed the form.
- The clock (`today`, `now`) and the signed-in user's name are parameters.
- In the routes, a store failure the program cannot foresee is a `StoreFault` parameter. Such failures include a constraint of the schema, which this model does not include, and a locked or full file.
- In the importer, only the failures the model's keys explain are modelled: a taken note key, an exhausted id and a blank handler name. Its inserts into AERENDE, LOG, DOSSIEPLAN and ENHET cannot fail in the model, although a constraint or a full file could make them fail.
- Integers are unbounded in the model. SQLite stores at most 64-bit integers. A DNR, LNR or dossier number of 2^63 or more raises an error at its first use in a query, and `import_case` then rolls back and returns false. The model imports such a record.
- `schema.sql` is not part of this model. The primary keys assumed are REG_ID, HAND_ID, DOSS_NR, ENHT_KOD, DNR and (DNR, LNR). LOG has no key. No foreign keys are enforced, as in SQLite's default.
- A new AERENDE row gets DNR = MAX(DNR) + 1, SQLite's rowid rule without AUTOINCREMENT. A DNR freed by deleting the newest case could be reused; AUTOINCREMENT would prevent that.
- The form's DOSS_NR arrives as text in the program and is stored through SQLite's column affinity. It is modelled as a number already.
- Rows that tie on an ORDER BY key are returned in an unspecified order. The model fixes one order but its lemmas state only what the ORDER BY promises.
- The other source files are not part of this model: `app/routes/auth.py`, `app/routes/api.py`, `app/__init__.py`, `init_db.py` (beyond the empty start it gives), `config.py` and `app/static/js/main.js`.
- Where the code and the written description differ, the code is followed:
  - the outgoing direction is stored as UT and other codes as INTERN;
  - a handler lookup takes the first row matching either the exact name or the LIKE pattern, with no preference for the exact match;
  - a rollback in `import_case` undoes only what was written since the resolvers' last commit;
  - `parse_datetime` never fails.
- Importer.ImportCase: on failure it promises only that every table grew (nothing removed or altered, no log row added). It does not promise that nothing changed. The handler resolver commits between the case insert and a failing note, so the case row and earlier notes can stay committed, and the contract says exactly that much. Success is promised under `CanImport`, a sufficient condition but not the exact one, for the reasons given on the `Importer.ImportNotes` line.
- Importer.ImportNotes: success is promised when every note can resolve its handler whatever the earlier notes of the record add. For a new handler name that means at most 99 minus the number of notes (one fewer again in `Importer.ImportCase`, for the case's own handler) of the hundred ids its base may give are taken. Each earlier note adds at most one handler row. The exact condition depends on which ids the earlier notes take and on names that only a row added earlier in the same import matches, so it is not stated; a record closer to exhausting a base may still import.
- Importer.ImportMain: the tally is bounded by the number of parseable files, not computed exactly. Each import may fail on store contents (a DNR already present, an exhausted id), so the exact count depends on the database.
