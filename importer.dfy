/** `import_case` and the tally of the command-line importer. One case
    record is imported as: resolve its registry, dossier, handler and unit
    (each resolver commits what it creates), reject the record if its DNR is
    already stored, insert the case, then each note (resolving the note's own
    handler, which may commit), then each log row, and commit. Any error
    rolls the connection back to its last commit. */
module Importer {
  import opened Text
  import opened Store
  import opened Extraction
  import opened Resolve

  /** What `get_or_create_dossier` returns for a dossier number. */
  function DossierKey(nr: Option<int>): Option<int>
  {
    if nr == None || nr == Some(0) then None else nr
  }

  /** What `get_or_create_unit` returns for a unit code. */
  function UnitKey(code: Option<string>): Option<string>
  {
    if Named(code) then code else None
  }

  /** Python's `resolved or fallback` for a handler id. */
  function OrElse(resolved: Option<string>, fallback: Option<string>): Option<string>
  {
    if resolved.Some? && resolved.value != "" then resolved else fallback
  }

  /** The AERENDE row stored for a case record with its resolved keys. */
  function CaseRowOf(c: CaseRecord, regId: string, handId: Option<string>): CaseRow
  {
    CaseRow(Some(regId), Some(c.inUt), DossierKey(c.dossNr), handId, UnitKey(c.enhtKod),
            c.inkupp, c.regdat, c.avsdat, Some(c.stat), Some(c.atext),
            Some(c.motpartBet), Some(c.franTill))
  }

  /** The AERENDE_ANT row stored for a note record. */
  function NoteRowOf(n: NoteRecord, regId: string, handId: Option<string>): NoteRow
  {
    NoteRow(Some(n.inUt), Some(n.antText), Some(regId), n.datumin, n.datumut,
            Some(n.anmkal), handId, Some(n.avsmot))
  }

  /** The LOG row stored for a log record. */
  function LogRowOf(l: LogRecord, regId: string): LogRow
  {
    LogRow(l.dnr, Some(regId), l.logdat, l.logflt)
  }

  /** The LOG rows stored for the log records of a case, in order. */
  function LogRowsOf(logs: seq<LogRecord>, regId: string): (rows: seq<LogRow>)
    ensures |rows| == |logs|
    ensures forall k :: 0 <= k < |logs| ==> rows[k] == LogRowOf(logs[k], regId)
  {
    seq(|logs|, k requires 0 <= k < |logs| => LogRowOf(logs[k], regId))
  }

  /** The log rows of records that all carry case `dnr` count once each
      for that case and not at all for any other. */
  lemma {:induction false} LogRowsCount(logs: seq<LogRecord>, regId: string, dnr: int, d: int)
    requires forall k :: 0 <= k < |logs| ==> logs[k].dnr == dnr
    ensures LogCount(LogRowsOf(logs, regId), d) == if d == dnr then |logs| else 0
  {
    if logs != [] {
      var m := |logs| - 1;
      LogRowsCount(logs[..m], regId, dnr, d);
      assert LogRowsOf(logs, regId)[..m] == LogRowsOf(logs[..m], regId);
    }
  }

  /** The key of the AERENDE_ANT row of a note record. */
  function NoteKey(n: NoteRecord): (int, int)
  {
    (n.dnr, n.lnr)
  }

  /** The keys of the notes of a record. */
  function NoteKeys(ns: seq<NoteRecord>): set<(int, int)>
  {
    if ns == [] then {} else NoteKeys(ns[..|ns| - 1]) + {NoteKey(ns[|ns| - 1])}
  }

  lemma NoteKeysSnoc(ns: seq<NoteRecord>, n: NoteRecord)
    ensures NoteKeys(ns + [n]) == NoteKeys(ns) + {NoteKey(n)}
  {
    assert (ns + [n])[..|ns|] == ns;
  }

  lemma {:induction false} NoteKeysHas(ns: seq<NoteRecord>, k: int)
    requires 0 <= k < |ns|
    ensures NoteKey(ns[k]) in NoteKeys(ns)
  {
    if k < |ns| - 1 {
      NoteKeysHas(ns[..|ns| - 1], k);
    }
  }

  lemma {:induction false} NoteKeysMember(ns: seq<NoteRecord>, key: (int, int))
    requires key in NoteKeys(ns)
    ensures exists k :: 0 <= k < |ns| && NoteKey(ns[k]) == key
  {
    var m := |ns| - 1;
    if key != NoteKey(ns[m]) {
      NoteKeysMember(ns[..m], key);
      var k :| 0 <= k < m && NoteKey(ns[..m][k]) == key;
      assert ns[..m][k] == ns[k];
    }
  }

  /** `id` is an answer handler resolution of `name` may give against `hand`. */
  ghost predicate ResolvedHandler(hand: map<string, string>, name: string, id: Option<string>)
  {
    if name == "" then id == None
    else id.Some? && id.value in hand && HandlerMatches(hand[id.value], name)
  }

  /** A resolution stays valid while the handler table only grows. */
  lemma ResolvedHandlerGrows(hand: map<string, string>, hand': map<string, string>, name: string, id: Option<string>)
    requires Extends(hand, hand')
    requires ResolvedHandler(hand, name, id)
    ensures ResolvedHandler(hand', name, id)
  {
  }

  /** The note record `n` is stored with the case's registry id and its own
      resolved handler; the case's handler takes its place only when the
      note names no handler or its name resolves to the empty HAND_ID. */
  ghost predicate NoteStored(notes: map<(int, int), NoteRow>, hand: map<string, string>,
                             n: NoteRecord, regId: string, caseHand: Option<string>)
  {
    && NoteKey(n) in notes
    && var handId := notes[NoteKey(n)].handId;
    && notes[NoteKey(n)] == NoteRowOf(n, regId, handId)
    && (n.handlaeggare == "" ==> handId == caseHand)
    && (n.handlaeggare != "" ==>
          || (handId != Some("") && ResolvedHandler(hand, n.handlaeggare, handId))
          || (handId == caseHand && ResolvedHandler(hand, n.handlaeggare, Some(""))))
  }

  /** Some note of `notes1` that `notes0` lacks carries the handler id `id`. */
  ghost predicate AddedNoteRefers(notes0: map<(int, int), NoteRow>, notes1: map<(int, int), NoteRow>, id: string)
  {
    exists key :: key in notes1 && key !in notes0 && notes1[key].handId == Some(id)
  }

  /** Every handler row of `hand1` that `hand0` lacks is referred to by a
      note of `notes1` that `notes0` lacks. */
  ghost predicate AddedHandlersReferred(hand0: map<string, string>, hand1: map<string, string>,
                                        notes0: map<(int, int), NoteRow>, notes1: map<(int, int), NoteRow>)
  {
    forall id {:trigger AddedNoteRefers(notes0, notes1, id)} ::
      id in hand1 && id !in hand0 ==> AddedNoteRefers(notes0, notes1, id)
  }

  /** A note added under a new key, with at most its own handler row added,
      keeps every added handler row referred to. */
  lemma AddedHandlersStep(hand0: map<string, string>, hand1: map<string, string>, hand2: map<string, string>,
                          notes0: map<(int, int), NoteRow>, notes1: map<(int, int), NoteRow>,
                          notes2: map<(int, int), NoteRow>, key: (int, int))
    requires AddedHandlersReferred(hand0, hand1, notes0, notes1)
    requires Extends(notes0, notes1) && key !in notes1 && key in notes2
    requires notes2 == notes1[key := notes2[key]]
    requires hand2.Keys <= hand1.Keys + Elements(notes2[key].handId)
    ensures AddedHandlersReferred(hand0, hand2, notes0, notes2)
  {
    forall id | id in hand2 && id !in hand0
      ensures AddedNoteRefers(notes0, notes2, id)
    {
      if id in hand1 {
        assert AddedNoteRefers(notes0, notes1, id);
        var k :| k in notes1 && k !in notes0 && notes1[k].handId == Some(id);
        assert k in notes2 && notes2[k] == notes1[k];
      } else {
        assert key !in notes0 && notes2[key].handId == Some(id);
      }
    }
  }

  /** `after` is `before` with the record `data` imported into it: no row
      of `before` is removed or altered, the case and its notes are added,
      its log rows are appended, the rows it refers to exist, and the only
      registry, handler, dossier and unit rows added are ones it refers to. */
  ghost predicate Imported(before: Tables, after: Tables, data: CaseData)
    requires data.CaseData?
  {
    var c := data.header;
    && c.dnr !in before.cases
    && Extends(before.reg, after.reg) && Extends(before.hand, after.hand)
    && Extends(before.doss, after.doss) && Extends(before.enhet, after.enhet)
    && Extends(before.cases, after.cases) && Extends(before.notes, after.notes)
    && after.cases.Keys == before.cases.Keys + {c.dnr}
    && var row := after.cases[c.dnr];
    && row.regId.Some?
    && var regId := row.regId.value;
    && regId in after.reg && ContainsFolded(after.reg[regId], c.registrator)
    && ResolvedHandler(after.hand, c.handlaeggare, row.handId)
    && row == CaseRowOf(c, regId, row.handId)
    && (row.dossNr.Some? && Named(c.dossierName) ==> row.dossNr.value in after.doss)
    && (row.enhtKod.Some? && Named(c.enhetName) ==> row.enhtKod.value in after.enhet)
    && after.reg.Keys <= before.reg.Keys + {regId}
    && after.doss.Keys <= before.doss.Keys + Elements(row.dossNr)
    && after.enhet.Keys <= before.enhet.Keys + Elements(row.enhtKod)
    && (forall id :: id in after.hand && id !in before.hand ==>
          row.handId == Some(id) || AddedNoteRefers(before.notes, after.notes, id))
    && after.notes.Keys == before.notes.Keys + NoteKeys(data.notes)
    && (forall k :: 0 <= k < |data.notes| ==> NoteKey(data.notes[k]) !in before.notes)
    && (forall i, j :: 0 <= i < j < |data.notes| ==> NoteKey(data.notes[i]) != NoteKey(data.notes[j]))
    && (forall k :: 0 <= k < |data.notes| ==> NoteStored(after.notes, after.hand, data.notes[k], regId, row.handId))
    && after.log == before.log + LogRowsOf(data.logs, regId)
  }

  /** An imported record whose log records carry its DNR adds as many LOG
      rows to its case as it has log records, and none to any other case. */
  lemma ImportedLogCounts(before: Tables, after: Tables, data: CaseData, d: int)
    requires data.CaseData? && WellFormed(data) && Imported(before, after, data)
    ensures LogCount(after.log, d) == LogCount(before.log, d) + (if d == data.header.dnr then |data.logs| else 0)
  {
    var regId := after.cases[data.header.dnr].regId.value;
    LogCountConcat(before.log, LogRowsOf(data.logs, regId), d);
    LogRowsCount(data.logs, regId, data.header.dnr, d);
  }

  /** Nothing in `before` is removed or altered in `t`, no log row is added
      and at most the case `dnr` is added. */
  ghost predicate Grown(before: Tables, t: Tables, dnr: int)
  {
    && Extends(before.reg, t.reg) && Extends(before.hand, t.hand)
    && Extends(before.doss, t.doss) && Extends(before.enhet, t.enhet)
    && Extends(before.cases, t.cases) && Extends(before.notes, t.notes)
    && t.cases.Keys <= before.cases.Keys + {dnr}
    && t.log == before.log
  }

  /** The keys a case row refers to. */
  datatype CaseKeys = CaseKeys(regId: string, dossNr: Option<int>, handId: Option<string>, enhtKod: Option<string>)

  /** What the resolvers at the head of `import_case` leave in `t`, having
      started from `before`, whatever the import does after them: they run
      in order until one raises, and each commits what it creates. Unless
      the registry fails, a registry matching the registrator exists and a
      named dossier is present; unless the case handler fails as well, a
      non-empty handler name has a match and a named unit is present. */
  ghost predicate ResolversRan(before: Tables, t: Tables, c: CaseRecord)
  {
    !RegistryFails(before.reg, c.registrator) ==>
      && RegistryHit(t.reg, c.registrator)
      && (DossierKey(c.dossNr).Some? && Named(c.dossierName) ==> DossierKey(c.dossNr).value in t.doss)
      && (!HandlerFails(before.hand, c.handlaeggare) ==>
            && (c.handlaeggare != "" ==> HandlerHit(t.hand, c.handlaeggare))
            && (UnitKey(c.enhtKod).Some? && Named(c.enhetName) ==> UnitKey(c.enhtKod).value in t.enhet))
  }

  /** What the resolvers left stays while the dimension tables only grow. */
  lemma ResolversRanGrows(before: Tables, t1: Tables, t2: Tables, c: CaseRecord)
    requires ResolversRan(before, t1, c)
    requires Extends(t1.reg, t2.reg) && Extends(t1.hand, t2.hand)
    requires Extends(t1.doss, t2.doss) && Extends(t1.enhet, t2.enhet)
    ensures ResolversRan(before, t2, c)
  {
    if !RegistryFails(before.reg, c.registrator) {
      var id :| id in t1.reg && ContainsFolded(t1.reg[id], c.registrator);
      assert id in t2.reg && ContainsFolded(t2.reg[id], c.registrator);
      if !HandlerFails(before.hand, c.handlaeggare) && c.handlaeggare != "" {
        HandlerHitGrows(t1.hand, t2.hand, c.handlaeggare);
      }
    }
  }

  /** The four resolver calls at the head of `import_case`. Each commits
      what it creates, so the connection is clean afterwards even when a
      later one fails. */
  method ResolveKeys(db: Database, c: CaseRecord) returns (r: Result<CaseKeys, ImportError>)
    requires db.Clean()
    modifies db
    ensures db.Clean()
    ensures db.cases == old(db.cases) && db.notes == old(db.notes) && db.log == old(db.log)
    ensures Extends(old(db.reg), db.reg) && Extends(old(db.hand), db.hand)
    ensures Extends(old(db.doss), db.doss) && Extends(old(db.enhet), db.enhet)
    ensures r.Ok? ==>
      && r.value.regId in db.reg && ContainsFolded(db.reg[r.value.regId], c.registrator)
      && ResolvedHandler(db.hand, c.handlaeggare, r.value.handId)
      && r.value.dossNr == DossierKey(c.dossNr)
      && r.value.enhtKod == UnitKey(c.enhtKod)
      && (r.value.dossNr.Some? && Named(c.dossierName) ==> r.value.dossNr.value in db.doss)
      && (r.value.enhtKod.Some? && Named(c.enhetName) ==> r.value.enhtKod.value in db.enhet)
      && db.reg.Keys <= old(db.reg).Keys + {r.value.regId}
      && db.doss.Keys <= old(db.doss).Keys + Elements(r.value.dossNr)
      && db.enhet.Keys <= old(db.enhet).Keys + Elements(r.value.enhtKod)
      && db.hand.Keys <= old(db.hand).Keys + Elements(r.value.handId)
      && |db.hand.Keys| <= |old(db.hand).Keys| + 1
    ensures r.Err? <==> RegistryFails(old(db.reg), c.registrator) || HandlerFails(old(db.hand), c.handlaeggare)
    ensures ResolversRan(old(db.Live()), db.Live(), c)
  {
    var regR := GetOrCreateRegistry(db, c.registrator);
    if regR.Err? {
      return Err(regR.error);
    }
    var regId := regR.value;
    var dossNr := GetOrCreateDossier(db, c.dossNr, c.dossierName);
    var handR := GetOrCreateHandler(db, c.handlaeggare);
    if handR.Err? {
      return Err(handR.error);
    }
    var enhtKod := GetOrCreateUnit(db, c.enhtKod, c.enhetName);
    return Ok(CaseKeys(regId, dossNr, handR.value, enhtKod));
  }

  /** What one pass of the note loop does to the live tables (`live0` to
      `live1`) and to the committed ones (`committed0` to `committed1`): only
      the handler table and the notes change; resolving the handler may
      commit; a note whose key is taken fails; a stored note is the only
      note added. */
  ghost predicate NoteStep(live0: Tables, committed0: Tables, live1: Tables, committed1: Tables,
                           n: NoteRecord, regId: string, caseHand: Option<string>, ok: bool)
  {
    && live1.reg == live0.reg && live1.doss == live0.doss && live1.enhet == live0.enhet
    && live1.cases == live0.cases && live1.log == live0.log
    && Extends(live0.hand, live1.hand)
    && (committed1 == committed0 || committed1 == live0.(hand := live1.hand))
    && (NoteKey(n) in live0.notes ==> !ok)
    && (!ok ==> live1.notes == live0.notes)
    && (ok ==>
          && NoteKey(n) in live1.notes
          && live1.notes == live0.notes[NoteKey(n) := live1.notes[NoteKey(n)]]
          && NoteStored(live1.notes, live1.hand, n, regId, caseHand))
  }

  /** When one pass of the note loop succeeds: exactly when the note's key
      is free and its handler resolves. The only handler row it adds is the
      one the stored note refers to. */
  ghost predicate NoteOutcome(live0: Tables, live1: Tables, n: NoteRecord, ok: bool)
  {
    && (ok <==> NoteKey(n) !in live0.notes && !HandlerFails(live0.hand, n.handlaeggare))
    && (ok ==>
          && NoteKey(n) in live1.notes
          && live1.hand.Keys <= live0.hand.Keys + Elements(live1.notes[NoteKey(n)].handId)
          && |live1.hand.Keys| <= |live0.hand.Keys| + 1)
  }

  /** One pass of the note loop of `import_case`: resolve the note's
      handler, falling back to the case's, and insert the note. Resolving
      may commit everything pending. */
  method ImportNote(db: Database, n: NoteRecord, regId: string, caseHand: Option<string>) returns (ok: bool)
    modifies db
    ensures NoteStep(old(db.Live()), old(db.committed), db.Live(), db.committed, n, regId, caseHand, ok)
    ensures NoteOutcome(old(db.Live()), db.Live(), n, ok)
  {
    var handR := GetOrCreateHandler(db, n.handlaeggare);
    if handR.Err? {
      return false;
    }
    var handId := OrElse(handR.value, caseHand);
    ok := db.InsertNote(n.dnr, n.lnr, NoteRowOf(n, regId, handId));
  }

  /** The first `i` notes are imported into `notesMap`, which held `old_`
      before: their keys were new and distinct, and each is stored. */
  ghost predicate NotesImported(old_: map<(int, int), NoteRow>, notesMap: map<(int, int), NoteRow>,
                                hand: map<string, string>, ns: seq<NoteRecord>,
                                regId: string, caseHand: Option<string>)
  {
    && Extends(old_, notesMap)
    && notesMap.Keys == old_.Keys + NoteKeys(ns)
    && (forall k :: 0 <= k < |ns| ==> NoteKey(ns[k]) !in old_)
    && (forall i, j :: 0 <= i < j < |ns| ==> NoteKey(ns[i]) != NoteKey(ns[j]))
    && (forall k :: 0 <= k < |ns| ==> NoteStored(notesMap, hand, ns[k], regId, caseHand))
  }

  /** No note imported yet. */
  lemma NotesImportedNone(m: map<(int, int), NoteRow>, hand: map<string, string>,
                          regId: string, caseHand: Option<string>)
    ensures NotesImported(m, m, hand, [], regId, caseHand)
  {
  }

  /** One more note imported extends the imported prefix by one. */
  lemma NotesImportedStep(old_: map<(int, int), NoteRow>, notes0: map<(int, int), NoteRow>,
                          hand0: map<string, string>, notes1: map<(int, int), NoteRow>,
                          hand1: map<string, string>, ns: seq<NoteRecord>, n: NoteRecord,
                          ns': seq<NoteRecord>, regId: string, caseHand: Option<string>)
    requires ns' == ns + [n]
    requires NotesImported(old_, notes0, hand0, ns, regId, caseHand)
    requires Extends(hand0, hand1)
    requires NoteKey(n) !in notes0 && NoteKey(n) in notes1
    requires notes1 == notes0[NoteKey(n) := notes1[NoteKey(n)]]
    requires NoteStored(notes1, hand1, n, regId, caseHand)
    ensures NotesImported(old_, notes1, hand1, ns', regId, caseHand)
  {
    NoteKeysSnoc(ns, n);
    forall k | 0 <= k < |ns|
      ensures NoteKey(ns'[k]) !in old_ && NoteKey(ns'[k]) != NoteKey(n)
      ensures NoteStored(notes1, hand1, ns'[k], regId, caseHand)
    {
      assert ns'[k] == ns[k];
      NoteKeysHas(ns, k);
      var h := notes0[NoteKey(ns[k])].handId;
      var name := ns[k].handlaeggare;
      if name != "" && ResolvedHandler(hand0, name, h) {
        ResolvedHandlerGrows(hand0, hand1, name, h);
      }
      if name != "" && ResolvedHandler(hand0, name, Some("")) {
        ResolvedHandlerGrows(hand0, hand1, name, Some(""));
      }
    }
    assert ns'[|ns|] == n;
  }

  /** The keys of a prefix of the notes are keys of the notes. */
  lemma NoteKeysPrefix(ns: seq<NoteRecord>, i: nat)
    requires i <= |ns|
    ensures NoteKeys(ns[..i]) <= NoteKeys(ns)
  {
    forall key | key in NoteKeys(ns[..i])
      ensures key in NoteKeys(ns)
    {
      NoteKeysMember(ns[..i], key);
      var k :| 0 <= k < i && NoteKey(ns[..i][k]) == key;
      NoteKeysHas(ns, k);
    }
  }

  /** A state committed while the note loop runs, against the state
      `start` the loop began with: only handler rows and the notes of
      `notes` are added. */
  ghost predicate CommittedInLoop(start: Tables, c: Tables, notes: seq<NoteRecord>)
  {
    && c.reg == start.reg && c.doss == start.doss && c.enhet == start.enhet
    && c.cases == start.cases && c.log == start.log
    && Extends(start.hand, c.hand) && Extends(start.notes, c.notes)
    && c.notes.Keys <= start.notes.Keys + NoteKeys(notes)
  }

  /** A stored note keeps the loop's facts about the handler rows added so
      far: each is referred to by an added note, and there is at most one
      per note. */
  lemma NoteLoopHandIds(start: Tables, live0: Tables, live1: Tables, notes: seq<NoteRecord>, i: nat)
    requires i < |notes|
    requires Extends(start.notes, live0.notes)
    requires AddedHandlersReferred(start.hand, live0.hand, start.notes, live0.notes)
    requires |live0.hand.Keys| <= |start.hand.Keys| + i
    requires NoteOutcome(live0, live1, notes[i], true)
    requires live1.notes == live0.notes[NoteKey(notes[i]) := live1.notes[NoteKey(notes[i])]]
    ensures AddedHandlersReferred(start.hand, live1.hand, start.notes, live1.notes)
    ensures |live1.hand.Keys| <= |start.hand.Keys| + i + 1
  {
    AddedHandlersStep(start.hand, live0.hand, live1.hand, start.notes, live0.notes, live1.notes, NoteKey(notes[i]));
  }

  /** A note handler name that resolves against any table grown from
      `hand0` by at most `room` rows: empty, already matched, or with words
      and, even after `room` more rows, fewer than the hundred ids its base
      may give taken. */
  ghost predicate HandlerResolvable(hand0: map<string, string>, name: string, room: nat)
  {
    || name == "" || HandlerHit(hand0, name)
    || (Words(name) != [] && |hand0.Keys * IdSpace(HandlerBase(Words(name)))| + room < 100)
  }

  /** The notes `ns` can all be stored on top of `notes0` and `hand0`:
      their keys are new and distinct and their handlers resolve. */
  ghost predicate NotesFit(notes0: map<(int, int), NoteRow>, hand0: map<string, string>,
                           ns: seq<NoteRecord>, room: nat)
  {
    ns == [] ||
      var n := ns[|ns| - 1];
      && NotesFit(notes0, hand0, ns[..|ns| - 1], room)
      && NoteKey(n) !in notes0 && NoteKey(n) !in NoteKeys(ns[..|ns| - 1])
      && HandlerResolvable(hand0, n.handlaeggare, room)
  }

  /** What fitting says of each note: a new key, not the key of an earlier
      note, and a handler that resolves. */
  lemma {:induction false} NotesFitAt(notes0: map<(int, int), NoteRow>, hand0: map<string, string>,
                                      ns: seq<NoteRecord>, room: nat, i: nat)
    requires NotesFit(notes0, hand0, ns, room) && i < |ns|
    ensures NoteKey(ns[i]) !in notes0 && NoteKey(ns[i]) !in NoteKeys(ns[..i])
    ensures HandlerResolvable(hand0, ns[i].handlaeggare, room)
  {
    if i < |ns| - 1 {
      NotesFitAt(notes0, hand0, ns[..|ns| - 1], room, i);
      assert ns[..|ns| - 1][..i] == ns[..i];
    }
  }

  /** Notes that fit before one more handler row is added still fit after. */
  lemma {:induction false} NotesFitGrows(notes0: map<(int, int), NoteRow>, hand0: map<string, string>,
                                         hand1: map<string, string>, ns: seq<NoteRecord>, room: nat)
    requires NotesFit(notes0, hand0, ns, room + 1)
    requires Extends(hand0, hand1) && |hand1.Keys| <= |hand0.Keys| + 1
    ensures NotesFit(notes0, hand1, ns, room)
  {
    if ns != [] {
      NotesFitGrows(notes0, hand0, hand1, ns[..|ns| - 1], room);
      var name := ns[|ns| - 1].handlaeggare;
      if HandlerHit(hand0, name) {
        HandlerHitGrows(hand0, hand1, name);
      } else if name != "" {
        GrowthWithin(hand0.Keys, hand1.Keys, IdSpace(HandlerBase(Words(name))), 1);
      }
    }
  }

  /** In a loop over notes that fit, the next note is stored: its key is
      still free and its handler resolves against the grown table. */
  lemma NextNoteFits(start: Tables, live: Tables, notes: seq<NoteRecord>, i: nat,
                     regId: string, caseHand: Option<string>)
    requires i < |notes|
    requires NotesFit(start.notes, start.hand, notes, |notes|)
    requires Extends(start.hand, live.hand) && |live.hand.Keys| <= |start.hand.Keys| + i
    requires NotesImported(start.notes, live.notes, live.hand, notes[..i], regId, caseHand)
    ensures NoteKey(notes[i]) !in live.notes && !HandlerFails(live.hand, notes[i].handlaeggare)
  {
    NotesFitAt(start.notes, start.hand, notes, |notes|, i);
    var name := notes[i].handlaeggare;
    if HandlerHit(start.hand, name) {
      HandlerHitGrows(start.hand, live.hand, name);
    } else if name != "" {
      var space := IdSpace(HandlerBase(Words(name)));
      GrowthWithin(start.hand.Keys, live.hand.Keys, space, i);
      AllocationRoomFor(HandlerBase(Words(name)), live.hand.Keys);
    }
  }

  /** What the note loop keeps about the tables while it runs, against the
      live state `start` and the committed state `committed0` it began
      with: only the handler table and the notes change, and what is
      committed is either `committed0` or a state committed during the loop. */
  ghost predicate NoteLoopFrame(start: Tables, committed0: Tables, live: Tables, committed: Tables,
                                notes: seq<NoteRecord>)
  {
    && live.reg == start.reg && live.doss == start.doss && live.enhet == start.enhet
    && live.cases == start.cases && live.log == start.log
    && Extends(start.hand, live.hand)
    && (committed == committed0 || CommittedInLoop(start, committed, notes))
  }

  /** One pass of the note loop keeps the frame and, when the note is
      stored, extends the imported prefix by that note. */
  lemma NoteLoopFrameStep(start: Tables, committed0: Tables, live0: Tables, c0: Tables,
                     live1: Tables, c1: Tables, notes: seq<NoteRecord>, i: nat,
                     regId: string, caseHand: Option<string>, ok: bool)
    requires i < |notes|
    requires NoteLoopFrame(start, committed0, live0, c0, notes)
    requires NotesImported(start.notes, live0.notes, live0.hand, notes[..i], regId, caseHand)
    requires NoteStep(live0, c0, live1, c1, notes[i], regId, caseHand, ok)
    ensures NoteLoopFrame(start, committed0, live1, c1, notes)
    ensures ok ==> NotesImported(start.notes, live1.notes, live1.hand, notes[..i + 1], regId, caseHand)
  {
    if c1 != c0 {
      NoteKeysPrefix(notes, i);
      assert CommittedInLoop(start, c1, notes);
    }
    if ok {
      assert notes[..i + 1] == notes[..i] + [notes[i]];
      NotesImportedStep(start.notes, live0.notes, live0.hand, live1.notes, live1.hand,
                        notes[..i], notes[i], notes[..i + 1], regId, caseHand);
    }
  }

  /** One pass of the note loop keeps all of the loop's facts: the frame,
      the imported prefix grown by the note once it is stored, every added
      handler row referred to by an added note, at most one handler row
      per note; and a note of a sequence that fits is stored. */
  lemma NoteLoopStep(start: Tables, committed0: Tables, live0: Tables, c0: Tables,
                     live1: Tables, c1: Tables, notes: seq<NoteRecord>, i: nat,
                     regId: string, caseHand: Option<string>, ok: bool)
    requires i < |notes|
    requires NoteLoopFrame(start, committed0, live0, c0, notes)
    requires NotesImported(start.notes, live0.notes, live0.hand, notes[..i], regId, caseHand)
    requires AddedHandlersReferred(start.hand, live0.hand, start.notes, live0.notes)
    requires |live0.hand.Keys| <= |start.hand.Keys| + i
    requires NoteStep(live0, c0, live1, c1, notes[i], regId, caseHand, ok)
    requires NoteOutcome(live0, live1, notes[i], ok)
    ensures NoteLoopFrame(start, committed0, live1, c1, notes)
    ensures ok ==> NotesImported(start.notes, live1.notes, live1.hand, notes[..i + 1], regId, caseHand)
    ensures ok ==> AddedHandlersReferred(start.hand, live1.hand, start.notes, live1.notes)
    ensures ok ==> |live1.hand.Keys| <= |start.hand.Keys| + i + 1
    ensures NotesFit(start.notes, start.hand, notes, |notes|) ==> ok
  {
    if NotesFit(start.notes, start.hand, notes, |notes|) {
      NextNoteFits(start, live0, notes, i, regId, caseHand);
    }
    NoteLoopFrameStep(start, committed0, live0, c0, live1, c1, notes, i, regId, caseHand, ok);
    if ok {
      NoteLoopHandIds(start, live0, live1, notes, i);
    }
  }

  /** The note loop of `import_case`. It stops at the first note that
      fails; the caller rolls back. */
  method ImportNotes(db: Database, notes: seq<NoteRecord>, regId: string, caseHand: Option<string>)
      returns (ok: bool)
    modifies db
    ensures NoteLoopFrame(old(db.Live()), old(db.committed), db.Live(), db.committed, notes)
    ensures ok ==> NotesImported(old(db.notes), db.notes, db.hand, notes, regId, caseHand)
    ensures ok ==> AddedHandlersReferred(old(db.hand), db.hand, old(db.notes), db.notes)
    ensures NotesFit(old(db.notes), old(db.hand), notes, |notes|) ==> ok
  {
    ghost var start := db.Live();
    ghost var committed0 := db.committed;
    NotesImportedNone(db.notes, db.hand, regId, caseHand);
    assert notes[..0] == [];
    var i := 0;
    while i < |notes|
      invariant 0 <= i <= |notes|
      invariant NoteLoopFrame(start, committed0, db.Live(), db.committed, notes)
      invariant NotesImported(start.notes, db.notes, db.hand, notes[..i], regId, caseHand)
      invariant AddedHandlersReferred(start.hand, db.hand, start.notes, db.notes)
      invariant |db.hand.Keys| <= |start.hand.Keys| + i
    {
      ghost var live0 := db.Live();
      ghost var c0 := db.committed;
      ok := ImportNote(db, notes[i], regId, caseHand);
      NoteLoopStep(start, committed0, live0, c0, db.Live(), db.committed, notes, i, regId, caseHand, ok);
      if !ok {
        return;
      }
      i := i + 1;
    }
    assert notes[..i] == notes;
    ok := true;
  }

  /** What is committed after the note loop of a record, when the loop
      began right after its case row was inserted into `t0`, is `t0` itself
      or a state committed during the loop; either is grown from `before`
      and, for a well-formed record, as consistent as `before`. */
  lemma NoteLoopCommitted(before: Tables, t0: Tables, start: Tables, c: Tables, data: CaseData, row: CaseRow)
    requires data.CaseData?
    requires Grown(before, t0, data.header.dnr)
    requires t0.cases == before.cases && t0.notes == before.notes
    requires data.header.dnr !in t0.cases && start == t0.(cases := t0.cases[data.header.dnr := row])
    requires c == t0 || CommittedInLoop(start, c, data.notes)
    ensures Grown(before, c, data.header.dnr)
    ensures WellFormed(data) && Consistent(before) ==> Consistent(c)
  {
    if WellFormed(data) && Consistent(before) && c != t0 {
      forall key | key in c.notes
        ensures key.0 in c.cases
      {
        if key !in before.notes {
          NoteKeysMember(data.notes, key);
        }
      }
    }
  }

  /** The log loop of `import_case`: one LOG row per record, in order,
      carrying the case's registry id. */
  method AppendLogs(db: Database, logs: seq<LogRecord>, regId: string)
    modifies db
    ensures db.Live() == old(db.Live()).(log := old(db.log) + LogRowsOf(logs, regId))
    ensures db.committed == old(db.committed)
  {
    var j := 0;
    while j < |logs|
      invariant 0 <= j <= |logs|
      invariant db.Live() == old(db.Live()).(log := old(db.log) + LogRowsOf(logs[..j], regId))
      invariant db.committed == old(db.committed)
    {
      assert LogRowsOf(logs[..j + 1], regId) == LogRowsOf(logs[..j], regId) + [LogRowOf(logs[j], regId)];
      db.AppendLog(LogRowOf(logs[j], regId));
      j := j + 1;
    }
    assert logs[..j] == logs;
  }

  /** A case imported with notes and logs that all carry its DNR into a
      consistent database leaves it consistent. */
  lemma ImportKeepsConsistent(before: Tables, t: Tables, data: CaseData, regId: string)
    requires data.CaseData? && WellFormed(data) && Consistent(before)
    requires t.cases.Keys == before.cases.Keys + {data.header.dnr}
    requires t.notes.Keys == before.notes.Keys + NoteKeys(data.notes)
    requires t.log == before.log + LogRowsOf(data.logs, regId)
    ensures Consistent(t)
  {
    forall key | key in t.notes
      ensures key.0 in t.cases
    {
      if key !in before.notes {
        NoteKeysMember(data.notes, key);
      }
    }
    forall i | 0 <= i < |t.log|
      ensures t.log[i].dnr in t.cases
    {
      if i >= |before.log| {
        assert t.log[i] == LogRowOf(data.logs[i - |before.log|], regId);
      }
    }
  }

  /** The tables after the case row, the notes and the log rows of a
      record are stored hold the record imported. `t0` is the state after
      the keys were resolved, `t2` after the notes, `t3` after the logs. */
  lemma StoredCaseImported(before: Tables, t0: Tables, t2: Tables, t3: Tables, data: CaseData, k: CaseKeys)
    requires data.CaseData?
    requires data.header.dnr !in before.cases && t0.cases == before.cases && t0.log == before.log
    requires Grown(before, t0, data.header.dnr)
    requires k.regId in t0.reg && ContainsFolded(t0.reg[k.regId], data.header.registrator)
    requires ResolvedHandler(t0.hand, data.header.handlaeggare, k.handId)
    requires k.dossNr == DossierKey(data.header.dossNr) && k.enhtKod == UnitKey(data.header.enhtKod)
    requires k.dossNr.Some? && Named(data.header.dossierName) ==> k.dossNr.value in t0.doss
    requires k.enhtKod.Some? && Named(data.header.enhetName) ==> k.enhtKod.value in t0.enhet
    requires t0.reg.Keys <= before.reg.Keys + {k.regId}
    requires t0.doss.Keys <= before.doss.Keys + Elements(k.dossNr)
    requires t0.enhet.Keys <= before.enhet.Keys + Elements(k.enhtKod)
    requires t0.hand.Keys <= before.hand.Keys + Elements(k.handId)
    requires t2.reg == t0.reg && t2.log == t0.log && Extends(t0.hand, t2.hand)
    requires t2.doss == t0.doss && t2.enhet == t0.enhet
    requires t2.cases == t0.cases[data.header.dnr := CaseRowOf(data.header, k.regId, k.handId)]
    requires NotesImported(before.notes, t2.notes, t2.hand, data.notes, k.regId, k.handId)
    requires AddedHandlersReferred(t0.hand, t2.hand, before.notes, t2.notes)
    requires t3 == t2.(log := t2.log + LogRowsOf(data.logs, k.regId))
    ensures Imported(before, t3, data)
  {
    ResolvedHandlerGrows(t0.hand, t2.hand, data.header.handlaeggare, k.handId);
  }

  /** The tail of `import_case` once the keys are resolved and the DNR is
      known to be new: insert the case, its notes and its log rows, then
      commit; a failing note rolls back to the last commit. */
  method StoreCase(db: Database, data: CaseData, k: CaseKeys, ghost before: Tables) returns (ok: bool)
    requires data.CaseData? && db.Clean()
    requires data.header.dnr !in db.cases
    requires Grown(before, db.Live(), data.header.dnr)
    requires db.cases == before.cases && db.notes == before.notes
    requires k.regId in db.reg && ContainsFolded(db.reg[k.regId], data.header.registrator)
    requires ResolvedHandler(db.hand, data.header.handlaeggare, k.handId)
    requires k.dossNr == DossierKey(data.header.dossNr) && k.enhtKod == UnitKey(data.header.enhtKod)
    requires k.dossNr.Some? && Named(data.header.dossierName) ==> k.dossNr.value in db.doss
    requires k.enhtKod.Some? && Named(data.header.enhetName) ==> k.enhtKod.value in db.enhet
    requires db.reg.Keys <= before.reg.Keys + {k.regId}
    requires db.doss.Keys <= before.doss.Keys + Elements(k.dossNr)
    requires db.enhet.Keys <= before.enhet.Keys + Elements(k.enhtKod)
    requires db.hand.Keys <= before.hand.Keys + Elements(k.handId)
    modifies db
    ensures db.Clean()
    ensures ok ==> Imported(before, db.Live(), data)
    ensures !ok ==> Grown(before, db.Live(), data.header.dnr)
    ensures NotesFit(before.notes, old(db.hand), data.notes, |data.notes|) ==> ok
    ensures WellFormed(data) && Consistent(before) ==> Consistent(db.Live())
    ensures Extends(old(db.reg), db.reg) && Extends(old(db.hand), db.hand)
    ensures Extends(old(db.doss), db.doss) && Extends(old(db.enhet), db.enhet)
  {
    ghost var t0 := db.Live();
    var c := data.header;
    var row := CaseRow(Some(k.regId), Some(c.inUt), k.dossNr, k.handId, k.enhtKod,
                       c.inkupp, c.regdat, c.avsdat, Some(c.stat), Some(c.atext),
                       Some(c.motpartBet), Some(c.franTill));
    assert row == CaseRowOf(c, k.regId, k.handId);
    db.InsertCase(c.dnr, row);

    ghost var start := db.Live();
    ok := ImportNotes(db, data.notes, k.regId, k.handId);
    if !ok {
      NoteLoopCommitted(before, t0, start, db.committed, data, row);
      db.Rollback();
      return false;
    }
    ghost var t2 := db.Live();
    AppendLogs(db, data.logs, k.regId);
    db.Commit();
    StoredCaseImported(before, t0, t2, db.Live(), data, k);
    if WellFormed(data) && Consistent(before) {
      ImportKeepsConsistent(before, db.Live(), data, k.regId);
    }
  }

  /** The record `data` can be imported into `t`: it holds a case whose DNR
      is new, its registry and case handler resolve, and its notes fit even
      after the case handler adds a row. */
  ghost predicate CanImport(t: Tables, data: CaseData)
  {
    && data.CaseData?
    && data.header.dnr !in t.cases
    && !RegistryFails(t.reg, data.header.registrator)
    && !HandlerFails(t.hand, data.header.handlaeggare)
    && NotesFit(t.notes, t.hand, data.notes, |data.notes| + 1)
  }

  /** `import_case`. The connection has nothing pending when it is called,
      as `main` leaves it after every record. */
  method ImportCase(db: Database, data: CaseData) returns (ok: bool)
    requires db.Clean()
    modifies db
    ensures db.Clean()
    ensures data.NoData? ==> !ok && db.Live() == old(db.Live())
    ensures ok ==> data.CaseData? && Imported(old(db.Live()), db.Live(), data)
    ensures CanImport(old(db.Live()), data) ==> ok
    ensures !ok && data.CaseData? ==> Grown(old(db.Live()), db.Live(), data.header.dnr)
    ensures data.CaseData? && data.header.dnr in old(db.cases) ==>
      !ok && db.cases == old(db.cases) && db.notes == old(db.notes) && db.log == old(db.log)
    ensures WellFormed(data) && Consistent(old(db.Live())) ==> Consistent(db.Live())
    ensures data.CaseData? ==> ResolversRan(old(db.Live()), db.Live(), data.header)
  {
    if data.NoData? {
      return false;
    }
    var c := data.header;
    ghost var before := db.Live();

    var keys := ResolveKeys(db, c);
    if keys.Err? {
      db.Rollback();
      return false;
    }
    if c.dnr in db.cases {
      return false;
    }
    if CanImport(before, data) {
      NotesFitGrows(before.notes, before.hand, db.hand, data.notes, |data.notes|);
    }
    ghost var resolved := db.Live();
    ok := StoreCase(db, data, keys.value, before);
    ResolversRanGrows(before, resolved, db.Live(), c);
  }

  /** A file named on the command line: missing, or present with its
      contents. */
  datatype InputFile = NotFound | Found(doc: XmlDoc)

  /** The file exists and yields case data. */
  predicate Parseable(f: InputFile)
  {
    f.Found? && Extract(f.doc).CaseData?
  }

  /** The number of files that exist and yield case data. */
  function ParseableCount(files: seq<InputFile>): nat
  {
    if files == [] then 0
    else ParseableCount(files[..|files| - 1]) + (if Parseable(files[|files| - 1]) then 1 else 0)
  }

  /** One file of `main`'s loop: read it, extract its case and, unless this
      is a dry run, import it. The result says whether the file is counted. */
  method ImportFile(db: Database?, file: InputFile) returns (counted: bool)
    requires db != null ==> db.Clean()
    modifies db
    ensures counted ==> Parseable(file)
    ensures db == null ==> counted == Parseable(file)
    ensures db != null && counted ==> Imported(old(db.Live()), db.Live(), Extract(file.doc))
    ensures db != null && Parseable(file) && CanImport(old(db.Live()), Extract(file.doc)) ==> counted
    ensures db != null ==> db.Clean()
    ensures db != null && Consistent(old(db.Live())) ==> Consistent(db.Live())
  {
    if file.NotFound? {
      return false;
    }
    var data := ParseXmlFile(file.doc);
    if data.NoData? {
      return false;
    }
    if db == null {
      return true;
    }
    counted := ImportCase(db, data);
  }

  /** `main`: imports the files in order and counts the successful imports.
      A dry run has no connection (`db` is null) and counts every file that
      would be imported. */
  method ImportMain(db: Database?, files: seq<InputFile>) returns (imported: nat)
    requires db != null ==> db.Clean()
    modifies db
    ensures imported <= ParseableCount(files)
    ensures db == null ==> imported == ParseableCount(files)
    ensures db != null ==> db.Clean()
    ensures db != null && Consistent(old(db.Live())) ==> Consistent(db.Live())
  {
    imported := 0;
    var i := 0;
    while i < |files|
      invariant 0 <= i <= |files|
      invariant imported <= ParseableCount(files[..i])
      invariant db == null ==> imported == ParseableCount(files[..i])
      invariant db != null ==> db.Clean()
      invariant db != null && Consistent(old(db.Live())) ==> Consistent(db.Live())
    {
      assert files[..i + 1][..i] == files[..i];
      var counted := ImportFile(db, files[i]);
      if counted {
        imported := imported + 1;
      }
      i := i + 1;
    }
    assert files[..i] == files;
  }
}
