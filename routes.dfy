/** The case pages of the web application: creating a case, editing it and
    adding a note, each of which writes its row, commits, then appends one
    LOG row and commits again; and the two read-only pages, the case list and
    the case view, with their orderings.

    The request form, the signed-in user's name and the clock are
    parameters. A store failure the program cannot see coming (a constraint
    of the schema, which this model does not include, or a locked or full
    database file) is a `StoreFault`
    parameter saying which of the two writes fails; the route then reports
    the error and carries on, so a failed log write leaves the first write in
    place. */
module CaseRoutes {
  import opened Text
  import opened Store
  import opened Ordering
  import opened CaseViews

  /** Which write of a route the store rejects, if any. */
  datatype StoreFault = NoFault | FirstWriteFails | LogWriteFails

  /** What a route answers: a redirect to a case's page or to the case
      list, or the form shown again with the error. */
  datatype Response = CasePage(dnr: int) | CaseList | FormAgain

  /** Python's `value or None` on a form field: an empty entry is NULL. */
  function OrNone(v: Option<string>): (r: Option<string>)
    ensures r.None? <==> v.None? || v == Some("")
    ensures r.Some? ==> r == v
  {
    if v == Some("") then None else v
  }

  /** The fields of the create and edit forms; a field the request does
      not carry is None. The dossier number arrives as a number. */
  datatype CaseForm = CaseForm(
    regId: Option<string>,
    inUt: Option<string>,
    dossNr: Option<int>,
    handId: Option<string>,
    enhtKod: Option<string>,
    inkupp: Option<string>,
    regdat: Option<string>,
    avsdat: Option<string>,
    stat: Option<string>,
    atext: Option<string>,
    motpartBet: Option<string>,
    franTill: Option<string>)

  /** The fields of the note form. */
  datatype NoteForm = NoteForm(
    inUt: Option<string>,
    antText: Option<string>,
    handId: Option<string>,
    avsmot: Option<string>)

  // ---------------------------------------------------------------------
  // new_case
  // ---------------------------------------------------------------------

  /** The row `new_case` inserts: optional references and dates blank to
      NULL, except the registration date, which defaults to today. */
  function NewCaseRow(form: CaseForm, today: string): (row: CaseRow)
    ensures row.regdat.Some?
    ensures row.regdat == (if OrNone(form.regdat).None? then Some(today) else form.regdat)
    ensures row.handId == OrNone(form.handId) && row.enhtKod == OrNone(form.enhtKod)
    ensures row.inkupp == OrNone(form.inkupp) && row.avsdat == OrNone(form.avsdat)
    ensures row.regId == form.regId && row.inUt == form.inUt && row.dossNr == form.dossNr
    ensures row.stat == form.stat && row.atext == form.atext
    ensures row.motpartBet == form.motpartBet && row.franTill == form.franTill
  {
    CaseRow(form.regId, form.inUt, form.dossNr, OrNone(form.handId), OrNone(form.enhtKod),
            OrNone(form.inkupp), Some(OrNone(form.regdat).GetOr(today)), OrNone(form.avsdat),
            form.stat, form.atext, form.motpartBet, form.franTill)
  }

  /** The DNR SQLite gives the new row: one more than the largest in use. */
  function NewDnr(t: Tables): (dnr: int)
    ensures dnr !in t.cases
    ensures forall k :: k in t.cases ==> k < dnr
  {
    NextNumber(t.cases.Keys)
  }

  /** The LOG row recording a new case. */
  function CreatedLog(dnr: int, form: CaseForm, today: string, username: string): LogRow
  {
    LogRow(dnr, form.regId, Some(today), "Nytt ärende skapat av " + username)
  }

  /** The tables after `new_case` with both writes done. */
  function CreateCase(t: Tables, form: CaseForm, today: string, username: string): Tables
  {
    var dnr := NewDnr(t);
    t.(cases := t.cases[dnr := NewCaseRow(form, today)],
       log := t.log + [CreatedLog(dnr, form, today, username)])
  }

  /** Creating a case adds one case under a DNR not in use, with exactly one
      LOG row naming it, and changes no other case. */
  lemma CreateCaseEffect(t: Tables, form: CaseForm, today: string, username: string)
    requires Consistent(t)
    ensures var t' := CreateCase(t, form, today, username);
      var dnr := NewDnr(t);
      && dnr !in t.cases
      && (forall d :: d in t.cases ==> d < dnr)
      && t'.cases.Keys == t.cases.Keys + {dnr}
      && t'.cases[dnr] == NewCaseRow(form, today)
      && (forall d :: d in t.cases ==> t'.cases[d] == t.cases[d])
      && t'.notes == t.notes
      && LogCount(t'.log, dnr) == 1
      && (forall d :: d != dnr ==> LogCount(t'.log, d) == LogCount(t.log, d))
      && Consistent(t')
  {
    var dnr := NewDnr(t);
    var t' := CreateCase(t, form, today, username);
    NoLogsForAbsentCase(t, dnr);
    LogCountAppend(t.log, CreatedLog(dnr, form, today, username), dnr);
    forall d | d != dnr
      ensures LogCount(t'.log, d) == LogCount(t.log, d)
    {
      LogCountAppend(t.log, CreatedLog(dnr, form, today, username), d);
    }
  }

  /** `new_case` on a submitted form. Only when both writes succeed does
      it redirect to the new case's page; otherwise the form is shown again,
      even when the case row was already committed. */
  method NewCase(db: Database, form: CaseForm, today: string, username: string, fault: StoreFault)
    returns (response: Response)
    requires db.Clean()
    modifies db
    ensures db.Clean()
    ensures response == if fault == NoFault then CasePage(NewDnr(old(db.Live()))) else FormAgain
    ensures fault == FirstWriteFails ==> db.Live() == old(db.Live())
    ensures fault == NoFault ==> db.Live() == CreateCase(old(db.Live()), form, today, username)
    ensures fault == LogWriteFails ==>
      db.Live() == CreateCase(old(db.Live()), form, today, username).(log := old(db.log))
  {
    if fault == FirstWriteFails {
      return FormAgain;
    }
    var dnr := NextNumber(db.cases.Keys);
    db.InsertCase(dnr, NewCaseRow(form, today));
    db.Commit();
    if fault == LogWriteFails {
      return FormAgain;
    }
    db.AppendLog(CreatedLog(dnr, form, today, username));
    db.Commit();
    response := CasePage(dnr);
  }

  // ---------------------------------------------------------------------
  // edit_case
  // ---------------------------------------------------------------------

  /** The row `edit_case` writes over every column: like the new row, except
      that a blank registration date becomes NULL. */
  function EditedRow(form: CaseForm): (row: CaseRow)
    ensures row.regdat == OrNone(form.regdat)
    ensures row.handId == OrNone(form.handId) && row.enhtKod == OrNone(form.enhtKod)
    ensures row.inkupp == OrNone(form.inkupp) && row.avsdat == OrNone(form.avsdat)
    ensures row.regId == form.regId && row.inUt == form.inUt && row.dossNr == form.dossNr
    ensures row.stat == form.stat && row.atext == form.atext
    ensures row.motpartBet == form.motpartBet && row.franTill == form.franTill
  {
    CaseRow(form.regId, form.inUt, form.dossNr, OrNone(form.handId), OrNone(form.enhtKod),
            OrNone(form.inkupp), OrNone(form.regdat), OrNone(form.avsdat),
            form.stat, form.atext, form.motpartBet, form.franTill)
  }

  /** The edited row and the new row of the same form differ at most in
      the registration date, and they differ there exactly when it is blank. */
  lemma EditedAndNewRowsDiffer(form: CaseForm, today: string)
    ensures EditedRow(form) == NewCaseRow(form, today).(regdat := EditedRow(form).regdat)
    ensures EditedRow(form) == NewCaseRow(form, today) <==> OrNone(form.regdat).Some?
  {
  }

  /** The LOG row recording an edit. */
  function EditedLog(dnr: int, form: CaseForm, now: string, username: string): LogRow
  {
    LogRow(dnr, form.regId, Some(now), "Ärende uppdaterat av " + username)
  }

  /** The tables after `edit_case` with both writes done. */
  function EditCase(t: Tables, dnr: int, form: CaseForm, now: string, username: string): Tables
  {
    t.(cases := t.cases[dnr := EditedRow(form)],
       log := t.log + [EditedLog(dnr, form, now, username)])
  }

  /** Editing an existing case replaces its row whole, keeps its DNR and
      every other case, and adds one LOG row for it and none for others. */
  lemma EditCaseEffect(t: Tables, dnr: int, form: CaseForm, now: string, username: string)
    requires dnr in t.cases
    ensures var t' := EditCase(t, dnr, form, now, username);
      && t'.cases.Keys == t.cases.Keys
      && t'.cases[dnr] == EditedRow(form)
      && (forall d :: d in t.cases && d != dnr ==> t'.cases[d] == t.cases[d])
      && t'.notes == t.notes
      && LogCount(t'.log, dnr) == LogCount(t.log, dnr) + 1
      && (forall d :: d != dnr ==> LogCount(t'.log, d) == LogCount(t.log, d))
      && (Consistent(t) ==> Consistent(t'))
  {
    var row := EditedLog(dnr, form, now, username);
    LogCountAppend(t.log, row, dnr);
    forall d | d != dnr
      ensures LogCount(EditCase(t, dnr, form, now, username).log, d) == LogCount(t.log, d)
    {
      LogCountAppend(t.log, row, d);
    }
  }

  /** `edit_case` on a submitted form. A missing case sends the user to the
      case list unwritten; a failed write shows the form again. */
  method EditCaseRoute(db: Database, dnr: int, form: CaseForm, now: string, username: string, fault: StoreFault)
    returns (response: Response)
    requires db.Clean()
    modifies db
    ensures db.Clean()
    ensures response == if dnr !in old(db.cases) then CaseList else if fault == NoFault then CasePage(dnr) else FormAgain
    ensures dnr !in old(db.cases) || fault == FirstWriteFails ==> db.Live() == old(db.Live())
    ensures dnr in old(db.cases) && fault == NoFault ==> db.Live() == EditCase(old(db.Live()), dnr, form, now, username)
    ensures dnr in old(db.cases) && fault == LogWriteFails ==>
      db.Live() == EditCase(old(db.Live()), dnr, form, now, username).(log := old(db.log))
  {
    if dnr !in db.cases {
      return CaseList;
    }
    if fault == FirstWriteFails {
      return FormAgain;
    }
    db.UpdateCase(dnr, EditedRow(form));
    db.Commit();
    if fault == LogWriteFails {
      return FormAgain;
    }
    db.AppendLog(EditedLog(dnr, form, now, username));
    db.Commit();
    response := CasePage(dnr);
  }

  // ---------------------------------------------------------------------
  // add_note
  // ---------------------------------------------------------------------

  /** The line number of a new note of case `dnr`: one more than the largest
      in use for that case, or 1 for its first note. */
  function NextLineNumber(notes: map<(int, int), NoteRow>, dnr: int): (lnr: int)
    ensures lnr !in LineNumbers(notes, dnr)
    ensures lnr == 1 || lnr - 1 in LineNumbers(notes, dnr)
  {
    NextNumber(LineNumbers(notes, dnr))
  }

  /** The new line number is above every line number of the case, so the
      new note never collides with one already stored. */
  lemma NextLineNumberIsFree(notes: map<(int, int), NoteRow>, dnr: int)
    ensures (dnr, NextLineNumber(notes, dnr)) !in notes
    ensures forall l :: (dnr, l) in notes ==> l < NextLineNumber(notes, dnr)
    ensures (forall key :: key in notes ==> key.0 != dnr) ==> NextLineNumber(notes, dnr) == 1
  {
    var lnrs := LineNumbers(notes, dnr);
    forall l | (dnr, l) in notes
      ensures l in lnrs
    {
      var key := (dnr, l);
      assert key in notes && key.0 == dnr;
    }
    if forall key :: key in notes ==> key.0 != dnr {
      assert lnrs == {};
    }
  }

  /** The row `add_note` inserts: the case's registry id, today as the
      received date, no sent date and no note class. */
  function NoteRowFor(caseRow: CaseRow, form: NoteForm, today: string): (row: NoteRow)
    ensures row.regId == caseRow.regId && row.datumin == Some(today)
    ensures row.datumut == None && row.anmkal == None
    ensures row.handId == OrNone(form.handId) && row.avsmot == OrNone(form.avsmot)
    ensures row.inUt == form.inUt && row.antText == form.antText
  {
    NoteRow(form.inUt, form.antText, caseRow.regId, Some(today), None, None,
            OrNone(form.handId), OrNone(form.avsmot))
  }

  /** The LOG row recording a note; it carries the case's registry id. */
  function NoteLog(dnr: int, caseRow: CaseRow, now: string, username: string): LogRow
  {
    LogRow(dnr, caseRow.regId, Some(now), "Ny anteckning tillagd av " + username)
  }

  /** The tables after `add_note` with both writes done. */
  function AddNote(t: Tables, dnr: int, form: NoteForm, today: string, now: string, username: string): Tables
    requires dnr in t.cases
  {
    var lnr := NextLineNumber(t.notes, dnr);
    t.(notes := t.notes[(dnr, lnr) := NoteRowFor(t.cases[dnr], form, today)],
       log := t.log + [NoteLog(dnr, t.cases[dnr], now, username)])
  }

  /** Adding a note to an existing case adds exactly one note, under a fresh
      line number above all of that case's, and one LOG row for the case. */
  lemma AddNoteEffect(t: Tables, dnr: int, form: NoteForm, today: string, now: string, username: string)
    requires dnr in t.cases
    ensures var t' := AddNote(t, dnr, form, today, now, username);
      var lnr := NextLineNumber(t.notes, dnr);
      && (dnr, lnr) !in t.notes
      && (forall l :: (dnr, l) in t.notes ==> l < lnr)
      && t'.notes.Keys == t.notes.Keys + {(dnr, lnr)}
      && (forall key :: key in t.notes ==> t'.notes[key] == t.notes[key])
      && t'.notes[(dnr, lnr)].regId == t.cases[dnr].regId
      && t'.cases == t.cases
      && LogCount(t'.log, dnr) == LogCount(t.log, dnr) + 1
      && (forall d :: d != dnr ==> LogCount(t'.log, d) == LogCount(t.log, d))
      && (Consistent(t) ==> Consistent(t'))
  {
    var t' := AddNote(t, dnr, form, today, now, username);
    var lnr := NextLineNumber(t.notes, dnr);
    NextLineNumberIsFree(t.notes, dnr);
    var row := NoteLog(dnr, t.cases[dnr], now, username);
    assert t'.log == t.log + [row];
    LogCountAppend(t.log, row, dnr);
    forall d | d != dnr
      ensures LogCount(t'.log, d) == LogCount(t.log, d)
    {
      LogCountAppend(t.log, row, d);
    }
    if Consistent(t) {
      AddNoteKeepsConsistent(t, t', dnr, lnr, row);
    }
  }

  lemma AddNoteKeepsConsistent(t: Tables, t': Tables, dnr: int, lnr: int, row: LogRow)
    requires Consistent(t) && dnr in t.cases && row.dnr == dnr
    requires t'.cases == t.cases && t'.notes.Keys == t.notes.Keys + {(dnr, lnr)}
    requires t'.log == t.log + [row]
    ensures Consistent(t')
  {
  }

  /** `add_note`. A missing case sends the user to the case list unwritten.
      Otherwise the user is sent back to the case's page whether or not the
      writes succeed. */
  method AddNoteRoute(db: Database, dnr: int, form: NoteForm, today: string, now: string,
                      username: string, fault: StoreFault) returns (response: Response)
    requires db.Clean()
    modifies db
    ensures db.Clean()
    ensures response == if dnr in old(db.cases) then CasePage(dnr) else CaseList
    ensures dnr !in old(db.cases) || fault == FirstWriteFails ==> db.Live() == old(db.Live())
    ensures dnr in old(db.cases) && fault == NoFault ==>
      db.Live() == AddNote(old(db.Live()), dnr, form, today, now, username)
    ensures dnr in old(db.cases) && fault == LogWriteFails ==>
      db.Live() == AddNote(old(db.Live()), dnr, form, today, now, username).(log := old(db.log))
  {
    if dnr !in db.cases {
      return CaseList;
    }
    response := CasePage(dnr);
    if fault == FirstWriteFails {
      return;
    }
    var caseRow := db.cases[dnr];
    var lnr := NextLineNumber(db.notes, dnr);
    NextLineNumberIsFree(db.notes, dnr);
    var inserted := db.InsertNote(dnr, lnr, NoteRowFor(caseRow, form, today));
    db.Commit();
    if fault == LogWriteFails {
      return;
    }
    db.AppendLog(NoteLog(dnr, caseRow, now, username));
    db.Commit();
  }

  // ---------------------------------------------------------------------
  // What the case page shows after a write
  // ---------------------------------------------------------------------

  /** A new case's page shows no notes and the one log row of its creation. */
  lemma CreatedCaseView(t: Tables, form: CaseForm, today: string, username: string)
    requires Consistent(t)
    ensures var v := ViewCase(CreateCase(t, form, today, username), NewDnr(t));
      && v.Some?
      && v.value.notes == []
      && |v.value.logs| == 1
      && v.value.logs[0].row == CreatedLog(NewDnr(t), form, today, username)
  {
    var dnr := NewDnr(t);
    var t' := CreateCase(t, form, today, username);
    CreateCaseEffect(t, form, today, username);
    ViewCaseNotes(t', dnr);
    ViewCaseLogs(t', dnr);
    assert LineNumbers(t'.notes, dnr) == {};
    assert CreatedLog(dnr, form, today, username) in t'.log;
  }

  /** After a note is added, the case page lists it under its new line number. */
  lemma AddedNoteIsShown(t: Tables, dnr: int, form: NoteForm, today: string, now: string, username: string)
    requires dnr in t.cases
    ensures var v := ViewCase(AddNote(t, dnr, form, today, now, username), dnr);
      && v.Some?
      && exists i :: 0 <= i < |v.value.notes| && v.value.notes[i].lnr == NextLineNumber(t.notes, dnr)
          && v.value.notes[i].row == NoteRowFor(t.cases[dnr], form, today)
  {
    var t' := AddNote(t, dnr, form, today, now, username);
    var lnr := NextLineNumber(t.notes, dnr);
    AddNoteEffect(t, dnr, form, today, now, username);
    ViewCaseNotes(t', dnr);
    ViewCaseNotesComplete(t', dnr);
    var ns := ViewCase(t', dnr).value.notes;
    var i :| 0 <= i < |ns| && ns[i].lnr == lnr;
  }
}
