/** The read-only case pages: the case list (`index`) and one case with its
    notes and change log (`view_case`). Each joins the referenced names in
    with LEFT JOINs, so that a dangling or NULL reference shows no name, and
    orders its rows as the page's ORDER BY says. Rows that tie on the sort
    key may come in any order; the model fixes one (ascending key, or
    insertion order for the log) but states only what the query promises. */
module CaseViews {
  import opened Text
  import opened Store
  import opened Ordering

  /** `LEFT JOIN ... ON ref = key`: the name of the row a reference points
      to, or NULL when the reference is NULL or points nowhere. */
  function Join<K, V>(m: map<K, V>, ref: Option<K>): (r: Option<V>)
    ensures r.Some? <==> ref.Some? && ref.value in m
    ensures r.Some? ==> r.value == m[ref.value]
  {
    if ref.Some? && ref.value in m then Some(m[ref.value]) else None
  }

  /** The elements of a finite set of integers in ascending order. */
  function Ascending(s: set<int>): (ks: seq<int>)
    ensures |ks| == |s|
    ensures forall i, j :: 0 <= i < j < |ks| ==> ks[i] < ks[j]
    ensures forall x :: x in s <==> x in ks
    decreases s
  {
    if s == {} then []
    else
      var m := Max(s);
      var rest := Ascending(s - {m});
      assert forall k :: 0 <= k < |rest| ==> rest[k] in s - {m};
      rest + [m]
  }

  // ---------------------------------------------------------------------
  // index
  // ---------------------------------------------------------------------

  /** A row of the case list: the case with the names it refers to. */
  datatype CaseListing = CaseListing(
    dnr: int,
    row: CaseRow,
    regName: Option<string>,
    handName: Option<string>,
    dossName: Option<string>,
    enhetName: Option<string>)

  function ListingOf(t: Tables, dnr: int): CaseListing
    requires dnr in t.cases
  {
    var row := t.cases[dnr];
    CaseListing(dnr, row, Join(t.reg, row.regId), Join(t.hand, row.handId),
                Join(t.doss, row.dossNr), Join(t.enhet, row.enhtKod))
  }

  /** `ORDER BY a.REGDAT DESC`: later dates first, NULL dates last. */
  predicate RegdatDesc(a: CaseListing, b: CaseListing)
  {
    OptLe(b.row.regdat, a.row.regdat)
  }

  lemma RegdatDescIsPreorder()
    ensures TotalPreorder(RegdatDesc)
  {
    forall a: CaseListing, b: CaseListing
      ensures RegdatDesc(a, b) || RegdatDesc(b, a)
    {
      OptLeTotal(a.row.regdat, b.row.regdat);
    }
    forall a: CaseListing, b: CaseListing, c: CaseListing | RegdatDesc(a, b) && RegdatDesc(b, c)
      ensures RegdatDesc(a, c)
    {
      OptLeTransitive(c.row.regdat, b.row.regdat, a.row.regdat);
    }
  }

  /** The listings of the given cases, in the given order. */
  function Listings(t: Tables, ks: seq<int>): (ls: seq<CaseListing>)
    requires forall k :: k in ks ==> k in t.cases
    ensures |ls| == |ks|
    ensures forall i :: 0 <= i < |ks| ==> ls[i] == ListingOf(t, ks[i])
  {
    if ks == [] then [] else [ListingOf(t, ks[0])] + Listings(t, ks[1..])
  }

  /** The case list of `index`. */
  function Index(t: Tables): seq<CaseListing>
  {
    RegdatDescIsPreorder();
    SortBy(Listings(t, Ascending(t.cases.Keys)), RegdatDesc)
  }

  /** The case list is ordered by registration date from the latest down,
      with undated cases last. */
  lemma IndexOrdered(t: Tables)
    ensures forall i, j :: 0 <= i < j < |Index(t)| ==> OptLe(Index(t)[j].row.regdat, Index(t)[i].row.regdat)
    ensures forall i, j :: 0 <= i < j < |Index(t)| && Index(t)[i].row.regdat.None? ==> Index(t)[j].row.regdat.None?
  {
    RegdatDescIsPreorder();
    var rows := Index(t);
    assert SortedBy(rows, RegdatDesc);
  }

  /** The case list has one row per case. */
  lemma IndexLength(t: Tables)
    ensures |Index(t)| == |t.cases|
  {
    RegdatDescIsPreorder();
    SortedLength(Listings(t, Ascending(t.cases.Keys)), RegdatDesc);
  }

  /** Each row of the case list is a case with its own names. */
  lemma IndexListsEveryCase(t: Tables)
    ensures forall i :: 0 <= i < |Index(t)| ==>
      Index(t)[i].dnr in t.cases && Index(t)[i] == ListingOf(t, Index(t)[i].dnr)
  {
    RegdatDescIsPreorder();
    var ks := Ascending(t.cases.Keys);
    var ls := Listings(t, ks);
    var rows := Index(t);
    forall i | 0 <= i < |rows|
      ensures rows[i].dnr in t.cases && rows[i] == ListingOf(t, rows[i].dnr)
    {
      var k := SortedFrom(ls, RegdatDesc, i);
      assert ks[k] in t.cases.Keys;
      assert rows[i] == ListingOf(t, ks[k]);
    }
  }

  /** Every case is on the case list. */
  lemma IndexIsComplete(t: Tables)
    ensures forall dnr :: dnr in t.cases ==> exists i :: 0 <= i < |Index(t)| && Index(t)[i].dnr == dnr
  {
    RegdatDescIsPreorder();
    var ks := Ascending(t.cases.Keys);
    var ls := Listings(t, ks);
    var rows := Index(t);
    forall dnr | dnr in t.cases
      ensures exists i :: 0 <= i < |rows| && rows[i].dnr == dnr
    {
      var k :| 0 <= k < |ks| && ks[k] == dnr;
      var i := SortedTo(ls, RegdatDesc, k);
    }
  }

  // ---------------------------------------------------------------------
  // view_case
  // ---------------------------------------------------------------------

  /** A row of a case's note list: the note with its handler's name. */
  datatype NoteListing = NoteListing(lnr: int, row: NoteRow, handName: Option<string>)

  /** A row of a case's change log with the name of its registry. */
  datatype LogListing = LogListing(row: LogRow, regName: Option<string>)

  /** What `view_case` shows for a case that exists. */
  datatype CaseView = CaseView(header: CaseListing, notes: seq<NoteListing>, logs: seq<LogListing>)

  /** `ORDER BY n.DATUMIN DESC, n.LNR DESC`. */
  predicate NoteDesc(a: NoteListing, b: NoteListing)
  {
    if a.row.datumin == b.row.datumin then b.lnr <= a.lnr
    else OptLe(b.row.datumin, a.row.datumin)
  }

  lemma NoteDescIsPreorder()
    ensures TotalPreorder(NoteDesc)
  {
    forall a: NoteListing, b: NoteListing
      ensures NoteDesc(a, b) || NoteDesc(b, a)
    {
      OptLeTotal(a.row.datumin, b.row.datumin);
    }
    forall a: NoteListing, b: NoteListing, c: NoteListing | NoteDesc(a, b) && NoteDesc(b, c)
      ensures NoteDesc(a, c)
    {
      var x, y, z := a.row.datumin, b.row.datumin, c.row.datumin;
      if x != z {
        if x == y {
          assert OptLe(z, y);
        } else if y == z {
          assert OptLe(y, x);
        } else {
          OptLeTransitive(z, y, x);
        }
      } else if x != y {
        OptLeAntisymmetric(x, y);
      }
    }
  }

  /** `ORDER BY l.LOGDAT DESC`. */
  predicate LogDesc(a: LogListing, b: LogListing)
  {
    OptLe(b.row.logdat, a.row.logdat)
  }

  lemma LogDescIsPreorder()
    ensures TotalPreorder(LogDesc)
  {
    forall a: LogListing, b: LogListing
      ensures LogDesc(a, b) || LogDesc(b, a)
    {
      OptLeTotal(a.row.logdat, b.row.logdat);
    }
    forall a: LogListing, b: LogListing, c: LogListing | LogDesc(a, b) && LogDesc(b, c)
      ensures LogDesc(a, c)
    {
      OptLeTransitive(c.row.logdat, b.row.logdat, a.row.logdat);
    }
  }

  /** A line number in use for a case names one of its notes. */
  lemma LineNumberIsNote(notes: map<(int, int), NoteRow>, dnr: int, l: int)
    requires l in LineNumbers(notes, dnr)
    ensures (dnr, l) in notes
  {
    var key :| key in notes && key.0 == dnr && key.1 == l;
  }

  /** The notes of case `dnr` with the given line numbers, in that order. */
  function NoteListings(t: Tables, dnr: int, lnrs: seq<int>): (ns: seq<NoteListing>)
    requires forall i :: 0 <= i < |lnrs| ==> (dnr, lnrs[i]) in t.notes
    ensures |ns| == |lnrs|
    ensures forall i :: 0 <= i < |lnrs| ==>
      ns[i].lnr == lnrs[i] && ns[i].row == t.notes[(dnr, lnrs[i])]
  {
    if lnrs == [] then []
    else
      var row := t.notes[(dnr, lnrs[0])];
      assert forall i :: 0 <= i < |lnrs| - 1 ==> lnrs[1..][i] == lnrs[i + 1];
      [NoteListing(lnrs[0], row, Join(t.hand, row.handId))] + NoteListings(t, dnr, lnrs[1..])
  }

  /** `WHERE l.DNR = ?` over LOG, in insertion order. */
  function LogsOf(log: seq<LogRow>, dnr: int): (r: seq<LogRow>)
    ensures |r| == LogCount(log, dnr)
    ensures forall i :: 0 <= i < |r| ==> r[i].dnr == dnr && r[i] in log
  {
    if log == [] then []
    else
      var rest := LogsOf(log[..|log| - 1], dnr);
      assert forall i :: 0 <= i < |rest| ==> rest[i] in log;
      if log[|log| - 1].dnr == dnr then rest + [log[|log| - 1]] else rest
  }

  /** The selection holds each row of case `dnr` as often as LOG does, and
      no row of another case. */
  lemma {:induction false} LogsOfCounts(log: seq<LogRow>, dnr: int, row: LogRow)
    ensures multiset(LogsOf(log, dnr))[row] == if row.dnr == dnr then multiset(log)[row] else 0
  {
    if log != [] {
      LogsOfCounts(log[..|log| - 1], dnr, row);
      assert log == log[..|log| - 1] + [log[|log| - 1]];
    }
  }

  /** Every log row of case `dnr` is selected. */
  lemma {:induction false} LogsOfComplete(log: seq<LogRow>, dnr: int, row: LogRow)
    requires row in log && row.dnr == dnr
    ensures row in LogsOf(log, dnr)
  {
    var last := log[|log| - 1];
    if row != last {
      var k :| 0 <= k < |log| && log[k] == row;
      assert log[..|log| - 1][k] == row;
      LogsOfComplete(log[..|log| - 1], dnr, row);
    }
  }

  /** The listing of a log row: the row with its registry's name joined in. */
  function LogListingOf(t: Tables, row: LogRow): LogListing
  {
    LogListing(row, Join(t.reg, row.regId))
  }

  /** Listing log rows keeps how often each row occurs. */
  lemma {:induction false} LogListingsCount(t: Tables, rows: seq<LogRow>, row: LogRow)
    ensures multiset(LogListings(t, rows))[LogListingOf(t, row)] == multiset(rows)[row]
  {
    if rows != [] {
      var rest := LogListings(t, rows[1..]);
      LogListingsCount(t, rows[1..], row);
      assert LogListings(t, rows) == [LogListingOf(t, rows[0])] + rest;
      assert multiset(rows) == multiset{rows[0]} + multiset(rows[1..]) by {
        assert rows == [rows[0]] + rows[1..];
      }
    }
  }

  function LogListings(t: Tables, rows: seq<LogRow>): (ls: seq<LogListing>)
    ensures |ls| == |rows|
    ensures forall i :: 0 <= i < |rows| ==> ls[i] == LogListing(rows[i], Join(t.reg, rows[i].regId))
  {
    if rows == [] then []
    else [LogListing(rows[0], Join(t.reg, rows[0].regId))] + LogListings(t, rows[1..])
  }

  /** The case page of `view_case`, or None when the case does not exist. */
  function ViewCase(t: Tables, dnr: int): (v: Option<CaseView>)
    ensures v.None? <==> dnr !in t.cases
    ensures v.Some? ==> v.value.header == ListingOf(t, dnr)
  {
    if dnr !in t.cases then None
    else
      var lnrs := Ascending(LineNumbers(t.notes, dnr));
      assert forall i :: 0 <= i < |lnrs| ==> (dnr, lnrs[i]) in t.notes by {
        forall i | 0 <= i < |lnrs| ensures (dnr, lnrs[i]) in t.notes {
          LineNumberIsNote(t.notes, dnr, lnrs[i]);
        }
      }
      NoteDescIsPreorder();
      LogDescIsPreorder();
      Some(CaseView(
        ListingOf(t, dnr),
        SortBy(NoteListings(t, dnr, lnrs), NoteDesc),
        SortBy(LogListings(t, LogsOf(t.log, dnr)), LogDesc)))
  }

  /** The case page lists its notes latest received first and, on the same
      day, the highest line number first. */
  lemma ViewCaseNotesOrdered(t: Tables, dnr: int)
    requires dnr in t.cases
    ensures var ns := ViewCase(t, dnr).value.notes;
      forall i, j :: 0 <= i < j < |ns| ==> NoteDesc(ns[i], ns[j])
  {
    NoteDescIsPreorder();
    var ns := ViewCase(t, dnr).value.notes;
    assert SortedBy(ns, NoteDesc);
  }

  /** The unsorted note list behind the case page: one listing per line
      number of the case, in ascending line order. */
  lemma ViewCaseNoteSource(t: Tables, dnr: int) returns (lnrs: seq<int>, src: seq<NoteListing>)
    requires dnr in t.cases
    ensures TotalPreorder(NoteDesc)
    ensures ViewCase(t, dnr).value.notes == SortBy(src, NoteDesc)
    ensures |src| == |lnrs| == |LineNumbers(t.notes, dnr)|
    ensures forall i :: 0 <= i < |src| ==>
      (dnr, lnrs[i]) in t.notes && src[i].lnr == lnrs[i] && src[i].row == t.notes[(dnr, lnrs[i])]
    ensures forall l :: (dnr, l) in t.notes ==> exists k :: 0 <= k < |lnrs| && lnrs[k] == l
  {
    lnrs := Ascending(LineNumbers(t.notes, dnr));
    forall i | 0 <= i < |lnrs| ensures (dnr, lnrs[i]) in t.notes {
      LineNumberIsNote(t.notes, dnr, lnrs[i]);
    }
    NoteDescIsPreorder();
    src := NoteListings(t, dnr, lnrs);
    forall l | (dnr, l) in t.notes
      ensures exists k :: 0 <= k < |lnrs| && lnrs[k] == l
    {
      var key := (dnr, l);
      assert key in t.notes && key.0 == dnr;
      assert l in LineNumbers(t.notes, dnr);
    }
  }

  /** The case page lists one stored note of the case per line number. */
  lemma ViewCaseNotes(t: Tables, dnr: int)
    requires dnr in t.cases
    ensures var ns := ViewCase(t, dnr).value.notes;
      && |ns| == |LineNumbers(t.notes, dnr)|
      && (forall i :: 0 <= i < |ns| ==> (dnr, ns[i].lnr) in t.notes && ns[i].row == t.notes[(dnr, ns[i].lnr)])
  {
    var lnrs, src := ViewCaseNoteSource(t, dnr);
    var ns := ViewCase(t, dnr).value.notes;
    SortedLength(src, NoteDesc);
    forall i | 0 <= i < |ns|
      ensures (dnr, ns[i].lnr) in t.notes && ns[i].row == t.notes[(dnr, ns[i].lnr)]
    {
      var k := SortedFrom(src, NoteDesc, i);
    }
  }

  /** Every note of the case is on its page. */
  lemma ViewCaseNotesComplete(t: Tables, dnr: int)
    requires dnr in t.cases
    ensures var ns := ViewCase(t, dnr).value.notes;
      forall l :: (dnr, l) in t.notes ==> exists i :: 0 <= i < |ns| && ns[i].lnr == l
  {
    var lnrs, src := ViewCaseNoteSource(t, dnr);
    var ns := ViewCase(t, dnr).value.notes;
    forall l | (dnr, l) in t.notes
      ensures exists i :: 0 <= i < |ns| && ns[i].lnr == l
    {
      var k :| 0 <= k < |lnrs| && lnrs[k] == l;
      var i := SortedTo(src, NoteDesc, k);
    }
  }

  /** The unsorted log list behind the case page: the case's rows from
      LOG in insertion order, each with its registry's name. */
  lemma ViewCaseLogSource(t: Tables, dnr: int) returns (rows: seq<LogRow>, src: seq<LogListing>)
    requires dnr in t.cases
    ensures TotalPreorder(LogDesc)
    ensures rows == LogsOf(t.log, dnr) && src == LogListings(t, rows)
    ensures ViewCase(t, dnr).value.logs == SortBy(src, LogDesc)
  {
    LogDescIsPreorder();
    rows := LogsOf(t.log, dnr);
    src := LogListings(t, rows);
  }

  /** The case page lists exactly the log rows of the case, latest first. */
  lemma ViewCaseLogs(t: Tables, dnr: int)
    requires dnr in t.cases
    ensures var ls := ViewCase(t, dnr).value.logs;
      && |ls| == LogCount(t.log, dnr)
      && (forall i :: 0 <= i < |ls| ==> ls[i].row.dnr == dnr && ls[i].row in t.log)
      && (forall row :: row in t.log && row.dnr == dnr ==> exists i :: 0 <= i < |ls| && ls[i].row == row)
      && (forall i, j :: 0 <= i < j < |ls| ==> OptLe(ls[j].row.logdat, ls[i].row.logdat))
  {
    var rows, src := ViewCaseLogSource(t, dnr);
    var ls := ViewCase(t, dnr).value.logs;
    SortedLength(src, LogDesc);
    forall i | 0 <= i < |ls|
      ensures ls[i].row.dnr == dnr && ls[i].row in t.log
    {
      var k := SortedFrom(src, LogDesc, i);
    }
    forall row | row in t.log && row.dnr == dnr
      ensures exists i :: 0 <= i < |ls| && ls[i].row == row
    {
      LogsOfComplete(t.log, dnr, row);
      var k :| 0 <= k < |rows| && rows[k] == row;
      var i := SortedTo(src, LogDesc, k);
    }
  }

  /** LOG has no key, so equal rows can occur; the case page lists each
      row of the case exactly as often as LOG holds it, and no other row. */
  lemma ViewCaseLogCounts(t: Tables, dnr: int)
    requires dnr in t.cases
    ensures var ls := ViewCase(t, dnr).value.logs;
      && (forall i :: 0 <= i < |ls| ==> ls[i] == LogListingOf(t, ls[i].row))
      && (forall row :: multiset(ls)[LogListingOf(t, row)] == if row.dnr == dnr then multiset(t.log)[row] else 0)
  {
    var rows, src := ViewCaseLogSource(t, dnr);
    var ls := ViewCase(t, dnr).value.logs;
    forall i | 0 <= i < |ls|
      ensures ls[i] == LogListingOf(t, ls[i].row)
    {
      var k := SortedFrom(src, LogDesc, i);
    }
    forall row
      ensures multiset(ls)[LogListingOf(t, row)] == if row.dnr == dnr then multiset(t.log)[row] else 0
    {
      LogListingsCount(t, rows, row);
      LogsOfCounts(t.log, dnr, row);
    }
  }
}
