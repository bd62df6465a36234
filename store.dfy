/** The case database as in-memory tables, one per SQL table the program
    uses, together with the last committed state, so that a commit and a
    rollback of the connection have their SQLite meaning: a commit makes the
    current tables durable, a rollback returns to the last committed tables.

    Keys: REG_ID, HAND_ID, DOSS_NR, ENHT_KOD and DNR identify their rows and
    a note is identified by (DNR, LNR); inserting a row under a key that is
    already present fails, as SQLite's primary-key constraint makes it fail.
    LOG has no key and is kept in insertion order. */
module Store {
  import opened Text

  /** A row of AERENDE apart from its key DNR. */
  datatype CaseRow = CaseRow(
    regId: Option<string>,      // REG_ID
    inUt: Option<string>,       // IN_UT: direction
    dossNr: Option<int>,        // DOSS_NR
    handId: Option<string>,     // HAND_ID
    enhtKod: Option<string>,    // ENHT_KOD
    inkupp: Option<string>,     // INKUPP: received or opened date
    regdat: Option<string>,     // REGDAT: registration date
    avsdat: Option<string>,     // AVSDAT: closing date
    stat: Option<string>,       // STAT: status
    atext: Option<string>,      // ATEXT: subject text
    motpartBet: Option<string>, // MOTPART_BET: counterpart reference
    franTill: Option<string>)   // FRAN_TILL: correspondent

  /** A row of AERENDE_ANT apart from its key (DNR, LNR). */
  datatype NoteRow = NoteRow(
    inUt: Option<string>,
    antText: Option<string>,
    regId: Option<string>,
    datumin: Option<string>,
    datumut: Option<string>,
    anmkal: Option<string>,
    handId: Option<string>,
    avsmot: Option<string>)

  /** A row of LOG. */
  datatype LogRow = LogRow(dnr: int, regId: Option<string>, logdat: Option<string>, logflt: string)

  /** The contents of every table at one moment. */
  datatype Tables = Tables(
    reg: map<string, string>,        // REG: REG_ID -> REG_NAMN
    hand: map<string, string>,       // HANDLAEGGARE: HAND_ID -> HAND_NAMN
    doss: map<int, string>,          // DOSSIEPLAN: DOSS_NR -> NAMN
    enhet: map<string, string>,      // ENHET: ENHT_KOD -> ENHT_NAMN
    cases: map<int, CaseRow>,        // AERENDE: DNR -> row
    notes: map<(int, int), NoteRow>, // AERENDE_ANT: (DNR, LNR) -> row
    log: seq<LogRow>)                // LOG, in insertion order

  /** Every note and every log row belongs to a case that exists. */
  predicate Consistent(t: Tables)
  {
    && (forall key :: key in t.notes ==> key.0 in t.cases)
    && (forall i :: 0 <= i < |t.log| ==> t.log[i].dnr in t.cases)
  }

  /** The old table is contained in the new one: nothing removed or altered. */
  ghost predicate Extends<K, V>(old_: map<K, V>, new_: map<K, V>)
  {
    forall k :: k in old_ ==> k in new_ && new_[k] == old_[k]
  }

  /** SQL `MAX(key) + 1`, or 1 when there is no row: the next line number of
      a case's notes, and the DNR SQLite gives a new AERENDE row. */
  function NextNumber(keys: set<int>): (n: int)
    ensures n !in keys
    ensures forall k :: k in keys ==> k < n
    ensures keys == {} ==> n == 1
    ensures keys != {} ==> n - 1 in keys
  {
    if keys == {} then 1 else Max(keys) + 1
  }

  /** The line numbers in use for the notes of case `dnr`. */
  function LineNumbers(notes: map<(int, int), NoteRow>, dnr: int): set<int>
  {
    set key | key in notes && key.0 == dnr :: key.1
  }

  /** The number of LOG rows that name case `dnr`. */
  function LogCount(log: seq<LogRow>, dnr: int): nat
  {
    if log == [] then 0
    else LogCount(log[..|log| - 1], dnr) + (if log[|log| - 1].dnr == dnr then 1 else 0)
  }

  /** Appending one row naming `dnr` adds one to its count and to no other. */
  lemma LogCountAppend(log: seq<LogRow>, row: LogRow, dnr: int)
    ensures LogCount(log + [row], dnr) == LogCount(log, dnr) + (if row.dnr == dnr then 1 else 0)
  {
    assert (log + [row])[..|log|] == log;
  }

  /** The count over two stretches of log is the sum of their counts. */
  lemma {:induction false} LogCountConcat(a: seq<LogRow>, b: seq<LogRow>, dnr: int)
    ensures LogCount(a + b, dnr) == LogCount(a, dnr) + LogCount(b, dnr)
  {
    if b != [] {
      var b' := b[..|b| - 1];
      LogCountConcat(a, b', dnr);
      assert (a + b)[..|a + b| - 1] == a + b';
      assert (a + b)[|a + b| - 1] == b[|b| - 1];
    } else {
      assert a + b == a;
    }
  }

  /** Log rows that all name other cases do not count for `dnr`. */
  lemma {:induction false} LogCountOthers(log: seq<LogRow>, dnr: int)
    requires forall i :: 0 <= i < |log| ==> log[i].dnr != dnr
    ensures LogCount(log, dnr) == 0
  {
    if log != [] {
      LogCountOthers(log[..|log| - 1], dnr);
    }
  }

  /** A case that does not exist in a consistent database has no log rows. */
  lemma NoLogsForAbsentCase(t: Tables, dnr: int)
    requires Consistent(t)
    requires dnr !in t.cases
    ensures LogCount(t.log, dnr) == 0
  {
    LogCountOthers(t.log, dnr);
  }

  /** One connection to the database. */
  class Database {
    var reg: map<string, string>
    var hand: map<string, string>
    var doss: map<int, string>
    var enhet: map<string, string>
    var cases: map<int, CaseRow>
    var notes: map<(int, int), NoteRow>
    var log: seq<LogRow>
    /** The tables as of the last commit. */
    var committed: Tables

    /** The tables as this connection sees them now. */
    function Live(): Tables
      reads this
    {
      Tables(reg, hand, doss, enhet, cases, notes, log)
    }

    /** Nothing is waiting to be committed. */
    predicate Clean()
      reads this
    {
      committed == Live()
    }

    /** An empty database with nothing pending. */
    constructor ()
      ensures Live() == Tables(map[], map[], map[], map[], map[], map[], [])
      ensures Clean()
    {
      reg, hand, doss, enhet := map[], map[], map[], map[];
      cases, notes, log := map[], map[], [];
      committed := Tables(map[], map[], map[], map[], map[], map[], []);
    }

    /** `conn.commit()`: every pending write becomes durable. */
    method Commit()
      modifies this
      ensures Live() == old(Live())
      ensures Clean()
    {
      committed := Live();
    }

    /** `conn.rollback()`: every write since the last commit is undone. */
    method Rollback()
      modifies this
      ensures Live() == old(committed)
      ensures committed == old(committed)
      ensures Clean()
    {
      reg, hand, doss, enhet := committed.reg, committed.hand, committed.doss, committed.enhet;
      cases, notes, log := committed.cases, committed.notes, committed.log;
    }

    /** `INSERT INTO REG`; fails on a REG_ID already present. */
    method InsertRegistry(id: string, name: string) returns (ok: bool)
      modifies this
      ensures ok == (id !in old(reg))
      ensures Live() == if ok then old(Live()).(reg := old(reg)[id := name]) else old(Live())
      ensures committed == old(committed)
    {
      ok := id !in reg;
      if ok {
        reg := reg[id := name];
      }
    }

    /** `INSERT INTO HANDLAEGGARE`; fails on a HAND_ID already present. */
    method InsertHandler(id: string, name: string) returns (ok: bool)
      modifies this
      ensures ok == (id !in old(hand))
      ensures Live() == if ok then old(Live()).(hand := old(hand)[id := name]) else old(Live())
      ensures committed == old(committed)
    {
      ok := id !in hand;
      if ok {
        hand := hand[id := name];
      }
    }

    /** `INSERT INTO DOSSIEPLAN` of a number known to be new. */
    method InsertDossier(nr: int, name: string)
      requires nr !in doss
      modifies this
      ensures Live() == old(Live()).(doss := old(doss)[nr := name])
      ensures committed == old(committed)
    {
      doss := doss[nr := name];
    }

    /** `INSERT INTO ENHET` of a code known to be new. */
    method InsertUnit(code: string, name: string)
      requires code !in enhet
      modifies this
      ensures Live() == old(Live()).(enhet := old(enhet)[code := name])
      ensures committed == old(committed)
    {
      enhet := enhet[code := name];
    }

    /** `INSERT INTO AERENDE` of a DNR known to be new. */
    method InsertCase(dnr: int, row: CaseRow)
      requires dnr !in cases
      modifies this
      ensures Live() == old(Live()).(cases := old(cases)[dnr := row])
      ensures committed == old(committed)
    {
      cases := cases[dnr := row];
    }

    /** `UPDATE AERENDE SET ... WHERE DNR = ?` of a case that exists. */
    method UpdateCase(dnr: int, row: CaseRow)
      requires dnr in cases
      modifies this
      ensures Live() == old(Live()).(cases := old(cases)[dnr := row])
      ensures committed == old(committed)
    {
      cases := cases[dnr := row];
    }

    /** `INSERT INTO AERENDE_ANT`; fails on a (DNR, LNR) already present. */
    method InsertNote(dnr: int, lnr: int, row: NoteRow) returns (ok: bool)
      modifies this
      ensures ok == ((dnr, lnr) !in old(notes))
      ensures Live() == if ok then old(Live()).(notes := old(notes)[(dnr, lnr) := row]) else old(Live())
      ensures committed == old(committed)
    {
      ok := (dnr, lnr) !in notes;
      if ok {
        notes := notes[(dnr, lnr) := row];
      }
    }

    /** `INSERT INTO LOG`. */
    method AppendLog(row: LogRow)
      modifies this
      ensures Live() == old(Live()).(log := old(log) + [row])
      ensures committed == old(committed)
    {
      log := log + [row];
    }
  }
}
