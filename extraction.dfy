/** Field extraction of the importer (`parse_xml_file`): from the first
    AErende element of an exported file to a case record, its notes
    (Haendelse elements) and its change-log entries (Logg elements).

    The XML text itself is not parsed here. An element is given as a record
    of its child elements: a text child is `None` when it is absent and
    `Some(t)` when present (`Some("")` when it has no text), so that
    `findtext(tag, default)` is `GetOr(default)`. A child read with `int()`
    is given already classified as absent, a number, or text `int()`
    rejects. */
module Extraction {
  import opened Text
  import opened Mapping

  /** A child element read with `int(findtext(tag, default))`. */
  datatype IntText = Missing | Number(n: int) | NotANumber

  datatype DiarieplanElem = DiarieplanElem(dossiernummer: IntText, rubrik: Option<string>)

  /** The Enhet element: its ID attribute and its text. */
  datatype EnhetElem = EnhetElem(id: Option<string>, text: Option<string>)

  datatype HaendelseElem = HaendelseElem(
    loepnummer: IntText,
    riktning: Option<string>,
    haendelsetext: Option<string>,
    inkommandedatum: Option<string>,
    utgaaendedatum: Option<string>,
    motpart: Option<string>,
    registrator: Option<string>,
    handlaeggare: Option<string>)

  datatype LoggElem = LoggElem(
    aendringsdatum: Option<string>,
    faeltnamn: Option<string>,
    registrator: Option<string>)

  datatype AerendeElem = AerendeElem(
    diarienummer: IntText,
    riktning: Option<string>,
    aerendemening: Option<string>,
    status: Option<string>,
    inkomstUppraettatDatum: Option<string>,
    registreringsdatum: Option<string>,
    avslutsdatum: Option<string>,
    motpartensBeteckning: Option<string>,
    fraanTill: Option<string>,
    registrator: Option<string>,
    handlaeggare: Option<string>,
    diarieplan: Option<DiarieplanElem>,
    enhet: Option<EnhetElem>,
    haendelser: seq<HaendelseElem>,   // every Haendelse below the case, in document order
    loggar: seq<LoggElem>)            // every Logg below the case, in document order

  /** An input file: not well-formed XML, or a document with its first
      AErende element, if any. */
  datatype XmlDoc = Malformed | Document(aerende: Option<AerendeElem>)

  /** The case part of the extracted data. */
  datatype CaseRecord = CaseRecord(
    dnr: int,
    inUt: string,
    atext: string,
    stat: string,
    inkupp: Option<string>,
    regdat: Option<string>,
    avsdat: Option<string>,
    motpartBet: string,
    franTill: string,
    registrator: string,
    handlaeggare: string,
    dossNr: Option<int>,
    dossierName: Option<string>,
    enhtKod: Option<string>,
    enhetName: Option<string>)

  datatype NoteRecord = NoteRecord(
    dnr: int,
    lnr: int,
    inUt: string,
    antText: string,
    datumin: Option<string>,
    datumut: Option<string>,
    anmkal: string,
    avsmot: string,
    registrator: string,
    handlaeggare: string)

  datatype LogRecord = LogRecord(dnr: int, logdat: Option<string>, logflt: string, registrator: string)

  /** What `parse_xml_file` returns: the empty dictionary, or a case with its
      notes and logs. */
  datatype CaseData = NoData | CaseData(header: CaseRecord, notes: seq<NoteRecord>, logs: seq<LogRecord>)

  /** Every note and log of the data carries the case's DNR. */
  predicate WellFormed(d: CaseData)
  {
    d.CaseData? ==>
      && (forall k :: 0 <= k < |d.notes| ==> d.notes[k].dnr == d.header.dnr)
      && (forall k :: 0 <= k < |d.logs| ==> d.logs[k].dnr == d.header.dnr)
  }

  /** `int(findtext(tag, str(default)))`, or None when `int()` raises. */
  function IntOr(t: IntText, default: int): Option<int>
  {
    match t
    case Missing => Some(default)
    case Number(n) => Some(n)
    case NotANumber => None
  }

  /** Every `int()` conversion of the case element succeeds. */
  predicate Convertible(e: AerendeElem)
  {
    && !e.diarienummer.NotANumber?
    && (e.diarieplan.Some? ==> !e.diarieplan.value.dossiernummer.NotANumber?)
    && (forall k :: 0 <= k < |e.haendelser| ==> !e.haendelser[k].loepnummer.NotANumber?)
  }

  /** The note at 0-based position `idx` below the case. */
  function NoteOf(h: HaendelseElem, idx: nat, dnr: int): (r: Option<NoteRecord>)
    ensures r.None? <==> h.loepnummer.NotANumber?
    ensures r.Some? ==> r.value.dnr == dnr
    ensures r.Some? && h.loepnummer.Missing? ==> r.value.lnr == idx + 1
    ensures r.Some? && h.loepnummer.Number? ==> r.value.lnr == h.loepnummer.n
  {
    match IntOr(h.loepnummer, idx + 1)
    case None => None
    case Some(lnr) =>
      Some(NoteRecord(
        dnr, lnr,
        MapDirection(h.riktning.GetOr("")),
        h.haendelsetext.GetOr(""),
        ParseDate(h.inkommandedatum.GetOr("")),
        ParseDate(h.utgaaendedatum.GetOr("")),
        "",
        h.motpart.GetOr(""),
        h.registrator.GetOr(""),
        h.handlaeggare.GetOr("")))
  }

  function LogOf(l: LoggElem, dnr: int): LogRecord
  {
    LogRecord(
      dnr,
      ParseDatetime(l.aendringsdatum.GetOr("")),
      "Ändring av " + l.faeltnamn.GetOr(""),
      l.registrator.GetOr(""))
  }

  /** The case part, given the converted DNR and dossier number. */
  function CaseOf(e: AerendeElem, dnr: int, dossNr: Option<int>): CaseRecord
  {
    CaseRecord(
      dnr,
      MapDirection(e.riktning.GetOr("")),
      e.aerendemening.GetOr(""),
      MapStatus(e.status.GetOr("")),
      ParseDate(e.inkomstUppraettatDatum.GetOr("")),
      ParseDate(e.registreringsdatum.GetOr("")),
      ParseDate(e.avslutsdatum.GetOr("")),
      e.motpartensBeteckning.GetOr(""),
      e.fraanTill.GetOr(""),
      e.registrator.GetOr(""),
      e.handlaeggare.GetOr(""),
      dossNr,
      if e.diarieplan.Some? then Some(e.diarieplan.value.rubrik.GetOr("")) else None,
      if e.enhet.Some? then Some(e.enhet.value.id.GetOr("")) else None,
      if e.enhet.Some? then e.enhet.value.text else None)
  }

  /** What `parse_xml_file` extracts from a document. */
  function Extract(doc: XmlDoc): (d: CaseData)
    ensures d.CaseData? <==> doc.Document? && doc.aerende.Some? && Convertible(doc.aerende.value)
    ensures WellFormed(d)
    ensures d.CaseData? ==>
      var e := doc.aerende.value;
      && d.header.dnr == (if e.diarienummer.Missing? then 0 else e.diarienummer.n)
      && |d.notes| == |e.haendelser|
      && (forall k :: 0 <= k < |d.notes| ==>
            d.notes[k].lnr == if e.haendelser[k].loepnummer.Missing? then k + 1 else e.haendelser[k].loepnummer.n)
      && |d.logs| == |e.loggar|
      && (forall k :: 0 <= k < |d.logs| ==>
            d.logs[k].logflt == "Ändring av " + e.loggar[k].faeltnamn.GetOr(""))
    ensures d.CaseData? ==>
      var e := doc.aerende.value;
      var c := d.header;
      && c.inUt == MapDirection(e.riktning.GetOr("")) && c.stat == MapStatus(e.status.GetOr(""))
      && c.inkupp == ParseDate(e.inkomstUppraettatDatum.GetOr(""))
      && c.regdat == ParseDate(e.registreringsdatum.GetOr(""))
      && c.avsdat == ParseDate(e.avslutsdatum.GetOr(""))
      && c.atext == e.aerendemening.GetOr("")
      && c.motpartBet == e.motpartensBeteckning.GetOr("") && c.franTill == e.fraanTill.GetOr("")
      && c.registrator == e.registrator.GetOr("") && c.handlaeggare == e.handlaeggare.GetOr("")
      && (c.dossNr.Some? <==> e.diarieplan.Some?) && (c.dossierName.Some? <==> e.diarieplan.Some?)
      && (e.diarieplan.Some? ==>
            var dp := e.diarieplan.value;
            && c.dossNr.value == (if dp.dossiernummer.Missing? then 0 else dp.dossiernummer.n)
            && c.dossierName.value == dp.rubrik.GetOr(""))
      && (c.enhtKod.Some? <==> e.enhet.Some?)
      && (e.enhet.Some? ==> c.enhtKod.value == e.enhet.value.id.GetOr("") && c.enhetName == e.enhet.value.text)
      && (e.enhet.None? ==> c.enhetName == None)
    ensures d.CaseData? ==>
      var e := doc.aerende.value;
      forall k :: 0 <= k < |d.notes| ==>
        var h := e.haendelser[k];
        && d.notes[k].inUt == MapDirection(h.riktning.GetOr(""))
        && d.notes[k].datumin == ParseDate(h.inkommandedatum.GetOr(""))
        && d.notes[k].datumut == ParseDate(h.utgaaendedatum.GetOr(""))
        && d.notes[k].antText == h.haendelsetext.GetOr("")
        && d.notes[k].anmkal == "" && d.notes[k].avsmot == h.motpart.GetOr("")
        && d.notes[k].registrator == h.registrator.GetOr("")
        && d.notes[k].handlaeggare == h.handlaeggare.GetOr("")
    ensures d.CaseData? ==>
      var e := doc.aerende.value;
      forall k :: 0 <= k < |d.logs| ==>
        && d.logs[k].logdat == ParseDatetime(e.loggar[k].aendringsdatum.GetOr(""))
        && d.logs[k].registrator == e.loggar[k].registrator.GetOr("")
  {
    if doc.Malformed? || doc.aerende.None? || !Convertible(doc.aerende.value) then NoData
    else
      var e := doc.aerende.value;
      var dnr := IntOr(e.diarienummer, 0).value;
      var dossNr := if e.diarieplan.Some? then IntOr(e.diarieplan.value.dossiernummer, 0) else None;
      CaseData(
        CaseOf(e, dnr, dossNr),
        seq(|e.haendelser|, k requires 0 <= k < |e.haendelser| => NoteOf(e.haendelser[k], k, dnr).value),
        seq(|e.loggar|, k requires 0 <= k < |e.loggar| => LogOf(e.loggar[k], dnr)))
  }

  /** The note loop of `parse_xml_file`: one note per Haendelse element, in
      document order; a line number `int()` rejects abandons the file. */
  method CollectNotes(hs: seq<HaendelseElem>, dnr: int) returns (notes: Option<seq<NoteRecord>>)
    ensures notes.None? <==> exists k :: 0 <= k < |hs| && hs[k].loepnummer.NotANumber?
    ensures notes.Some? ==>
      |notes.value| == |hs| && forall k :: 0 <= k < |hs| ==> NoteOf(hs[k], k, dnr) == Some(notes.value[k])
  {
    var acc: seq<NoteRecord> := [];
    var idx := 0;
    while idx < |hs|
      invariant 0 <= idx <= |hs|
      invariant |acc| == idx
      invariant forall k :: 0 <= k < idx ==> NoteOf(hs[k], k, dnr) == Some(acc[k])
    {
      var note := NoteOf(hs[idx], idx, dnr);
      if note.None? {
        return None;
      }
      acc := acc + [note.value];
      idx := idx + 1;
    }
    return Some(acc);
  }

  /** The log loop of `parse_xml_file`: one log record per Logg element. */
  method CollectLogs(ls: seq<LoggElem>, dnr: int) returns (logs: seq<LogRecord>)
    ensures |logs| == |ls|
    ensures forall k :: 0 <= k < |ls| ==> logs[k] == LogOf(ls[k], dnr)
  {
    logs := [];
    var i := 0;
    while i < |ls|
      invariant 0 <= i <= |ls|
      invariant |logs| == i
      invariant forall k :: 0 <= k < i ==> logs[k] == LogOf(ls[k], dnr)
    {
      logs := logs + [LogOf(ls[i], dnr)];
      i := i + 1;
    }
  }

  /** `parse_xml_file`: builds the note and log lists element by element;
      any failed `int()` conversion gives the empty result. */
  method ParseXmlFile(doc: XmlDoc) returns (d: CaseData)
    ensures d == Extract(doc)
  {
    if doc.Malformed? || doc.aerende.None? {
      return NoData;
    }
    var e := doc.aerende.value;
    if e.diarienummer.NotANumber? {
      return NoData;
    }
    var dnr := IntOr(e.diarienummer, 0).value;
    var dossNr: Option<int> := None;
    if e.diarieplan.Some? {
      if e.diarieplan.value.dossiernummer.NotANumber? {
        return NoData;
      }
      dossNr := IntOr(e.diarieplan.value.dossiernummer, 0);
    }
    var header := CaseOf(e, dnr, dossNr);
    var notes := CollectNotes(e.haendelser, dnr);
    if notes.None? {
      return NoData;
    }
    var logs := CollectLogs(e.loggar, dnr);
    d := CaseData(header, notes.value, logs);
  }
}
