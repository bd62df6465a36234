/** The get-or-create resolvers of the importer. A registry or handler name
    is looked up by containment in the names already stored; on a miss a
    short id is made up from the name and, if it is taken, suffixed with the
    first free number from 1 to 99. Dossiers and units are keyed by the
    number or code the export gives and are inserted only when new and
    named. Every resolver that inserts a row commits the connection. */
module Resolve {
  import opened Text
  import opened Store

  /** Why an import of one case is abandoned. */
  datatype ImportError =
    | DuplicateKey   // an INSERT hit a key already present (sqlite3.IntegrityError)
    | NoNameToken    // a handler name of white space only (IndexError from `split()[-1]`)

  // ---------------------------------------------------------------------
  // Short ids with a numeric suffix
  // ---------------------------------------------------------------------

  /** The id `base` suffixed with the number `i`. */
  function Candidate(base: string, i: nat): string
  {
    base + Decimal(i)
  }

  /** The first suffix number from `i` up to 99 whose candidate is free. */
  function FirstFreeSuffix(base: string, taken: set<string>, i: nat): (r: Option<nat>)
    requires 1 <= i <= 100
    ensures r.Some? ==> i <= r.value < 100 && Candidate(base, r.value) !in taken
    ensures r.Some? ==> forall j :: i <= j < r.value ==> Candidate(base, j) in taken
    ensures r.None? <==> forall j :: i <= j < 100 ==> Candidate(base, j) in taken
    decreases 100 - i
  {
    if i == 100 then None
    else if Candidate(base, i) !in taken then Some(i)
    else FirstFreeSuffix(base, taken, i + 1)
  }

  /** Every suffixed candidate is taken, and so is the base. */
  ghost predicate Exhausted(base: string, taken: set<string>)
  {
    base in taken && forall j :: 1 <= j < 100 ==> Candidate(base, j) in taken
  }

  /** The id a resolver gives a new row: the base when it is free, else the
      base with the smallest free suffix from 1 to 99; None when all are taken. */
  function AllocateId(base: string, taken: set<string>): (r: Option<string>)
    ensures r.Some? ==> r.value !in taken && base <= r.value
    ensures r.None? <==> Exhausted(base, taken)
    ensures base !in taken ==> r == Some(base)
    ensures base in taken && r.Some? ==>
      exists k :: 1 <= k < 100 && r.value == Candidate(base, k) &&
        forall j :: 1 <= j < k ==> Candidate(base, j) in taken
  {
    if base !in taken then Some(base)
    else
      match FirstFreeSuffix(base, taken, 1)
      case Some(k) => Some(Candidate(base, k))
      case None => None
  }

  /** The id-choosing part of `get_or_create_registry` and
      `get_or_create_handler`: start from the base and, if it is taken, try
      the suffixes 1 to 99 in turn. When every one is taken the base is kept,
      and the INSERT that follows fails on it. */
  method AllocateShortCode(base: string, taken: set<string>) returns (id: string)
    ensures id == AllocateId(base, taken).GetOr(base)
  {
    id := base;
    if base in taken {
      var i := 1;
      while i < 100
        invariant 1 <= i <= 100
        invariant FirstFreeSuffix(base, taken, i) == FirstFreeSuffix(base, taken, 1)
      {
        var candidate := Candidate(base, i);
        if candidate !in taken {
          id := candidate;
          return;
        }
        i := i + 1;
      }
    }
  }

  /** The candidates with suffixes 1 to n - 1. */
  ghost function Candidates(base: string, n: nat): set<string>
  {
    set j: nat | 1 <= j < n :: Candidate(base, j)
  }

  /** Distinct suffix numbers give distinct candidates. */
  lemma CandidateInjective(base: string, i: nat, j: nat)
    requires Candidate(base, i) == Candidate(base, j)
    ensures i == j
  {
    assert Decimal(i) == Candidate(base, i)[|base|..];
    assert Decimal(j) == Candidate(base, j)[|base|..];
    DecimalInjective(i, j);
  }

  lemma {:induction false} CandidatesSize(base: string, n: nat)
    requires 1 <= n
    ensures |Candidates(base, n)| == n - 1
  {
    if n > 1 {
      CandidatesSize(base, n - 1);
      var c := Candidate(base, n - 1);
      assert Candidates(base, n) == Candidates(base, n - 1) + {c};
      assert c !in Candidates(base, n - 1) by {
        if c in Candidates(base, n - 1) {
          var j: nat :| 1 <= j < n - 1 && Candidate(base, j) == c;
          CandidateInjective(base, j, n - 1);
        }
      }
    }
  }

  /** Allocation can fail only once a hundred ids share the base: the base
      and its 99 suffixed forms are all distinct. */
  lemma ExhaustionNeedsHundredIds(base: string, taken: set<string>)
    requires AllocateId(base, taken).None?
    ensures |taken| >= 100
  {
    var all := Candidates(base, 100) + {base};
    CandidatesSize(base, 100);
    assert base !in Candidates(base, 100);
    assert all <= taken;
    SubsetSize(all, taken);
  }

  /** While fewer than a hundred ids are taken, an id can be allocated. */
  lemma AllocationRoom(base: string, taken: set<string>)
    requires |taken| < 100
    ensures AllocateId(base, taken).Some?
  {
    if AllocateId(base, taken).None? {
      ExhaustionNeedsHundredIds(base, taken);
    }
  }

  /** The hundred ids an allocation from `base` may give: the base and its
      99 suffixed forms. */
  ghost function IdSpace(base: string): set<string>
  {
    Candidates(base, 100) + {base}
  }

  /** While fewer than a hundred of the ids a base may give are taken, an
      id can be allocated from it, however many other ids are taken. */
  lemma AllocationRoomFor(base: string, taken: set<string>)
    requires |taken * IdSpace(base)| < 100
    ensures AllocateId(base, taken).Some?
  {
    if AllocateId(base, taken).None? {
      var space := IdSpace(base);
      assert |space| == 100 by {
        CandidatesSize(base, 100);
        assert base !in Candidates(base, 100);
      }
      SubsetSize(space, taken * space);
    }
  }

  // ---------------------------------------------------------------------
  // REG
  // ---------------------------------------------------------------------

  /** Some stored registry name contains the name (`REG_NAMN LIKE '%name%'`). */
  predicate RegistryHit(reg: map<string, string>, name: string)
  {
    exists id :: id in reg && ContainsFolded(reg[id], name)
  }

  /** Resolving a registry name fails: no stored name contains it, and its
      base id and all the suffixed forms of it are taken. */
  predicate RegistryFails(reg: map<string, string>, name: string)
  {
    !RegistryHit(reg, name) && AllocateId(RegistryBase(name), reg.Keys).None?
  }

  /** The id a new registry row starts from: "R" and the first three
      characters of the upper-cased name. */
  function RegistryBase(name: string): (b: string)
    ensures |b| == 1 + (if |Upper(name)| < 3 then |Upper(name)| else 3) && b[0] == 'R'
    ensures b[1..] <= Upper(name)
    ensures 'ß' !in name ==> |b| == 1 + (if |name| < 3 then |name| else 3)
    ensures 'ß' !in name ==> forall k :: 1 <= k < |b| ==> [b[k]] == UpperChar(name[k - 1])
  {
    "R" + Prefix3(Upper(name))
  }

  /** A name starting with ß gives a base id whose letters come from "SS". */
  lemma RegistryBaseOfSharpS()
    ensures RegistryBase("ßen") == "RSSE"
  {
    assert Upper("n") == "N";
    assert Upper("en") == "EN";
    assert Upper("ßen") == "SSEN";
  }

  /** `get_or_create_registry`. */
  method GetOrCreateRegistry(db: Database, registrator: string) returns (r: Result<string, ImportError>)
    modifies db
    ensures db.hand == old(db.hand) && db.doss == old(db.doss) && db.enhet == old(db.enhet)
    ensures db.cases == old(db.cases) && db.notes == old(db.notes) && db.log == old(db.log)
    ensures Extends(old(db.reg), db.reg)
    ensures old(db.Clean()) ==> db.Clean()
    ensures r.Ok? ==> r.value in db.reg && ContainsFolded(db.reg[r.value], registrator)
    ensures r.Err? <==> RegistryFails(old(db.reg), registrator)
    ensures db.reg != old(db.reg) ==> r.Ok? && db.reg == old(db.reg)[r.value := registrator]
    ensures RegistryHit(old(db.reg), registrator) ==>
      && r.Ok? && r.value in old(db.reg) && ContainsFolded(old(db.reg)[r.value], registrator)
      && db.Live() == old(db.Live()) && db.committed == old(db.committed)
    ensures !RegistryHit(old(db.reg), registrator) ==>
      var a := AllocateId(RegistryBase(registrator), old(db.reg).Keys);
      && (a.Some? ==>
            && r == Ok(a.value)
            && db.Live() == old(db.Live()).(reg := old(db.reg)[a.value := registrator])
            && db.Clean())
      && (a.None? ==>
            r == Err(DuplicateKey) && db.Live() == old(db.Live()) && db.committed == old(db.committed))
  {
    if id :| id in db.reg && ContainsFolded(db.reg[id], registrator) {
      return Ok(id);
    }
    var regId := AllocateShortCode(RegistryBase(registrator), db.reg.Keys);
    var inserted := db.InsertRegistry(regId, registrator);
    if !inserted {
      return Err(DuplicateKey);
    }
    db.Commit();
    ContainsItself(registrator);
    return Ok(regId);
  }

  /** A registry row created for a name is found again by the next lookup of
      that name, so a second record naming the same registrator reuses it. */
  lemma CreatedRegistryIsFound(reg: map<string, string>, id: string, name: string)
    ensures RegistryHit(reg[id := name], name)
  {
    ContainsItself(name);
    assert id in reg[id := name] && ContainsFolded(reg[id := name][id], name);
  }

  // ---------------------------------------------------------------------
  // HANDLAEGGARE
  // ---------------------------------------------------------------------

  /** `HAND_NAMN = name OR HAND_NAMN LIKE '%name%'`. */
  predicate HandlerMatches(stored: string, name: string)
  {
    stored == name || ContainsFolded(stored, name)
  }

  predicate HandlerHit(hand: map<string, string>, name: string)
  {
    exists id :: id in hand && HandlerMatches(hand[id], name)
  }

  /** A match stays a match while the handler table only grows. */
  lemma HandlerHitGrows(hand: map<string, string>, hand': map<string, string>, name: string)
    requires Extends(hand, hand') && HandlerHit(hand, name)
    ensures HandlerHit(hand', name)
  {
    var id :| id in hand && HandlerMatches(hand[id], name);
    assert id in hand' && HandlerMatches(hand'[id], name);
  }

  /** Resolving a handler name fails: it is not empty, nothing stored
      matches it, and either it has no words or its base id and all the
      suffixed forms of it are taken. */
  predicate HandlerFails(hand: map<string, string>, name: string)
  {
    && name != "" && !HandlerHit(hand, name)
    && (Words(name) == [] || AllocateId(HandlerBase(Words(name)), hand.Keys).None?)
  }

  /** The id a new handler row starts from: "H", the length of the last word
      of the name, then the length of its first word. */
  function HandlerBase(words: seq<string>): (b: string)
    requires words != []
    ensures 3 <= |b| && b[0] == 'H'
    ensures forall k :: 1 <= k < |b| ==> IsDigit(b[k])
    ensures |b| == 3 <==> |words[|words| - 1]| < 10 && |words[0]| < 10
  {
    "H" + Decimal(|words[|words| - 1]|) + Decimal(|words[0]|)
  }

  /** `get_or_create_handler`: None for an empty name; a name of white space
      only has no words (see Text.WordsEmptyIffBlank), so that making up its
      id fails. */
  method GetOrCreateHandler(db: Database, name: string) returns (r: Result<Option<string>, ImportError>)
    modifies db
    ensures db.reg == old(db.reg) && db.doss == old(db.doss) && db.enhet == old(db.enhet)
    ensures db.cases == old(db.cases) && db.notes == old(db.notes) && db.log == old(db.log)
    ensures Extends(old(db.hand), db.hand)
    ensures old(db.Clean()) ==> db.Clean()
    ensures r.Ok? && name != "" ==> r.value.Some? && r.value.value in db.hand && HandlerMatches(db.hand[r.value.value], name)
    ensures r.Err? <==> HandlerFails(old(db.hand), name)
    ensures db.hand != old(db.hand) ==>
      r.Ok? && r.value.Some? && r.value.value != "" && db.hand == old(db.hand)[r.value.value := name]
    ensures name == "" ==>
      r == Ok(None) && db.Live() == old(db.Live()) && db.committed == old(db.committed)
    ensures name != "" && HandlerHit(old(db.hand), name) ==>
      && r.Ok? && r.value.Some? && r.value.value in old(db.hand)
      && HandlerMatches(old(db.hand)[r.value.value], name)
      && db.Live() == old(db.Live()) && db.committed == old(db.committed)
    ensures name != "" && !HandlerHit(old(db.hand), name) && Words(name) == [] ==>
      r == Err(NoNameToken) && db.Live() == old(db.Live()) && db.committed == old(db.committed)
    ensures name != "" && !HandlerHit(old(db.hand), name) && Words(name) != [] ==>
      var a := AllocateId(HandlerBase(Words(name)), old(db.hand).Keys);
      && (a.Some? ==>
            && r == Ok(Some(a.value))
            && db.Live() == old(db.Live()).(hand := old(db.hand)[a.value := name])
            && db.Clean())
      && (a.None? ==>
            r == Err(DuplicateKey) && db.Live() == old(db.Live()) && db.committed == old(db.committed))
  {
    if name == "" {
      return Ok(None);
    }
    if id :| id in db.hand && HandlerMatches(db.hand[id], name) {
      return Ok(Some(id));
    }
    var words := Words(name);
    if words == [] {
      return Err(NoNameToken);
    }
    var handId := AllocateShortCode(HandlerBase(words), db.hand.Keys);
    var inserted := db.InsertHandler(handId, name);
    if !inserted {
      return Err(DuplicateKey);
    }
    db.Commit();
    return Ok(Some(handId));
  }

  /** Likewise for a created handler row. */
  lemma CreatedHandlerIsFound(hand: map<string, string>, id: string, name: string)
    ensures HandlerHit(hand[id := name], name)
  {
    assert id in hand[id := name] && HandlerMatches(hand[id := name][id], name);
  }

  // ---------------------------------------------------------------------
  // DOSSIEPLAN and ENHET
  // ---------------------------------------------------------------------

  /** Python truth of an optional name: present and non-empty. */
  predicate Named(name: Option<string>)
  {
    name.Some? && name.value != ""
  }

  /** `get_or_create_dossier`: a missing or zero number gives None. */
  method GetOrCreateDossier(db: Database, dossNr: Option<int>, name: Option<string>) returns (r: Option<int>)
    modifies db
    ensures db.reg == old(db.reg) && db.hand == old(db.hand) && db.enhet == old(db.enhet)
    ensures db.cases == old(db.cases) && db.notes == old(db.notes) && db.log == old(db.log)
    ensures Extends(old(db.doss), db.doss)
    ensures old(db.Clean()) ==> db.Clean()
    ensures r == if dossNr == None || dossNr == Some(0) then None else dossNr
    ensures r.Some? && r.value !in old(db.doss) && Named(name) ==>
      db.Live() == old(db.Live()).(doss := old(db.doss)[r.value := name.value]) && db.Clean()
    ensures !(r.Some? && r.value !in old(db.doss) && Named(name)) ==>
      db.Live() == old(db.Live()) && db.committed == old(db.committed)
  {
    if dossNr == None || dossNr == Some(0) {
      return None;
    }
    if dossNr.value !in db.doss && Named(name) {
      db.InsertDossier(dossNr.value, name.value);
      db.Commit();
    }
    return dossNr;
  }

  /** `get_or_create_unit`: a missing or empty code gives None. */
  method GetOrCreateUnit(db: Database, code: Option<string>, name: Option<string>) returns (r: Option<string>)
    modifies db
    ensures db.reg == old(db.reg) && db.hand == old(db.hand) && db.doss == old(db.doss)
    ensures db.cases == old(db.cases) && db.notes == old(db.notes) && db.log == old(db.log)
    ensures Extends(old(db.enhet), db.enhet)
    ensures old(db.Clean()) ==> db.Clean()
    ensures r == if Named(code) then code else None
    ensures r.Some? && r.value !in old(db.enhet) && Named(name) ==>
      db.Live() == old(db.Live()).(enhet := old(db.enhet)[r.value := name.value]) && db.Clean()
    ensures !(r.Some? && r.value !in old(db.enhet) && Named(name)) ==>
      db.Live() == old(db.Live()) && db.committed == old(db.committed)
  {
    if !Named(code) {
      return None;
    }
    if code.value !in db.enhet && Named(name) {
      db.InsertUnit(code.value, name.value);
      db.Commit();
    }
    return code;
  }
}
