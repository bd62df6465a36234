/** How the importer translates the codes and dates of an exported case
    record into the values the database stores: direction and status codes
    fall back to a default instead of failing, a date is taken as it is and a
    timestamp is cut at its date/time separator 'T'. */
module Mapping {
  import opened Text

  /** The direction code of a case or note: I is incoming, U outgoing and
      every other code, the empty one included, internal. */
  function MapDirection(code: string): (d: string)
    ensures d == "IN" <==> code == "I"
    ensures d == "UT" <==> code == "U"
    ensures d == "INTERN" <==> code != "I" && code != "U"
  {
    if code == "I" then "IN" else if code == "U" then "UT" else "INTERN"
  }

  /** The status code of a case: Ö is ongoing, A closed and every other
      code, the empty one included, new. */
  function MapStatus(code: string): (s: string)
    ensures s == "Pågående" <==> code == "Ö"
    ensures s == "Avslutad" <==> code == "A"
    ensures s == "Ny" <==> code != "Ö" && code != "A"
  {
    if code == "Ö" then "Pågående" else if code == "A" then "Avslutad" else "Ny"
  }

  /** A date is stored as given; an empty one is stored as NULL. */
  function ParseDate(s: string): (r: Option<string>)
    ensures r.None? <==> s == ""
    ensures r.Some? ==> r.value == s
  {
    if s == "" then None else Some(s)
  }

  /** Python's `s.split('T')[0]`: the longest prefix of `s` without a 'T'. */
  function DatePart(s: string): (p: string)
    ensures p <= s
    ensures 'T' !in p
    ensures |p| < |s| ==> s[|p|] == 'T'
  {
    if s == [] || s[0] == 'T' then [] else [s[0]] + DatePart(s[1..])
  }

  /** A timestamp is stored as its date part; an empty one as NULL. */
  function ParseDatetime(s: string): (r: Option<string>)
    ensures r.None? <==> s == ""
    ensures r.Some? ==> r.value <= s && 'T' !in r.value
    ensures r.Some? && |r.value| < |s| ==> s[|r.value|] == 'T'
  {
    if s == "" then None else Some(DatePart(s))
  }

  /** The three properties of DatePart determine it: any prefix without a
      'T' that is the whole input or stops at a 'T' is the date part. */
  lemma {:induction false} DatePartUnique(s: string, p: string)
    requires p <= s && 'T' !in p
    requires |p| < |s| ==> s[|p|] == 'T'
    ensures p == DatePart(s)
  {
    if s != [] && s[0] != 'T' {
      assert p != [];
      assert p[0] == s[0];
      DatePartUnique(s[1..], p[1..]);
    }
  }

  /** Cutting a date again changes nothing: a stored date part is its own
      date part. */
  lemma DatePartIdempotent(s: string)
    ensures DatePart(DatePart(s)) == DatePart(s)
  {
    DatePartUnique(DatePart(s), DatePart(s));
  }

  /** A timestamp that has no 'T' is stored whole, like a date. */
  lemma DatetimeWithoutSeparator(s: string)
    requires 'T' !in s
    ensures ParseDatetime(s) == ParseDate(s)
  {
    if s != "" {
      DatePartUnique(s, s);
    }
  }
}
