/** Text helpers shared by the importer and the web routes: Python's `str(n)`
    for natural numbers, Python's `str.upper()`, SQLite's case-insensitive
    `LIKE '%x%'` containment and Python's argument-less `str.split()`. */
module Text {

  datatype Option<+T> = None | Some(value: T) {
    function GetOr(default: T): T {
      match this
      case Some(v) => v
      case None => default
    }
  }

  /** An optional value as a set: empty for None. */
  function Elements<T(==)>(o: Option<T>): set<T>
  {
    if o.Some? then {o.value} else {}
  }

  datatype Result<+R, +E> = Ok(value: R) | Err(error: E)

  // ---------------------------------------------------------------------
  // Decimal rendering, as Python's str(n) for n >= 0
  // ---------------------------------------------------------------------

  predicate IsDigit(c: char) { '0' <= c <= '9' }

  function Digit(d: nat): (c: char)
    requires d < 10
    ensures IsDigit(c)
  {
    ('0' as int + d) as char
  }

  function DigitValue(c: char): nat
    requires IsDigit(c)
  {
    c as int - '0' as int
  }

  /** Python's `str(n)`: the shortest decimal numeral of `n`. */
  function Decimal(n: nat): (s: string)
    ensures 1 <= |s|
    ensures forall k :: 0 <= k < |s| ==> IsDigit(s[k])
    ensures n < 10 <==> |s| == 1
  {
    if n < 10 then [Digit(n)] else Decimal(n / 10) + [Digit(n % 10)]
  }

  /** The value a numeral of digits denotes; the inverse of Decimal. */
  function DecimalValue(s: string): nat
    requires forall k :: 0 <= k < |s| ==> IsDigit(s[k])
  {
    if s == [] then 0 else 10 * DecimalValue(s[..|s| - 1]) + DigitValue(s[|s| - 1])
  }

  lemma {:induction false} DecimalRoundTrip(n: nat)
    ensures DecimalValue(Decimal(n)) == n
  {
    var s := Decimal(n);
    if n >= 10 {
      assert s[..|s| - 1] == Decimal(n / 10);
      DecimalRoundTrip(n / 10);
    }
  }

  /** Distinct suffix numbers give distinct suffixes. */
  lemma DecimalInjective(a: nat, b: nat)
    requires Decimal(a) == Decimal(b)
    ensures a == b
  {
    DecimalRoundTrip(a);
    DecimalRoundTrip(b);
  }

  // ---------------------------------------------------------------------
  // Upper-casing (Python str.upper) and ASCII folding (SQLite LIKE)
  // ---------------------------------------------------------------------

  /** Python's upper-casing of one character of ASCII or Latin-1: a-z and
      à-þ (except ÷) move to their capitals, ß becomes "SS", and ÿ and µ
      become capitals outside Latin-1 (Ÿ, Greek Μ); every other character is
      left as it is. */
  function UpperChar(c: char): (u: string)
    ensures |u| == if c == 'ß' then 2 else 1
    ensures c !in "ßÿµ" && !('a' <= c <= 'z' || ('à' <= c <= 'þ' && c != '÷')) ==> u == [c]
  {
    if 'a' <= c <= 'z' || ('à' <= c <= 'þ' && c != '÷') then [(c as int - 32) as char]
    else if c == 'ß' then "SS"
    else if c == 'ÿ' then ['\U{178}']
    else if c == 'µ' then ['\U{39C}']
    else [c]
  }

  /** Python's `str.upper()` on ASCII and Latin-1 text: each character
      upper-cased in place, ß widening to two characters. */
  function Upper(s: string): (u: string)
    ensures |s| <= |u| <= 2 * |s|
    ensures 'ß' !in s ==> |u| == |s| && forall k :: 0 <= k < |s| ==> [u[k]] == UpperChar(s[k])
  {
    if s == [] then []
    else
      var rest := Upper(s[1..]);
      assert 'ß' !in s ==> 'ß' !in s[1..] && forall k :: 1 <= k < |s| ==> s[1..][k - 1] == s[k];
      UpperChar(s[0]) + rest
  }

  /** The first three characters of `s`, or all of it when shorter: Python `s[0:3]`. */
  function Prefix3(s: string): (p: string)
    ensures |p| == if |s| < 3 then |s| else 3
    ensures p <= s
  {
    if |s| <= 3 then s else s[..3]
  }

  /** SQLite's built-in LIKE ignores case for ASCII letters only. */
  function FoldAscii(c: char): char
  {
    if 'A' <= c <= 'Z' then (c as int + 32) as char else c
  }

  /** `needle` occurs in `hay` at position `i`, ignoring ASCII case. */
  predicate MatchAt(hay: string, needle: string, i: nat)
  {
    i + |needle| <= |hay| &&
    forall k :: 0 <= k < |needle| ==> FoldAscii(hay[i + k]) == FoldAscii(needle[k])
  }

  /** `hay LIKE '%' || needle || '%'` under SQLite's default LIKE, with the
      characters of `needle` taken literally. */
  predicate ContainsFolded(hay: string, needle: string)
  {
    exists i: nat :: i <= |hay| && MatchAt(hay, needle, i)
  }

  lemma ContainsItself(s: string)
    ensures ContainsFolded(s, s)
  {
    assert MatchAt(s, s, 0);
  }

  lemma EmptyIsContained(s: string)
    ensures ContainsFolded(s, "")
  {
    assert MatchAt(s, "", 0);
  }

  // ---------------------------------------------------------------------
  // Python str.split() without arguments
  // ---------------------------------------------------------------------

  /** Python's `str.isspace()` for one character. */
  predicate IsSpace(c: char)
  {
    var u := c as int;
    (0x09 <= u <= 0x0D) || (0x1C <= u <= 0x20) || u == 0x85 || u == 0xA0
    || u == 0x1680 || (0x2000 <= u <= 0x200A) || u == 0x2028 || u == 0x2029
    || u == 0x202F || u == 0x205F || u == 0x3000
  }

  predicate Blank(s: string)
  {
    forall k :: 0 <= k < |s| ==> IsSpace(s[k])
  }

  predicate NoSpace(s: string)
  {
    forall k :: 0 <= k < |s| ==> !IsSpace(s[k])
  }

  /** Length of the run of non-space characters at the start of `s`. */
  function WordLength(s: string): (n: nat)
    ensures n <= |s|
    ensures NoSpace(s[..n])
    ensures n < |s| ==> IsSpace(s[n])
  {
    if s == [] || IsSpace(s[0]) then 0 else 1 + WordLength(s[1..])
  }

  /** Python's `s.split()`: the maximal runs of non-space characters. */
  function Words(s: string): (ws: seq<string>)
    decreases |s|
  {
    if s == [] then []
    else if IsSpace(s[0]) then Words(s[1..])
    else
      var n := WordLength(s);
      [s[..n]] + Words(s[n..])
  }

  /** Every word is non-empty and holds no white space. */
  lemma {:induction false} WordsAreWords(s: string)
    ensures forall j :: 0 <= j < |Words(s)| ==> Words(s)[j] != [] && NoSpace(Words(s)[j])
    decreases |s|
  {
    if s == [] {
    } else if IsSpace(s[0]) {
      WordsAreWords(s[1..]);
    } else {
      var n := WordLength(s);
      assert 1 <= n;
      WordsAreWords(s[n..]);
    }
  }

  /** `split()` is empty exactly for a string of white space only. */
  lemma {:induction false} WordsEmptyIffBlank(s: string)
    ensures Words(s) == [] <==> Blank(s)
    decreases |s|
  {
    if s == [] {
    } else if IsSpace(s[0]) {
      WordsEmptyIffBlank(s[1..]);
      if Blank(s[1..]) {
        forall k | 0 <= k < |s| ensures IsSpace(s[k]) {
          if k > 0 { assert s[k] == s[1..][k - 1]; }
        }
      }
    } else {
      assert !Blank(s);
    }
  }

  // ---------------------------------------------------------------------
  // Finite sets of integers
  // ---------------------------------------------------------------------

  lemma {:induction false} SubsetSize<T>(a: set<T>, b: set<T>)
    requires a <= b
    ensures |a| <= |b|
    decreases |b|
  {
    if a != {} {
      var x :| x in a;
      SubsetSize(a - {x}, b - {x});
    }
  }

  /** A set grown by at most `n` elements gains at most `n` elements of
      any set `s`. */
  lemma GrowthWithin<T>(a: set<T>, b: set<T>, s: set<T>, n: nat)
    requires a <= b && |b| <= |a| + n
    ensures |b * s| <= |a * s| + n
  {
    SubsetSize(b * s, (a * s) + (b - a));
    assert b * a == a;
  }

  predicate IsMax(s: set<int>, m: int)
  {
    m in s && forall x :: x in s ==> x <= m
  }

  /** Some element of a non-empty set. */
  lemma Pick<T>(s: set<T>) returns (x: T)
    requires s != {}
    ensures x in s
  {
    x :| x in s;
  }

  lemma {:induction false} MaxExists(s: set<int>)
    requires s != {}
    ensures exists m :: IsMax(s, m)
    decreases |s|
  {
    var x := Pick(s);
    if s == {x} {
      assert IsMax(s, x);
    } else {
      MaxExists(s - {x});
      var m :| IsMax(s - {x}, m);
      var top := if x <= m then m else x;
      forall y | y in s ensures y <= top {
        if y != x { assert y in s - {x}; }
      }
      assert IsMax(s, top);
    }
  }

  /** SQL `MAX(...)` over a non-empty finite set of integers. */
  function Max(s: set<int>): (m: int)
    requires s != {}
    ensures m in s
    ensures forall x :: x in s ==> x <= m
  {
    MaxExists(s);
    var m :| IsMax(s, m);
    m
  }
}
