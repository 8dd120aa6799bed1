/**
 * String helpers shared by the backends and the mini-app pages: `strip`/`trim`,
 * ASCII `toLowerCase`, `includes`/`in`, Python's `str.replace(pat, "")`, decimal
 * rendering of ids, JavaScript's `parseInt`, and the lexicographic order that
 * `ORDER BY` applies to text columns.
 */
module Text {

  import opened Values

  // ---------------------------------------------------------------------------
  // Whitespace trimming (Python `str.strip()`, JavaScript `String.prototype.trim`)
  // ---------------------------------------------------------------------------

  /** The ASCII whitespace characters both runtimes strip. */
  predicate IsSpace(c: char) {
    c == ' ' || c == '\t' || c == '\n' || c == '\r' || c == '\U{000B}' || c == '\U{000C}'
  }

  /** Drops leading whitespace: the result is a suffix of `s`, everything dropped is
      whitespace, and the result does not start with whitespace. */
  function TrimStart(s: string): (r: string)
    ensures |r| <= |s| && r == s[|s| - |r|..]
    ensures forall i :: 0 <= i < |s| - |r| ==> IsSpace(s[i])
    ensures r == [] || !IsSpace(r[0])
  {
    if s != [] && IsSpace(s[0]) then TrimStart(s[1..]) else s
  }

  /** Drops trailing whitespace: the result is a prefix of `s`, everything dropped is
      whitespace, and the result does not end with whitespace. */
  function TrimEnd(s: string): (r: string)
    ensures |r| <= |s| && r == s[..|r|]
    ensures forall i :: |r| <= i < |s| ==> IsSpace(s[i])
    ensures r == [] || !IsSpace(r[|r| - 1])
  {
    if s != [] && IsSpace(s[|s| - 1]) then TrimEnd(s[..|s| - 1]) else s
  }

  function Trim(s: string): string {
    TrimEnd(TrimStart(s))
  }

  /** Trimming is idempotent, and a string made only of whitespace trims to "". */
  lemma TrimProperties(s: string)
    ensures Trim(Trim(s)) == Trim(s)
    ensures (forall i :: 0 <= i < |s| ==> IsSpace(s[i])) ==> Trim(s) == ""
  {
    var t := Trim(s);
    assert TrimStart(t) == t;
    assert TrimEnd(t) == t;
  }

  /** A string without whitespace is its own trim. */
  lemma TrimWithoutSpaces(s: string)
    requires forall i :: 0 <= i < |s| ==> !IsSpace(s[i])
    ensures Trim(s) == s
  {
    assert TrimStart(s) == s;
  }

  // ---------------------------------------------------------------------------
  // Lower-casing (restricted to ASCII letters)
  // ---------------------------------------------------------------------------

  function LowerChar(c: char): char {
    if 'A' <= c <= 'Z' then (c as int - 'A' as int + 'a' as int) as char else c
  }

  function Lower(s: string): (r: string)
    ensures |r| == |s|
  {
    seq(|s|, i requires 0 <= i < |s| => LowerChar(s[i]))
  }

  lemma LowerIdempotent(s: string)
    ensures Lower(Lower(s)) == Lower(s)
  {
  }

  // ---------------------------------------------------------------------------
  // Substring search (JavaScript `includes`, Python `in`)
  // ---------------------------------------------------------------------------

  /** `hay` contains `needle` somewhere, scanning from the left. */
  predicate Contains(hay: string, needle: string)
    decreases |hay|
  {
    needle <= hay || (hay != [] && Contains(hay[1..], needle))
  }

  /** `needle` occurs in `hay` starting at offset `i`. */
  predicate OccursAt(hay: string, needle: string, i: int) {
    0 <= i <= |hay| - |needle| && hay[i..i + |needle|] == needle
  }

  /** An occurrence past the first character is an occurrence in the tail. */
  lemma OccursInTail(hay: string, needle: string, i: int)
    requires hay != [] && 1 <= i && OccursAt(hay, needle, i)
    ensures OccursAt(hay[1..], needle, i - 1)
  {
    assert hay[1..][i - 1..i - 1 + |needle|] == hay[i..i + |needle|];
  }

  /** An occurrence in the tail is an occurrence one place further on. */
  lemma OccursPastHead(hay: string, needle: string, i: int)
    requires hay != [] && OccursAt(hay[1..], needle, i)
    ensures OccursAt(hay, needle, i + 1)
  {
    assert hay[1..][i..i + |needle|] == hay[i + 1..i + 1 + |needle|];
  }

  /** The scan agrees with "occurs at some offset". */
  lemma {:induction false} ContainsIffOccurs(hay: string, needle: string)
    ensures Contains(hay, needle) <==> exists i :: OccursAt(hay, needle, i)
    decreases |hay|
  {
    if needle <= hay {
      assert OccursAt(hay, needle, 0);
    } else if hay == [] {
    } else {
      ContainsIffOccurs(hay[1..], needle);
      if exists i :: OccursAt(hay, needle, i) {
        var i :| OccursAt(hay, needle, i);
        assert i != 0;
        OccursInTail(hay, needle, i);
      }
      if exists i :: OccursAt(hay[1..], needle, i) {
        var i :| OccursAt(hay[1..], needle, i);
        OccursPastHead(hay, needle, i);
      }
    }
  }

  /** A string lacking one of the needle's characters does not contain the needle. */
  lemma NotContainsMissingChar(hay: string, needle: string, i: nat)
    requires i < |needle|
    requires forall j :: 0 <= j < |hay| ==> hay[j] != needle[i]
    ensures !Contains(hay, needle)
  {
    ContainsIffOccurs(hay, needle);
    forall j
      ensures !OccursAt(hay, needle, j)
    {
      if 0 <= j <= |hay| - |needle| {
        assert hay[j..j + |needle|][i] == hay[j + i];
      }
    }
  }

  /** The empty keyword occurs in every string. */
  lemma ContainsEmpty(hay: string)
    ensures Contains(hay, "")
  {
  }

  // ---------------------------------------------------------------------------
  // Python `s.replace(pat, "")`: remove every non-overlapping occurrence, left to right
  // ---------------------------------------------------------------------------

  function RemoveAll(s: string, pat: string): (r: string)
    requires pat != []
    ensures |r| <= |s|
    decreases |s|
  {
    if pat <= s then RemoveAll(s[|pat|..], pat)
    else if s == [] then []
    else [s[0]] + RemoveAll(s[1..], pat)
  }

  /** Removing a pattern that does not occur changes nothing. */
  lemma {:induction false} RemoveAllAbsent(s: string, pat: string)
    requires pat != [] && !Contains(s, pat)
    ensures RemoveAll(s, pat) == s
    decreases |s|
  {
    if s != [] {
      RemoveAllAbsent(s[1..], pat);
    }
  }

  /** Removing a pattern that occurs at the front drops that occurrence. */
  lemma RemoveAllLeading(pat: string, body: string)
    requires pat != []
    ensures RemoveAll(pat + body, pat) == RemoveAll(body, pat)
  {
    assert pat <= pat + body;
    assert (pat + body)[|pat|..] == body;
  }

  // ---------------------------------------------------------------------------
  // Decimal digits: rendering ids (`f"{id}"`, `${Date.now()}`) and reading them back
  // ---------------------------------------------------------------------------

  predicate IsDigit(c: char) {
    '0' <= c <= '9'
  }

  predicate AllDigits(s: string) {
    forall i :: 0 <= i < |s| ==> IsDigit(s[i])
  }

  function DigitChar(d: nat): (c: char)
    requires d < 10
    ensures IsDigit(c) && c as int - '0' as int == d
  {
    (d + '0' as int) as char
  }

  /** The number a string of decimal digits denotes (most significant digit first). */
  function DigitsValue(s: string): nat
    requires AllDigits(s)
  {
    if s == [] then 0 else DigitsValue(s[..|s| - 1]) * 10 + (s[|s| - 1] as int - '0' as int)
  }

  /** The decimal rendering of a natural number: never empty, digits only. */
  function Decimal(n: nat): (r: string)
    ensures r != [] && AllDigits(r)
  {
    if n < 10 then [DigitChar(n)] else Decimal(n / 10) + [DigitChar(n % 10)]
  }

  /** Reading back the rendering gives the number again. */
  lemma {:induction false} DecimalValue(n: nat)
    ensures DigitsValue(Decimal(n)) == n
  {
    if n >= 10 {
      DecimalValue(n / 10);
      var r := Decimal(n);
      assert r[..|r| - 1] == Decimal(n / 10);
    }
  }

  /** Different numbers render differently. */
  lemma DecimalInjective(m: nat, n: nat)
    requires Decimal(m) == Decimal(n)
    ensures m == n
  {
    DecimalValue(m);
    DecimalValue(n);
  }

  /** Length of the longest all-digit prefix. */
  function DigitRun(s: string): (n: nat)
    ensures n <= |s| && AllDigits(s[..n])
    ensures n < |s| ==> !IsDigit(s[n])
  {
    if s != [] && IsDigit(s[0]) then
      var n := 1 + DigitRun(s[1..]);
      assert s[..n] == [s[0]] + s[1..][..n - 1];
      n
    else 0
  }

  lemma {:induction false} DigitRunOfDigits(s: string)
    requires AllDigits(s)
    ensures DigitRun(s) == |s|
  {
    if s != [] {
      DigitRunOfDigits(s[1..]);
    }
  }

  /** The text after an optional leading sign. */
  function Unsigned(t: string): string {
    if t != [] && (t[0] == '-' || t[0] == '+') then t[1..] else t
  }

  /** The value of the leading digit run, or `None` when there is none. */
  function LeadingNumber(body: string): (r: Option<nat>)
    ensures r.Some? <==> body != [] && IsDigit(body[0])
  {
    var n := DigitRun(body);
    if n == 0 then None else Some(DigitsValue(body[..n]))
  }

  /** JavaScript `parseInt(s)` in base 10: leading whitespace, an optional sign, then the
      longest run of digits; `None` stands for NaN (no digits). */
  function ParseInt(s: string): Option<int> {
    var t := TrimStart(s);
    match LeadingNumber(Unsigned(t))
    case None => None
    case Some(v) => Some(if t != [] && t[0] == '-' then 0 - v else v)
  }

  /** `parseInt` reads back every rendered natural number. */
  lemma ParseIntDecimal(n: nat)
    ensures ParseInt(Decimal(n)) == Some(n)
  {
    var s := Decimal(n);
    assert !IsSpace(s[0]);
    assert TrimStart(s) == s;
    assert Unsigned(s) == s;
    DigitRunOfDigits(s);
    assert s[..|s|] == s;
    DecimalValue(n);
    assert LeadingNumber(s) == Some(n);
  }

  // ---------------------------------------------------------------------------
  // Lexicographic order of text (by code point)
  // ---------------------------------------------------------------------------

  predicate StrLt(a: string, b: string)
    decreases |a|
  {
    if a == [] then b != []
    else if b == [] then false
    else a[0] < b[0] || (a[0] == b[0] && StrLt(a[1..], b[1..]))
  }

  lemma {:induction false} StrLtIrreflexive(a: string)
    ensures !StrLt(a, a)
    decreases |a|
  {
    if a != [] {
      StrLtIrreflexive(a[1..]);
    }
  }

  lemma {:induction false} StrLtTransitive(a: string, b: string, c: string)
    requires StrLt(a, b) && StrLt(b, c)
    ensures StrLt(a, c)
    decreases |a|
  {
    if a != [] && a[0] == b[0] && b[0] == c[0] {
      StrLtTransitive(a[1..], b[1..], c[1..]);
    }
  }

  lemma {:induction false} StrLtTotal(a: string, b: string)
    ensures a == b || StrLt(a, b) || StrLt(b, a)
    decreases |a|
  {
    if a != [] && b != [] && a[0] == b[0] {
      StrLtTotal(a[1..], b[1..]);
      if a[1..] == b[1..] {
        assert a == [a[0]] + a[1..] && b == [b[0]] + b[1..];
      }
    }
  }
}
