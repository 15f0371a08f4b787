/**
 * The few C and C++ library routines the command-line parser relies on,
 * written as pure functions: `_stricmp` (case-insensitive comparison),
 * `atoi`, `sscanf` with the format "%dx%d", and `std::find` over a table.
 * Integers are unbounded here; the overflow behaviour of the C routines is
 * not modelled.
 */
module CLib {
  import opened Wrappers

  /** `tolower` in the "C" locale: only 'A'..'Z' change. */
  function Lower(c: char): char {
    if 'A' <= c <= 'Z' then (c as int - 'A' as int + 'a' as int) as char else c
  }

  /** `isspace` in the "C" locale. */
  predicate IsSpace(c: char) {
    c == ' ' || c == '\t' || c == '\n' || c == '\r' || c == '\U{B}' || c == '\U{C}'
  }

  predicate IsDigit(c: char) {
    '0' <= c <= '9'
  }

  /**
   * `_stricmp(a, b) == 0`: the strings agree character by character once
   * both are lower-cased, and end together.
   */
  predicate EqualsIgnoreCase(a: string, b: string) {
    if a == [] || b == [] then a == b
    else Lower(a[0]) == Lower(b[0]) && EqualsIgnoreCase(a[1..], b[1..])
  }

  /** The comparison ignores case and nothing else: equal lengths, equal lower-cased characters. */
  lemma {:induction false} EqualsIgnoreCaseChars(a: string, b: string)
    ensures EqualsIgnoreCase(a, b) <==>
      |a| == |b| && forall k :: 0 <= k < |a| ==> Lower(a[k]) == Lower(b[k])
  {
    if a != [] && b != [] {
      EqualsIgnoreCaseChars(a[1..], b[1..]);
      if |a| == |b| && forall k :: 0 <= k < |a| ==> Lower(a[k]) == Lower(b[k]) {
        forall k | 0 <= k < |a| - 1
          ensures Lower(a[1..][k]) == Lower(b[1..][k])
        {
          assert a[1..][k] == a[k + 1] && b[1..][k] == b[k + 1];
        }
      }
      if EqualsIgnoreCase(a, b) {
        forall k | 0 <= k < |a|
          ensures Lower(a[k]) == Lower(b[k])
        {
          if k > 0 {
            assert a[k] == a[1..][k - 1] && b[k] == b[1..][k - 1];
          }
        }
      }
    }
  }

  /** Case-insensitive equality is symmetric and transitive. */
  lemma EqualsIgnoreCaseTransitive(a: string, b: string, c: string)
    requires EqualsIgnoreCase(a, b)
    ensures EqualsIgnoreCase(b, a)
    ensures EqualsIgnoreCase(b, c) <==> EqualsIgnoreCase(a, c)
  {
    EqualsIgnoreCaseChars(a, b);
    EqualsIgnoreCaseChars(b, a);
    EqualsIgnoreCaseChars(b, c);
    EqualsIgnoreCaseChars(a, c);
  }

  /** Length of the run of leading `isspace` characters. */
  function SpacesPrefix(s: string): (n: nat)
    ensures n <= |s|
    ensures forall k :: 0 <= k < n ==> IsSpace(s[k])
    ensures n == |s| || !IsSpace(s[n])
  {
    if s != [] && IsSpace(s[0]) then 1 + SpacesPrefix(s[1..]) else 0
  }

  /** Length of the run of leading decimal digits. */
  function DigitsPrefix(s: string): (n: nat)
    ensures n <= |s|
    ensures forall k :: 0 <= k < n ==> IsDigit(s[k])
    ensures n == |s| || !IsDigit(s[n])
  {
    if s != [] && IsDigit(s[0]) then 1 + DigitsPrefix(s[1..]) else 0
  }

  /** The value of a string of decimal digits, most significant first. */
  function DigitsValue(ds: string): nat
    requires forall k :: 0 <= k < |ds| ==> IsDigit(ds[k])
  {
    if ds == [] then 0
    else
      assert IsDigit(ds[|ds| - 1]);
      DigitsValue(ds[..|ds| - 1]) * 10 + (ds[|ds| - 1] as int - '0' as int)
  }

  /** Decimal digits with no sign: their value and how many were read, None when there is none. */
  function ScanUnsigned(t: string): (r: Option<(nat, nat)>)
    ensures r.Some? ==> 0 < r.value.1 <= |t|
  {
    var n := DigitsPrefix(t);
    if n == 0 then None
    else
      assert forall k :: 0 <= k < n ==> t[..n][k] == t[k];
      Some((DigitsValue(t[..n]), n))
  }

  /** An optional '+' or '-' followed by decimal digits. */
  function ScanSigned(t: string): (r: Option<(int, nat)>)
    ensures r.Some? ==> 0 < r.value.1 <= |t|
  {
    if t != [] && (t[0] == '-' || t[0] == '+') then
      match ScanUnsigned(t[1..])
      case None => None
      case Some((v, n)) => Some((if t[0] == '-' then 0 - v else v, n + 1))
    else
      match ScanUnsigned(t)
      case None => None
      case Some((v, n)) => Some((v as int, n))
  }

  /**
   * One `%d` conversion: skip white space, take an optional sign, then one or
   * more decimal digits. Gives the value and the number of characters read,
   * or None when no digit follows (a matching failure).
   */
  function ScanInt(s: string): (r: Option<(int, nat)>)
    ensures r.Some? ==> 0 < r.value.1 <= |s|
  {
    var w := SpacesPrefix(s);
    match ScanSigned(s[w..])
    case None => None
    case Some((v, n)) => Some((v, w + n))
  }

  /** `atoi`: the value of the leading `%d`-style number, 0 when there is none. */
  function Atoi(s: string): int {
    match ScanInt(s)
    case Some((v, _)) => v
    case None => 0
  }

  /**
   * `sscanf(s, "%dx%d", &w, &h) == 2`: a number, the letter 'x' right after
   * it, then a second number; whatever follows is ignored.
   */
  function ScanDims(s: string): (r: Option<(int, int)>)
  {
    match ScanInt(s)
    case None => None
    case Some((w, n)) =>
      if n < |s| && s[n] == 'x' then
        match ScanInt(s[n + 1..])
        case None => None
        case Some((h, _)) => Some((w, h))
      else None
  }

  /** `sscanf(s, "%dx%d", ...)` matches two numbers only around a literal `x`. */
  lemma ScanDimsNeedsSeparator(s: string)
    requires 'x' !in s
    ensures ScanDims(s) == None
  {
    match ScanInt(s)
    case None =>
    case Some((w, n)) =>
      if n < |s| {
        assert s[n] in s;
      }
  }

  /** `std::find`: the index of the first element equal to `x`, or `|xs|` (the end) when there is none. */
  function FindIndex<T(==)>(xs: seq<T>, x: T): (r: nat)
    ensures r <= |xs|
    ensures r < |xs| ==> xs[r] == x
    ensures forall k :: 0 <= k < r ==> xs[k] != x
  {
    FindFrom(xs, x, 0)
  }

  /** The search of `FindIndex`, from index `start` on. */
  function FindFrom<T(==)>(xs: seq<T>, x: T, start: nat): (r: nat)
    requires start <= |xs|
    ensures start <= r <= |xs|
    ensures r < |xs| ==> xs[r] == x
    ensures forall k :: start <= k < r ==> xs[k] != x
    decreases |xs| - start
  {
    if start == |xs| then start
    else if xs[start] == x then start
    else FindFrom(xs, x, start + 1)
  }

  /** Decimal digits of a natural number, most significant first, without leading zeros. */
  function NatDigits(n: nat): (ds: string)
    ensures ds != [] && forall k :: 0 <= k < |ds| ==> IsDigit(ds[k])
    ensures DigitsValue(ds) == n
  {
    var last := ('0' as int + n % 10) as char;
    if n < 10 then
      assert [last][..0] == [];
      [last]
    else
      var hd := NatDigits(n / 10);
      assert (hd + [last])[..|hd|] == hd;
      hd + [last]
  }

  /** The decimal text of an integer, as `printf("%d")` writes it. */
  function Decimal(n: int): string {
    if n < 0 then "-" + NatDigits(-n) else NatDigits(n)
  }

  /** A digit run followed by a non-digit (or nothing) is read up to its end. */
  lemma DigitsPrefixOf(ds: string, rest: string)
    requires forall k :: 0 <= k < |ds| ==> IsDigit(ds[k])
    requires rest == [] || !IsDigit(rest[0])
    ensures DigitsPrefix(ds + rest) == |ds|
  {
    assert forall k :: 0 <= k < |ds| ==> (ds + rest)[k] == ds[k];
    assert rest != [] ==> (ds + rest)[|ds|] == rest[0];
  }

  /** Unsigned scanning reads a whole digit run and its value. */
  lemma ScanUnsignedDigits(ds: string, rest: string)
    requires ds != [] && forall k :: 0 <= k < |ds| ==> IsDigit(ds[k])
    requires rest == [] || !IsDigit(rest[0])
    ensures ScanUnsigned(ds + rest) == Some((DigitsValue(ds), |ds|))
  {
    DigitsPrefixOf(ds, rest);
    assert (ds + rest)[..|ds|] == ds;
  }

  /** A sign-and-digits scan reads back the number `Decimal` wrote. */
  lemma ScanSignedDecimal(n: int, rest: string)
    requires rest == [] || !IsDigit(rest[0])
    ensures ScanSigned(Decimal(n) + rest) == Some((n, |Decimal(n)|))
  {
    var ds := NatDigits(if n < 0 then -n else n);
    ScanUnsignedDigits(ds, rest);
    if n < 0 {
      assert Decimal(n) + rest == ['-'] + (ds + rest);
      assert (['-'] + (ds + rest))[1..] == ds + rest;
    } else {
      assert Decimal(n) + rest == ds + rest;
      assert (ds + rest)[0] == ds[0];
    }
  }

  /** `%d` reads back the number `Decimal` wrote, and stops right after it. */
  lemma ScanIntDecimal(n: int, rest: string)
    requires rest == [] || !IsDigit(rest[0])
    ensures ScanInt(Decimal(n) + rest) == Some((n, |Decimal(n)|))
  {
    var s := Decimal(n) + rest;
    ScanSignedDecimal(n, rest);
    assert s[0] == '-' || IsDigit(s[0]) by {
      if n >= 0 { assert s[0] == NatDigits(n)[0]; }
    }
    assert SpacesPrefix(s) == 0;
    assert s[0..] == s;
  }

  /** `atoi` inverts `Decimal`. */
  lemma AtoiDecimal(n: int)
    ensures Atoi(Decimal(n)) == n
  {
    ScanIntDecimal(n, []);
    assert Decimal(n) + [] == Decimal(n);
  }

  /** Where the separator and the second half sit in `a + "x" + b`. */
  lemma AroundSeparator(a: string, b: string)
    ensures (a + "x" + b)[|a|] == 'x'
    ensures (a + "x" + b)[|a| + 1..] == b
    ensures a + "x" + b == a + ("x" + b)
  {
  }

  /** "%dx%d" reads back a width and a height written as `WxH`. */
  lemma ScanDimsDecimal(w: int, h: int)
    ensures ScanDims(Decimal(w) + "x" + Decimal(h)) == Some((w, h))
  {
    AroundSeparator(Decimal(w), Decimal(h));
    ScanIntDecimal(w, "x" + Decimal(h));
    ScanIntDecimal(h, []);
    assert Decimal(h) + [] == Decimal(h);
  }
}
