/** The schema version: `dbcache_setup_schema` reads the program's VERSION
    string with `sscanf(VERSION, "%d.%*s", ...)`, keeping the integer before
    the first '.', and stores or compares that integer. */
module Version {

  /** The VERSION the build uses when no config.h defines one. */
  const VERSION: string := "0.0"

  predicate IsDigit(c: char) { '0' <= c <= '9' }

  /** The run of decimal digits `%d` consumes at the front of `s`. */
  function LeadingDigits(s: string): (ds: string)
    ensures ds <= s
    ensures forall k :: 0 <= k < |ds| ==> IsDigit(ds[k])
    ensures |ds| < |s| ==> !IsDigit(s[|ds|])
  {
    if s != [] && IsDigit(s[0]) then [s[0]] + LeadingDigits(s[1..]) else []
  }

  /** The value of a string of decimal digits, most significant first. */
  function DigitsValue(ds: string): nat
    requires forall k :: 0 <= k < |ds| ==> IsDigit(ds[k])
  {
    if ds == [] then 0
    else
      assert IsDigit(ds[|ds| - 1]);
      DigitsValue(ds[..|ds| - 1]) * 10 + (ds[|ds| - 1] as int - '0' as int)
  }

  /** The major version: the integer before the first '.'. The source needs
      VERSION to start with a digit, or `sscanf` leaves the result unset. */
  function MajorVersion(v: string): nat
    requires v != [] && IsDigit(v[0])
  {
    DigitsValue(LeadingDigits(v))
  }

  /** The schema version this build stores and expects. */
  function SchemaVersion(): nat {
    MajorVersion(VERSION)
  }

  /** Decimal rendering of a natural number, as a release string spells it. */
  function Decimal(n: nat): (ds: string)
    ensures |ds| >= 1 && forall k :: 0 <= k < |ds| ==> IsDigit(ds[k])
  {
    if n < 10 then [('0' as int + n) as char]
    else Decimal(n / 10) + [('0' as int + n % 10) as char]
  }

  lemma {:induction false} DigitsValueDecimal(n: nat)
    ensures DigitsValue(Decimal(n)) == n
  {
    if n >= 10 {
      DigitsValueDecimal(n / 10);
      var d := Decimal(n);
      assert d[..|d| - 1] == Decimal(n / 10);
    }
  }

  lemma {:induction false} LeadingDigitsOfDigits(ds: string, rest: string)
    requires forall k :: 0 <= k < |ds| ==> IsDigit(ds[k])
    requires rest == [] || !IsDigit(rest[0])
    ensures LeadingDigits(ds + rest) == ds
    decreases |ds|
  {
    if ds != [] {
      LeadingDigitsOfDigits(ds[1..], rest);
      assert (ds + rest)[1..] == ds[1..] + rest;
      assert [ds[0]] + ds[1..] == ds;
    } else {
      assert ds + rest == rest;
    }
  }

  /** Reading back a version written as "<major>.<anything>" gives the major
      number: the parse is the inverse of rendering. */
  lemma MajorVersionOfRendered(major: nat, rest: string)
    requires rest == [] || !IsDigit(rest[0])
    ensures MajorVersion(Decimal(major) + rest) == major
  {
    LeadingDigitsOfDigits(Decimal(major), rest);
    DigitsValueDecimal(major);
  }

  /** The default VERSION "0.0" gives schema version 0. */
  lemma SchemaVersionIsZero()
    ensures SchemaVersion() == 0
  {
    assert VERSION == Decimal(0) + ".0";
    MajorVersionOfRendered(0, ".0");
  }
}
