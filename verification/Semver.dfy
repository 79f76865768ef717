/**
 The version parser of the registry: the match of `^(\d+)\.(\d+)\.(\d+)` on a string,
 as a left-to-right scan, and its relation to a declarative reading of that pattern.
 */
module Semver {
  import opened Wrappers

  datatype Version = Version(major: nat, minor: nat, patch: nat)

  predicate IsDigit(c: char) { '0' <= c <= '9' }

  predicate AllDigits(s: string) {
    forall i :: 0 <= i < |s| ==> IsDigit(s[i])
  }

  /** The length of the longest prefix of digits: what a greedy `\d+` consumes. */
  function DigitRun(s: string): (n: nat)
    ensures n <= |s| && AllDigits(s[..n])
    ensures n < |s| ==> !IsDigit(s[n])
  {
    if s == [] || !IsDigit(s[0]) then 0 else
      var n := 1 + DigitRun(s[1..]);
      assert forall i :: 0 < i < n ==> s[i] == s[1..][i - 1];
      n
  }

  function DigitValue(c: char): nat
    requires IsDigit(c)
  {
    c as int - '0' as int
  }

  /** `Number.parseInt` on a string of digits. */
  function ParseNat(s: string): nat
    requires AllDigits(s)
  {
    if s == [] then 0
    else 10 * ParseNat(s[..|s| - 1]) + DigitValue(s[|s| - 1])
  }

  predicate Number(s: string) {
    s != [] && AllDigits(s)
  }

  /** `\d+\.`: the digits, and what follows the dot. */
  function Field(s: string): (f: Option<(string, string)>)
    ensures f.Some? ==> Number(f.value.0) && s == f.value.0 + ("." + f.value.1)
  {
    var n := DigitRun(s);
    if n == 0 || n == |s| || s[n] != '.' then None else
      assert s == s[..n] + ("." + s[n + 1..]);
      Some((s[..n], s[n + 1..]))
  }

  function Parse(v: string): Option<Version> {
    var x := Field(v);
    if x.None? then None else
      var y := Field(x.value.1);
      if y.None? then None else
        var z := y.value.1[..DigitRun(y.value.1)];
        if z == [] then None
        else Some(Version(ParseNat(x.value.0), ParseNat(y.value.0), ParseNat(z)))
  }

  // -- A declarative reading of the pattern -----------------------------------

  predicate StartsWithDigit(s: string) {
    s != [] && IsDigit(s[0])
  }

  /** `v` is x.y.z followed by `rest`, and no digit of the third group is left in `rest`. */
  predicate Splits(v: string, x: string, y: string, z: string, rest: string) {
    && Number(x) && Number(y) && Number(z) && !StartsWithDigit(rest)
    && v == x + ("." + (y + ("." + (z + rest))))
  }

  /** A run of digits in front of anything else is found, and what follows it is left. */
  lemma {:induction false} DigitRunOf(s: string, x: string, rest: string)
    requires s == x + rest && AllDigits(x) && !StartsWithDigit(rest)
    ensures DigitRun(s) == |x| && s[..|x|] == x && s[|x|..] == rest
  {
    if x != [] {
      assert s[1..] == x[1..] + rest;
      DigitRunOf(s[1..], x[1..], rest);
    }
  }

  lemma FieldOf(s: string, x: string, rest: string)
    requires s == x + ("." + rest) && Number(x)
    ensures Field(s) == Some((x, rest))
  {
    DigitRunOf(s, x, "." + rest);
    assert s[|x|..] == "." + rest && s[|x|] == '.' && s[|x| + 1..] == rest;
  }

  /** The scan accepts every string the pattern describes, and yields the described numbers. */
  lemma ParseComplete(v: string, x: string, y: string, z: string, rest: string)
    requires Splits(v, x, y, z, rest)
    ensures Parse(v) == Some(Version(ParseNat(x), ParseNat(y), ParseNat(z)))
  {
    FieldOf(v, x, y + ("." + (z + rest)));
    FieldOf(y + ("." + (z + rest)), y, z + rest);
    DigitRunOf(z + rest, z, rest);
  }

  /** The scan accepts nothing else. */
  lemma ParseSound(v: string)
    requires Parse(v).Some?
    ensures exists x, y, z, rest :: Splits(v, x, y, z, rest)
  {
    var (x, r1) := Field(v).value;
    var (y, r2) := Field(r1).value;
    var n := DigitRun(r2);
    TailFound(r2, n);
    SplitsFrom(v, x, r1, y, r2, r2[..n], r2[n..]);
  }

  lemma TailFound(s: string, n: nat)
    requires 0 < n == DigitRun(s)
    ensures Number(s[..n]) && !StartsWithDigit(s[n..]) && s == s[..n] + s[n..]
  {
  }

  lemma SplitsFrom(v: string, x: string, r1: string, y: string, r2: string, z: string, rest: string)
    requires v == x + ("." + r1) && r1 == y + ("." + r2) && r2 == z + rest
    requires Number(x) && Number(y) && Number(z) && !StartsWithDigit(rest)
    ensures Splits(v, x, y, z, rest)
  {
  }

  /** The greedy match is deterministic: a string splits in at most one way. */
  lemma SplitUnique(v: string, x: string, y: string, z: string, rest: string,
                    x': string, y': string, z': string, rest': string)
    requires Splits(v, x, y, z, rest) && Splits(v, x', y', z', rest')
    ensures x == x' && y == y' && z == z' && rest == rest'
  {
    var r1, r1' := y + ("." + (z + rest)), y' + ("." + (z' + rest'));
    var r2, r2' := z + rest, z' + rest';
    FieldOf(v, x, r1);
    FieldOf(v, x', r1');
    FieldOf(r1, y, r2);
    FieldOf(r1, y', r2');
    DigitRunOf(r2, z, rest);
    DigitRunOf(r2, z', rest');
  }

  /** The text starts with three dotted numbers, of which the first is `major`. */
  ghost predicate HasMajor(v: string, major: nat) {
    exists x, y, z, rest :: Splits(v, x, y, z, rest) && ParseNat(x) == major
  }

  lemma ParsedMajor(v: string, major: nat)
    ensures HasMajor(v, major) <==> Parse(v).Some? && Parse(v).value.major == major
  {
    if HasMajor(v, major) {
      var x, y, z, rest :| Splits(v, x, y, z, rest) && ParseNat(x) == major;
      ParseComplete(v, x, y, z, rest);
    }
    if Parse(v).Some? {
      ParseSound(v);
      var x, y, z, rest :| Splits(v, x, y, z, rest);
      ParseComplete(v, x, y, z, rest);
    }
  }

  // -- Printing ---------------------------------------------------------------

  function PrintNat(n: nat): (s: string)
    ensures s != [] && AllDigits(s)
  {
    var last := ['0' + (n % 10) as char];
    if n < 10 then last else PrintNat(n / 10) + last
  }

  function Print(v: Version): string {
    PrintNat(v.major) + ("." + (PrintNat(v.minor) + ("." + PrintNat(v.patch))))
  }

  lemma {:induction false} ParsePrintNat(n: nat)
    ensures ParseNat(PrintNat(n)) == n
  {
    var last := '0' + (n % 10) as char;
    assert DigitValue(last) == n % 10;
    if n < 10 {
      assert PrintNat(n) == [last];
      assert ParseNat([last][..0]) == 0;
    } else {
      ParsePrintNat(n / 10);
      var s := PrintNat(n);
      assert s[..|s| - 1] == PrintNat(n / 10);
    }
  }

  /** Printing three naturals, with any suffix that starts with no digit, parses back. */
  lemma RoundTrip(v: Version, suffix: string)
    requires !StartsWithDigit(suffix)
    ensures Parse(Print(v) + suffix) == Some(v)
  {
    ParsePrintNat(v.major); ParsePrintNat(v.minor); ParsePrintNat(v.patch);
    var x, y, z := PrintNat(v.major), PrintNat(v.minor), PrintNat(v.patch);
    assert Print(v) + suffix == x + ("." + (y + ("." + (z + suffix))));
    ParseComplete(Print(v) + suffix, x, y, z, suffix);
  }
}
