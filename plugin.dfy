/**
 * The version handling of `Plugin`: `dependencyParse` splits a dependency
 * such as `"matter-wrap@^0.2.0"` into a name and a range, `versionParse`
 * reads a version or range such as `"~1.2.3-beta"`, and `versionSatisfies`
 * decides whether a version meets a range (`*`, `~`, `^` or an exact
 * version).
 *
 * Numbers are read with JavaScript's `Number`, so a malformed part is `NaN`,
 * and reading past the end of the parts gives `undefined`; both are kept as
 * values here since the comparisons treat them differently.
 */
module Plugin {
  import opened Wrappers
  import Strings

  /** What the version code computes with: an integer, `NaN`, or `undefined`. */
  datatype Value = Number(n: int) | NaN | Undefined

  /** `a * k`: `NaN` unless `a` is a number. */
  function Times(a: Value, k: int): Value
  {
    if a.Number? then Number(a.n * k) else NaN
  }

  /** `a + b`: `NaN` unless both are numbers. */
  function Plus(a: Value, b: Value): Value
  {
    if a.Number? && b.Number? then Number(a.n + b.n) else NaN
  }

  /** `a === b`: `NaN` equals nothing, `undefined` equals itself. */
  predicate StrictEquals(a: Value, b: Value)
  {
    (a.Number? && b.Number? && a.n == b.n) || (a.Undefined? && b.Undefined?)
  }

  /** `a >= b`: false whenever either side is not a number. */
  predicate AtLeast(a: Value, b: Value)
  {
    a.Number? && b.Number? && a.n >= b.n
  }

  /** `a > 0`. */
  predicate Positive(a: Value)
  {
    a.Number? && a.n > 0
  }

  // ------------------------------------------------------------- Number

  predicate IsDigit(c: char)
  {
    '0' <= c <= '9'
  }

  predicate AllDigits(s: string)
  {
    forall i :: 0 <= i < |s| ==> IsDigit(s[i])
  }

  /** The white space and line terminators that `Number` ignores around a numeral. */
  predicate IsSpace(c: char)
  {
    var n := c as int;
    n == 0x09 || n == 0x0A || n == 0x0B || n == 0x0C || n == 0x0D || n == 0x20 || n == 0xA0 ||
    n == 0x1680 || (0x2000 <= n <= 0x200A) || n == 0x2028 || n == 0x2029 || n == 0x202F ||
    n == 0x205F || n == 0x3000 || n == 0xFEFF
  }

  function TrimStart(s: string): string
  {
    if s != [] && IsSpace(s[0]) then TrimStart(s[1..]) else s
  }

  function TrimEnd(s: string): string
  {
    if s != [] && IsSpace(s[|s| - 1]) then TrimEnd(s[..|s| - 1]) else s
  }

  /** The value of a string of decimal digits. */
  function Decimal(s: string): nat
    requires AllDigits(s)
  {
    if s == [] then 0 else 10 * Decimal(s[..|s| - 1]) + (s[|s| - 1] as int - '0' as int)
  }

  /**
   * `Number(s)` for the strings the version code can meet: blank is 0, a
   * run of decimal digits is its value, anything else is `NaN`.
   */
  function ToNumber(s: string): Value
  {
    var t := TrimEnd(TrimStart(s));
    if t == "" then Number(0)
    else if AllDigits(t) then Number(Decimal(t))
    else NaN
  }

  // ------------------------------------------------------- versionParse

  /** `parts[i]`, which is `undefined` past the end. */
  function Part(parts: seq<Value>, i: nat): Value
  {
    if i < |parts| then parts[i] else Undefined
  }

  /** What `Plugin.versionParse` returns. `operator` is `None` where the source reads `range[0]` of an empty string. */
  datatype Version = Version(
    isRange: bool, version: string, range: string, operator: Option<string>,
    parts: seq<Value>, prerelease: Option<string>, number: Value)

  /** `version.split(".")` mapped through `Number`. */
  function Parts(version: string): (r: seq<Value>)
    ensures var pieces := Strings.Split(version, '.');
      |r| == |pieces| && forall i :: 0 <= i < |r| ==> r[i] == ToNumber(pieces[i])
  {
    var pieces := Strings.Split(version, '.');
    seq(|pieces|, i requires 0 <= i < |pieces| => ToNumber(pieces[i]))
  }

  /**
   * `Plugin.versionParse`: the text before the first `-` is the range and
   * the text after it the prerelease tag; a range whose first character is
   * not a number is a range proper, whose first character is the operator
   * and whose rest is the version; `number` weighs the three parts by 10^8,
   * 10^4 and 1.
   */
  function VersionParse(text: string): Version
  {
    var identifiers := Strings.Split(text, '-');
    Parsed(identifiers[0], if |identifiers| > 1 then Some(identifiers[1]) else None)
  }

  /** The fields `versionParse` derives from the range and the prerelease tag. */
  function Parsed(range: string, prerelease: Option<string>): Version
  {
    var isRange := range == [] || ToNumber([range[0]]).NaN?;
    var version := if !isRange then range else if range == [] then [] else range[1..];
    var parts := Parts(version);
    Version(isRange, version, range,
            if !isRange then Some("") else if range == [] then None else Some([range[0]]),
            parts, prerelease,
            Plus(Plus(Times(Part(parts, 0), 100000000), Times(Part(parts, 1), 10000)), Part(parts, 2)))
  }

  // --------------------------------------------------- versionSatisfies

  /**
   * `Plugin.versionSatisfies`: a missing or empty range is `*`. Under `*`
   * (or for the version `*`) anything goes; `~` fixes the major and minor
   * parts and bounds the patch part below; `^` fixes the major part and
   * bounds the whole number below when the major part is positive, else
   * fixes the minor part and bounds the patch part when the minor part is
   * positive, else fixes the patch part; any other range must equal the
   * version.
   */
  function VersionSatisfies(version: string, range: Option<string>): bool
  {
    var range := if range.None? || range.value == "" then "*" else range.value;
    Satisfies(VersionParse(version), VersionParse(range), version, range)
  }

  /** The decision of `versionSatisfies` once both strings are parsed. */
  function Satisfies(v: Version, r: Version, version: string, range: string): bool
  {
    var rp, vp := r.parts, v.parts;
    if r.isRange && (r.operator == Some("*") || version == "*") then true
    else if r.isRange && r.operator == Some("~") then
      StrictEquals(Part(vp, 0), Part(rp, 0)) && StrictEquals(Part(vp, 1), Part(rp, 1)) && AtLeast(Part(vp, 2), Part(rp, 2))
    else if r.isRange && r.operator == Some("^") then
      if Positive(Part(rp, 0)) then StrictEquals(Part(vp, 0), Part(rp, 0)) && AtLeast(v.number, r.number)
      else if Positive(Part(rp, 1)) then StrictEquals(Part(vp, 1), Part(rp, 1)) && AtLeast(Part(vp, 2), Part(rp, 2))
      else StrictEquals(Part(vp, 2), Part(rp, 2))
    else version == range || version == "*"
  }

  // ---------------------------------------------------- dependencyParse

  /** A dependency as a plugin lists it: a string, or an object with optional `name`, `range` and `version`. */
  datatype Dependency = Text(text: string) | Record(name: Option<string>, range: Option<string>, version: Option<string>)

  datatype Requirement = Requirement(name: Option<string>, range: Option<string>)

  /**
   * `Plugin.dependencyParse`: a string's name is the text before its first
   * `@` and its range the text between the first and a second `@`, or `*`
   * when that is missing or empty; an object gives its name and its range,
   * or its version when the range is missing or empty.
   */
  function DependencyParse(d: Dependency): Requirement
  {
    match d
    case Text(text) =>
      var pieces := Strings.Split(text, '@');
      Requirement(Some(pieces[0]), Some(if |pieces| > 1 && pieces[1] != "" then pieces[1] else "*"))
    case Record(name, range, version) =>
      Requirement(name, if range.Some? && range.value != "" then range else version)
  }

  /** The name of a string dependency never holds `@`. */
  lemma {:induction false} DependencyName(text: string)
    ensures var r := DependencyParse(Text(text));
      r.name.Some? && '@' !in r.name.value && r.range.Some? && r.range.value != ""
  {
    Strings.SplitParts(text, '@');
  }

  /** A name and a range written as `name@range` parse back to that name and range. */
  lemma {:induction false} DependencyRoundTrip(name: string, range: string)
    requires '@' !in name && '@' !in range && range != ""
    ensures DependencyParse(Text(name + "@" + range)) == Requirement(Some(name), Some(range))
  {
    assert Strings.Join([name, range], '@') == name + "@" + range;
    Strings.SplitJoin([name, range], '@');
  }

  /** A bare name asks for any version. */
  lemma {:induction false} DependencyBare(name: string)
    requires '@' !in name
    ensures DependencyParse(Text(name)) == Requirement(Some(name), Some("*"))
  {
    Strings.SplitFree(name, '@');
  }

  // ------------------------------------------------------------ writing

  /** The decimal numeral of `n`, without leading zeros. */
  function Digits(n: nat): string
  {
    if n < 10 then ['0' + n as char] else Digits(n / 10) + ['0' + (n % 10) as char]
  }

  /** The version `x.y.z`. */
  function VersionText(x: nat, y: nat, z: nat): string
  {
    Digits(x) + "." + Digits(y) + "." + Digits(z)
  }

  lemma {:induction false} DigitsDecimal(n: nat)
    ensures Digits(n) != [] && AllDigits(Digits(n)) && Decimal(Digits(n)) == n
  {
    if n >= 10 {
      DigitsDecimal(n / 10);
      var d := Digits(n);
      assert d[..|d| - 1] == Digits(n / 10);
    }
  }

  /** `Number` reads a numeral back as its value. */
  lemma {:induction false} ToNumberDigits(n: nat)
    ensures ToNumber(Digits(n)) == Number(n)
  {
    var d := Digits(n);
    DigitsDecimal(n);
    assert !IsSpace(d[0]) && !IsSpace(d[|d| - 1]);
  }

  /** A numeral holds neither `.` nor `-`. */
  lemma {:induction false} DigitsPlain(n: nat)
    ensures '.' !in Digits(n) && '-' !in Digits(n)
  {
    DigitsDecimal(n);
    var d := Digits(n);
    assert forall i :: 0 <= i < |d| ==> d[i] != '.' && d[i] != '-';
  }

  /** The parts of `x.y.z`. */
  lemma {:induction false} VersionParts(x: nat, y: nat, z: nat)
    ensures '-' !in VersionText(x, y, z)
    ensures Parts(VersionText(x, y, z)) == [Number(x), Number(y), Number(z)]
  {
    DigitsPlain(x);
    DigitsPlain(y);
    DigitsPlain(z);
    var pieces := [Digits(x), Digits(y), Digits(z)];
    assert Strings.Join(pieces, '.') == VersionText(x, y, z) by {
      assert Strings.Join(pieces[1..], '.') == Digits(y) + "." + Digits(z) by {
        assert pieces[1..][1..] == [Digits(z)];
      }
    }
    Strings.SplitJoin(pieces, '.');
    ToNumberDigits(x);
    ToNumberDigits(y);
    ToNumberDigits(z);
  }

  /** `Number` of one character, as `versionParse` applies it to the first: a digit is its value, a space is 0, anything else is `NaN`. */
  lemma {:induction false} ToNumberChar(c: char)
    ensures ToNumber([c]) == if IsDigit(c) then Number(c as int - '0' as int) else if IsSpace(c) then Number(0) else NaN
  {
    if IsSpace(c) {
      assert TrimStart([c]) == [];
    } else {
      assert TrimStart([c]) == [c];
      assert TrimEnd([c]) == [c];
      if IsDigit(c) {
        assert Decimal([c]) == c as int - '0' as int by {
          assert [c][..0] == [];
        }
      }
    }
  }

  /** `versionParse` reads `x.y.z` as a plain version with those parts and no prerelease tag. */
  lemma {:induction false} ParseVersion(x: nat, y: nat, z: nat)
    ensures var t := VersionText(x, y, z);
      VersionParse(t) == Version(false, t, t, Some(""), [Number(x), Number(y), Number(z)], None,
                                 Number(x * 100000000 + y * 10000 + z))
  {
    var t := VersionText(x, y, z);
    VersionParts(x, y, z);
    Strings.SplitFree(t, '-');
    DigitsDecimal(x);
    assert t[0] == Digits(x)[0];
    ToNumberChar(t[0]);
    ParsedPlain(t, x, y, z);
  }

  lemma {:induction false} ParsedPlain(t: string, x: nat, y: nat, z: nat)
    requires t != [] && ToNumber([t[0]]).Number? && Parts(t) == [Number(x), Number(y), Number(z)]
    ensures Parsed(t, None) == Version(false, t, t, Some(""), [Number(x), Number(y), Number(z)], None,
                                       Number(x * 100000000 + y * 10000 + z))
  {
  }

  /** `versionParse` reads `~x.y.z` or `^x.y.z` as a range with that operator over `x.y.z`. */
  lemma {:induction false} ParseRange(op: char, x: nat, y: nat, z: nat)
    requires op == '~' || op == '^'
    ensures var t := VersionText(x, y, z);
      VersionParse([op] + t) == Version(true, t, [op] + t, Some([op]), [Number(x), Number(y), Number(z)], None,
                                        Number(x * 100000000 + y * 10000 + z))
  {
    var t := VersionText(x, y, z);
    var s := [op] + t;
    VersionParts(x, y, z);
    assert '-' !in s;
    Strings.SplitFree(s, '-');
    ToNumberChar(op);
    ParsedRange(s, op, t, x, y, z);
  }

  lemma {:induction false} ParsedRange(s: string, op: char, t: string, x: nat, y: nat, z: nat)
    requires s == [op] + t && ToNumber([op]).NaN? && Parts(t) == [Number(x), Number(y), Number(z)]
    ensures Parsed(s, None) == Version(true, t, s, Some([op]), [Number(x), Number(y), Number(z)], None,
                                       Number(x * 100000000 + y * 10000 + z))
  {
    assert s[0] == op && s[1..] == t;
  }

  // ---------------------------------------------------------- properties

  /** A missing, empty or `*` range is met by every version, and the version `*` meets every range. */
  lemma {:induction false} AnyVersion(version: string, range: Option<string>)
    ensures VersionSatisfies(version, None) && VersionSatisfies(version, Some("")) && VersionSatisfies(version, Some("*"))
    ensures VersionSatisfies("*", range)
  {
    Strings.SplitFree("*", '-');
    assert TrimEnd(TrimStart("*")) == "*";
    assert ToNumber(['*']).NaN?;
  }

  /** An exact version is met by that version only. */
  lemma {:induction false} ExactVersion(a: nat, b: nat, c: nat, x: nat, y: nat, z: nat)
    ensures VersionSatisfies(VersionText(a, b, c), Some(VersionText(x, y, z))) <==> a == x && b == y && c == z
  {
    ParseVersion(a, b, c);
    ParseVersion(x, y, z);
    assert VersionText(a, b, c) != "*" by {
      DigitsDecimal(a);
      assert VersionText(a, b, c)[0] == Digits(a)[0];
    }
  }

  /** `versionSatisfies` of `a.b.c` against `~x.y.z` or `^x.y.z`, once both are parsed. */
  lemma {:induction false} RangeCase(op: char, a: nat, b: nat, c: nat, x: nat, y: nat, z: nat)
    requires op == '~' || op == '^'
    ensures VersionSatisfies(VersionText(a, b, c), Some([op] + VersionText(x, y, z))) ==
      Satisfies(Version(false, VersionText(a, b, c), VersionText(a, b, c), Some(""), [Number(a), Number(b), Number(c)], None,
                        Number(a * 100000000 + b * 10000 + c)),
                Version(true, VersionText(x, y, z), [op] + VersionText(x, y, z), Some([op]), [Number(x), Number(y), Number(z)], None,
                        Number(x * 100000000 + y * 10000 + z)),
                VersionText(a, b, c), [op] + VersionText(x, y, z))
  {
    ParseVersion(a, b, c);
    ParseRange(op, x, y, z);
  }

  /** The branches `~` and `^` of `versionSatisfies` on parsed versions `a.b.c` and `x.y.z`. */
  lemma {:induction false} RangeDecision(op: char, v: string, t: string, a: nat, b: nat, c: nat, x: nat, y: nat, z: nat)
    requires op == '~' || op == '^'
    requires v != "*"
    ensures Satisfies(Version(false, v, v, Some(""), [Number(a), Number(b), Number(c)], None,
                              Number(a * 100000000 + b * 10000 + c)),
                      Version(true, t, [op] + t, Some([op]), [Number(x), Number(y), Number(z)], None,
                              Number(x * 100000000 + y * 10000 + z)),
                      v, [op] + t) ==
      if op == '~' then a == x && b == y && c >= z
      else if x > 0 then a == x && a * 100000000 + b * 10000 + c >= x * 100000000 + y * 10000 + z
      else if y > 0 then b == y && c >= z
      else c == z
  {
    assert [op] != "*";
  }

  /** `versionSatisfies` of `a.b.c` against `~x.y.z` or `^x.y.z`. */
  lemma {:induction false} RangeVerdict(op: char, a: nat, b: nat, c: nat, x: nat, y: nat, z: nat)
    requires op == '~' || op == '^'
    ensures VersionSatisfies(VersionText(a, b, c), Some([op] + VersionText(x, y, z))) ==
      if op == '~' then a == x && b == y && c >= z
      else if x > 0 then a == x && a * 100000000 + b * 10000 + c >= x * 100000000 + y * 10000 + z
      else if y > 0 then b == y && c >= z
      else c == z
  {
    RangeCase(op, a, b, c, x, y, z);
    NotStar(a, b, c);
    RangeDecision(op, VersionText(a, b, c), VersionText(x, y, z), a, b, c, x, y, z);
  }

  /** A version `x.y.z` is not `*`. */
  lemma {:induction false} NotStar(x: nat, y: nat, z: nat)
    ensures VersionText(x, y, z) != "*"
  {
    DigitsDecimal(x);
    assert VersionText(x, y, z)[0] == Digits(x)[0];
  }

  /** `~x.y.z` is met exactly by the versions `x.y.c` with `c >= z`. */
  lemma {:induction false} TildeRange(a: nat, b: nat, c: nat, x: nat, y: nat, z: nat)
    ensures VersionSatisfies(VersionText(a, b, c), Some("~" + VersionText(x, y, z))) <==> a == x && b == y && c >= z
  {
    RangeVerdict('~', a, b, c, x, y, z);
    assert "~" + VersionText(x, y, z) == ['~'] + VersionText(x, y, z);
  }

  /** With a positive major part, `^x.y.z` is met exactly by the versions of major part `x` whose number is at least that of `x.y.z`. */
  lemma {:induction false} CaretMajor(a: nat, b: nat, c: nat, x: nat, y: nat, z: nat)
    requires x > 0
    ensures VersionSatisfies(VersionText(a, b, c), Some("^" + VersionText(x, y, z))) <==>
      a == x && a * 100000000 + b * 10000 + c >= x * 100000000 + y * 10000 + z
  {
    RangeVerdict('^', a, b, c, x, y, z);
    assert "^" + VersionText(x, y, z) == ['^'] + VersionText(x, y, z);
  }

  /**
   * While the minor and patch parts stay below 10^4, `^x.y.z` with a
   * positive major part is met exactly by the versions of major part `x`
   * that are not older than `x.y.z`, minor part first.
   */
  lemma {:induction false} CaretMajorParts(a: nat, b: nat, c: nat, x: nat, y: nat, z: nat)
    requires x > 0 && b < 10000 && c < 10000 && y < 10000 && z < 10000
    ensures VersionSatisfies(VersionText(a, b, c), Some("^" + VersionText(x, y, z))) <==>
      a == x && (b > y || (b == y && c >= z))
  {
    CaretMajor(a, b, c, x, y, z);
  }

  /**
   * With a zero major part and a positive minor part, `^0.y.z` is met
   * exactly by the versions with minor part `y` and patch part at least
   * `z`, whatever their major part.
   */
  lemma {:induction false} CaretMinor(a: nat, b: nat, c: nat, y: nat, z: nat)
    requires y > 0
    ensures VersionSatisfies(VersionText(a, b, c), Some("^" + VersionText(0, y, z))) <==> b == y && c >= z
  {
    RangeVerdict('^', a, b, c, 0, y, z);
    assert "^" + VersionText(0, y, z) == ['^'] + VersionText(0, y, z);
  }

  /** `^0.0.z` is met exactly by the versions with patch part `z`, whatever their major and minor parts. */
  lemma {:induction false} CaretPatch(a: nat, b: nat, c: nat, z: nat)
    ensures VersionSatisfies(VersionText(a, b, c), Some("^" + VersionText(0, 0, z))) <==> c == z
  {
    RangeVerdict('^', a, b, c, 0, 0, z);
    assert "^" + VersionText(0, 0, z) == ['^'] + VersionText(0, 0, z);
  }

  /** Every `x.y.z` meets itself, `~x.y.z` and `^x.y.z`. */
  lemma {:induction false} SatisfiesOwnRanges(x: nat, y: nat, z: nat)
    ensures VersionSatisfies(VersionText(x, y, z), Some(VersionText(x, y, z)))
    ensures VersionSatisfies(VersionText(x, y, z), Some("~" + VersionText(x, y, z)))
    ensures VersionSatisfies(VersionText(x, y, z), Some("^" + VersionText(x, y, z)))
  {
    var t := VersionText(x, y, z);
    ExactVersion(x, y, z, x, y, z);
    RangeVerdict('~', x, y, z, x, y, z);
    RangeVerdict('^', x, y, z, x, y, z);
    assert "~" + t == ['~'] + t && "^" + t == ['^'] + t;
  }
}
