/**
 * String keys of the engine.
 *
 * The engine keys its dictionaries by strings built from integer ids:
 * a pair of bodies is "A<lower id>B<higher id>", a contact is
 * "<body id>_<vertex index>", a broadphase bucket is "C<column>R<row>" and
 * a broadphase region is "<startCol>,<endCol>,<startRow>,<endRow>".
 * Integers are rendered in decimal, as JavaScript does for integral
 * numbers below 1e21. The lemmas show that each key determines the numbers
 * it was built from, so a dictionary keyed by these strings is a dictionary
 * keyed by the numbers.
 */
module Ids {

  /** Decimal rendering of a natural number, most significant digit first. */
  function NatToString(n: nat): string
    decreases n
  {
    if n < 10 then [DigitChar(n)] else NatToString(n / 10) + [DigitChar(n % 10)]
  }

  function DigitChar(d: nat): char
    requires d < 10
  {
    ('0' as int + d) as char
  }

  /** JavaScript's rendering of an integral number: a minus sign, then the digits. */
  function IntToString(i: int): string
  {
    if i < 0 then "-" + NatToString(-i) else NatToString(i)
  }

  predicate IsDigits(s: string)
  {
    forall k :: 0 <= k < |s| ==> '0' <= s[k] <= '9'
  }

  /** Reads a string of decimal digits back as a number. */
  function ParseNat(s: string): nat
    requires IsDigits(s)
  {
    if s == [] then 0 else ParseNat(s[..|s| - 1]) * 10 + (s[|s| - 1] as int - '0' as int)
  }

  /** The decimal rendering of a number is a non-empty digit string that reads back as the number. */
  lemma {:induction false} NatRoundTrip(n: nat)
    ensures IsDigits(NatToString(n)) && |NatToString(n)| > 0
    ensures ParseNat(NatToString(n)) == n
    decreases n
  {
    if n >= 10 {
      NatRoundTrip(n / 10);
      var s := NatToString(n);
      assert s[..|s| - 1] == NatToString(n / 10);
    }
  }

  lemma {:induction false} NatToStringInjective(a: nat, b: nat)
    requires NatToString(a) == NatToString(b)
    ensures a == b
  {
    NatRoundTrip(a);
    NatRoundTrip(b);
  }

  /** The rendering of an integer uses only digits and a leading minus sign. */
  predicate IsIntChars(s: string)
  {
    forall k :: 0 <= k < |s| ==> s[k] == '-' || '0' <= s[k] <= '9'
  }

  lemma {:induction false} IntToStringChars(i: int)
    ensures IsIntChars(IntToString(i))
  {
    NatRoundTrip(if i < 0 then -i else i);
  }

  lemma {:induction false} IntToStringInjective(a: int, b: int)
    requires IntToString(a) == IntToString(b)
    ensures a == b
  {
    var na: nat := if a < 0 then -a else a;
    var nb: nat := if b < 0 then -b else b;
    NatRoundTrip(na);
    NatRoundTrip(nb);
    assert (IntToString(a)[0] == '-') == (a < 0);
    assert (IntToString(b)[0] == '-') == (b < 0);
    if a < 0 {
      assert IntToString(a)[1..] == NatToString(na);
      assert IntToString(b)[1..] == NatToString(nb);
    }
    NatToStringInjective(na, nb);
  }

  /** Position of the first `c` in `w`, or `|w|` when there is none. */
  function FirstIndex(w: string, c: char): nat
  {
    if w == [] then 0 else if w[0] == c then 0 else 1 + FirstIndex(w[1..], c)
  }

  lemma {:induction false} FirstIndexOfSeparator(s: string, t: string, c: char)
    requires c !in s
    ensures FirstIndex(s + [c] + t, c) == |s|
  {
    if s != [] {
      assert (s + [c] + t)[1..] == s[1..] + [c] + t;
      FirstIndexOfSeparator(s[1..], t, c);
    }
  }

  /**
   * A separator that occurs in neither left part splits a concatenation in
   * exactly one way.
   */
  lemma {:induction false} SplitUnique(s1: string, t1: string, s2: string, t2: string, c: char)
    requires c !in s1 && c !in s2
    requires s1 + [c] + t1 == s2 + [c] + t2
    ensures s1 == s2 && t1 == t2
  {
    var w := s1 + [c] + t1;
    FirstIndexOfSeparator(s1, t1, c);
    FirstIndexOfSeparator(s2, t2, c);
    assert |s1| == |s2|;
    assert s1 == w[..|s1|] && s2 == w[..|s2|];
    assert t1 == w[|s1| + 1..] && t2 == w[|s2| + 1..];
  }

  /** A key made of a tag character, a field, a separator and a second field. */
  function Key2(tag: char, s: string, sep: char, t: string): string
  {
    [tag] + s + [sep] + t
  }

  lemma {:induction false} Key2Injective(tag: char, s1: string, t1: string, s2: string, t2: string, sep: char)
    requires sep !in s1 && sep !in s2
    requires Key2(tag, s1, sep, t1) == Key2(tag, s2, sep, t2)
    ensures s1 == s2 && t1 == t2
  {
    assert Key2(tag, s1, sep, t1)[1..] == s1 + [sep] + t1;
    assert Key2(tag, s2, sep, t2)[1..] == s2 + [sep] + t2;
    SplitUnique(s1, t1, s2, t2, sep);
  }

  lemma {:induction false} NatHasNo(n: nat, c: char)
    requires !('0' <= c <= '9')
    ensures c !in NatToString(n)
  {
    NatRoundTrip(n);
  }

  lemma {:induction false} IntHasNo(i: int, c: char)
    requires !('0' <= c <= '9') && c != '-'
    ensures c !in IntToString(i)
  {
    IntToStringChars(i);
  }

  // ---------------------------------------------------------------- pair ids

  /** `Pair.id`: the key of the pair of bodies with ids `a` and `b`. */
  function PairId(a: nat, b: nat): string
  {
    if a < b then Key2('A', NatToString(a), 'B', NatToString(b))
    else Key2('A', NatToString(b), 'B', NatToString(a))
  }

  /** The pair key does not depend on the order of the two bodies. */
  lemma {:induction false} PairIdCanonical(a: nat, b: nat)
    ensures PairId(a, b) == PairId(b, a)
  {
  }

  /** Two pair keys are equal exactly when they name the same two ids, in either order. */
  lemma {:induction false} PairIdInjective(a: nat, b: nat, c: nat, d: nat)
    ensures PairId(a, b) == PairId(c, d) <==> ((a == c && b == d) || (a == d && b == c))
  {
    if PairId(a, b) == PairId(c, d) {
      var lo1, hi1 := if a < b then a else b, if a < b then b else a;
      var lo2, hi2 := if c < d then c else d, if c < d then d else c;
      assert PairId(a, b) == Key2('A', NatToString(lo1), 'B', NatToString(hi1));
      assert PairId(c, d) == Key2('A', NatToString(lo2), 'B', NatToString(hi2));
      NatHasNo(lo1, 'B');
      NatHasNo(lo2, 'B');
      Key2Injective('A', NatToString(lo1), NatToString(hi1), NatToString(lo2), NatToString(hi2), 'B');
      NatToStringInjective(lo1, lo2);
      NatToStringInjective(hi1, hi2);
    }
  }

  // ------------------------------------------------------------- contact ids

  /** `Contact.id`: the key of the vertex with index `index` of the body with id `bodyId`. */
  function ContactId(bodyId: nat, index: nat): string
  {
    NatToString(bodyId) + "_" + NatToString(index)
  }

  lemma {:induction false} ContactIdInjective(b1: nat, i1: nat, b2: nat, i2: nat)
    ensures ContactId(b1, i1) == ContactId(b2, i2) <==> (b1 == b2 && i1 == i2)
  {
    if ContactId(b1, i1) == ContactId(b2, i2) {
      NatHasNo(b1, '_');
      NatHasNo(b2, '_');
      SplitUnique(NatToString(b1), NatToString(i1), NatToString(b2), NatToString(i2), '_');
      NatToStringInjective(b1, b2);
      NatToStringInjective(i1, i2);
    }
  }

  // -------------------------------------------------------------- bucket ids

  /** `Grid._getBucketId`: the key of the bucket in column `col` and row `row`. */
  function BucketId(col: int, row: int): string
  {
    Key2('C', IntToString(col), 'R', IntToString(row))
  }

  lemma {:induction false} BucketIdInjective(c1: int, r1: int, c2: int, r2: int)
    ensures BucketId(c1, r1) == BucketId(c2, r2) <==> (c1 == c2 && r1 == r2)
  {
    if BucketId(c1, r1) == BucketId(c2, r2) {
      IntHasNo(c1, 'R');
      IntHasNo(c2, 'R');
      Key2Injective('C', IntToString(c1), IntToString(r1), IntToString(c2), IntToString(r2), 'R');
      IntToStringInjective(c1, c2);
      IntToStringInjective(r1, r2);
    }
  }

  // -------------------------------------------------------------- region ids

  /** Two fields joined by a comma. */
  function Comma(s: string, t: string): string
  {
    s + [','] + t
  }

  /** `Grid._createRegion`'s id: the four bounds joined by commas. */
  function RegionId(startCol: int, endCol: int, startRow: int, endRow: int): string
  {
    Comma(IntToString(startCol), Comma(IntToString(endCol), Comma(IntToString(startRow), IntToString(endRow))))
  }

  lemma {:induction false} CommaInjective(i1: int, t1: string, i2: int, t2: string)
    requires Comma(IntToString(i1), t1) == Comma(IntToString(i2), t2)
    ensures i1 == i2 && t1 == t2
  {
    IntHasNo(i1, ',');
    IntHasNo(i2, ',');
    SplitUnique(IntToString(i1), t1, IntToString(i2), t2, ',');
    IntToStringInjective(i1, i2);
  }

  /** Comparing region ids, as `Grid.update` does, is comparing the four bounds. */
  lemma {:induction false} RegionIdInjective(a1: int, b1: int, c1: int, d1: int, a2: int, b2: int, c2: int, d2: int)
    ensures RegionId(a1, b1, c1, d1) == RegionId(a2, b2, c2, d2) <==> (a1 == a2 && b1 == b2 && c1 == c2 && d1 == d2)
  {
    if RegionId(a1, b1, c1, d1) == RegionId(a2, b2, c2, d2) {
      var cd1 := Comma(IntToString(c1), IntToString(d1));
      var cd2 := Comma(IntToString(c2), IntToString(d2));
      CommaInjective(a1, Comma(IntToString(b1), cd1), a2, Comma(IntToString(b2), cd2));
      CommaInjective(b1, cd1, b2, cd2);
      CommaInjective(c1, IntToString(d1), c2, IntToString(d2));
      IntToStringInjective(d1, d2);
    }
  }
}
