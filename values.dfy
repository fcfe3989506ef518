/** The values a table cell holds, and the two ways a number is written out. */
module Values {
  import opened Wrappers
  import opened Strings

  /** A run of decimal digits. */
  type Digits = s: string | forall i | 0 <= i < |s| :: '0' <= s[i] <= '9'

  /** A cell value. A number is kept as the parts of its decimal `str()` form: the sign,
      the digits before the point, and, for a float, the digits after it (an int has no
      point). Every other value is kept as its `str()` text. */
  datatype Value =
    | Text(text: string)
    | Num(negative: bool, whole: Digits, fraction: Option<Digits>)

  function Sign(v: Value): string
    requires v.Num?
  {
    if v.negative then "-" else ""
  }

  /** The digits after the point; none for an int. */
  function Fraction(v: Value): Digits
    requires v.Num?
  {
    if v.fraction.Some? then v.fraction.value else ""
  }

  /** `str(value)`. */
  function Str(v: Value): string
  {
    match v
    case Text(s) => s
    case Num(_, w, None) => Sign(v) + w
    case Num(_, w, Some(f)) => Sign(v) + w + "." + f
  }

  /** The fraction cut or zero-filled to exactly `n` digits. */
  function FractionTo(f: Digits, n: nat): (r: Digits)
    ensures |r| == n
    ensures |f| <= n ==> r[..|f|] == f && forall i | |f| <= i < n :: r[i] == '0'
    ensures |f| >= n ==> r == f[..n]
  {
    if |f| >= n then f[..n]
    else
      RepeatOne("0", n - |f|);
      f + Repeat("0", n - |f|)
  }

  /** `f'{value:.{n}f}'`: the number with exactly `n` digits after the point, and no point
      when `n` is 0. */
  function FixedPoint(v: Value, n: nat): (r: string)
    requires v.Num?
    ensures n == 0 ==> '.' !in r
    ensures n > 0 ==> |r| == |Sign(v)| + |v.whole| + 1 + n && Find(r, '.') == |r| - n - 1
  {
    var r := Sign(v) + v.whole + (if n == 0 then "" else "." + FractionTo(Fraction(v), n));
    assert '.' !in Sign(v) + v.whole;
    FindAfter(Sign(v) + v.whole, if n == 0 then "" else "." + FractionTo(Fraction(v), n), '.');
    r
  }

  /** Where `str()` of a number puts its point: nowhere for an int; after the sign and the
      whole digits, followed by the fraction digits, for a float. */
  lemma DotInStr(v: Value)
    requires v.Num?
    ensures v.fraction.None? ==> Find(Str(v), '.') == -1 && |Str(v)| == |Sign(v)| + |v.whole|
    ensures v.fraction.Some? ==> Find(Str(v), '.') == |Sign(v)| + |v.whole|
                                 && |Str(v)| - Find(Str(v), '.') - 1 == |v.fraction.value|
  {
    assert '.' !in Sign(v) + v.whole;
    if v.fraction.Some? {
      assert Str(v) == (Sign(v) + v.whole) + ("." + v.fraction.value);
      FindAfter(Sign(v) + v.whole, "." + v.fraction.value, '.');
    }
  }

  /** When the column allows at least as many fraction digits as the number has, the fixed
      point form is `str()` of the number, followed by a point for an int, and zeros. */
  lemma {:induction false} FixedPointExtendsStr(v: Value, n: nat)
    requires v.Num? && n > 0 && |Fraction(v)| <= n
    ensures var r := FixedPoint(v, n);
            var s := if v.fraction.None? then Str(v) + "." else Str(v);
            |s| <= |r| && r[..|s|] == s && forall i | |s| <= i < |r| :: r[i] == '0'
  {
    var head := Sign(v) + v.whole;
    var fr := FractionTo(Fraction(v), n);
    var r := FixedPoint(v, n);
    assert r == head + "." + fr;
    var s := if v.fraction.None? then Str(v) + "." else Str(v);
    assert s == head + "." + Fraction(v);
    assert r[..|s|] == head + "." + fr[..|Fraction(v)|];
    forall i | |s| <= i < |r| ensures r[i] == '0' {
      assert r[i] == fr[i - |head| - 1];
    }
  }

  /** Right-justified to a common width, fixed point numbers with the same number of
      fraction digits have their point in the same place. */
  lemma PointsLineUp(v: Value, n: nat, w: int)
    requires v.Num? && n > 0 && w >= |FixedPoint(v, n)|
    ensures RJust(FixedPoint(v, n), w)[w - n - 1] == '.'
  {
    var fp := FixedPoint(v, n);
    var r := RJust(fp, w);
    assert r[w - |fp|..] == fp;
    assert fp[|fp| - n - 1] == '.';
    assert r[w - n - 1] == r[w - |fp|..][|fp| - n - 1];
  }

  /** The characters a number is written with. */
  predicate NumeralChar(ch: char)
  {
    '0' <= ch <= '9' || ch == '-' || ch == '.'
  }

  /** Text written with numeral characters only. */
  predicate Numeral(s: string)
  {
    forall i | 0 <= i < |s| :: NumeralChar(s[i])
  }

  lemma NumeralConcat(a: string, b: string)
    requires Numeral(a) && Numeral(b)
    ensures Numeral(a + b)
  {
    forall i | 0 <= i < |a + b| ensures NumeralChar((a + b)[i]) {
      if i < |a| { assert (a + b)[i] == a[i]; } else { assert (a + b)[i] == b[i - |a|]; }
    }
  }

  /** A number, as `str` or in fixed point, is written with numeral characters only. */
  lemma NumeralText(v: Value, n: nat)
    requires v.Num?
    ensures forall i | 0 <= i < |Str(v)| :: NumeralChar(Str(v)[i])
    ensures forall i | 0 <= i < |FixedPoint(v, n)| :: NumeralChar(FixedPoint(v, n)[i])
  {
    var head := Sign(v) + v.whole;
    assert Numeral(Sign(v)) && Numeral(v.whole);
    NumeralConcat(Sign(v), v.whole);
    if v.fraction.Some? {
      assert Numeral(v.fraction.value);
      NumeralConcat(".", v.fraction.value);
      NumeralConcat(head, "." + v.fraction.value);
      assert Str(v) == head + ("." + v.fraction.value);
    } else {
      assert Str(v) == head;
    }
    assert Numeral(Str(v));
    if n > 0 {
      var fr := FractionTo(Fraction(v), n);
      assert Numeral(fr);
      NumeralConcat(".", fr);
      NumeralConcat(head, "." + fr);
      assert FixedPoint(v, n) == head + ("." + fr);
    } else {
      assert FixedPoint(v, n) == head;
    }
    assert Numeral(FixedPoint(v, n));
  }
}
