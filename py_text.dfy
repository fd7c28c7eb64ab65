// The Python text operations the two host tools use: `str.join`, the decimal form `str.format`
// gives an integer, and the slice `data[0:n]`; plus `str.split` on one character, the partner
// `join` is checked against.

module PyText {
  import opened Wrappers
  import CLib

  /** `sep.join(items)`. */
  function Join(sep: seq<char>, items: seq<seq<char>>): seq<char>
  {
    if |items| == 0 then []
    else if |items| == 1 then items[0]
    else items[0] + sep + Join(sep, items[1..])
  }

  /** `s.split(c)`: the fields between the occurrences of `c`; there is always at least one. */
  function Split(s: seq<char>, c: char): (r: seq<seq<char>>)
    ensures |r| >= 1
    ensures c !in s ==> r == [s]
  {
    if s == [] then [[]]
    else
      var t := Split(s[1..], c);
      if s[0] == c then [[]] + t
      else
        assert s == [s[0]] + s[1..];
        [[s[0]] + t[0]] + t[1..]
  }

  /** A field without `c`, then `c`: splitting peels the field off. */
  lemma {:induction false} SplitField(a: seq<char>, b: seq<char>, c: char)
    requires c !in a
    ensures Split(a + [c] + b, c) == [a] + Split(b, c)
  {
    var s := a + [c] + b;
    if a == [] {
      assert s[0] == c && s[1..] == b;
    } else {
      assert s[0] == a[0] && s[1..] == a[1..] + [c] + b;
      SplitField(a[1..], b, c);
      assert [a[0]] + a[1..] == a;
    }
  }

  /** Splitting on `c` undoes joining with `c`, when no item holds `c`. */
  lemma {:induction false} SplitJoin(items: seq<seq<char>>, c: char)
    requires |items| >= 1
    requires forall i :: 0 <= i < |items| ==> c !in items[i]
    ensures Split(Join([c], items), c) == items
  {
    if |items| > 1 {
      SplitJoin(items[1..], c);
      SplitField(items[0], Join([c], items[1..]), c);
      assert items == [items[0]] + items[1..];
    }
  }

  /** `"{}".format(v)` of an integer: a minus sign for a negative one, then its digits. */
  function SignedDecimal(v: int): (d: seq<char>)
    ensures d != [] && ',' !in d
  {
    if v < 0 then "-" + CLib.Decimal(-v) else CLib.Decimal(v)
  }

  /** `atoi` reads back the integer `str.format` printed, when a non-digit or nothing follows. */
  lemma AtoiOfSignedDecimal(v: int, rest: seq<char>)
    requires rest == [] || !CLib.IsDigit(rest[0])
    ensures CLib.Atoi(SignedDecimal(v) + rest) == v
  {
    if v < 0 {
      AtoiOfNegative(v, rest);
    } else {
      assert SignedDecimal(v) == CLib.Decimal(v);
      CLib.AtoiOfDecimal(v, rest);
    }
  }

  lemma AtoiOfNegative(v: int, rest: seq<char>)
    requires v < 0 && (rest == [] || !CLib.IsDigit(rest[0]))
    ensures CLib.Atoi(SignedDecimal(v) + rest) == v
  {
    var m: nat := -v;
    assert SignedDecimal(v) == "-" + CLib.Decimal(m);
    AtoiOfNegatedDecimal(m, rest);
  }

  lemma AtoiOfNegatedDecimal(m: nat, rest: seq<char>)
    requires rest == [] || !CLib.IsDigit(rest[0])
    ensures CLib.Atoi(("-" + CLib.Decimal(m)) + rest) == -(m as int)
  {
    var d := CLib.Decimal(m);
    var t := d + rest;
    assert ("-" + d) + rest == "-" + t;
    CLib.DecimalRun(m, rest);
    CLib.NumeralOfDecimal(m);
    assert t[0] == d[0] && t[..|d|] == d;
    DropSign(t);
    AtoiNegative("-" + t, d);
  }

  lemma DropSign(t: seq<char>)
    ensures |"-" + t| == |t| + 1 && ("-" + t)[0] == '-' && ("-" + t)[1..] == t
  {
  }

  lemma AtoiNegative(s: seq<char>, d: seq<char>)
    requires |s| >= 2 && s[0] == '-' && CLib.IsDigit(s[1])
    requires CLib.DigitRun(s[1..]) == |d| && s[1..][..|d|] == d
    ensures CLib.Atoi(s) == 0 - CLib.Numeral(d) as int
  {
    ReadNegative(s);
    assert CLib.SkipSpace(s) == s;
  }

  /** A minus sign and then digits read as the negated number the digits spell. */
  lemma ReadNegative(s: seq<char>)
    requires |s| >= 2 && s[0] == '-' && CLib.IsDigit(s[1])
    ensures CLib.ReadInt(s) == Some((0 - CLib.Numeral(s[1..][..CLib.DigitRun(s[1..])]) as int, 1 + CLib.DigitRun(s[1..])))
  {
    var n := CLib.DigitRun(s[1..]);
    assert s[1..][0] == s[1] && n > 0;
    assert s[1..1 + n] == s[1..][..n];
  }

  /** `data[0:n]`: the first `n` items, or all of them when there are fewer. */
  function Prefix<T>(data: seq<T>, n: nat): (r: seq<T>)
    ensures |r| == if |data| < n then |data| else n
    ensures r == data[..|r|]
  {
    if |data| < n then data else data[..n]
  }
}
