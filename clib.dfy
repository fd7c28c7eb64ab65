// The C library text routines the modem driver leans on: `atoi`, `sscanf` with
// `%d`, `%hhd` and `%Ns`, and `strtok` over line breaks; plus `%d` printing, their
// partner in the round-trip lemmas.

module CLib {
  import opened Wrappers

  function Min(a: int, b: int): int { if a < b then a else b }

  /** `isspace` in the C locale: space, tab, line feed, vertical tab, form feed, carriage return. */
  predicate IsSpace(c: char)
  {
    c == ' ' || '\t' <= c <= '\r'
  }

  predicate IsDigit(c: char)
  {
    '0' <= c <= '9'
  }

  predicate AllDigits(d: seq<char>)
  {
    forall i :: 0 <= i < |d| ==> IsDigit(d[i])
  }

  /** What is left once the leading white space is skipped. */
  function SkipSpace(s: seq<char>): (t: seq<char>)
    ensures |t| <= |s| && t == s[|s| - |t|..]
    ensures t != [] ==> !IsSpace(t[0])
    ensures forall i :: 0 <= i < |s| - |t| ==> IsSpace(s[i])
  {
    if s != [] && IsSpace(s[0]) then SkipSpace(s[1..]) else s
  }

  /** The length of the run of decimal digits `s` starts with. */
  function DigitRun(s: seq<char>): (n: nat)
    ensures n <= |s| && AllDigits(s[..n])
    ensures n < |s| ==> !IsDigit(s[n])
  {
    if s != [] && IsDigit(s[0]) then
      assert s[..1 + DigitRun(s[1..])] == s[..1] + s[1..][..DigitRun(s[1..])];
      1 + DigitRun(s[1..])
    else 0
  }

  /** The length of the run of non-space characters `s` starts with. */
  function WordRun(s: seq<char>): (n: nat)
    ensures n <= |s| && forall i :: 0 <= i < n ==> !IsSpace(s[i])
    ensures n < |s| ==> IsSpace(s[n])
  {
    if s != [] && !IsSpace(s[0]) then 1 + WordRun(s[1..]) else 0
  }

  function DigitValue(c: char): nat
  {
    if IsDigit(c) then c as int - '0' as int else 0
  }

  /** The number a run of decimal digits spells, most significant first. */
  function Numeral(d: seq<char>): nat
  {
    if d == [] then 0 else 10 * Numeral(d[..|d| - 1]) + DigitValue(d[|d| - 1])
  }

  /** `printf("%d")` of a non-negative number: its decimal digits, with no leading zero. */
  function Decimal(n: nat): (d: seq<char>)
    ensures 1 <= |d| && AllDigits(d)
    ensures |d| > 1 ==> d[0] != '0'
  {
    var last := ['0' + (n % 10) as char];
    if n < 10 then last else Decimal(n / 10) + last
  }

  /** Reading back what `%d` printed gives the number. */
  lemma {:induction false} NumeralOfDecimal(n: nat)
    ensures Numeral(Decimal(n)) == n
  {
    var d := Decimal(n);
    if n >= 10 {
      NumeralOfDecimal(n / 10);
      assert d[..|d| - 1] == Decimal(n / 10);
    }
  }

  /** A number at the start of `t`: an optional sign and at least one digit; the
    * value and the number of characters it takes up. */
  function ReadInt(t: seq<char>): (r: Option<(int, nat)>)
    ensures r.Some? ==> 0 < r.value.1 <= |t|
  {
    var k := if t != [] && (t[0] == '-' || t[0] == '+') then 1 else 0;
    var n := DigitRun(t[k..]);
    if n == 0 then None
    else
      var v: int := Numeral(t[k..k + n]);
      Some((if k == 1 && t[0] == '-' then -v else v, k + n))
  }

  /** `atoi`: leading white space, an optional sign, then decimal digits; no digits reads as 0.
    * A value outside `int` is undefined in C and is not modelled. */
  function Atoi(s: seq<char>): int
  {
    match ReadInt(SkipSpace(s))
    case None => 0
    case Some((v, _)) => v
  }

  /** Digits with no sign read as the number they spell. */
  lemma ReadUnsigned(s: seq<char>)
    requires s != [] && IsDigit(s[0])
    ensures ReadInt(s) == Some((Numeral(s[..DigitRun(s)]), DigitRun(s)))
  {
    assert s[0..] == s;
  }

  /** The digits printed by `%d` read back as the number, when a non-digit follows them. */
  lemma ReadDecimal(n: nat, rest: seq<char>)
    requires rest == [] || !IsDigit(rest[0])
    ensures ReadInt(Decimal(n) + rest) == Some((n, |Decimal(n)|))
    ensures SkipSpace(Decimal(n) + rest) == Decimal(n) + rest
  {
    var d := Decimal(n);
    var s := d + rest;
    DecimalRun(n, rest);
    assert s[0] == d[0];
    ReadUnsigned(s);
    assert s[..|d|] == d;
    NumeralOfDecimal(n);
  }

  /** `atoi` reads back a number printed with `%d` when a non-digit follows it. */
  lemma AtoiOfDecimal(n: nat, rest: seq<char>)
    requires rest == [] || !IsDigit(rest[0])
    ensures Atoi(Decimal(n) + rest) == n
  {
    ReadDecimal(n, rest);
  }

  /** The digits of a printed number, and only they, make up the run at its start. */
  lemma DecimalRun(n: nat, rest: seq<char>)
    requires rest == [] || !IsDigit(rest[0])
    ensures DigitRun(Decimal(n) + rest) == |Decimal(n)|
    ensures SkipSpace(Decimal(n) + rest) == Decimal(n) + rest
  {
    var d := Decimal(n);
    assert (d + rest)[0] == d[0];
    DigitRunOf(d, rest);
  }

  lemma {:induction false} DigitRunOf(d: seq<char>, rest: seq<char>)
    requires AllDigits(d)
    requires rest == [] || !IsDigit(rest[0])
    ensures DigitRun(d + rest) == |d|
  {
    if d != [] {
      assert (d + rest)[1..] == d[1..] + rest;
      DigitRunOf(d[1..], rest);
    }
  }

  /** `printf("%02d")` of a number below 100: two digits, a leading zero if need be. */
  function TwoDigits(n: nat): (d: seq<char>)
    requires n < 100
    ensures |d| == 2 && AllDigits(d)
  {
    ['0' + (n / 10) as char, '0' + (n % 10) as char]
  }

  /** `atoi` reads back a number printed with `%02d` when a non-digit follows it. */
  lemma AtoiOfTwoDigits(n: nat, rest: seq<char>)
    requires n < 100
    requires rest == [] || !IsDigit(rest[0])
    ensures Atoi(TwoDigits(n) + rest) == n
  {
    var d := TwoDigits(n);
    var s := d + rest;
    assert s[0] == d[0];
    NoSpaceFirst(s);
    DigitRunOf(d, rest);
    ReadUnsigned(s);
    assert s[..2] == d;
    NumeralOfTwoDigits(n);
  }

  lemma NoSpaceFirst(s: seq<char>)
    requires s == [] || !IsSpace(s[0])
    ensures SkipSpace(s) == s
  {
  }

  lemma NumeralOfTwoDigits(n: nat)
    requires n < 100
    ensures Numeral(TwoDigits(n)) == n
  {
    var d := TwoDigits(n);
    assert d[..1][..0] == [];
    assert Numeral(d[..1]) == n / 10;
  }

  // ------------------------------------------------------------------ sscanf

  /** One directive of a `sscanf` format: an ordinary character, white space, `%d`
    * (also `%hhd`: the value is converted by the caller), or `%Ns`. */
  datatype Directive = Lit(c: char) | Space | Int | Word(width: nat)

  /** A value a conversion stores. */
  datatype Field = IntVal(i: int) | WordVal(w: seq<char>)

  /** The values stored, in order, and whether the input ran out before the format did. */
  datatype Scanned = Scanned(values: seq<Field>, inputFailure: bool)

  /** A format string: each space is a white-space directive, each other character matches itself. */
  function Format(w: seq<char>): (f: seq<Directive>)
    ensures |f| == |w|
    ensures forall i :: 0 <= i < |w| ==> f[i] == FormatChar(w[i])
  {
    seq(|w|, i requires 0 <= i < |w| => FormatChar(w[i]))
  }

  function FormatChar(c: char): Directive
  {
    if c == ' ' then Space else Lit(c)
  }

  function Then(v: Field, r: Scanned): Scanned
  {
    Scanned([v] + r.values, r.inputFailure)
  }

  /** `sscanf(s, fmt, ...)`: the directives in turn until one fails. An ordinary
    * character must be the next input character; white space skips any amount of it;
    * `%d` skips white space and reads an optional sign and at least one digit; `%Ns`
    * skips white space and reads one to N non-space characters. */
  function Scan(fmt: seq<Directive>, s: seq<char>): (r: Scanned)
    ensures |r.values| <= |fmt|
    decreases |fmt|
  {
    if fmt == [] then Scanned([], false)
    else match fmt[0]
      case Lit(c) =>
        if s == [] then Scanned([], true)
        else if s[0] != c then Scanned([], false)
        else Scan(fmt[1..], s[1..])
      case Space => Scan(fmt[1..], SkipSpace(s))
      case Int =>
        var t := SkipSpace(s);
        if t == [] then Scanned([], true)
        else (match ReadInt(t)
          case None => Scanned([], false)
          case Some((v, n)) => Then(IntVal(v), Scan(fmt[1..], t[n..])))
      case Word(width) =>
        var t := SkipSpace(s);
        if t == [] then Scanned([], true)
        else
          var n := Min(WordRun(t), width);
          if n == 0 then Scanned([], false)
          else Then(WordVal(t[..n]), Scan(fmt[1..], t[n..]))
  }

  /** What `sscanf` returns: `EOF` (-1) when the input ran out before the first
    * conversion, else the number of values stored. */
  function Matches(fmt: seq<Directive>, s: seq<char>): (m: int)
    ensures -1 <= m <= |fmt|
    ensures m >= 0 ==> m == |Scan(fmt, s).values|
  {
    Count(Scan(fmt, s))
  }

  /** The return value of `sscanf` for a scan that ended as `r` did. */
  function Count(r: Scanned): (m: int)
    ensures m == -1 <==> r.values == [] && r.inputFailure
    ensures m >= 0 ==> m == |r.values|
  {
    if r.values == [] && r.inputFailure then -1 else |r.values|
  }

  /** Ordinary characters are matched one for one. */
  lemma {:induction false} ScanFormat(w: seq<char>, f: seq<Directive>, s: seq<char>)
    requires ' ' !in w
    ensures Scan(Format(w) + f, w + s) == Scan(f, s)
  {
    if w != [] {
      assert w == [w[0]] + w[1..];
      var fmt, t := Format(w) + f, w + s;
      assert fmt[0] == Lit(w[0]);
      assert fmt[1..] == Format(w[1..]) + f;
      assert t[0] == w[0] && t[1..] == w[1..] + s;
      ScanFormat(w[1..], f, s);
      assert Scan(fmt, t) == Scan(fmt[1..], t[1..]);
    } else {
      assert Format(w) + f == f && w + s == s;
    }
  }

  /** A white-space directive skips a run of white space. */
  lemma ScanSpace(f: seq<Directive>, sp: seq<char>, s: seq<char>)
    requires forall i :: 0 <= i < |sp| ==> IsSpace(sp[i])
    requires s == [] || !IsSpace(s[0])
    ensures Scan([Space] + f, sp + s) == Scan(f, s)
  {
    SkipSpaceRun(sp, s);
    assert ([Space] + f)[1..] == f;
  }

  lemma {:induction false} SkipSpaceRun(sp: seq<char>, s: seq<char>)
    requires forall i :: 0 <= i < |sp| ==> IsSpace(sp[i])
    requires s == [] || !IsSpace(s[0])
    ensures SkipSpace(sp + s) == s
  {
    if sp != [] {
      assert (sp + s)[1..] == sp[1..] + s;
      SkipSpaceRun(sp[1..], s);
    }
  }

  /** `%d` reads back a number printed with `%d` when a non-digit follows it. */
  lemma ScanInt(f: seq<Directive>, n: nat, rest: seq<char>)
    requires rest == [] || !IsDigit(rest[0])
    ensures Scan([Int] + f, Decimal(n) + rest) == Then(IntVal(n), Scan(f, rest))
  {
    var s := Decimal(n) + rest;
    ReadDecimal(n, rest);
    assert s[|Decimal(n)|..] == rest;
    assert ([Int] + f)[1..] == f;
  }

  /** `%Ns` reads a word of one to N non-space characters when white space or the end follows it. */
  lemma ScanWord(f: seq<Directive>, width: nat, w: seq<char>, rest: seq<char>)
    requires 1 <= |w| <= width
    requires forall i :: 0 <= i < |w| ==> !IsSpace(w[i])
    requires rest == [] || IsSpace(rest[0])
    ensures Scan([Word(width)] + f, w + rest) == Then(WordVal(w), Scan(f, rest))
  {
    var s := w + rest;
    assert !IsSpace(s[0]);
    WordRunOf(w, rest);
    assert s[..|w|] == w && s[|w|..] == rest;
    assert ([Word(width)] + f)[1..] == f;
  }

  lemma {:induction false} WordRunOf(w: seq<char>, rest: seq<char>)
    requires forall i :: 0 <= i < |w| ==> !IsSpace(w[i])
    requires rest == [] || IsSpace(rest[0])
    ensures WordRun(w + rest) == |w|
  {
    if w != [] {
      assert (w + rest)[1..] == w[1..] + rest;
      WordRunOf(w[1..], rest);
    }
  }

  // ------------------------------------------------------------------ strtok

  predicate IsLineBreak(c: char)
  {
    c == '\r' || c == '\n'
  }

  /** The length of the run of characters before the next line break. */
  function LineRun(s: seq<char>): (n: nat)
    ensures n <= |s| && forall i :: 0 <= i < n ==> !IsLineBreak(s[i])
    ensures n < |s| ==> IsLineBreak(s[n])
  {
    if s != [] && !IsLineBreak(s[0]) then 1 + LineRun(s[1..]) else 0
  }

  /** The successive `strtok(s, "\r\n")` tokens: the non-empty runs between line breaks. */
  function Lines(s: seq<char>): (ls: seq<seq<char>>)
    ensures forall i :: 0 <= i < |ls| ==> ls[i] != [] && forall k :: 0 <= k < |ls[i]| ==> !IsLineBreak(ls[i][k])
    decreases |s|
  {
    if s == [] then []
    else if IsLineBreak(s[0]) then Lines(s[1..])
    else
      var n := LineRun(s);
      [s[..n]] + Lines(s[n..])
  }

  /** A line: `strtok` yields it and then goes on after it. */
  lemma LinesOfLine(line: seq<char>, rest: seq<char>)
    requires line != [] && forall k :: 0 <= k < |line| ==> !IsLineBreak(line[k])
    requires rest == [] || IsLineBreak(rest[0])
    ensures Lines(line + rest) == [line] + Lines(rest)
  {
    LineRunOf(line, rest);
    assert (line + rest)[..|line|] == line && (line + rest)[|line|..] == rest;
  }

  /** `strtok` skips a line break. */
  lemma LinesOfBreak(c: char, rest: seq<char>)
    requires IsLineBreak(c)
    ensures Lines([c] + rest) == Lines(rest)
  {
    assert ([c] + rest)[1..] == rest;
  }

  lemma {:induction false} LineRunOf(line: seq<char>, rest: seq<char>)
    requires forall k :: 0 <= k < |line| ==> !IsLineBreak(line[k])
    requires rest == [] || IsLineBreak(rest[0])
    ensures LineRun(line + rest) == |line|
  {
    if line != [] {
      assert (line + rest)[1..] == line[1..] + rest;
      LineRunOf(line[1..], rest);
    }
  }
}
