// Helpers shared by the firmware model: optional values, the error numbers of
// include/kernel/errno.h, C integer arithmetic and NUL-terminated strings.

module Wrappers {
  datatype Option<T> = None | Some(value: T)
}

module Errno {
  const EBUSY: int := 11
  const EINVAL: int := 13
  const EBADMSG: int := 15
}

/** C fixed-width integers, modelled as bounded `int`s. */
module CInt {
  type u8 = x: int | 0 <= x < 0x100
  type u16 = x: int | 0 <= x < 0x1_0000
  type u32 = x: int | 0 <= x < 0x1_0000_0000

  /** Conversion to `uint8_t`: wrap modulo 256. */
  function ToU8(x: int): (r: u8)
    ensures (0 <= x < 0x100) == (r == x)
  {
    x % 0x100
  }

  /** Conversion to `uint16_t`: wrap modulo 65536. */
  function ToU16(x: int): (r: u16)
    ensures 0 <= x < 0x1_0000 ==> r == x
  {
    x % 0x1_0000
  }

  /** Conversion to `uint32_t`: wrap modulo 2^32. */
  function ToU32(x: int): (r: u32)
    ensures 0 <= x < 0x1_0000_0000 ==> r == x
  {
    x % 0x1_0000_0000
  }

  function Abs(x: int): nat { if x < 0 then -x else x }

  /** C's `/` on `int`: the quotient truncated toward zero. */
  function CDiv(a: int, b: int): (q: int)
    requires b != 0
    ensures Abs(q) * Abs(b) <= Abs(a) < (Abs(q) + 1) * Abs(b)
    ensures q != 0 ==> (q > 0 <==> (a > 0) == (b > 0))
  {
    var m := Abs(a) / Abs(b);
    if (a >= 0) == (b > 0) then m else -m
  }

  /** On operands of the same sign C's `/` agrees with Dafny's. */
  lemma CDivNonneg(a: int, b: int)
    requires a >= 0 && b > 0
    ensures CDiv(a, b) == a / b
  {
  }

  /** C's `%` on `int`: the remainder takes the sign of the dividend. */
  function CMod(a: int, b: int): (r: int)
    requires b != 0
    ensures a == CDiv(a, b) * b + r
    ensures Abs(r) < Abs(b)
    ensures r != 0 ==> (r > 0 <==> a > 0)
  {
    a - CDiv(a, b) * b
  }
}

/** C strings held in fixed-size `char` buffers. */
module CStr {
  const NUL: char := '\0'

  /** `strlen`: the number of characters before the first NUL (all of them if there is none). */
  function StrLen(s: seq<char>): (n: nat)
    ensures n <= |s|
    ensures forall i :: 0 <= i < n ==> s[i] != NUL
    ensures n < |s| ==> s[n] == NUL
  {
    if s == [] || s[0] == NUL then 0 else 1 + StrLen(s[1..])
  }

  /** The C string a buffer holds: its characters before the first NUL. */
  function Text(s: seq<char>): (t: seq<char>)
    ensures t == s[..StrLen(s)]
  {
    s[..StrLen(s)]
  }

  /** A string with no NUL in it, i.e. a valid C string contents. */
  predicate NoNul(t: seq<char>)
  {
    forall i :: 0 <= i < |t| ==> t[i] != NUL
  }

  lemma {:induction false} StrLenOfTerminated(t: seq<char>, rest: seq<char>)
    requires NoNul(t)
    ensures StrLen(t + [NUL] + rest) == |t|
  {
    if t != [] {
      assert (t + [NUL] + rest)[1..] == t[1..] + [NUL] + rest;
      StrLenOfTerminated(t[1..], rest);
    }
  }

  lemma {:induction false} StrLenOfNoNul(t: seq<char>)
    requires NoNul(t)
    ensures StrLen(t) == |t|
  {
    if t != [] {
      StrLenOfNoNul(t[1..]);
    }
  }

  /** Writing a character over the NUL and a NUL after it appends the character. */
  lemma AppendChar(s: seq<char>, c: char)
    requires StrLen(s) + 1 < |s| && c != NUL
    ensures var n := StrLen(s); StrLen(s[n := c][n + 1 := NUL]) == n + 1
    ensures var n := StrLen(s); Text(s[n := c][n + 1 := NUL]) == Text(s) + [c]
  {
    var n := StrLen(s);
    assert s[n := c][n + 1 := NUL] == (s[..n] + [c]) + [NUL] + s[n + 2..];
    StrLenOfTerminated(s[..n] + [c], s[n + 2..]);
  }

  /** Writing a NUL over the last character drops it. */
  lemma DropLastChar(s: seq<char>)
    requires 0 < StrLen(s)
    ensures var n := StrLen(s); StrLen(s[n - 1 := NUL]) == n - 1
    ensures var n := StrLen(s); Text(s[n - 1 := NUL]) == Text(s)[..n - 1]
  {
    var n := StrLen(s);
    assert s[n - 1 := NUL] == s[..n - 1] + [NUL] + s[n..];
    StrLenOfTerminated(s[..n - 1], s[n..]);
  }

  /** `strncpy(out + pos, s, |s|)`: the characters of `s`, and no NUL. */
  method Put(out: array<char>, pos: int, s: seq<char>)
    requires 0 <= pos && pos + |s| <= out.Length
    modifies out
    ensures out[..pos + |s|] == old(out[..pos]) + s
    ensures forall k :: pos + |s| <= k < out.Length ==> out[k] == old(out[k])
  {
    var i := 0;
    while i < |s|
      invariant 0 <= i <= |s|
      invariant out[..pos + i] == old(out[..pos]) + s[..i]
      invariant forall k :: pos + i <= k < out.Length ==> out[k] == old(out[k])
    {
      out[pos + i] := s[i];
      assert s[..i + 1] == s[..i] + [s[i]];
      i := i + 1;
    }
  }

  /** `strcpy(out + pos, s)`: the characters of `s` and then a NUL. */
  method Strcpy(out: array<char>, pos: int, s: seq<char>)
    requires 0 <= pos && pos + |s| < out.Length
    modifies out
    ensures out[..pos + |s|] == old(out[..pos]) + s && out[pos + |s|] == NUL
    ensures forall k :: pos + |s| < k < out.Length ==> out[k] == old(out[k])
  {
    Put(out, pos, s);
    out[pos + |s|] := NUL;
  }

  /** A buffer holding `s` and a NUL holds the C string `s`. */
  lemma TextOfCopy(buf: seq<char>, s: seq<char>)
    requires NoNul(s) && |s| < |buf| && buf[..|s|] == s && buf[|s|] == NUL
    ensures StrLen(buf) == |s| && Text(buf) == s
  {
    assert buf == s + [NUL] + buf[|s| + 1..];
    StrLenOfTerminated(s, buf[|s| + 1..]);
  }

  /** `needle` occurs in `hay` starting at index `i`. */
  predicate OccursAt(hay: seq<char>, needle: seq<char>, i: nat)
  {
    i + |needle| <= |hay| && hay[i..i + |needle|] == needle
  }

  /** `strstr(hay, needle) != NULL`. */
  predicate Contains(hay: seq<char>, needle: seq<char>)
  {
    exists i: nat | i <= |hay| :: OccursAt(hay, needle, i)
  }

  /** An occurrence anywhere shows `strstr` finds something. */
  lemma ContainsAt(hay: seq<char>, needle: seq<char>, i: nat)
    requires OccursAt(hay, needle, i)
    ensures Contains(hay, needle)
  {
  }

  /** What occurs in the tail of a string occurs in the string. */
  lemma ContainsInTail(head: seq<char>, tail: seq<char>, needle: seq<char>)
    requires Contains(tail, needle)
    ensures Contains(head + tail, needle)
  {
    var i: nat :| i <= |tail| && OccursAt(tail, needle, i);
    assert (head + tail)[|head| + i..|head| + i + |needle|] == tail[i..i + |needle|];
    ContainsAt(head + tail, needle, |head| + i);
  }

  /** A needle with a character the haystack lacks does not occur in it. */
  lemma NotContainsChar(hay: seq<char>, needle: seq<char>, k: nat)
    requires k < |needle| && needle[k] !in hay
    ensures !Contains(hay, needle)
  {
  }

  /** `strncpy(dst, src, n - 1); dst[n - 1] = 0` on an `n`-byte buffer: the text, cut to `n - 1`. */
  function Truncate(t: seq<char>, n: nat): (r: seq<char>)
    ensures |r| == if |t| < n then |t| else n
    ensures r == t[..|r|]
  {
    if |t| <= n then t else t[..n]
  }

  /** `strncpy(dst, src, n)`: the characters of `src` up to its NUL, at most `n` of them, and
    * the rest of the `n` bytes NUL. `src` must hold a NUL unless it has `n` bytes to read. */
  method Strncpy(dst: array<char>, src: seq<char>, n: int)
    requires 0 <= n <= dst.Length && (n <= |src| || StrLen(src) < |src|)
    modifies dst
    ensures forall k :: 0 <= k < n ==> dst[k] == if k < StrLen(src) then src[k] else NUL
    ensures forall k :: n <= k < dst.Length ==> dst[k] == old(dst[k])
  {
    var i := 0;
    while i < n && src[i] != NUL
      invariant 0 <= i <= n && i <= StrLen(src)
      invariant forall k :: 0 <= k < i ==> dst[k] == src[k]
      invariant forall k :: n <= k < dst.Length ==> dst[k] == old(dst[k])
    {
      dst[i] := src[i];
      i := i + 1;
    }
    while i < n
      invariant 0 <= i <= n
      invariant forall k :: 0 <= k < i ==> dst[k] == if k < StrLen(src) then src[k] else NUL
      invariant forall k :: n <= k < dst.Length ==> dst[k] == old(dst[k])
    {
      dst[i] := NUL;
      i := i + 1;
    }
  }

  /** After `strncpy(buf, src, n)` and a NUL at `n`, the buffer holds `src`'s text cut to `n`. */
  lemma TextOfTruncatedCopy(buf: seq<char>, src: seq<char>, n: nat)
    requires n < |buf| && buf[n] == NUL
    requires forall k :: 0 <= k < n ==> buf[k] == if k < StrLen(src) then src[k] else NUL
    ensures Text(buf) == Truncate(Text(src), n)
  {
    var r := Truncate(Text(src), n);
    assert buf[..|r|] == r;
    TextOfCopy(buf, r);
  }

  /** `memset(buffer, 0, length)`. */
  method Memset(buffer: array<char>)
    modifies buffer
    ensures forall k :: 0 <= k < buffer.Length ==> buffer[k] == NUL
  {
    forall k | 0 <= k < buffer.Length {
      buffer[k] := NUL;
    }
  }

  /** A bounded text field after one more character: appended while it is shorter than `cap`. */
  function Push(t: seq<char>, c: char, cap: int): (r: seq<char>)
    ensures |t| < cap ==> r == t + [c]
    ensures |t| >= cap ==> r == t
  {
    if |t| < cap then t + [c] else t
  }

  /** A text field after a backspace: its last character dropped, if it has one. */
  function Pop(t: seq<char>): (r: seq<char>)
    ensures t != [] ==> r == t[..|t| - 1]
    ensures t == [] ==> r == []
  {
    if t == [] then t else t[..|t| - 1]
  }

  /** A backspace undoes a character typed into a field with room for it. */
  lemma PopUndoesPush(t: seq<char>, c: char, cap: int)
    requires |t| < cap
    ensures Pop(Push(t, c, cap)) == t
  {
    assert (t + [c])[..|t|] == t;
  }
}

/** Facts about multiplication and division that the solver does not find by itself. */
module Arith {
  lemma MulNonneg(a: int, b: int)
    requires a >= 0 && b >= 0
    ensures a * b >= 0
  {
  }

  lemma MulLe(a: int, b: int, k: int)
    requires a <= b && k >= 0
    ensures a * k <= b * k
  {
    assert b * k == a * k + (b - a) * k;
    MulNonneg(b - a, k);
  }

  /** Counting round a cycle of length `m`: the step after position `(n - 1) % m` is `n % m`. */
  lemma ModSucc(n: nat, m: nat)
    requires n > 0 && m > 0
    ensures ((n - 1) % m + 1) % m == n % m
  {
    var q, r := (n - 1) / m, (n - 1) % m;
    if r + 1 < m {
      DivUnique(r + 1, m, 0, r + 1);
      DivUnique(n, m, q, r + 1);
    } else {
      DivUnique(r + 1, m, 1, 0);
      DivUnique(n, m, q + 1, 0);
    }
  }

  lemma DivUnique(a: int, d: int, q: int, r: int)
    requires d > 0 && 0 <= r < d && a == d * q + r
    ensures a / d == q && a % d == r
  {
    var q', r' := a / d, a % d;
    assert d * q' + r' == d * q + r;
    if q' < q {
      MulLe(q' + 1, q, d);
      assert false;
    } else if q' > q {
      MulLe(q + 1, q', d);
      assert false;
    }
  }

  lemma DivDiv(a: int, p: int, m: int)
    requires a >= 0 && p > 0 && m > 0
    ensures a / (p * m) == (a / p) / m
  {
    var q, r := a / p, a % p;
    var q2, r2 := q / m, q % m;
    assert q == m * q2 + r2;
    assert a == p * q + r;
    assert p * q == (p * m) * q2 + p * r2;
    MulLe(r2, m - 1, p);
    assert p * r2 + r < p * m;
    MulNonneg(p, r2);
    DivUnique(a, p * m, q2, p * r2 + r);
  }

  /** Wrapping before an addition wraps the same as after it. */
  lemma ModAdd(a: int, b: int, m: int)
    requires m > 0
    ensures (a % m + b) % m == (a + b) % m
  {
    var q := a / m;
    assert a == q * m + a % m;
    DivUnique(a % m + b, m, (a % m + b) / m, (a % m + b) % m);
    DivUnique(a + b, m, (a % m + b) / m + q, (a % m + b) % m);
  }

  /** `a` is `q` times `d` plus `r`, told apart from every other `a`. */
  lemma DivCase(a: int, d: int, q: int, r: int)
    requires d > 0 && 0 <= r < d
    ensures a == d * q + r ==> a / d == q && a % d == r
  {
    if a == d * q + r {
      DivUnique(a, d, q, r);
    }
  }

  lemma DivLe(a: int, d: int)
    requires a >= 0 && d > 0
    ensures 0 <= a / d <= a
  {
    var q := a / d;
    assert a == d * q + a % d;
    if q > a {
      MulLe(a + 1, q, d);
      MulLe(1, d, a + 1);
      assert false;
    }
  }

  lemma DivMonotone(a: int, b: int, d: int)
    requires 0 <= a <= b && d > 0
    ensures a / d <= b / d
  {
    var qa, qb := a / d, b / d;
    if qa > qb {
      MulLe(qb + 1, qa, d);
      assert false;
    }
  }
}

/** Bits of a byte, addressed arithmetically. */
module Bits {
  import opened CInt
  import Arith

  /** `byte & (1 << bit)` is non-zero. */
  function BitOf(v: u8, bit: nat): bool
    requires bit < 8
  {
    (v / Pow2(bit)) % 2 == 1
  }

  function Pow2(k: nat): (p: nat)
    ensures p > 0
  {
    if k == 0 then 1 else 2 * Pow2(k - 1)
  }

  /** `v >> k` on a non-negative value. */
  function Shr(v: nat, k: nat): (r: nat)
    ensures r <= v
  {
    Arith.DivLe(v, Pow2(k));
    v / Pow2(k)
  }

  /** `(uint8_t)(v << k)`: shifted up and cut to eight bits. */
  function Shl8(v: nat, k: nat): u8
  {
    (v * Pow2(k)) % 0x100
  }

  /** `a | b` on non-negative integers, taken bit by bit from the least significant. */
  function BitOr(a: nat, b: nat): nat
    decreases a + b
  {
    if a == 0 then b
    else if b == 0 then a
    else 2 * BitOr(a / 2, b / 2) + (if a % 2 == 1 || b % 2 == 1 then 1 else 0)
  }

  /** Or-ing two `n`-bit values gives an `n`-bit value. */
  lemma {:induction false} BitOrBound(a: nat, b: nat, n: nat)
    requires a < Pow2(n) && b < Pow2(n)
    ensures BitOr(a, b) < Pow2(n)
  {
    if a != 0 && b != 0 {
      BitOrBound(a / 2, b / 2, n - 1);
    }
  }

  lemma Pow2Widths()
    ensures Pow2(8) == 0x100 && Pow2(16) == 0x1_0000
  {
    assert Pow2(1) == 2;
    assert Pow2(2) == 4;
    assert Pow2(3) == 8;
    assert Pow2(4) == 16;
    assert Pow2(5) == 32;
    assert Pow2(6) == 64;
    assert Pow2(7) == 128;
    assert Pow2(8) == 256;
    assert Pow2(9) == 512;
    assert Pow2(10) == 1024;
    assert Pow2(11) == 2048;
    assert Pow2(12) == 4096;
    assert Pow2(13) == 8192;
    assert Pow2(14) == 16384;
    assert Pow2(15) == 32768;
    assert Pow2(16) == 65536;
  }

  /** `|` on `uint8_t`. */
  function Or8(a: u8, b: u8): u8
  {
    Pow2Widths();
    BitOrBound(a, b, 8);
    BitOr(a, b)
  }

  /** `|` on `uint16_t`. */
  function Or16(a: u16, b: u16): u16
  {
    Pow2Widths();
    BitOrBound(a, b, 16);
    BitOr(a, b)
  }

  /** The bits of a byte, most significant first. */
  function MsbBits(v: u8): (bits: seq<bool>)
    ensures |bits| == 8
    ensures forall i :: 0 <= i < 8 ==> bits[i] == BitOf(v, 7 - i)
  {
    seq(8, i requires 0 <= i < 8 => BitOf(v, 7 - i))
  }

}
