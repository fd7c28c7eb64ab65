// drivers/modem/pdu.c: SMS-SUBMIT encoding and SMS-DELIVER decoding in PDU mode.
// The caller's `char *` and `uint8_t *` buffers are arrays; the input strings are
// the characters before their NUL.

module Pdu {
  import opened CInt
  import opened CStr
  import opened Bits
  import opened Wrappers

  function Min(a: int, b: int): int { if a < b then a else b }
  function Max(a: int, b: int): int { if a < b then b else a }

  // ---------------------------------------------------------------- hex digits

  predicate IsHexChar(c: char)
  {
    '0' <= c <= '9' || 'A' <= c <= 'F' || 'a' <= c <= 'f'
  }

  /** Upper case for the six lower-case hex letters; every other character as is. */
  function UpperHex(c: char): char
  {
    if 'a' <= c <= 'f' then (c as int - 32) as char else c
  }

  /** `hexCharToInt`: a hex digit of either case; any other character reads as 0. */
  function HexCharToInt(c: char): (v: nat)
    ensures v < 16
    ensures !IsHexChar(c) ==> v == 0
  {
    if '0' <= c <= '9' then c as int - '0' as int
    else if 'A' <= c <= 'F' then 10 + (c as int - 'A' as int)
    else if 'a' <= c <= 'f' then 10 + (c as int - 'a' as int)
    else 0
  }

  /** The digit table of `byteToHex`. */
  const HexDigits: seq<char> := "0123456789ABCDEF"

  /** Reading a digit of the table gives back its position. */
  lemma DigitValue(v: nat)
    requires v < 16
    ensures HexCharToInt(HexDigits[v]) == v
  {
  }

  /** Every hex digit, of either case, is the table entry at the position it reads as. */
  lemma HexCharMeaning(c: char)
    requires IsHexChar(c)
    ensures HexDigits[HexCharToInt(c)] == UpperHex(c)
  {
  }

  /** `hexToByte`: two hex digits, high nibble first. The nibbles do not overlap,
    * so `(hi << 4) | lo` is `16 * hi + lo` and the `uint8_t` result never wraps. */
  function HexToByte(h0: char, h1: char): (b: u8)
    ensures b / 16 == HexCharToInt(h0) && b % 16 == HexCharToInt(h1)
  {
    HexCharToInt(h0) * 16 + HexCharToInt(h1)
  }

  /** The two characters `byteToHex` writes for a byte. */
  function Hex2(v: u8): (h: seq<char>)
    ensures |h| == 2
    ensures forall k :: 0 <= k < 2 ==> '0' <= h[k] <= '9' || 'A' <= h[k] <= 'F'
  {
    [HexDigits[v / 16], HexDigits[v % 16]]
  }

  /** Reading back what `byteToHex` wrote gives the byte. */
  lemma ByteHexRoundTrip(v: u8)
    ensures HexToByte(Hex2(v)[0], Hex2(v)[1]) == v
  {
    DigitValue(v / 16);
    DigitValue(v % 16);
  }

  /** `byteToHex`: two upper-case digits and a NUL. */
  method ByteToHex(val: u8, out: array<char>)
    requires out.Length >= 3
    modifies out
    ensures out[..3] == Hex2(val) + [NUL]
    ensures forall k :: 3 <= k < out.Length ==> out[k] == old(out[k])
  {
    var hex := HexDigits;
    out[0] := hex[val / 16];
    out[1] := hex[val % 16];
    out[2] := NUL;
  }

  /** Hex text for a run of bytes, two digits each. */
  function HexOf(bytes: seq<u8>): (h: seq<char>)
    ensures |h| == 2 * |bytes|
  {
    if bytes == [] then [] else HexOf(bytes[..|bytes| - 1]) + Hex2(bytes[|bytes| - 1])
  }

  // ---------------------------------------------------------------- semi-octets

  /** What `encodeSemiOctetNumber` writes for a number: each pair of digits swapped,
    * and a last odd digit paired with the filler 'F'. */
  function SemiOctets(t: seq<char>): (r: seq<char>)
    ensures |r| == EvenUp(|t|)
    ensures |r| == if |t| % 2 == 0 then |t| else |t| + 1
    decreases |t|
  {
    if t == [] then []
    else if |t| % 2 == 1 then SemiOctets(t[..|t| - 1]) + ['F', t[|t| - 1]]
    else SemiOctets(t[..|t| - 2]) + [t[|t| - 1], t[|t| - 2]]
  }

  /** Pair `j` of the semi-octets is the number's digits `2j` and `2j + 1` swapped,
    * with the filler 'F' standing in for a missing second digit. */
  lemma {:induction false} SemiPair(t: seq<char>, j: nat)
    requires 2 * j < |t|
    ensures SemiOctets(t)[2 * j] == (if 2 * j + 1 < |t| then t[2 * j + 1] else 'F')
    ensures SemiOctets(t)[2 * j + 1] == t[2 * j]
    decreases |t|
  {
    var m := if |t| % 2 == 1 then |t| - 1 else |t| - 2;
    if 2 * j < m {
      SemiPair(t[..m], j);
      assert SemiOctets(t)[..m] == SemiOctets(t[..m]);
    }
  }

  /** `encodeSemiOctetNumber` of the digits `t` of a C string: writes the swapped
    * digits and a NUL, and returns their count. */
  method EncodeSemiOctetNumber(t: seq<char>, out: array<char>) returns (n: int)
    requires out.Length > EvenUp(|t|)
    modifies out
    ensures n == EvenUp(|t|)
    ensures out[..n] == SemiOctets(t) && out[n] == NUL
    ensures forall k :: n < k < out.Length ==> out[k] == old(out[k])
  {
    var len := |t|;
    ghost var semi := SemiOctets(t);
    n := 0;
    var i := 0;
    ghost var pairs := 0;
    while i < len
      invariant i == 2 * pairs && 0 <= i <= |semi|
      invariant n == i
      invariant forall k :: 0 <= k < n ==> out[k] == semi[k]
      invariant forall k :: n <= k < out.Length ==> out[k] == old(out[k])
    {
      var c1 := t[i];
      var c2 := if i + 1 < len then t[i + 1] else 'F';
      SemiPair(t, pairs);
      out[n] := c2;
      n := n + 1;
      out[n] := c1;
      n := n + 1;
      i := i + 2;
      pairs := pairs + 1;
    }
    assert out[..n] == semi;
    out[n] := NUL;
  }

  /** The digits a swapped pair stands for, with the filler 'F' dropped. */
  function Unswap(lo: char, hi: char): seq<char>
  {
    (if hi != 'F' then [hi] else []) + (if lo != 'F' then [lo] else [])
  }

  /** The number a run of semi-octets spells, before any cut to the output buffer. */
  function Digits(h: seq<char>): (r: seq<char>)
    requires |h| % 2 == 0
    ensures |r| <= |h|
  {
    if h == [] then [] else Digits(h[..|h| - 2]) + Unswap(h[|h| - 2], h[|h| - 1])
  }

  lemma DigitsSnoc(h: seq<char>, i: nat)
    requires i % 2 == 0 && i + 2 <= |h|
    ensures Digits(h[..i + 2]) == Digits(h[..i]) + Unswap(h[i], h[i + 1])
  {
    assert h[..i + 2][..i] == h[..i];
  }

  /** The digits of a shorter even prefix come first in the digits of a longer one. */
  lemma {:induction false} DigitsPrefix(h: seq<char>, i: nat, j: nat)
    requires i % 2 == 0 && j % 2 == 0 && i <= j <= |h|
    ensures |Digits(h[..i])| <= |Digits(h[..j])|
    ensures Digits(h[..i]) == Digits(h[..j])[..|Digits(h[..i])|]
  {
    if i < j {
      DigitsPrefix(h, i, j - 2);
      DigitsSnoc(h, j - 2);
    }
  }

  lemma DigitsPair(s: seq<char>, lo: char, hi: char)
    requires |s| % 2 == 0
    ensures Digits(s + [lo, hi]) == Digits(s) + Unswap(lo, hi)
  {
    assert (s + [lo, hi])[..|s|] == s;
  }

  lemma SplitLast2(d: seq<char>)
    requires |d| >= 2
    ensures d == d[..|d| - 2] + [d[|d| - 2], d[|d| - 1]]
  {
    assert d[|d| - 2..] == [d[|d| - 2], d[|d| - 1]];
    assert d == d[..|d| - 2] + d[|d| - 2..];
  }

  /** For a number with no 'F' in it, the digits of its semi-octets are the number. */
  lemma {:induction false} SemiOctetRoundTrip(d: seq<char>)
    requires forall k :: 0 <= k < |d| ==> d[k] != 'F'
    ensures Digits(SemiOctets(d)) == d
    decreases |d|
  {
    if d != [] {
      var last := d[|d| - 1];
      if |d| % 2 == 1 {
        var init := d[..|d| - 1];
        SemiOctetRoundTrip(init);
        DigitsPair(SemiOctets(init), 'F', last);
        assert Unswap('F', last) == [last];
        assert d == init + [last];
      } else {
        var init := d[..|d| - 2];
        SemiOctetRoundTrip(init);
        DigitsPair(SemiOctets(init), last, d[|d| - 2]);
        assert Unswap(last, d[|d| - 2]) == [d[|d| - 2], last];
        SplitLast2(d);
      }
    }
  }

  /** The body of `decodeSemiOctetNumber`'s loop: the two guarded stores of one
    * digit pair, each skipping the filler 'F' and stopping when only the NUL's place
    * is left. `d` is the text of the digits met so far, of which the buffer holds as
    * many as fit. */
  method PutPair(out: array<char>, pos: int, lo: char, hi: char, outSize: int, ghost d: seq<char>)
    returns (pos': int)
    requires 1 <= outSize <= out.Length
    requires pos == Min(|d|, outSize - 1)
    requires forall k :: 0 <= k < pos ==> out[k] == d[k]
    modifies out
    ensures var e := d + Unswap(lo, hi);
            pos' == Min(|e|, outSize - 1) && forall k :: 0 <= k < pos' ==> out[k] == e[k]
    ensures forall k :: pos' <= k < out.Length ==> out[k] == old(out[k])
  {
    pos' := pos;
    if hi != 'F' && pos' < outSize - 1 {
      out[pos'] := hi;
      pos' := pos' + 1;
    }
    if lo != 'F' && pos' < outSize - 1 {
      out[pos'] := lo;
      pos' := pos' + 1;
    }
  }

  /** When the loop of `decodeSemiOctetNumber` stops, at the end or with the buffer
    * full, the buffer holds the first digits of the whole number. */
  lemma DigitsCut(hex: seq<char>, i: nat, end: nat, pos: int, outSize: int, o: seq<char>)
    requires i % 2 == 0 && end % 2 == 0 && i <= end <= |hex|
    requires i == end || pos == outSize - 1
    requires outSize >= 1 && pos == Min(|Digits(hex[..i])|, outSize - 1) && pos <= |o|
    requires forall k :: 0 <= k < pos ==> o[k] == Digits(hex[..i])[k]
    ensures var all := Digits(hex[..end]);
            pos == Min(|all|, outSize - 1) && o[..pos] == all[..pos]
  {
    DigitsPrefix(hex, i, end);
    var all := Digits(hex[..end]);
    assert forall k :: 0 <= k < pos ==> o[k] == all[k];
  }

  /** `decodeSemiOctetNumber`: the digits of the first `length` semi-octets (rounded
    * up to a whole pair), as many as fit before the NUL in an `outSize` buffer. */
  method DecodeSemiOctetNumber(hex: seq<char>, length: int, out: array<char>, outSize: int)
    requires 0 <= length && length + length % 2 <= |hex|
    requires 1 <= outSize <= out.Length
    modifies out
    ensures var d := Digits(hex[..length + length % 2]);
            var n := Min(|d|, outSize - 1);
            out[..n] == d[..n] && out[n] == NUL
            && forall k :: n < k < out.Length ==> out[k] == old(out[k])
  {
    var pos := 0;
    var i := 0;
    ghost var digits: seq<char> := [];
    ghost var end := length + length % 2;
    while i < length && pos < outSize - 1
      invariant i % 2 == 0 && 0 <= i <= end
      invariant digits == Digits(hex[..i])
      invariant pos == Min(|digits|, outSize - 1)
      invariant forall k :: 0 <= k < pos ==> out[k] == digits[k]
      invariant forall k :: pos <= k < out.Length ==> out[k] == old(out[k])
    {
      DigitsSnoc(hex, i);
      pos := PutPair(out, pos, hex[i], hex[i + 1], outSize, digits);
      digits := digits + Unswap(hex[i], hex[i + 1]);
      i := i + 2;
    }
    DigitsCut(hex, i, end, pos, outSize, out[..]);
    out[pos] := NUL;
  }

  // ---------------------------------------------------------------- 7-bit packing

  /** `input[i] & 0x7F`. */
  function Septet(c: char): (s: nat)
    ensures s < 0x80
  {
    (c as int) % 0x80
  }

  /** `carry` after character `j`, whose group position is `j % 7`: the septet's
    * top bits that did not fit into the octet just written. */
  function CarryOut(t: seq<char>, j: nat): u8
    requires j < |t|
  {
    Shr(Septet(t[j]), 8 - j % 7)
  }

  /** The octet written for character `i`: its septet shifted up by `i % 7`, cut to
    * eight bits, or-ed with the carry of the character before it in its group. */
  function PackedOctet(t: seq<char>, i: nat): u8
    requires i < |t|
  {
    var carry := if i % 7 == 0 then 0 else CarryOut(t, i - 1);
    Or8(Shl8(Septet(t[i]), i % 7), carry)
  }

  /** The octets `pack7bit` writes for the first `n` characters, before the closing
    * carry: one per character, and the carry as an extra one after every seventh. */
  function PackedPrefix(t: seq<char>, n: nat): (r: seq<u8>)
    requires n <= |t|
    ensures |r| == n + n / 7
  {
    if n == 0 then []
    else PackedPrefix(t, n - 1) + [PackedOctet(t, n - 1)]
         + (if (n - 1) % 7 == 6 then [CarryOut(t, n - 1)] else [])
  }

  /** Everything `pack7bit` writes when `maxlen` does not cut it short. */
  function Packed(t: seq<char>): (r: seq<u8>)
    ensures |r| == |t| + |t| / 7 + (if |t| % 7 != 0 then 1 else 0)
  {
    PackedPrefix(t, |t|) + (if |t| % 7 != 0 then [CarryOut(t, |t| - 1)] else [])
  }

  /** Character `7g + c` is at position `c` of group `g`; its octet is number
    * `8g + c`, and after the seventh of a group the carry is number `8g + 7`. */
  lemma {:induction false} PrefixAt(t: seq<char>, n: nat, g: nat, c: nat)
    requires c < 7 && 7 * g + c < n <= |t|
    ensures var p := PackedPrefix(t, n);
            8 * g + c < |p| && p[8 * g + c] == PackedOctet(t, 7 * g + c)
            && (c == 6 ==> 8 * g + 7 < |p| && p[8 * g + 7] == CarryOut(t, 7 * g + 6))
    decreases n
  {
    var i := 7 * g + c;
    Arith.DivUnique(i, 7, g, c);
    if n - 1 != i {
      PrefixAt(t, n - 1, g, c);
    }
  }

  /** The octets of character `7g + c` within everything `pack7bit` writes, with
    * the group position `c` spelled out: its septet shifted up by `c` and or-ed with
    * the previous septet shifted right by `9 - c`, and after the seventh character of a
    * group that character's septet shifted right by 2. */
  lemma PackedAt(t: seq<char>, g: nat, c: nat)
    requires c < 7 && 7 * g + c < |t|
    ensures var i := 7 * g + c; var p := Packed(t);
            8 * g + c < |p|
            && p[8 * g + c] == Or8(Shl8(Septet(t[i]), c), if c == 0 then 0 else Shr(Septet(t[i - 1]), 9 - c))
            && (c == 6 ==> 8 * g + 7 < |p| && p[8 * g + 7] == Shr(Septet(t[i]), 2))
  {
    var i := 7 * g + c;
    OctetAt(t, g, c);
    if c > 0 {
      OctetAt(t, g, c - 1);
    }
    PrefixAt(t, |t|, g, c);
    var q := PackedPrefix(t, |t|);
    var p := Packed(t);
    assert p[..|q|] == q;
    assert p[8 * g + c] == q[8 * g + c];
    if c == 6 {
      assert p[8 * g + 7] == q[8 * g + 7];
    }
  }

  /** The octet and the carry of character `7g + c`, with its group position spelled out. */
  lemma OctetAt(t: seq<char>, g: nat, c: nat)
    requires c < 7 && 7 * g + c < |t|
    ensures var i := 7 * g + c;
            PackedOctet(t, i) == Or8(Shl8(Septet(t[i]), c), if c == 0 then 0 else CarryOut(t, i - 1))
            && CarryOut(t, i) == Shr(Septet(t[i]), 8 - c)
  {
    var i := 7 * g + c;
    Arith.DivUnique(i, 7, g, c);
    assert i % 7 == c;
  }

  /** A text of `7g + c` characters packs to `8g + c` octets and, when `c > 0`, the
    * closing carry: the last septet shifted right by `9 - c`. */
  lemma PackedEnd(t: seq<char>, g: nat, c: nat)
    requires c < 7 && |t| == 7 * g + c
    ensures var p := Packed(t);
            |p| == 8 * g + c + (if c > 0 then 1 else 0)
            && (c > 0 ==> p[8 * g + c] == Shr(Septet(t[|t| - 1]), 9 - c))
  {
    Arith.DivUnique(|t|, 7, g, c);
    if c > 0 {
      OctetAt(t, g, c - 1);
    }
  }

  /** One pass of `pack7bit`'s loop: the character's octet, the carry it leaves, and
    * after the seventh character of a group the carry as an extra octet. */
  method PackSeptet(output: array<u8>, n: int, ch: char, carry: u8, carryBits: int)
    returns (n': int, carry': u8, carryBits': int)
    requires 0 <= carryBits < 7
    requires 0 <= n && n + (if carryBits == 6 then 2 else 1) <= output.Length
    modifies output
    ensures output[n] == Or8(Shl8(Septet(ch), carryBits), carry)
    ensures carryBits < 6 ==> n' == n + 1 && carry' == Shr(Septet(ch), 8 - carryBits) && carryBits' == carryBits + 1
    ensures carryBits == 6 ==> n' == n + 2 && output[n + 1] == Shr(Septet(ch), 2) && carry' == 0 && carryBits' == 0
    ensures forall k :: 0 <= k < output.Length && !(n <= k < n') ==> output[k] == old(output[k])
  {
    var septet := Septet(ch);
    var val := Or8(Shl8(septet, carryBits), carry);
    n' := n;
    output[n'] := val;
    n' := n' + 1;
    carry' := Shr(septet, 8 - carryBits);
    carryBits' := carryBits + 1;
    if carryBits' == 7 {
      output[n'] := carry';
      n' := n' + 1;
      carry' := 0;
      carryBits' := 0;
    }
  }

  /** The state of `pack7bit` at the head of its loop after `i` characters: groups of
    * seven characters written as eight octets, the carry of the last character, and
    * everything written so far as `Packed` has it. */
  ghost predicate PackState(output: array<u8>, t: seq<char>, maxlen: int, i: int, n: int, carry: u8, carryBits: int, group: nat)
    reads output
  {
    0 <= i <= |t| && 0 <= carryBits < 7 && i == 7 * group + carryBits
    && n == 8 * group + carryBits && n <= |Packed(t)| && n <= output.Length
    && (n <= maxlen || (n == maxlen + 1 && carryBits == 0 && maxlen == 8 * group - 1))
    && carry == (if carryBits == 0 then 0 else Shr(Septet(t[i - 1]), 9 - carryBits))
    && forall k :: 0 <= k < n ==> output[k] == Packed(t)[k]
  }

  /** One pass of `pack7bit`'s loop: the octets of character `i` land where `Packed`
    * puts them. */
  method PackStep(output: array<u8>, ghost t: seq<char>, ch: char, maxlen: int, i: int, n: int, carry: u8, carryBits: int, ghost group: nat)
    returns (n': int, carry': u8, carryBits': int, ghost group': nat)
    requires 1 <= maxlen <= output.Length
    requires maxlen % 8 == 7 && |t| > 7 * (maxlen / 8) + 6 ==> maxlen < output.Length
    requires PackState(output, t, maxlen, i, n, carry, carryBits, group)
    requires i < |t| && n < maxlen && ch == t[i]
    modifies output
    ensures PackState(output, t, maxlen, i + 1, n', carry', carryBits', group')
    ensures forall k :: n' <= k < output.Length ==> output[k] == old(output[k])
  {
    Arith.DivCase(maxlen, 8, group, 7);
    PackedAt(t, group, carryBits);
    n', carry', carryBits' := PackSeptet(output, n, ch, carry, carryBits);
    group' := if carryBits' == 0 then group + 1 else group;
  }

  /** The end of `pack7bit`: the closing carry when there is one and room for it. */
  method PackClose(output: array<u8>, ghost t: seq<char>, maxlen: int, i: int, n: int, carry: u8, carryBits: int, ghost group: nat)
    returns (n': int)
    requires 1 <= maxlen <= output.Length
    requires PackState(output, t, maxlen, i, n, carry, carryBits, group)
    requires i == |t| || maxlen <= n
    modifies output
    ensures n <= n' <= output.Length
    ensures var p := Packed(t);
            n' <= |p| && (forall k :: 0 <= k < n' ==> output[k] == p[k])
            && (|p| <= maxlen ==> n' == |p|)
            && (n' < |p| ==> maxlen <= n')
            && (n' <= maxlen || (n' == maxlen + 1 && maxlen % 8 == 7))
    ensures forall k :: n' <= k < output.Length ==> output[k] == old(output[k])
  {
    if i == |t| {
      PackedEnd(t, group, carryBits);
    }
    n' := n;
    if carryBits > 0 && n < maxlen {
      output[n'] := carry;
      n' := n' + 1;
    }
    Arith.DivCase(maxlen, 8, group - 1, 7);
  }

  /** `pack7bit` of the characters `t` of a C string (the `strlen(input)` of them) into
    * an output buffer of `maxlen` octets. `maxlen` is tested only
    * after the extra octet of a seventh character, so when `maxlen % 8 == 7` and the
    * text reaches character `7 * (maxlen / 8) + 6`, one octet lands at `maxlen`. */
  method Pack7bit(t: seq<char>, output: array<u8>, maxlen: int) returns (n: int)
    requires 1 <= maxlen <= output.Length
    requires maxlen % 8 == 7 && |t| > 7 * (maxlen / 8) + 6 ==> maxlen < output.Length
    modifies output
    ensures 0 <= n <= output.Length
    ensures var p := Packed(t);
            n <= |p| && (forall k :: 0 <= k < n ==> output[k] == p[k])
            && (|p| <= maxlen ==> n == |p|)
            && (n < |p| ==> maxlen <= n)
            && (n <= maxlen || (n == maxlen + 1 && maxlen % 8 == 7))
    ensures forall k :: n <= k < output.Length ==> output[k] == old(output[k])
  {
    var len := |t|;
    n := 0;
    var carryBits := 0;
    var carry: u8 := 0;
    var i := 0;
    ghost var group := 0;
    // The source breaks out at the end of a pass once `outIndex >= maxlen`; as
    // `maxlen >= 1`, testing that at the head of the next pass is the same.
    while i < len && n < maxlen
      invariant PackState(output, t, maxlen, i, n, carry, carryBits, group)
      invariant forall k :: n <= k < output.Length ==> output[k] == old(output[k])
    {
      n, carry, carryBits, group := PackStep(output, t, t[i], maxlen, i, n, carry, carryBits, group);
      i := i + 1;
    }
    n := PackClose(output, t, maxlen, i, n, carry, carryBits, group);
  }

  // ---------------------------------------------------------------- 7-bit unpacking

  /** Septet `i` lies in the data: its byte, and the next one when it is needed. */
  predicate SeptetReadable(data: seq<u8>, i: nat)
  {
    7 * i / 8 + (if 7 * i % 8 > 1 then 1 else 0) < |data|
  }

  /** Septet `i` as `decode7bit` reads it: byte `7 * i / 8` shifted down by
    * `7 * i % 8`, or-ed with the next byte shifted up when fewer than seven bits
    * remain, and masked to seven bits. */
  function UnpackedSeptet(data: seq<u8>, i: nat): (c: char)
    requires SeptetReadable(data, i)
    ensures c as int < 0x80
  {
    var bytePos := 7 * i / 8;
    var bit := 7 * i % 8;
    var low := Shr(data[bytePos], bit);
    var val := if bit > 1 then Or16(low, NextBits(data[bytePos + 1], bit)) else low;
    (val % 0x80) as char
  }

  /** `data[bytePos + 1] << (8 - bitInByte)`, which fits in 16 bits. */
  function NextBits(b: u8, bit: nat): u16
    requires 2 <= bit < 8
  {
    assert Pow2(8 - bit) <= 64 by {
      assert Pow2(6) == 64;
      if bit == 3 { assert Pow2(5) == 32; }
      if bit == 4 { assert Pow2(4) == 16; }
      if bit == 5 { assert Pow2(3) == 8; }
    }
    b * Pow2(8 - bit)
  }

  /** The first `n` septets of the data, as characters. */
  function Septets(data: seq<u8>, n: nat): (s: seq<char>)
    requires forall i :: 0 <= i < n ==> SeptetReadable(data, i)
    ensures |s| == n
    ensures forall i :: 0 <= i < n ==> s[i] == UnpackedSeptet(data, i) && s[i] as int < 0x80
  {
    if n == 0 then [] else Septets(data, n - 1) + [UnpackedSeptet(data, n - 1)]
  }

  /** The body of `decode7bit`'s loop: one septet read from its byte and, when fewer
    * than seven bits remain there, the next. */
  method ReadSeptet(data: seq<u8>, i: int) returns (c: char)
    requires 0 <= i && SeptetReadable(data, i)
    ensures c == UnpackedSeptet(data, i)
  {
    var bytePos := 7 * i / 8;
    var bitInByte := 7 * i % 8;
    var val: u16 := Shr(data[bytePos], bitInByte);
    if bitInByte > 1 {
      val := Or16(val, NextBits(data[bytePos + 1], bitInByte));
    }
    c := (val % 0x80) as char;
  }

  /** `decode7bit`: `septetCount` septets, cut to the `outSize` buffer, then a NUL. */
  method Decode7bit(data: seq<u8>, septetCount: int, out: array<char>, outSize: int)
    requires 1 <= outSize <= out.Length
    requires forall i :: 0 <= i < septetCount && i < outSize - 1 ==> SeptetReadable(data, i)
    modifies out
    ensures var n := Min(Max(septetCount, 0), outSize - 1);
            (forall k :: 0 <= k < n ==> out[k] == Septets(data, n)[k]) && out[n] == NUL
            && forall k :: n < k < out.Length ==> out[k] == old(out[k])
  {
    ghost var s := Septets(data, Min(Max(septetCount, 0), outSize - 1));
    var outPos := 0;
    var i := 0;
    while i < septetCount && outPos < outSize - 1
      invariant 0 <= i == outPos <= Min(Max(septetCount, 0), outSize - 1)
      invariant forall k :: 0 <= k < outPos ==> out[k] == s[k]
      invariant forall k :: outPos <= k < out.Length ==> out[k] == old(out[k])
    {
      out[outPos] := ReadSeptet(data, i);
      outPos := outPos + 1;
      i := i + 1;
    }
    out[outPos] := NUL;
  }

  // ---------------------------------------------------------------- UCS2

  /** What `encodeUCS2` writes for a text: 0x00 and the character's byte, per character. */
  function Ucs2(t: seq<char>): (r: seq<u8>)
    ensures |r| == 2 * |t|
    ensures forall k :: 0 <= k < |t| ==> r[2 * k] == 0 && r[2 * k + 1] == ToU8(t[k] as int)
  {
    if t == [] then [] else Ucs2(t[..|t| - 1]) + [0, ToU8(t[|t| - 1] as int)]
  }

  /** `encodeUCS2` of the characters `t` of a C string: as many whole characters as
    * fit in `maxlen` octets, each as a zero octet and then its low eight bits. */
  method EncodeUCS2(t: seq<char>, out: array<u8>, maxlen: int) returns (n: int)
    requires maxlen <= out.Length
    modifies out
    ensures n == 2 * Min(|t|, Max(maxlen, 0) / 2)
    ensures forall k :: 0 <= k < n ==> out[k] == Ucs2(t)[k]
    ensures forall k :: n <= k < out.Length ==> out[k] == old(out[k])
  {
    ghost var u := Ucs2(t);
    var len := |t|;
    n := 0;
    var i := 0;
    while i < len && n + 1 < maxlen
      invariant 0 <= i <= len && n == 2 * i && i <= Max(maxlen, 0) / 2
      invariant i < len && n + 1 >= maxlen ==> i == Max(maxlen, 0) / 2
      invariant forall k :: 0 <= k < n ==> out[k] == u[k]
      invariant forall k :: n <= k < out.Length ==> out[k] == old(out[k])
    {
      out[n] := 0;
      n := n + 1;
      out[n] := ToU8(t[i] as int);
      n := n + 1;
      i := i + 1;
    }
  }

  /** One UCS2 code unit as `decodeUCS2` prints it: ASCII as itself, anything else as '?'. */
  function CodeUnitChar(hi: u8, lo: u8): (c: char)
    ensures hi == 0 && lo < 0x80 ==> c as int == lo
    ensures hi != 0 || lo >= 0x80 ==> c == '?'
  {
    var ch := hi * 0x100 + lo;
    if ch < 0x80 then ch as char else '?'
  }

  /** The first `n` code units of the data, as characters. */
  function Ucs2Chars(data: seq<u8>, n: nat): (s: seq<char>)
    requires 2 * n <= |data|
    ensures |s| == n
  {
    if n == 0 then [] else Ucs2Chars(data, n - 1) + [CodeUnitChar(data[2 * n - 2], data[2 * n - 1])]
  }

  /** `decodeUCS2`: `byteCount / 2` code units, cut to the `outSize` buffer, then a NUL. */
  method DecodeUCS2(data: seq<u8>, byteCount: int, out: array<char>, outSize: int)
    requires 1 <= outSize <= out.Length
    requires 2 * Min(Max(byteCount, 0) / 2, outSize - 1) <= |data|
    modifies out
    ensures var n := Min(Max(byteCount, 0) / 2, outSize - 1);
            out[..n] == Ucs2Chars(data, n) && out[n] == NUL
            && forall k :: n < k < out.Length ==> out[k] == old(out[k])
  {
    var outPos := 0;
    var i := 0;
    while i + 1 < byteCount && outPos < outSize - 1
      invariant i == 2 * outPos && 0 <= outPos <= Min(Max(byteCount, 0) / 2, outSize - 1)
      invariant out[..outPos] == Ucs2Chars(data, outPos)
      invariant forall k :: outPos <= k < out.Length ==> out[k] == old(out[k])
    {
      var ch: int := (data[i] as int) * 0x100 + data[i + 1];
      out[outPos] := if ch < 0x80 then ch as char else '?';
      outPos := outPos + 1;
      i := i + 2;
    }
    out[outPos] := NUL;
  }

  /** Decoding what `encodeUCS2` wrote gives back every ASCII character, and '?' for
    * every other byte-sized one. */
  lemma {:induction false} Ucs2RoundTrip(t: seq<char>)
    requires forall k :: 0 <= k < |t| ==> (t[k] as int) < 0x100
    ensures var s := Ucs2Chars(Ucs2(t), |t|);
            forall k :: 0 <= k < |t| ==> s[k] == if (t[k] as int) < 0x80 then t[k] else '?'
  {
    if t != [] {
      var m := |t| - 1;
      Ucs2RoundTrip(t[..m]);
      var u := Ucs2(t);
      assert u[..2 * m] == Ucs2(t[..m]);
      Ucs2CharsPrefix(u, Ucs2(t[..m]), m);
    }
  }

  lemma {:induction false} Ucs2CharsPrefix(a: seq<u8>, b: seq<u8>, n: nat)
    requires 2 * n <= |a| && 2 * n <= |b| && a[..2 * n] == b[..2 * n]
    ensures Ucs2Chars(a, n) == Ucs2Chars(b, n)
  {
    if n > 0 {
      assert a[..2 * (n - 1)] == a[..2 * n][..2 * (n - 1)];
      assert b[..2 * (n - 1)] == b[..2 * n][..2 * (n - 1)];
      assert a[2 * n - 2] == a[..2 * n][2 * n - 2] && a[2 * n - 1] == a[..2 * n][2 * n - 1];
      assert b[2 * n - 2] == b[..2 * n][2 * n - 2] && b[2 * n - 1] == b[..2 * n][2 * n - 1];
      Ucs2CharsPrefix(a, b, n - 1);
    }
  }

  // ---------------------------------------------------------------- encodePDU

  /** The hex digits of `n`, most significant first, with no padding. */
  function HexNumeral(n: nat): (s: seq<char>)
    ensures 1 <= |s|
  {
    if n < 16 then [HexDigits[n]] else HexNumeral(n / 16) + [HexDigits[n % 16]]
  }

  /** What `sprintf(tmp, "%02X", n)` prints for a non-negative `n`: its hex digits,
    * padded with a zero to at least two. */
  function Printf02X(n: nat): (s: seq<char>)
    ensures 2 <= |s|
  {
    if n < 16 then ['0', HexDigits[n]] else HexNumeral(n)
  }

  /** For a byte, `%02X` prints what `byteToHex` writes. */
  lemma Printf02XOfByte(n: u8)
    ensures Printf02X(n) == Hex2(n)
  {
    if n >= 16 {
      assert HexNumeral(n / 16) == [HexDigits[n / 16]];
    }
  }

  function Pow16(k: nat): (p: nat)
    ensures p >= 1
  {
    if k == 0 then 1 else 16 * Pow16(k - 1)
  }

  /** A number below `16^k` has at most `k` hex digits. */
  lemma {:induction false} NumeralLength(n: nat, k: nat)
    requires 1 <= k && n < Pow16(k)
    ensures |HexNumeral(n)| <= k
  {
    if n >= 16 {
      if k == 1 {
        assert false;
      }
      NumeralLength(n / 16, k - 1);
    }
  }

  /** The two characters that stay of a `%02X` field once the next field is written
    * two places on: the whole field for a byte, its first two digits otherwise. */
  function Hex02(n: nat): (h: seq<char>)
    ensures |h| == 2
  {
    Printf02X(n)[..2]
  }

  /** The user data `encodePDU` builds in its 280-octet buffer. */
  function UserData(message: seq<char>, useUcs2: bool): (ud: seq<u8>)
    ensures |ud| <= 280
  {
    if useUcs2 then Ucs2(message)[..2 * Min(|message|, 140)]
    else Packed(message)[..Min(|Packed(message)|, 280)]
  }

  /** The number `encodePDU` prints as the user data length: octets for UCS2,
    * characters for the 7-bit alphabet. */
  function Udl(message: seq<char>, useUcs2: bool): nat
  {
    if useUcs2 then 2 * Min(|message|, 140) else |message|
  }

  /** Everything up to the user data length: no service centre, an SMS-SUBMIT first
    * octet, message reference 0, the destination in international format, protocol
    * identifier 0 and the coding scheme. */
  function SubmitHeader(dest: seq<char>, useUcs2: bool): (h: seq<char>)
    requires |dest| < 0x100
    ensures |h| == 14 + |SemiOctets(dest)|
  {
    "00" + "11" + "00" + Hex2(|dest|) + "91" + SemiOctets(dest) + "00" + (if useUcs2 then "08" else "00")
  }

  /** A PDU laid out as `encodePDU` lays it out, for a destination length `n`, its
    * semi-octets, the coding scheme, the length field's number and the user data. */
  function PduText(n: u8, semi: seq<char>, useUcs2: bool, udl: nat, ud: seq<u8>): (t: seq<char>)
    ensures |t| == 16 + |semi| + 2 * |ud|
  {
    SubmitFields(Hex2(n), semi, if useUcs2 then "08" else "00", Hex02(udl), HexOf(ud))
  }

  /** The fields of an SMS-SUBMIT PDU one after another, each already in hex: no
    * service centre, the first octet 11, message reference 00, the destination
    * length, its type 91 and its semi-octets, protocol 00, then the coding scheme,
    * the user data length and the user data. */
  function SubmitFields(n: seq<char>, semi: seq<char>, dcs: seq<char>, udl: seq<char>, ud: seq<char>): (t: seq<char>)
    ensures |t| == 10 + |n| + |semi| + |dcs| + |udl| + |ud|
  {
    "00" + "11" + "00" + n + "91" + semi + "00" + dcs + udl + ud
  }

  /** The text `encodePDU` writes. */
  function SubmitPdu(dest: seq<char>, message: seq<char>, useUcs2: bool): seq<char>
    requires |dest| < 0x100
  {
    PduText(|dest|, SemiOctets(dest), useUcs2, Udl(message, useUcs2), UserData(message, useUcs2))
  }

  /** The length field's digits all land inside the user data that overwrites them. */
  lemma UdlFits(message: seq<char>, useUcs2: bool)
    requires |message| < 0x8000_0000
    ensures |Printf02X(Udl(message, useUcs2))| <= 2 + 2 * |UserData(message, useUcs2)|
  {
    var n := Udl(message, useUcs2);
    if n < 0x100 {
      Printf02XOfByte(n);
    } else {
      assert Pow16(8) == 0x1_0000_0000 by {
        assert Pow16(2) == 0x100;
        assert Pow16(4) == 0x1_0000;
        assert Pow16(6) == 0x100_0000;
      }
      NumeralLength(n, 8);
      if !useUcs2 {
        assert |Packed(message)| >= |message|;
      }
    }
  }

  /** One field of `encodePDU`: `strcpy(p, s)` and then `p` moved past it, onto the
    * NUL. `w` is what the buffer holds before `p`, and `snap` what it held past `p`. */
  method Field(out: array<char>, p: int, s: seq<char>, ghost w: seq<char>, ghost snap: seq<char>)
    returns (p': int)
    requires 0 <= p && p + |s| < out.Length && |snap| == out.Length
    requires out[..p] == w
    requires forall k :: p < k < out.Length ==> out[k] == snap[k]
    modifies out
    ensures p' == p + |s| && out[..p'] == w + s
    ensures forall k :: p' < k < out.Length ==> out[k] == snap[k]
  {
    Strcpy(out, p, s);
    p' := p + |s|;
  }

  /** The fields of `encodePDU` up to the coding scheme, each written with `strcpy`
    * (or, for the semi-octets, `strncpy`) and the pointer moved past it. */
  method PutSubmitHeader(dest: seq<char>, useUcs2: bool, outPdu: array<char>) returns (p: int)
    requires |dest| <= 62
    requires |SubmitHeader(dest, useUcs2)| < outPdu.Length
    modifies outPdu
    ensures p == |SubmitHeader(dest, useUcs2)|
    ensures outPdu[..p] == SubmitHeader(dest, useUcs2)
    ensures forall k :: p < k < outPdu.Length ==> outPdu[k] == old(outPdu[k])
  {
    ghost var snap := outPdu[..];
    p := Field(outPdu, 0, "00", [], snap);
    p := Field(outPdu, p, "11", "00", snap);
    p := Field(outPdu, p, "00", "0011", snap);
    Printf02XOfByte(|dest|);
    var tmp := Printf02X(|dest|);
    p := Field(outPdu, p, tmp, "001100", snap);
    ghost var w := "001100" + Hex2(|dest|);
    p := Field(outPdu, p, "91", w, snap);
    w := w + "91";
    var semi := new char[64];
    var semiLen := EncodeSemiOctetNumber(dest, semi);
    Put(outPdu, p, semi[..semiLen]);
    p, w := p + semiLen, w + SemiOctets(dest);
    p := Field(outPdu, p, "00", w, snap);
    w := w + "00";
    p := Field(outPdu, p, if useUcs2 then "08" else "00", w, snap);
    assert w + (if useUcs2 then "08" else "00") == SubmitHeader(dest, useUcs2);
  }

  lemma SeqAssoc<T>(a: seq<T>, b: seq<T>, c: seq<T>)
    ensures a + b + c == a + (b + c)
  {
  }

  lemma HexOfSnoc(bytes: seq<u8>, i: nat)
    requires i < |bytes|
    ensures HexOf(bytes[..i + 1]) == HexOf(bytes[..i]) + Hex2(bytes[i])
  {
    assert bytes[..i + 1][..i] == bytes[..i];
  }

  /** The loop of `encodePDU` over the user data: two hex digits per octet, each
    * written by `byteToHex` and copied with `strcpy`. `limit` is the last place the
    * length field wrote to. */
  method PutUserData(ud: array<u8>, udLen: int, outPdu: array<char>, p0: int, ghost limit: int)
    returns (p: int)
    requires 0 <= udLen <= ud.Length && 0 <= p0
    requires p0 + 2 * udLen < outPdu.Length
    modifies outPdu
    ensures p == p0 + 2 * udLen
    ensures outPdu[..p] == old(outPdu[..p0]) + HexOf(ud[..udLen])
    ensures forall k :: p < k < outPdu.Length && limit < k ==> outPdu[k] == old(outPdu[k])
  {
    p := p0;
    ghost var bytes := ud[..udLen];
    ghost var pre := outPdu[..p0];
    var i := 0;
    while i < udLen
      invariant 0 <= i <= udLen && p == p0 + 2 * i
      invariant outPdu[..p] == pre + HexOf(bytes[..i])
      invariant forall k :: p < k < outPdu.Length && limit < k ==> outPdu[k] == old(outPdu[k])
    {
      PutHexByte(outPdu, p, ud[i]);
      HexOfSnoc(bytes, i);
      SeqAssoc(pre, HexOf(bytes[..i]), Hex2(bytes[i]));
      p := p + 2;
      i := i + 1;
    }
    assert bytes[..udLen] == bytes;
  }

  /** One turn of `encodePDU`'s user data loop: `byteToHex` into a small buffer, then
    * `strcpy` of its two digits. */
  method PutHexByte(outPdu: array<char>, p: int, b: u8)
    requires 0 <= p && p + 2 < outPdu.Length
    modifies outPdu
    ensures outPdu[..p + 2] == old(outPdu[..p]) + Hex2(b)
    ensures forall k :: p + 2 < k < outPdu.Length ==> outPdu[k] == old(outPdu[k])
  {
    var hex := new char[3];
    ByteToHex(b, hex);
    assert hex[..2] == Hex2(b) by {
      assert hex[..2] == hex[..3][..2];
    }
    Strcpy(outPdu, p, hex[..2]);
  }

  /** The user data of `encodePDU` in its `ud[280]` buffer, and the number its
    * length field prints. */
  method BuildUserData(message: seq<char>, useUcs2: bool) returns (ud: array<u8>, udLen: int, udl: int)
    ensures fresh(ud) && ud.Length == 280
    ensures 0 <= udLen == |UserData(message, useUcs2)| && ud[..udLen] == UserData(message, useUcs2)
    ensures udl == Udl(message, useUcs2)
  {
    ud := new u8[280];
    if useUcs2 {
      udLen := EncodeUCS2(message, ud, 280);
      udl := udLen;
    } else {
      udLen := Pack7bit(message, ud, 280);
      udl := |message|;
    }
  }

  /** The user data length field and the user data of `encodePDU`. The field is
    * printed with `%02X` and the pointer moved two places on, so the hex of the
    * user data overwrites any third digit. */
  method PutUdlAndData(outPdu: array<char>, p0: int, udl: nat, ud: array<u8>, udLen: int) returns (p: int)
    requires 0 <= udLen <= ud.Length && 0 <= p0
    requires |Printf02X(udl)| <= 2 + 2 * udLen && p0 + 2 + 2 * udLen < outPdu.Length
    modifies outPdu
    ensures p == p0 + 2 + 2 * udLen
    ensures outPdu[..p] == old(outPdu[..p0]) + Hex02(udl) + HexOf(ud[..udLen]) && outPdu[p] == NUL
    ensures forall k :: p < k < outPdu.Length ==> outPdu[k] == old(outPdu[k])
  {
    ghost var header := outPdu[..p0];
    var tmp := Printf02X(udl);
    Strcpy(outPdu, p0, tmp);
    assert outPdu[..p0 + 2] == header + Hex02(udl) by {
      assert outPdu[..p0 + 2] == outPdu[..p0 + |tmp|][..p0 + 2];
    }
    p := PutUserData(ud, udLen, outPdu, p0 + 2, p0 + |tmp|);
    outPdu[p] := NUL;
  }

  /** `encodePDU` for the destination digits `dest` and the text `message`. */
  method EncodePDU(dest: seq<char>, message: seq<char>, useUcs2: bool, outPdu: array<char>)
    returns (totalLen: int)
    requires |dest| <= 62 && |message| < 0x8000_0000
    requires |SubmitPdu(dest, message, useUcs2)| < outPdu.Length
    modifies outPdu
    ensures totalLen == |SubmitPdu(dest, message, useUcs2)|
    ensures outPdu[..totalLen] == SubmitPdu(dest, message, useUcs2) && outPdu[totalLen] == NUL
    ensures forall k :: totalLen < k < outPdu.Length ==> outPdu[k] == old(outPdu[k])
  {
    var p := PutSubmitHeader(dest, useUcs2, outPdu);
    var ud, udLen, udl := BuildUserData(message, useUcs2);
    UdlFits(message, useUcs2);
    p := PutUdlAndData(outPdu, p, udl, ud, udLen);
    totalLen := p;
  }

  /** Octet `k` of a run of bytes is at hex digits `2k` and `2k + 1`. */
  lemma {:induction false} HexOfAt(bytes: seq<u8>, k: nat)
    requires k < |bytes|
    ensures HexOf(bytes)[2 * k] == Hex2(bytes[k])[0] && HexOf(bytes)[2 * k + 1] == Hex2(bytes[k])[1]
  {
    var m := |bytes| - 1;
    if k < m {
      HexOfAt(bytes[..m], k);
      assert bytes[..m][k] == bytes[k];
    }
  }

  /** Hex text read back two digits at a time gives the bytes it was made from. */
  lemma HexOfReadsBack(bytes: seq<u8>)
    ensures var h := HexOf(bytes);
            forall k :: 0 <= k < |bytes| ==> HexToByte(h[2 * k], h[2 * k + 1]) == bytes[k]
  {
    forall k | 0 <= k < |bytes|
      ensures HexToByte(HexOf(bytes)[2 * k], HexOf(bytes)[2 * k + 1]) == bytes[k]
    {
      HexOfAt(bytes, k);
      ByteHexRoundTrip(bytes[k]);
    }
  }

  /** Where each field of an SMS-SUBMIT PDU lies, for fields of any content. */
  lemma SubmitFieldsAt(n: seq<char>, semi: seq<char>, dcs: seq<char>, udl: seq<char>, ud: seq<char>)
    requires |n| == |dcs| == |udl| == 2
    ensures var t := SubmitFields(n, semi, dcs, udl, ud);
            var s := |semi|;
            t[..6] == "001100" && t[6] == n[0] && t[7] == n[1] && t[8..10] == "91"
            && t[10..10 + s] == semi && t[10 + s..12 + s] == "00"
            && t[12 + s] == dcs[0] && t[13 + s] == dcs[1] && t[14 + s] == udl[0] && t[15 + s] == udl[1]
            && forall j :: 0 <= j < |ud| ==> t[16 + s + j] == ud[j]
  {
  }

  /** Reading back the fields of an SMS-SUBMIT PDU, for any fields whose hex pairs
    * spell the destination length, the coding scheme, the length field and the
    * user data octets. */
  lemma SubmitFieldsReadBack(nHex: seq<char>, semi: seq<char>, dcsHex: seq<char>, udlHex: seq<char>,
                             udHex: seq<char>, n: u8, dcs: u8, udl: u8, ud: seq<u8>, udlFits: bool)
    requires |nHex| == |dcsHex| == |udlHex| == 2 && |udHex| == 2 * |ud|
    requires HexToByte(nHex[0], nHex[1]) == n && HexToByte(dcsHex[0], dcsHex[1]) == dcs
    requires udlFits ==> HexToByte(udlHex[0], udlHex[1]) == udl
    requires forall k :: 0 <= k < |ud| ==> HexToByte(udHex[2 * k], udHex[2 * k + 1]) == ud[k]
    ensures var t := SubmitFields(nHex, semi, dcsHex, udlHex, udHex);
            var s := |semi|;
            t[..6] == "001100" && ByteAt(t, 6) == n && t[8..10] == "91"
            && t[10..10 + s] == semi && t[10 + s..12 + s] == "00" && ByteAt(t, 12 + s) == dcs
            && (udlFits ==> ByteAt(t, 14 + s) == udl)
            && forall k :: 0 <= k < |ud| ==> ByteAt(t, 16 + s + 2 * k) == ud[k]
  {
    var t := SubmitFields(nHex, semi, dcsHex, udlHex, udHex);
    var s := |semi|;
    SubmitFieldsAt(nHex, semi, dcsHex, udlHex, udHex);
    forall k | 0 <= k < |ud|
      ensures ByteAt(t, 16 + s + 2 * k) == ud[k]
    {
      assert t[16 + s + 2 * k] == udHex[2 * k] && t[16 + s + 2 * k + 1] == udHex[2 * k + 1];
    }
  }

  /** Reading back the fields of a PDU laid out as `encodePDU` lays it out, for any
    * semi-octets, coding scheme, length and user data. */
  lemma PduReadsBack(n: u8, semi: seq<char>, useUcs2: bool, udl: nat, ud: seq<u8>)
    ensures var t := PduText(n, semi, useUcs2, udl, ud);
            var s := |semi|;
            t[..6] == "001100" && ByteAt(t, 6) == n && t[8..10] == "91"
            && t[10..10 + s] == semi && t[10 + s..12 + s] == "00"
            && ByteAt(t, 12 + s) == (if useUcs2 then 8 else 0)
            && (udl < 0x100 ==> ByteAt(t, 14 + s) == udl)
            && forall k :: 0 <= k < |ud| ==> ByteAt(t, 16 + s + 2 * k) == ud[k]
  {
    var dcs: u8 := if useUcs2 then 8 else 0;
    ByteHexRoundTrip(n);
    assert (if useUcs2 then "08" else "00") == Hex2(dcs);
    ByteHexRoundTrip(dcs);
    var u: u8 := if udl < 0x100 then udl else 0;
    if udl < 0x100 {
      Printf02XOfByte(udl);
      ByteHexRoundTrip(udl);
    }
    HexOfReadsBack(ud);
    SubmitFieldsReadBack(Hex2(n), semi, if useUcs2 then "08" else "00", Hex02(udl), HexOf(ud),
                         n, dcs, u, ud, udl < 0x100);
  }

  /** The destination of a PDU laid out by `encodePDU`, read as `decodePDU` reads
    * an address (the length field, then that many digits rounded up to whole
    * octets), gives back the number when it has no 'F' in it. */
  lemma DestinationReadsBack(dest: seq<char>, useUcs2: bool, udl: nat, ud: seq<u8>)
    requires |dest| <= 62
    requires forall k :: 0 <= k < |dest| ==> dest[k] != 'F'
    ensures var t := PduText(|dest|, SemiOctets(dest), useUcs2, udl, ud);
            var semiLen := EvenUp(|dest|);
            ByteAt(t, 6) == |dest| && 10 + semiLen <= |t| && Digits(t[10..10 + semiLen]) == dest
  {
    PduReadsBack(|dest|, SemiOctets(dest), useUcs2, udl, ud);
    SemiOctetRoundTrip(dest);
  }

  /** Two octet strings that agree pair by pair are equal. */
  lemma {:induction false} PairwiseEqual(a: seq<u8>, b: seq<u8>, c: nat)
    requires |a| == |b| == 2 * c
    requires forall k :: 0 <= k < c ==> a[2 * k] == b[2 * k] && a[2 * k + 1] == b[2 * k + 1]
    ensures a == b
  {
    if c > 0 {
      var a', b' := a[..2 * c - 2], b[..2 * c - 2];
      forall k | 0 <= k < c - 1
        ensures a'[2 * k] == b'[2 * k] && a'[2 * k + 1] == b'[2 * k + 1]
      {
        assert a'[2 * k] == a[2 * k] && a'[2 * k + 1] == a[2 * k + 1];
        assert b'[2 * k] == b[2 * k] && b'[2 * k + 1] == b[2 * k + 1];
      }
      PairwiseEqual(a', b', c - 1);
      assert a == a' + [a[2 * c - 2], a[2 * c - 1]];
      assert b == b' + [b[2 * c - 2], b[2 * c - 1]];
    }
  }

  /** Cutting what `encodeUCS2` writes at a whole character is encoding the shorter text. */
  lemma Ucs2Prefix(t: seq<char>, c: nat)
    requires c <= |t|
    ensures Ucs2(t)[..2 * c] == Ucs2(t[..c])
  {
    var a, b := Ucs2(t)[..2 * c], Ucs2(t[..c]);
    forall k | 0 <= k < c
      ensures a[2 * k] == b[2 * k] && a[2 * k + 1] == b[2 * k + 1]
    {
      assert t[..c][k] == t[k];
    }
    PairwiseEqual(a, b, c);
  }

  /** In UCS2, the user data of `encodePDU` decodes back to the message, cut to 140
    * characters, when the message is ASCII. */
  lemma Ucs2UserDataReadsBack(message: seq<char>)
    requires forall k :: 0 <= k < |message| ==> (message[k] as int) < 0x80
    ensures var c := Min(|message|, 140);
            Ucs2Chars(UserData(message, true), c) == message[..c]
  {
    var c := Min(|message|, 140);
    var m := message[..c];
    Ucs2Prefix(message, c);
    Ucs2RoundTrip(m);
  }

  // ---------------------------------------------------------------- decodePDU

  /** `hexToByte` of the two characters at `pos`. */
  function ByteAt(pdu: seq<char>, pos: nat): u8
    requires pos + 2 <= |pdu|
  {
    HexToByte(pdu[pos], pdu[pos + 1])
  }

  /** Where `decodePDU` finds the fields of an SMS-DELIVER PDU: the originating
    * address's semi-octets and their count, the coding scheme, the service centre
    * time stamp, the user data length and the user data. */
  datatype Deliver = Deliver(addr: nat, semiLen: nat, dcs: u8, scts: nat, udl: u8, ud: nat)

  /** `(n + 1) / 2 * 2`: the number of semi-octets `n` digits take, a filler included. */
  function EvenUp(n: nat): (e: nat)
    ensures e % 2 == 0 && n <= e <= n + 1
  {
    (n + 1) / 2 * 2
  }

  /** The fields of a PDU, with `tsSkip` hex characters taken as the time stamp;
    * `None` when the PDU ends before the user data. The service centre field is
    * skipped by its length octet; the first octet, the address type and the
    * protocol identifier are read past. */
  function FieldsFrom(pdu: seq<char>, tsSkip: nat): (f: Option<Deliver>)
    ensures f.Some? ==> f.value.ud <= |pdu| && f.value.addr + f.value.semiLen <= f.value.scts
    ensures f.Some? ==> f.value.scts + tsSkip + 2 == f.value.ud && f.value.semiLen % 2 == 0
  {
    if |pdu| < 2 then None
    else
      var first := (1 + ByteAt(pdu, 0)) * 2;
      if first + 6 > |pdu| then None
      else
        var oaLen := ByteAt(pdu, first + 2);
        var addr := first + 6;
        var semiLen := EvenUp(oaLen);
        var pid := addr + semiLen;
        if pid + 4 > |pdu| then None
        else
          var scts := pid + 4;
          if scts + tsSkip + 2 > |pdu| then None
          else Some(Deliver(addr, semiLen, ByteAt(pdu, pid + 2), scts, ByteAt(pdu, scts + tsSkip), scts + tsSkip + 2))
  }

  /** The octets of the user data: every whole pair of hex digits from `from` to the
    * end of the PDU. */
  function UdOctets(pdu: seq<char>, from: nat): (b: seq<u8>)
    requires from <= |pdu|
    ensures |b| == (|pdu| - from) / 2
    ensures forall k :: 0 <= k < |b| ==> b[k] == ByteAt(pdu, from + 2 * k)
  {
    seq((|pdu| - from) / 2, k requires 0 <= k < (|pdu| - from) / 2 => ByteAt(pdu, from + 2 * k))
  }

  /** How many octets of the time stamp fit in a `tsSize` buffer with its NUL. */
  function TsPairs(tsSize: int): (n: nat)
    ensures n <= 7 && (tsSize >= 1 ==> 2 * n < tsSize)
  {
    if tsSize < 3 then 0 else Min(7, (tsSize - 1) / 2)
  }

  /** The text of `snprintf(message, msgSize, "[DCS %02X]", dcs)`. */
  function DcsText(dcs: u8): (t: seq<char>)
    ensures |t| == 8
  {
    "[DCS " + Hex2(dcs) + "]"
  }

  /** `snprintf(out, size, "%s", t)`: as much of `t` as fits with its NUL. */
  method Snprintf(out: array<char>, size: int, t: seq<char>)
    requires 1 <= size <= out.Length
    modifies out
    ensures var r := Truncate(t, size - 1);
            out[..|r|] == r && out[|r|] == NUL
            && forall k :: |r| < k < out.Length ==> out[k] == old(out[k])
  {
    var r := Truncate(t, size - 1);
    Put(out, 0, r);
    out[|r|] := NUL;
  }

  /** The loop of `decodePDU` over the time stamp: each octet's two digits swapped,
    * as many octets as fit, then a NUL. */
  method CopyTimestamp(pdu: seq<char>, scts: nat, timestamp: array<char>, tsSize: int)
    requires 1 <= tsSize <= timestamp.Length && scts + 14 <= |pdu|
    modifies timestamp
    ensures var n := TsPairs(tsSize);
            (forall j :: 0 <= j < n ==> timestamp[2 * j] == pdu[scts + 2 * j + 1] && timestamp[2 * j + 1] == pdu[scts + 2 * j])
            && timestamp[2 * n] == NUL
            && forall k :: 2 * n < k < timestamp.Length ==> timestamp[k] == old(timestamp[k])
  {
    var tsPos := 0;
    var p := scts;
    var i := 0;
    while i < 7 && tsPos + 2 < tsSize
      invariant 0 <= i <= TsPairs(tsSize) && tsPos == 2 * i && p == scts + 2 * i
      invariant i < TsPairs(tsSize) ==> i < 7 && tsPos + 2 < tsSize
      invariant forall j :: 0 <= j < i ==> timestamp[2 * j] == pdu[scts + 2 * j + 1] && timestamp[2 * j + 1] == pdu[scts + 2 * j]
      invariant forall k :: tsPos <= k < timestamp.Length ==> timestamp[k] == old(timestamp[k])
    {
      timestamp[tsPos] := pdu[p + 1];
      tsPos := tsPos + 1;
      timestamp[tsPos] := pdu[p];
      tsPos := tsPos + 1;
      p := p + 2;
      i := i + 1;
    }
    timestamp[tsPos] := NUL;
  }

  /** The `buf[280]` of `decodePDU` once filled: the user data octets, and past them
    * what the buffer held before (`stale`), which the source does not clear. */
  function UdBuffer(pdu: seq<char>, from: nat, stale: seq<u8>): (b: seq<u8>)
    requires from <= |pdu| && (|pdu| - from) / 2 <= 280 && |stale| == 280
    ensures |b| == 280
  {
    var ud := UdOctets(pdu, from);
    ud + stale[|ud|..]
  }

  /** The loop of `decodePDU` that fills `buf` from the hex digits after the length. */
  method FillBuffer(pdu: seq<char>, from: nat, stale: seq<u8>) returns (buf: array<u8>, udBytes: int)
    requires from <= |pdu| && (|pdu| - from) / 2 <= 280 && |stale| == 280
    ensures fresh(buf) && buf[..] == UdBuffer(pdu, from, stale)
    ensures udBytes == (|pdu| - from) / 2
  {
    ghost var b := UdBuffer(pdu, from, stale);
    buf := new u8[280](k requires 0 <= k < 280 => stale[k]);
    var remainingHex := |pdu| - from;
    udBytes := remainingHex / 2;
    var i := 0;
    while i < udBytes
      invariant 0 <= i <= udBytes
      invariant forall k :: 0 <= k < i ==> buf[k] == b[k]
      invariant forall k :: i <= k < 280 ==> buf[k] == stale[k]
    {
      buf[i] := ByteAt(pdu, from + i * 2);
      i := i + 1;
    }
    assert forall k :: udBytes <= k < 280 ==> b[k] == stale[k];
    assert buf[..] == b;
  }

  /** Septets up to number 254 lie inside a 280-octet buffer. */
  lemma SeptetsInBuffer(buf: seq<u8>, n: nat)
    requires |buf| == 280 && n <= 0xff
    ensures forall i :: 0 <= i < n ==> SeptetReadable(buf, i)
  {
  }

  /** The first `n` septets of the 280-octet user data buffer. */
  function BufferSeptets(buf: seq<u8>, n: nat): (s: seq<char>)
    requires |buf| == 280 && n <= 0xff
    ensures |s| == n
  {
    SeptetsInBuffer(buf, n);
    Septets(buf, n)
  }

  /** The text `decodePDU` leaves in `message`: 7-bit septets for coding scheme 0,
    * UCS2 characters for 8, and the `[DCS XX]` note for any other; each cut to fit a
    * `msgSize` buffer with its NUL. */
  function DecodedText(buf: seq<u8>, dcs: u8, udl: u8, udBytes: nat, msgSize: int): (t: seq<char>)
    requires |buf| == 280 && udBytes <= 280 && msgSize >= 1
    ensures |t| < msgSize
    ensures dcs == 0 ==> |t| == Min(udl, msgSize - 1) && forall k :: 0 <= k < |t| ==> t[k] as int < 0x80
    ensures dcs == 8 ==> |t| == Min(udBytes / 2, msgSize - 1)
    ensures dcs != 0 && dcs != 8 ==> t == Truncate("[DCS " + Hex2(dcs) + "]", msgSize - 1)
  {
    if dcs == 0 then BufferSeptets(buf, Min(udl, msgSize - 1))
    else if dcs == 8 then Ucs2Chars(buf, Min(udBytes / 2, msgSize - 1))
    else Truncate(DcsText(dcs), msgSize - 1)
  }

  /** The end of `decodePDU`: the coding scheme picks `decode7bit`, `decodeUCS2` or
    * the `snprintf` of a note. */
  method DecodeMessage(buf: seq<u8>, udl: u8, udBytes: nat, dcs: u8, message: array<char>, msgSize: int)
    requires |buf| == 280 && udBytes <= 280
    requires 1 <= msgSize <= message.Length
    modifies message
    ensures CutTo(message[..], old(message[..]), DecodedText(buf, dcs, udl, udBytes, msgSize), msgSize)
  {
    if dcs == 0 {
      SeptetsInBuffer(buf, Min(udl, msgSize - 1));
      Decode7bit(buf, udl, message, msgSize);
      ghost var t := DecodedText(buf, dcs, udl, udBytes, msgSize);
      assert message[..|t|] == t;
    } else if dcs == 8 {
      DecodeUCS2(buf, udBytes, message, msgSize);
    } else {
      Printf02XOfByte(dcs);
      Snprintf(message, msgSize, "[DCS " + Printf02X(dcs) + "]");
    }
  }

  /** `out` holds `t` cut to a `size` buffer, then a NUL, and past that what `before` held. */
  ghost predicate CutTo(out: seq<char>, before: seq<char>, t: seq<char>, size: int)
  {
    var n := Min(|t|, size - 1);
    0 <= n < |out| == |before| && out[..n] == t[..n] && out[n] == NUL
    && forall k :: n < k < |out| ==> out[k] == before[k]
  }

  /** `out` holds the first `TsPairs(size)` digit pairs of `ts`, each swapped, then a
    * NUL, and past that what `before` held. */
  ghost predicate TimestampCopied(out: seq<char>, before: seq<char>, ts: seq<char>, size: int)
    requires |ts| == 14
  {
    var n := TsPairs(size);
    2 * n < |out| == |before|
    && (forall j :: 0 <= j < n ==> out[2 * j] == ts[2 * j + 1] && out[2 * j + 1] == ts[2 * j])
    && out[2 * n] == NUL
    && forall k :: 2 * n < k < |out| ==> out[k] == before[k]
  }

  /** The start of `decodePDU`: past the service centre, the first octet, the address
    * length and type, to the sender's semi-octets and their count. */
  method AddressField(pdu: seq<char>) returns (p: nat, oaSemiLen: nat)
    requires FieldsFrom(pdu, 14).Some?
    ensures p == FieldsFrom(pdu, 14).value.addr && oaSemiLen == FieldsFrom(pdu, 14).value.semiLen
    ensures p + oaSemiLen <= |pdu| && oaSemiLen % 2 == 0
  {
    p := 0;
    var smscLen: int := ByteAt(pdu, p);
    p := p + (1 + smscLen) * 2;
    p := p + 2;  // the first octet
    var oaLen: int := ByteAt(pdu, p);
    p := p + 2;
    p := p + 2;  // the address type
    oaSemiLen := (oaLen + 1) / 2 * 2;
  }

  /** Past the time stamp, seven octets: the user data length. */
  method UserDataLength(pdu: seq<char>, p0: nat) returns (p: nat, udl: u8)
    requires FieldsFrom(pdu, 14).Some? && p0 == FieldsFrom(pdu, 14).value.scts
    ensures p == FieldsFrom(pdu, 14).value.ud && udl == FieldsFrom(pdu, 14).value.udl
  {
    p := p0 + 14;
    udl := ByteAt(pdu, p);
    p := p + 2;
  }

  /** The `decodeSemiOctetNumber` call of `decodePDU`. */
  method DecodeSender(pdu: seq<char>, p: nat, oaSemiLen: nat, sender: array<char>, senderSize: int)
    requires p + oaSemiLen <= |pdu| && oaSemiLen % 2 == 0
    requires 1 <= senderSize <= sender.Length
    modifies sender
    ensures CutTo(sender[..], old(sender[..]), Digits(pdu[p..p + oaSemiLen]), senderSize)
  {
    assert pdu[p..][..oaSemiLen + oaSemiLen % 2] == pdu[p..p + oaSemiLen];
    DecodeSemiOctetNumber(pdu[p..], oaSemiLen, sender, senderSize);
  }

  /** The time stamp loop of `decodePDU`. */
  method DecodeTimestamp(pdu: seq<char>, p: nat, timestamp: array<char>, tsSize: int)
    requires p + 14 <= |pdu| && 1 <= tsSize <= timestamp.Length
    modifies timestamp
    ensures TimestampCopied(timestamp[..], old(timestamp[..]), pdu[p..p + 14], tsSize)
  {
    CopyTimestamp(pdu, p, timestamp, tsSize);
  }

  /** Past the sender's digits: the protocol identifier, then the coding scheme. */
  method CodingScheme(pdu: seq<char>, p0: nat) returns (p: nat, dcs: u8)
    requires FieldsFrom(pdu, 14).Some?
    requires p0 == FieldsFrom(pdu, 14).value.addr + FieldsFrom(pdu, 14).value.semiLen
    ensures p == FieldsFrom(pdu, 14).value.scts && dcs == FieldsFrom(pdu, 14).value.dcs
  {
    p := p0 + 2;  // the protocol identifier
    dcs := ByteAt(pdu, p);
    p := p + 2;
  }

  /** `decodePDU` on an SMS-DELIVER PDU whose fields all lie inside the string: the
    * sender's digits, the time stamp's digit pairs swapped back, and the message.
    * `stale` is what the 280-octet buffer held before. The time stamp is skipped
    * whole, seven octets, before the user data length is read. */
  method DecodePDU(pdu: seq<char>, sender: array<char>, senderSize: int,
                   timestamp: array<char>, tsSize: int,
                   message: array<char>, msgSize: int, stale: seq<u8>)
    requires FieldsFrom(pdu, 14).Some?
    requires (|pdu| - FieldsFrom(pdu, 14).value.ud) / 2 <= 280 && |stale| == 280
    requires 1 <= senderSize <= sender.Length && 1 <= tsSize <= timestamp.Length
    requires 1 <= msgSize <= message.Length
    requires sender != timestamp && sender != message && timestamp != message
    modifies sender, timestamp, message
    ensures var f := FieldsFrom(pdu, 14).value;
            CutTo(sender[..], old(sender[..]), Digits(pdu[f.addr..f.addr + f.semiLen]), senderSize)
    ensures var f := FieldsFrom(pdu, 14).value;
            TimestampCopied(timestamp[..], old(timestamp[..]), pdu[f.scts..f.scts + 14], tsSize)
    ensures var f := FieldsFrom(pdu, 14).value;
            CutTo(message[..], old(message[..]), DecodedText(UdBuffer(pdu, f.ud, stale), f.dcs, f.udl, (|pdu| - f.ud) / 2, msgSize), msgSize)
  {
    var p, oaSemiLen := AddressField(pdu);
    DecodeSender(pdu, p, oaSemiLen, sender, senderSize);
    ghost var senderOut := sender[..];
    var dcs;
    p, dcs := CodingScheme(pdu, p + oaSemiLen);
    DecodeTimestamp(pdu, p, timestamp, tsSize);
    ghost var timestampOut := timestamp[..];
    var udl;
    p, udl := UserDataLength(pdu, p);
    var buf, udBytes := FillBuffer(pdu, p, stale);
    DecodeMessage(buf[..], udl, udBytes, dcs, message, msgSize);
    assert sender[..] == senderOut;
    assert timestamp[..] == timestampOut;
  }

  /** The fields of an SMS-DELIVER PDU one after another, each already in hex. */
  function DeliverFields(n: seq<char>, sca: seq<char>, first: seq<char>, oaLen: seq<char>, oaType: seq<char>,
                         semi: seq<char>, pid: seq<char>, dcs: seq<char>, scts: seq<char>, udl: seq<char>,
                         ud: seq<char>): (t: seq<char>)
    ensures |t| == |n| + |sca| + |first| + |oaLen| + |oaType| + |semi| + |pid| + |dcs| + |scts| + |udl| + |ud|
  {
    n + sca + first + oaLen + oaType + semi + pid + dcs + scts + udl + ud
  }

  /** An SMS-DELIVER PDU as the modem hands it over: the service centre field (its
    * length in octets, then `sca`), the first octet, the sender's address (its
    * length in digits, its type, its semi-octets), the protocol identifier, the
    * coding scheme, the time stamp's semi-octets, the user data length and the user
    * data, all in hex. */
  function DeliverText(sca: seq<char>, first: u8, oaLen: u8, oaType: u8, semi: seq<char>,
                       pid: u8, dcs: u8, scts: seq<char>, udl: u8, ud: seq<u8>): (t: seq<char>)
    requires |sca| % 2 == 0 && |sca| / 2 < 0x100
    ensures |t| == 14 + |sca| + |semi| + |scts| + 2 * |ud|
  {
    DeliverFields(Hex2(|sca| / 2), sca, Hex2(first), Hex2(oaLen), Hex2(oaType), semi,
                  Hex2(pid), Hex2(dcs), scts, Hex2(udl), HexOf(ud))
  }

  /** Where each field of an SMS-DELIVER PDU lies, for fields of any content. */
  lemma DeliverFieldsAt(n: seq<char>, sca: seq<char>, first: seq<char>, oaLen: seq<char>, oaType: seq<char>,
                        semi: seq<char>, pid: seq<char>, dcs: seq<char>, scts: seq<char>, udl: seq<char>,
                        ud: seq<char>)
    requires |n| == |first| == |oaLen| == |oaType| == |pid| == |dcs| == |udl| == 2 && |scts| == 14
    ensures var t := DeliverFields(n, sca, first, oaLen, oaType, semi, pid, dcs, scts, udl, ud);
            var S, s := |sca|, |semi|;
            var a, c := 8 + S, 12 + S + s;
            t[0] == n[0] && t[1] == n[1] && t[4 + S] == oaLen[0] && t[5 + S] == oaLen[1]
            && t[a..a + s] == semi && t[a + s + 2] == dcs[0] && t[a + s + 3] == dcs[1]
            && t[c..c + 14] == scts && t[c + 14] == udl[0] && t[c + 15] == udl[1]
            && t[c + 16..] == ud
  {
  }

  /** Where the fields of an SMS-DELIVER PDU lie after a service centre field of
    * `S` hex characters and an address of `s` semi-octets. */
  function DeliverAt(S: nat, s: nat, dcs: u8, udl: u8): (f: Deliver)
    ensures f.addr == 8 + S && f.semiLen == s && f.scts == f.addr + s + 4 && f.ud == f.scts + 16
    ensures f.dcs == dcs && f.udl == udl
  {
    Deliver(8 + S, s, dcs, 12 + S + s, udl, 28 + S + s)
  }

  /** The field positions `FieldsFrom` computes from the length octets it reads. */
  lemma FieldsFound(t: seq<char>, S: nat, oaLen: u8, s: nat, dcs: u8, udl: u8)
    requires S % 2 == 0 && S / 2 < 0x100 && s == (oaLen + 1) / 2 * 2 && 28 + S + s <= |t|
    requires ByteAt(t, 0) == S / 2 && ByteAt(t, 4 + S) == oaLen
    requires ByteAt(t, 10 + S + s) == dcs && ByteAt(t, 26 + S + s) == udl
    ensures FieldsFrom(t, 14) == Some(DeliverAt(S, s, dcs, udl))
  {
  }

  /** User data whose hex pairs read back as `ud` decodes to `ud`. */
  lemma UdOctetsReadBack(t: seq<char>, from: nat, udHex: seq<char>, ud: seq<u8>)
    requires from <= |t| && t[from..] == udHex && |udHex| == 2 * |ud|
    requires forall k :: 0 <= k < |ud| ==> HexToByte(udHex[2 * k], udHex[2 * k + 1]) == ud[k]
    ensures UdOctets(t, from) == ud
  {
    forall k | 0 <= k < |ud|
      ensures UdOctets(t, from)[k] == ud[k]
    {
      assert t[from + 2 * k] == udHex[2 * k] && t[from + 2 * k + 1] == udHex[2 * k + 1];
    }
  }

  /** The fields `decodePDU` finds in `t` lie where `f` says and hold these
    * address semi-octets, this time stamp and this user data. */
  predicate LaidOut(t: seq<char>, f: Deliver, semi: seq<char>, scts: seq<char>, ud: seq<u8>)
  {
    FieldsFrom(t, 14) == Some(f)
    && t[f.addr..f.addr + f.semiLen] == semi && t[f.scts..f.scts + 14] == scts && UdOctets(t, f.ud) == ud
  }

  /** Reading the fields of an SMS-DELIVER PDU back, for any fields whose hex
    * pairs spell the lengths, the coding scheme and the user data octets. */
  lemma DeliverFieldsReadBack(n: seq<char>, sca: seq<char>, first: seq<char>, oaLenHex: seq<char>,
                              oaType: seq<char>, semi: seq<char>, pid: seq<char>, dcsHex: seq<char>,
                              scts: seq<char>, udlHex: seq<char>, udHex: seq<char>,
                              oaLen: u8, dcs: u8, udl: u8, ud: seq<u8>)
    requires |n| == |first| == |oaLenHex| == |oaType| == |pid| == |dcsHex| == |udlHex| == 2 && |scts| == 14
    requires |sca| % 2 == 0 && |sca| / 2 < 0x100 && HexToByte(n[0], n[1]) == |sca| / 2
    requires HexToByte(oaLenHex[0], oaLenHex[1]) == oaLen && |semi| == (oaLen + 1) / 2 * 2
    requires HexToByte(dcsHex[0], dcsHex[1]) == dcs && HexToByte(udlHex[0], udlHex[1]) == udl
    requires |udHex| == 2 * |ud|
    requires forall k :: 0 <= k < |ud| ==> HexToByte(udHex[2 * k], udHex[2 * k + 1]) == ud[k]
    ensures var t := DeliverFields(n, sca, first, oaLenHex, oaType, semi, pid, dcsHex, scts, udlHex, udHex);
            var f := DeliverAt(|sca|, |semi|, dcs, udl);
            LaidOut(t, f, semi, scts, ud)
  {
    var t := DeliverFields(n, sca, first, oaLenHex, oaType, semi, pid, dcsHex, scts, udlHex, udHex);
    var S, s := |sca|, |semi|;
    var c := 12 + S + s;
    DeliverFieldsAt(n, sca, first, oaLenHex, oaType, semi, pid, dcsHex, scts, udlHex, udHex);
    FieldsFound(t, S, oaLen, s, dcs, udl);
    UdOctetsReadBack(t, c + 16, udHex, ud);
  }

  /** `decodePDU` finds every field of an SMS-DELIVER PDU where it was put, when
    * the time stamp is skipped whole: the address semi-octets, the coding scheme,
    * the time stamp, the user data length and the user data octets. */
  lemma DeliverReadsBack(sca: seq<char>, first: u8, oaLen: u8, oaType: u8, semi: seq<char>,
                         pid: u8, dcs: u8, scts: seq<char>, udl: u8, ud: seq<u8>)
    requires |sca| % 2 == 0 && |sca| / 2 < 0x100
    requires |semi| == (oaLen + 1) / 2 * 2 && |scts| == 14
    ensures var t := DeliverText(sca, first, oaLen, oaType, semi, pid, dcs, scts, udl, ud);
            var f := DeliverAt(|sca|, |semi|, dcs, udl);
            LaidOut(t, f, semi, scts, ud)
  {
    ByteHexRoundTrip(|sca| / 2);
    ByteHexRoundTrip(oaLen);
    ByteHexRoundTrip(dcs);
    ByteHexRoundTrip(udl);
    HexOfReadsBack(ud);
    DeliverFieldsReadBack(Hex2(|sca| / 2), sca, Hex2(first), Hex2(oaLen), Hex2(oaType), semi,
                          Hex2(pid), Hex2(dcs), scts, Hex2(udl), HexOf(ud), oaLen, dcs, udl, ud);
  }

  /** The sender number `decodePDU` reads from a PDU, before it is cut to the buffer. */
  function SenderOf(pdu: seq<char>): (r: Option<seq<char>>)
    ensures r.Some? <==> FieldsFrom(pdu, 14).Some?
  {
    match FieldsFrom(pdu, 14)
    case None => None
    case Some(f) => Some(Digits(pdu[f.addr..f.addr + f.semiLen]))
  }

  /** The message `decodePDU` reads from a PDU, given what its buffer held before. */
  function MessageOf(pdu: seq<char>, stale: seq<u8>, msgSize: int): (r: Option<seq<char>>)
    requires |stale| == 280 && msgSize >= 1
    ensures r.Some? ==> |r.value| < msgSize
  {
    match FieldsFrom(pdu, 14)
    case None => None
    case Some(f) =>
      if (|pdu| - f.ud) / 2 <= 280
      then Some(DecodedText(UdBuffer(pdu, f.ud, stale), f.dcs, f.udl, (|pdu| - f.ud) / 2, msgSize))
      else None
  }

  /** What `SenderOf` and `MessageOf` read, in terms of the fields found. */
  lemma OfFields(t: seq<char>, f: Deliver, stale: seq<u8>, msgSize: int)
    requires FieldsFrom(t, 14) == Some(f) && |stale| == 280 && msgSize >= 1
    ensures SenderOf(t) == Some(Digits(t[f.addr..f.addr + f.semiLen]))
    ensures (|t| - f.ud) / 2 <= 280 ==>
              MessageOf(t, stale, msgSize) == Some(DecodedText(UdBuffer(t, f.ud, stale), f.dcs, f.udl, (|t| - f.ud) / 2, msgSize))
  {
  }

  /** A PDU whose fields lie where `FieldsFrom` finds them, with coding scheme 8,
    * decodes to the digits of its address semi-octets and the characters of its
    * user data. */
  lemma UcsDeliverDecodes(t: seq<char>, f: Deliver, semi: seq<char>, scts: seq<char>, u: seq<u8>, n: nat,
                          stale: seq<u8>, msgSize: int)
    requires LaidOut(t, f, semi, scts, u) && f.dcs == 8
    requires |u| == 2 * n
    requires n <= 140 && |stale| == 280 && msgSize > n
    ensures SenderOf(t) == Some(Digits(semi)) && MessageOf(t, stale, msgSize) == Some(Ucs2Chars(u, n))
  {
    OfFields(t, f, stale, msgSize);
    assert (|t| - f.ud) / 2 == 2 * n;
    var buf := UdBuffer(t, f.ud, stale);
    assert buf[..2 * n] == u[..2 * n];
    Ucs2CharsPrefix(buf, u, n);
    assert (2 * n) / 2 == n;
    assert DecodedText(buf, 8, f.udl, 2 * n, msgSize) == Ucs2Chars(buf, n);
  }

  /** ASCII text survives UCS2 encoding and decoding unchanged. */
  lemma Ucs2AsciiRoundTrip(message: seq<char>)
    requires forall k :: 0 <= k < |message| ==> (message[k] as int) < 0x80
    ensures Ucs2Chars(Ucs2(message), |message|) == message
  {
    Ucs2RoundTrip(message);
  }

  /** A DELIVER PDU whose address semi-octets spell `number` and whose UCS2 user
    * data spells `message` decodes to them. */
  lemma DecodesTo(t: seq<char>, f: Deliver, semi: seq<char>, scts: seq<char>, number: seq<char>, u: seq<u8>,
                  message: seq<char>, stale: seq<u8>, msgSize: int)
    requires LaidOut(t, f, semi, scts, u) && f.dcs == 8 && Digits(semi) == number
    requires |u| == 2 * |message| && Ucs2Chars(u, |message|) == message
    requires |message| <= 140 && |stale| == 280 && msgSize > |message|
    ensures SenderOf(t) == Some(number) && MessageOf(t, stale, msgSize) == Some(message)
  {
    UcsDeliverDecodes(t, f, semi, scts, u, |message|, stale, msgSize);
  }

  /** An SMS-DELIVER PDU carrying a number and an ASCII message in UCS2, each laid
    * out as `encodePDU` lays them out in a submit, decodes back to that number and
    * that message when the message buffer has room for it. */
  lemma DeliverRoundTrip(sca: seq<char>, number: seq<char>, message: seq<char>, scts: seq<char>,
                         udl: u8, stale: seq<u8>, msgSize: int)
    requires |sca| % 2 == 0 && |sca| / 2 < 0x100 && |number| < 0x100 && |scts| == 14
    requires forall k :: 0 <= k < |number| ==> number[k] != 'F'
    requires forall k :: 0 <= k < |message| ==> (message[k] as int) < 0x80
    requires |message| <= 140 && |stale| == 280 && msgSize > |message|
    ensures var t := DeliverText(sca, 4, |number|, 0x91, SemiOctets(number), 0, 8, scts, udl, Ucs2(message));
            SenderOf(t) == Some(number) && MessageOf(t, stale, msgSize) == Some(message)
  {
    var semi, u := SemiOctets(number), Ucs2(message);
    var t := DeliverText(sca, 4, |number|, 0x91, semi, 0, 8, scts, udl, u);
    var f := DeliverAt(|sca|, |semi|, 8, udl);
    DeliverReadsBack(sca, 4, |number|, 0x91, semi, 0, 8, scts, udl, u);
    SemiOctetRoundTrip(number);
    Ucs2AsciiRoundTrip(message);
    DecodesTo(t, f, semi, scts, number, u, message, stale, msgSize);
  }

  /** The fields as the source finds them: its time stamp loop advances past the
    * octets it copies into `timestamp` and no further, so with a buffer of fewer
    * than 15 characters the user data length is read from inside the time stamp. */
  function FieldsAsWritten(pdu: seq<char>, tsSize: int): (f: Option<Deliver>)
    ensures f.Some? ==> f.value.ud == f.value.scts + 2 * TsPairs(tsSize) + 2
  {
    FieldsFrom(pdu, 2 * TsPairs(tsSize))
  }

  /** Only a time stamp buffer of 15 characters or more makes the source skip the
    * whole time stamp. */
  lemma AsWrittenSkipsWholeTimestamp(pdu: seq<char>, tsSize: int)
    ensures (FieldsAsWritten(pdu, tsSize) == FieldsFrom(pdu, 14)) <== tsSize >= 15
    ensures tsSize < 15 ==> 2 * TsPairs(tsSize) < 14
  {
  }

  /** A one-septet message from number 1, time stamped 2012-01-01 16:00:00: with a
    * one-character time stamp buffer the source takes the year's digits "21" as
    * the user data length, 33 septets, where the PDU says 1. */
  lemma TimestampSkipCounterexample()
    ensures var t := DeliverText([], 4, 1, 0x91, "1F", 0, 0, "21101261000000", 1, [0x41]);
            FieldsFrom(t, 14).Some? && FieldsFrom(t, 14).value.udl == 1
            && FieldsAsWritten(t, 1).Some? && FieldsAsWritten(t, 1).value.udl == 0x21
  {
    var t := DeliverText([], 4, 1, 0x91, "1F", 0, 0, "21101261000000", 1, [0x41]);
    DeliverReadsBack([], 4, 1, 0x91, "1F", 0, 0, "21101261000000", 1, [0x41]);
    assert t[14..28][0] == '2' && t[14..28][1] == '1';
  }
}
