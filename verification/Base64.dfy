/** Base64 (section 4 of RFC 4648), the 76-column output of the base64 command, and decoding. */
module Base64 {
  import opened Basics

  type byte = b: int | 0 <= b < 256

  function Char(n: int): (c: char)
    requires 0 <= n < 64
    ensures SafeText(c)
  {
    if n < 26 then 'A' + n as char
    else if n < 52 then 'a' + (n - 26) as char
    else if n < 62 then '0' + (n - 52) as char
    else if n == 62 then '+'
    else '/'
  }

  /** Characters of the alphabet and the padding sign. */
  predicate SafeText(c: char) {
    'A' <= c <= 'Z' || 'a' <= c <= 'z' || '0' <= c <= '9' || c == '+' || c == '/' || c == '='
  }

  function Value(c: char): (n: Option<int>)
    ensures n.Some? ==> 0 <= n.value < 64
  {
    if 'A' <= c <= 'Z' then Some(c as int - 'A' as int)
    else if 'a' <= c <= 'z' then Some(c as int - 'a' as int + 26)
    else if '0' <= c <= '9' then Some(c as int - '0' as int + 52)
    else if c == '+' then Some(62)
    else if c == '/' then Some(63)
    else None
  }

  lemma ValueOfChar(n: int)
    requires 0 <= n < 64
    ensures Value(Char(n)) == Some(n) && Char(n) != '='
  {
  }

  /** Up to three bytes as four characters. */
  function Group(bs: seq<byte>): (g: string)
    requires 1 <= |bs| <= 3
    ensures |g| == 4 && forall c | c in g :: SafeText(c)
  {
    if |bs| == 1 then [Char(bs[0] / 4), Char(bs[0] % 4 * 16), '=', '=']
    else if |bs| == 2 then [Char(bs[0] / 4), Char(bs[0] % 4 * 16 + bs[1] / 16), Char(bs[1] % 16 * 4), '=']
    else [Char(bs[0] / 4), Char(bs[0] % 4 * 16 + bs[1] / 16), Char(bs[1] % 16 * 4 + bs[2] / 64), Char(bs[2] % 64)]
  }

  function Encode(bs: seq<byte>): string {
    if bs == [] then ""
    else if |bs| <= 3 then Group(bs)
    else Group(bs[..3]) + Encode(bs[3..])
  }

  /** The bytes of up to four six-bit values; `c` and `d` are the last two characters. */
  function Combine(w: Option<int>, x: Option<int>, y: Option<int>, z: Option<int>, c: char, d: char): Option<seq<byte>>
    requires w.Some? ==> 0 <= w.value < 64
    requires x.Some? ==> 0 <= x.value < 64
    requires y.Some? ==> 0 <= y.value < 64
    requires z.Some? ==> 0 <= z.value < 64
  {
    if w.None? || x.None? then None
    else if y.Some? && z.Some? then
      Some([w.value * 4 + x.value / 16, x.value % 16 * 16 + y.value / 4, y.value % 4 * 64 + z.value])
    else if y.Some? && d == '=' then Some([w.value * 4 + x.value / 16, x.value % 16 * 16 + y.value / 4])
    else if y.None? && z.None? && c == '=' && d == '=' then Some([w.value * 4 + x.value / 16])
    else None
  }

  /** One group of four characters; padding only where it may stand. */
  function DecodeGroup(a: char, b: char, c: char, d: char): Option<seq<byte>> {
    Combine(Value(a), Value(b), Value(c), Value(d), c, d)
  }

  /** Whole groups only; a padded group must be the last. */
  function Decode(s: string): Option<seq<byte>> {
    if s == "" then Some([])
    else if |s| < 4 then None
    else
      match DecodeGroup(s[0], s[1], s[2], s[3])
      case None => None
      case Some(bs) =>
        if |s| == 4 then Some(bs)
        else if |bs| < 3 then None
        else match Decode(s[4..])
             case None => None
             case Some(rest) => Some(bs + rest)
  }

  /** The six-bit pieces of three bytes put together again. */
  lemma CombineThree(x: byte, y: byte, z: byte, c: char, d: char)
    ensures Combine(Some(x / 4), Some(x % 4 * 16 + y / 16), Some(y % 16 * 4 + z / 64), Some(z % 64), c, d)
            == Some([x, y, z])
  {
  }

  lemma OneByte(bs: seq<byte>)
    requires |bs| == 1
    ensures var g := Group(bs); DecodeGroup(g[0], g[1], g[2], g[3]) == Some(bs)
  {
    ValueOfChar(bs[0] / 4);
    ValueOfChar(bs[0] % 4 * 16);
    assert bs == [bs[0]];
  }

  lemma TwoBytes(bs: seq<byte>)
    requires |bs| == 2
    ensures var g := Group(bs); DecodeGroup(g[0], g[1], g[2], g[3]) == Some(bs)
  {
    ValueOfChar(bs[0] / 4);
    ValueOfChar(bs[0] % 4 * 16 + bs[1] / 16);
    ValueOfChar(bs[1] % 16 * 4);
    assert bs == [bs[0], bs[1]];
  }

  lemma ThreeBytes(bs: seq<byte>)
    requires |bs| == 3
    ensures var g := Group(bs); DecodeGroup(g[0], g[1], g[2], g[3]) == Some(bs)
  {
    ValueOfChar(bs[0] / 4);
    ValueOfChar(bs[0] % 4 * 16 + bs[1] / 16);
    ValueOfChar(bs[1] % 16 * 4 + bs[2] / 64);
    ValueOfChar(bs[2] % 64);
    CombineThree(bs[0], bs[1], bs[2], Group(bs)[2], Group(bs)[3]);
    assert bs == [bs[0], bs[1], bs[2]];
  }

  lemma GroupRoundTrip(bs: seq<byte>)
    requires 1 <= |bs| <= 3
    ensures var g := Group(bs); DecodeGroup(g[0], g[1], g[2], g[3]) == Some(bs)
  {
    if |bs| == 1 {
      OneByte(bs);
    } else if |bs| == 2 {
      TwoBytes(bs);
    } else {
      ThreeBytes(bs);
    }
  }

  lemma DecodeFirst(group: string, bs: seq<byte>, rest: string, tail: seq<byte>)
    requires |group| == 4 && DecodeGroup(group[0], group[1], group[2], group[3]) == Some(bs)
    requires Decode(rest) == Some(tail) && (|bs| == 3 || rest == "")
    ensures Decode(group + rest) == Some(bs + tail)
  {
    assert (group + rest)[4..] == rest;
    if rest == "" {
      assert bs + tail == bs;
    }
  }

  /** Decoding undoes encoding, for every byte string. */
  lemma {:induction false} DecodeEncode(bs: seq<byte>)
    ensures Decode(Encode(bs)) == Some(bs)
  {
    if 0 < |bs| <= 3 {
      GroupRoundTrip(bs);
      DecodeFirst(Group(bs), bs, "", []);
      assert Group(bs) + "" == Group(bs) && bs + [] == bs;
    } else if |bs| > 3 {
      GroupRoundTrip(bs[..3]);
      DecodeEncode(bs[3..]);
      DecodeFirst(Group(bs[..3]), bs[..3], Encode(bs[3..]), bs[3..]);
      assert bs[..3] + bs[3..] == bs;
    }
  }

  lemma {:induction false} EncodeIsSafe(bs: seq<byte>)
    ensures forall c | c in Encode(bs) :: SafeText(c)
    ensures Encode(bs) == "" <==> bs == []
  {
    if |bs| > 3 {
      EncodeIsSafe(bs[3..]);
    }
  }

  // --- The standard's own terms ---------------------------------------------

  function From(c: char, n: nat): (s: string)
    requires c as int + n < 128
    ensures |s| == n
  {
    seq(n, i requires 0 <= i < n => c + i as char)
  }

  const ALPHABET: string := From('A', 26) + From('a', 26) + From('0', 10) + "+/"

  lemma CharIsStandard(n: int)
    requires 0 <= n < 64
    ensures |ALPHABET| == 64 && Char(n) == ALPHABET[n]
  {
  }

  lemma SameDigit(q: nat, r: nat, p: nat, d: nat)
    requires r < 64 && d < 64 && q * 64 + r == p * 64 + d
    ensures q == p && r == d
  {
  }

  /** A number has one notation in base 64. */
  lemma SameDigits(x: byte, y: byte, z: byte, a: nat, b: nat, c: nat, d: nat)
    requires b < 64 && c < 64 && d < 64
    requires x * 65536 + y * 256 + z == a * 262144 + b * 4096 + c * 64 + d
    ensures a == x / 4 && b == x % 4 * 16 + y / 16 && c == y % 16 * 4 + z / 64 && d == z % 64
  {
    SameDigit(x * 1024 + y * 4 + z / 64, z % 64, a * 4096 + b * 64 + c, d);
    SameDigit(x * 16 + y / 16, y % 16 * 4 + z / 64, a * 64 + b, c);
    SameDigit(x / 4, x % 4 * 16 + y / 16, a, b);
  }

  lemma FourDigits(x: byte, y: byte, z: byte)
    ensures Group([x, y, z]) == [Char(x / 4), Char(x % 4 * 16 + y / 16), Char(y % 16 * 4 + z / 64), Char(z % 64)]
    ensures Group([x, y]) == [Char(x / 4), Char(x % 4 * 16 + y / 16), Char(y % 16 * 4), '=']
    ensures Group([x]) == [Char(x / 4), Char(x % 4 * 16), '=', '=']
  {
    var three: seq<byte>, two: seq<byte>, one: seq<byte> := [x, y, z], [x, y], [x];
    assert |three| == 3 && three[0] == x && three[1] == y && three[2] == z;
    assert |two| == 2 && two[0] == x && two[1] == y;
    assert |one| == 1 && one[0] == x;
  }

  /**
   * Table 1 and section 4 of RFC 4648: the 24 bits of three bytes, read as one number,
   * are written as its four digits in this alphabet; a missing byte counts as zero and
   * the digits that it alone would fill are written as padding.
   */
  lemma GroupIsStandard(x: byte, y: byte, z: byte, a: nat, b: nat, c: nat, d: nat)
    requires a < 64 && b < 64 && c < 64 && d < 64
    requires x * 65536 + y * 256 + z == a * 262144 + b * 4096 + c * 64 + d
    ensures |ALPHABET| == 64
    ensures Group([x, y, z]) == [ALPHABET[a], ALPHABET[b], ALPHABET[c], ALPHABET[d]]
    ensures z == 0 ==> Group([x, y]) == [ALPHABET[a], ALPHABET[b], ALPHABET[c], '=']
    ensures y == 0 && z == 0 ==> Group([x]) == [ALPHABET[a], ALPHABET[b], '=', '=']
  {
    SameDigits(x, y, z, a, b, c, d);
    FourDigits(x, y, z);
    assert z == 0 ==> c == y % 16 * 4;
    assert y == 0 ==> b == x % 4 * 16;
    CharIsStandard(a);
    CharIsStandard(b);
    CharIsStandard(c);
    CharIsStandard(d);
  }

  // --- Line wrapping --------------------------------------------------------

  const COLUMNS := 76

  /** The output of the base64 command: lines of 76 columns, each ended by a newline. */
  function Wrap(s: string): string
    decreases |s|
  {
    if s == "" then ""
    else if |s| <= COLUMNS then s + "\n"
    else s[..COLUMNS] + "\n" + Wrap(s[COLUMNS..])
  }

  predicate LineEnd(c: char) {
    c == '\n' || c == '\r'
  }

  /** stdout.replace("\n", "").replace("\r", "") */
  function DropLineEnds(s: string): string {
    if s == "" then "" else (if LineEnd(s[0]) then "" else [s[0]]) + DropLineEnds(s[1..])
  }

  lemma {:induction false} DropConcat(a: string, b: string)
    ensures DropLineEnds(a + b) == DropLineEnds(a) + DropLineEnds(b)
  {
    if a == "" {
      assert a + b == b;
    } else {
      assert (a + b)[1..] == a[1..] + b;
      DropConcat(a[1..], b);
    }
  }

  lemma {:induction false} DropNothing(s: string)
    requires forall c | c in s :: !LineEnd(c)
    ensures DropLineEnds(s) == s
  {
    if s != "" {
      DropNothing(s[1..]);
    }
  }

  lemma DropLine(head: string, tail: string)
    requires forall c | c in head :: !LineEnd(c)
    ensures DropLineEnds(head + "\n" + tail) == head + DropLineEnds(tail)
  {
    assert head + "\n" + tail == head + ("\n" + tail);
    assert ("\n" + tail)[1..] == tail;
    DropNothing(head);
    DropConcat(head, "\n" + tail);
  }

  /** Removing the line ends undoes the wrapping. */
  lemma {:induction false} UnwrapWrap(s: string)
    requires forall c | c in s :: !LineEnd(c)
    ensures DropLineEnds(Wrap(s)) == s
    decreases |s|
  {
    if s != "" {
      if |s| <= COLUMNS {
        DropLine(s, "");
        assert s + "\n" + "" == s + "\n" && s + "" == s;
      } else {
        UnwrapWrap(s[COLUMNS..]);
        DropLine(s[..COLUMNS], Wrap(s[COLUMNS..]));
        assert s[..COLUMNS] + s[COLUMNS..] == s;
      }
    }
  }

  // --- Python's lenient decoder ---------------------------------------------

  /** base64.b64decode without validation drops every character outside the alphabet. */
  function Sift(s: string): string {
    if s == "" then "" else (if SafeText(s[0]) then [s[0]] else "") + Sift(s[1..])
  }

  lemma {:induction false} SiftSafe(s: string)
    requires forall c | c in s :: SafeText(c)
    ensures Sift(s) == s
  {
    if s != "" {
      SiftSafe(s[1..]);
    }
  }

  function LenientDecode(s: string): Option<seq<byte>> {
    Decode(Sift(s))
  }
}
