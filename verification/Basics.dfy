/** Result types and the text functions shared by the other modules. */
module Basics {

  datatype Option<+T> = None | Some(value: T)

  datatype Result<+T> = Ok(value: T) | Err(message: string)

  function Digit(n: nat): char
    requires n < 10
  {
    (n as char) + '0'
  }

  /** The decimal text of a number, as string interpolation prints it. */
  function Decimal(n: nat): (s: string)
    ensures |s| > 0
    ensures forall c | c in s :: '0' <= c <= '9'
  {
    if n < 10 then [Digit(n)] else Decimal(n / 10) + [Digit(n % 10)]
  }

  /** Different numbers print differently. */
  lemma {:induction false} DecimalInjective(a: nat, b: nat)
    requires Decimal(a) == Decimal(b)
    ensures a == b
  {
    var sa, sb := Decimal(a), Decimal(b);
    assert sa[|sa| - 1] == Digit(a % 10);
    assert sb[|sb| - 1] == Digit(b % 10);
    if a >= 10 && b >= 10 {
      assert sa[..|sa| - 1] == Decimal(a / 10);
      assert sb[..|sb| - 1] == Decimal(b / 10);
      DecimalInjective(a / 10, b / 10);
    }
  }

  /** Char.IsWhiteSpace of .NET. */
  predicate White(c: char) {
    var n := c as int;
    n == 32 || 9 <= n <= 13 || n == 0x85 || n == 0xA0 || n == 0x1680 || 0x2000 <= n <= 0x200A
    || n == 0x2028 || n == 0x2029 || n == 0x202F || n == 0x205F || n == 0x3000
  }

  // --- Python's str.strip() --------------------------------------------------

  predicate Space(c: char) {
    var n := c as int;
    9 <= n <= 13 || 28 <= n <= 32 || n == 0x85 || n == 0xA0 || n == 0x1680 || 0x2000 <= n <= 0x200A
    || n == 0x2028 || n == 0x2029 || n == 0x202F || n == 0x205F || n == 0x3000
  }

  function RStrip(s: string): string {
    if s != "" && Space(s[|s| - 1]) then RStrip(s[..|s| - 1]) else s
  }

  function LStrip(s: string): string {
    if s != "" && Space(s[0]) then LStrip(s[1..]) else s
  }

  function Strip(s: string): string {
    LStrip(RStrip(s))
  }

  lemma {:induction false} StripKeeps(s: string)
    ensures |LStrip(s)| <= |s| && LStrip(s) == s[|s| - |LStrip(s)|..]
    ensures LStrip(s) != "" ==> !Space(LStrip(s)[0])
    ensures (exists c | c in s :: !Space(c)) ==> LStrip(s) != ""
  {
    if s != "" && Space(s[0]) {
      StripKeeps(s[1..]);
    }
  }

  lemma {:induction false} RStripKeeps(s: string)
    ensures |RStrip(s)| <= |s| && RStrip(s) == s[..|RStrip(s)|]
    ensures forall c | c in s && !Space(c) :: c in RStrip(s)
  {
    if s != "" && Space(s[|s| - 1]) {
      RStripKeeps(s[..|s| - 1]);
    }
  }

  /** Blank text is what strip() leaves nothing of. */
  lemma StripBlank(s: string)
    ensures Strip(s) == "" <==> forall c | c in s :: Space(c)
  {
    RStripKeeps(s);
    StripKeeps(RStrip(s));
    if Strip(s) == "" {
      forall c | c in s
        ensures Space(c)
      {
        assert !Space(c) ==> c in RStrip(s);
      }
    }
  }

  lemma StripNothing(s: string)
    requires s == "" || (!Space(s[0]) && !Space(s[|s| - 1]))
    ensures Strip(s) == s
  {
  }

  // --- Splitting at a separator ---------------------------------------------

  /** The pieces of `s` between separators: always one more than there are separators. */
  function Split(sep: char, s: string): (r: seq<string>)
    ensures |r| > 0
  {
    if s == [] then [""]
    else
      var rest := Split(sep, s[1..]);
      if s[0] == sep then [""] + rest else [[s[0]] + rest[0]] + rest[1..]
  }

  lemma {:induction false} SplitJoined(sep: char, a: string, b: string)
    ensures Split(sep, a + [sep] + b) == Split(sep, a) + Split(sep, b)
  {
    if a == [] {
      assert ([] + [sep] + b)[1..] == b;
    } else {
      assert (a + [sep] + b)[1..] == a[1..] + [sep] + b;
      SplitJoined(sep, a[1..], b);
    }
  }

  lemma {:induction false} SplitPlain(sep: char, a: string)
    requires sep !in a
    ensures Split(sep, a) == [a]
  {
    if a != [] {
      SplitPlain(sep, a[1..]);
      assert [a[0]] + a[1..] == a;
    }
  }

  lemma {:induction false} SplitHasNoSeparator(sep: char, s: string)
    ensures forall x | x in Split(sep, s) :: sep !in x
  {
    if s != [] {
      SplitHasNoSeparator(sep, s[1..]);
      var rest := Split(sep, s[1..]);
      assert rest[0] in rest;
    }
  }
}
