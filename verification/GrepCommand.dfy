/**
 * The grep command of sandbox.py:164-181 as the shell and grep read it: the pattern of
 * --include, which is quoted twice, and the search path, which no "--" precedes.
 */
module GrepCommand {
  import opened Basics
  import opened Shell

  // --- Words and filename patterns ------------------------------------------

  /** Which directory entries match a word with pattern characters, in the order the shell lists them. */
  type Entries = Reading -> seq<string>

  function Words(texts: seq<string>): seq<Token> {
    seq(|texts|, i requires 0 <= i < |texts| => Word(texts[i]))
  }

  /** A pattern that no entry matches stands for itself (section 2.13.3 of the POSIX Shell Command Language). */
  function Expanded(entries: Entries, ts: seq<Token>): seq<Token> {
    if ts == [] then []
    else
      (match ts[0]
       case Pattern(r) => if entries(r) == [] then [Word(r.text)] else Words(entries(r))
       case t => [t])
      + Expanded(entries, ts[1..])
  }

  predicate IsWord(t: Token) {
    t.Word? || t.Pattern?
  }

  function TextOf(t: Token): string
    requires IsWord(t)
  {
    match t
    case Word(text) => text
    case Pattern(r) => r.text
  }

  /** One word, with text `x`. */
  predicate Becomes(ts: Option<seq<Token>>, x: string) {
    ts.Some? && |ts.value| == 1 && IsWord(ts.value[0]) && TextOf(ts.value[0]) == x
  }

  // --- The --include clause -------------------------------------------------

  const INCLUDE := "--include="

  /** f"--include='{shlex_quote(glob)}'" */
  function IncludeClause(glob: string): string {
    INCLUDE + ("'" + Quote(glob) + "'")
  }

  /** Where no expansion begins, so that the text alone decides what the shell makes of it. */
  predicate Settled(v: string) {
    '`' !in v && '{' !in v && forall i | 0 <= i < |v| && v[i] == '$' :: i + 1 < |v| && Harmless(v[i + 1])
  }

  predicate NoSpecial(v: string) {
    forall c | c in v :: !Special(c)
  }

  /** What is left of the glob's quoting: the quotes around it end it. */
  function Source(v: string): string {
    EscapeQuotes(v) + "''"
  }

  lemma SourceCons(v: string)
    requires v != ""
    ensures Source(v) == (if v[0] == '\'' then "'\"'\"'" else [v[0]]) + Source(v[1..])
  {
    assert EscapeQuotes(v) + "''" == (if v[0] == '\'' then "'\"'\"'" else [v[0]]) + (EscapeQuotes(v[1..]) + "''");
  }

  lemma SettledTail(v: string, n: nat)
    requires Settled(v) && n <= |v|
    ensures Settled(v[n..])
  {
    var w := v[n..];
    forall i | 0 <= i < |w| && w[i] == '$'
      ensures i + 1 < |w| && Harmless(w[i + 1])
    {
      assert v[i + n] == '$';
    }
  }

  /** A word with `v` read outside quotes. */
  function GrowAll(word: Reading, v: string): Reading
    decreases |v|
  {
    if v == "" then word else GrowAll(Add(word, v[0], Wild(v[0])), v[1..])
  }

  lemma {:induction false} GrowAllText(word: Reading, v: string)
    ensures GrowAll(word, v).text == word.text + v
    decreases |v|
  {
    if v == "" {
      assert word.text + v == word.text;
    } else {
      GrowAllText(Add(word, v[0], Wild(v[0])), v[1..]);
      assert word.text + [v[0]] + v[1..] == word.text + v;
    }
  }

  /** Neither special nor the beginning of an expansion: the character joins the word. */
  lemma PlainStep(word: Reading, c: char, rest: string)
    requires !Special(c) && c != '`' && c != '{' && (c == '$' ==> LoneDollar(rest))
    ensures Lex(Plain, Some(word), [c] + rest) == Lex(Plain, Some(Add(word, c, Wild(c))), rest)
  {
    assert ([c] + rest)[1..] == rest;
  }

  /** After a settled text's dollar sign comes a harmless character. */
  lemma DollarIsLone(v: string, rest: string)
    requires Settled(v) && v != "" && v[0] == '$'
    ensures LoneDollar(EscapeQuotes(v[1..]) + rest) && v[1..] != ""
  {
    assert v[1] == v[1..][0] && Harmless(v[1]);
    assert (EscapeQuotes(v[1..]) + rest)[0] == v[1];
  }

  /** A settled glob without special characters is read as it is, its pattern characters live. */
  lemma {:induction false} LexPlainText(word: Reading, v: string, rest: string)
    requires Settled(v) && NoSpecial(v)
    ensures Lex(Plain, Some(word), EscapeQuotes(v) + rest) == Lex(Plain, Some(GrowAll(word, v)), rest)
    decreases |v|
  {
    if v == "" {
      assert EscapeQuotes(v) + rest == rest;
    } else {
      var more := EscapeQuotes(v[1..]) + rest;
      assert v[0] in v && !Special(v[0]) && v[0] != '\'';
      assert EscapeQuotes(v) + rest == [v[0]] + more;
      SettledTail(v, 1);
      if v[0] == '$' {
        DollarIsLone(v, rest);
      }
      PlainStep(word, v[0], more);
      LexPlainText(Add(word, v[0], Wild(v[0])), v[1..], rest);
    }
  }

  // --- Special characters ---------------------------------------------------

  /** A word begun only grows. */
  lemma {:induction false} LexGrows(mode: Mode, word: Reading, s: string)
    requires Lex(mode, Some(word), s).Some?
    ensures var ts := Lex(mode, Some(word), s).value; ts != [] && IsWord(ts[0]) && word.text <= TextOf(ts[0])
    decreases |s|
  {
    if s != "" {
      var c, rest := s[0], s[1..];
      match mode
      case Plain => LexGrowsPlain(word, s);
      case Single =>
        if c == '\'' {
          LexGrows(Plain, word, rest);
        } else {
          LexGrows(Single, Add(word, c, false), rest);
        }
      case Double =>
        if c == '"' {
          LexGrows(Plain, word, rest);
        } else if c == '\\' && rest != "" && rest[0] == '\n' {
          LexGrows(Double, word, rest[1..]);
        } else if c == '\\' && rest != "" && rest[0] in "$`\"\\" {
          LexGrows(Double, Add(word, rest[0], false), rest[1..]);
        } else {
          LexGrows(Double, Add(word, c, false), rest);
        }
    }
  }

  lemma {:induction false} LexGrowsPlain(word: Reading, s: string)
    requires s != "" && Lex(Plain, Some(word), s).Some?
    ensures var ts := Lex(Plain, Some(word), s).value; ts != [] && IsWord(ts[0]) && word.text <= TextOf(ts[0])
    decreases |s|, 0
  {
    var c, rest := s[0], s[1..];
    if c == '\'' {
      LexGrows(Single, word, rest);
    } else if c == '"' {
      LexGrows(Double, word, rest);
    } else if c == '\\' {
      if rest[0] == '\n' {
        LexGrows(Plain, word, rest[1..]);
      } else {
        LexGrows(Plain, Add(word, rest[0], false), rest[1..]);
      }
    } else if c != ' ' && c != '|' && c != '>' {
      LexGrows(Plain, Add(word, c, Wild(c)), rest);
    }
  }

  /** So one that has left the path to `x` does not become `x`. */
  lemma LexAstray(mode: Mode, word: Reading, s: string, x: string)
    requires !(word.text <= x)
    ensures !Becomes(Lex(mode, Some(word), s), x)
  {
    if Lex(mode, Some(word), s).Some? {
      LexGrows(mode, word, s);
    }
  }

  /** A separator ends the word where it is, or is not read at all. */
  lemma LexSeparator(word: Reading, c: char, more: string, x: string)
    requires (c == ' ' || c == '|' || c == '>' || Outside(c)) && |word.text| < |x|
    ensures !Becomes(Lex(Plain, Some(word), [c] + more), x)
  {
    var s := [c] + more;
    assert s[0] == c && s[1..] == more;
    var tokens := Lex(Plain, Some(word), s);
    if tokens.Some? {
      assert tokens.value[0] == Flush(Some(word))[0];
    }
  }

  lemma LexTwoQuotes(mode: Mode, word: Reading)
    requires mode != Single
    ensures Lex(mode, Some(word), "''") == if mode == Plain then Some(Flush(Some(word))) else None
  {
    assert "''"[1..] == "'" && "'"[1..] == "";
  }

  lemma LexApostrophe(mode: Mode, word: Reading, more: string)
    requires mode != Single
    ensures Lex(mode, Some(word), "'\"'\"'" + more)
            == if mode == Double then Lex(Double, Some(Add(word, '\'', false)), "\"'\"'" + more)
               else Lex(Double, Some(Add(Add(word, '"', false), '\'', false)), more)
  {
    var t4 := "'" + more;
    var t3 := "\"" + t4;
    var t2 := "'" + t3;
    var t1 := "\"" + t2;
    assert "'\"'\"'" + more == "'" + t1 && t1 == "\"'\"'" + more;
    LexQuoteSteps(word, t1);
    if mode == Plain {
      LexQuoteSteps(word, t2);
      LexQuoteSteps(Add(word, '"', false), t3);
      LexQuoteSteps(Add(word, '"', false), t4);
      LexQuoteSteps(Add(word, '"', false), more);
    }
  }

  /** What a backslash before `c` makes of the word. */
  lemma LexBackslash(mode: Mode, word: Reading, c: char, rest: string)
    requires mode != Single
    ensures Lex(mode, Some(word), ['\\', c] + rest)
            == if c == '\n' then Lex(mode, Some(word), rest)
               else if mode == Plain || c in "$`\"\\" then Lex(mode, Some(Add(word, c, false)), rest)
               else Lex(mode, Some(Add(word, '\\', false)), [c] + rest)
  {
    var s := ['\\', c] + rest;
    assert s[1..] == [c] + rest && ([c] + rest)[1..] == rest;
  }

  /**
   * What the rest of the glob should still become: `owed` first, then `v` itself.
   * Quoting characters that vanish put the reading behind; it never catches up.
   */
  predicate Behind(mode: Mode, owed: string) {
    mode != Single && owed != "" && '\'' !in owed && (mode == Plain && |owed| == 1 ==> owed != "\"")
  }

  /** The next character goes into the word: right only if it is the one owed. */
  lemma Owes(mode: Mode, word: Reading, c: char, live: bool, s: string, owed: string, v: string)
    requires owed != "" && c != owed[0]
    ensures !Becomes(Lex(mode, Some(Add(word, c, live)), s), word.text + owed + v)
  {
    var x := word.text + owed + v;
    assert x[|word.text|] == owed[0];
    LexAstray(mode, Add(word, c, live), s, x);
  }

  lemma ApostropheMisleads(mode: Mode, word: Reading, more: string, owed: string, v: string)
    requires Behind(mode, owed) && v != "" && v[0] == '\''
    ensures !Becomes(Lex(mode, Some(word), "'\"'\"'" + more), word.text + owed + v)
  {
    LexApostrophe(mode, word, more);
    if mode == Double {
      assert owed[0] in owed;
      Owes(Double, word, '\'', false, "\"'\"'" + more, owed, v);
    } else {
      var x := word.text + owed + v;
      var twice := Add(Add(word, '"', false), '\'', false);
      assert x[|word.text|] == owed[0];
      if |owed| > 1 {
        assert owed[1] in owed && x[|word.text| + 1] == owed[1];
      }
      LexAstray(Double, twice, more, x);
    }
  }

  /** Characters read without joining the word are owed later. */
  lemma MoreOwed(text: string, owed: string, read: string, v: string)
    ensures text + owed + (read + v) == text + (owed + read) + v
  {
  }

  /** One that joins the word pays the first one owed. */
  lemma Paid(text: string, owed: string, read: string, v: string)
    requires owed != ""
    ensures text + owed + (read + v) == text + [owed[0]] + (owed[1..] + read) + v
  {
    assert owed == [owed[0]] + owed[1..];
  }

  lemma BackslashSource(v: string)
    requires |v| >= 2 && v[0] == '\\' && v[1] != '\''
    ensures Source(v) == ['\\', v[1]] + Source(v[2..]) && Source(v[1..]) == [v[1]] + Source(v[2..])
  {
    SourceCons(v);
    SourceCons(v[1..]);
    assert v[1..][1..] == v[2..];
    assert [v[0]] + ([v[1]] + Source(v[2..])) == ['\\', v[1]] + Source(v[2..]);
  }

  /** A backslash before an apostrophe or at the end quotes an apostrophe. */
  lemma BackslashQuoteSource(v: string) returns (more: string)
    requires v != "" && v[0] == '\\' && (|v| == 1 || v[1] == '\'')
    ensures Source(v) == ['\\', '\''] + more
  {
    SourceCons(v);
    if |v| == 1 {
      assert v[1..] == "" && Source("") == "''";
      more := "'";
    } else {
      SourceCons(v[1..]);
      more := "\"'\"'" + Source(v[1..][1..]);
    }
    assert Source(v)[2..] == more;
  }

  /** A backslash and the character after it. */
  lemma {:induction false} BackslashMisleads(mode: Mode, word: Reading, v: string, owed: string)
    requires Behind(mode, owed) && Settled(v) && v != "" && v[0] == '\\'
    ensures !Becomes(Lex(mode, Some(word), Source(v)), word.text + owed + v)
    decreases |v|, 1
  {
    if |v| == 1 || v[1] == '\'' {
      var more := BackslashQuoteSource(v);
      QuoteAfterBackslash(mode, word, more, owed, v);
    } else {
      BackslashSource(v);
      LexBackslash(mode, word, v[1], Source(v[2..]));
      if v[1] == '\n' || mode == Plain || v[1] in "$`\"\\" {
        PairMisleads(mode, word, v, owed);
      } else {
        LoneBackslashMisleads(word, v, owed);
      }
    }
  }

  /** Both characters are read, and at most the second joins the word. */
  lemma {:induction false} PairMisleads(mode: Mode, word: Reading, v: string, owed: string)
    requires Behind(mode, owed) && Settled(v) && |v| >= 2 && v[0] == '\\' && v[1] != '\''
    ensures !Becomes(Lex(mode, Some(word), Source(v[2..])), word.text + owed + v)
    ensures !Becomes(Lex(mode, Some(Add(word, v[1], false)), Source(v[2..])), word.text + owed + v)
    decreases |v|, 0
  {
    SettledTail(v, 2);
    var pair := v[..2];
    assert v == pair + v[2..] && pair == ['\\', v[1]];
    MoreOwed(word.text, owed, pair, v[2..]);
    LexMisled(mode, word, v[2..], owed + pair);
    if v[1] == owed[0] {
      Paid(word.text, owed, pair, v[2..]);
      LexMisled(mode, Add(word, v[1], false), v[2..], owed[1..] + pair);
    } else {
      Owes(mode, word, v[1], false, Source(v[2..]), owed, v);
    }
  }

  /** Inside double quotes a backslash before other characters stands for itself. */
  lemma {:induction false} LoneBackslashMisleads(word: Reading, v: string, owed: string)
    requires Behind(Double, owed) && Settled(v) && v != "" && v[0] == '\\'
    ensures !Becomes(Lex(Double, Some(Add(word, '\\', false)), Source(v[1..])), word.text + owed + v)
    decreases |v|, 0
  {
    SettledTail(v, 1);
    if owed[0] == '\\' {
      assert v == ['\\'] + v[1..];
      Paid(word.text, owed, ['\\'], v[1..]);
      LexMisled(Double, Add(word, '\\', false), v[1..], owed[1..] + ['\\']);
    } else {
      Owes(Double, word, '\\', false, Source(v[1..]), owed, v);
    }
  }

  lemma QuoteAfterBackslash(mode: Mode, word: Reading, more: string, owed: string, v: string)
    requires Behind(mode, owed) && v != "" && v[0] == '\\'
    ensures !Becomes(Lex(mode, Some(word), ['\\', '\''] + more), word.text + owed + v)
  {
    LexBackslash(mode, word, '\'', more);
    var x := word.text + owed + v;
    assert owed[0] in owed && x[|word.text|] == owed[0];
    if mode == Plain {
      Owes(Plain, word, '\'', false, more, owed, v);
    } else {
      var twice := Add(Add(word, '\\', false), '\'', false);
      assert ['\''] + more == "'" + more;
      LexQuoteSteps(Add(word, '\\', false), more);
      assert x[|word.text| + 1] == if |owed| > 1 then owed[1] else v[0];
      assert |owed| > 1 ==> owed[1] in owed;
      LexAstray(Double, twice, more, x);
    }
  }

  /** A reading that is behind does not become the glob's text. */
  lemma {:induction false} LexMisled(mode: Mode, word: Reading, v: string, owed: string)
    requires Behind(mode, owed) && Settled(v)
    ensures !Becomes(Lex(mode, Some(word), Source(v)), word.text + owed + v)
    decreases |v|, 2
  {
    var x := word.text + owed + v;
    if v == "" {
      assert Source(v) == "''";
      LexTwoQuotes(mode, word);
    } else if v[0] == '\'' {
      SourceCons(v);
      ApostropheMisleads(mode, word, Source(v[1..]), owed, v);
    } else if v[0] == '\\' {
      BackslashMisleads(mode, word, v, owed);
    } else {
      var more := Source(v[1..]);
      SourceCons(v);
      SettledTail(v, 1);
      if v[0] == '$' {
        DollarIsLone(v, "''");
      }
      if v[0] == '"' {
        assert [v[0]] + more == "\"" + more;
        LexQuoteSteps(word, more);
        assert x == word.text + (owed + "\"") + v[1..];
        LexMisled(if mode == Plain then Double else Plain, word, v[1..], owed + "\"");
      } else if mode == Plain && Special(v[0]) {
        LexSeparator(word, v[0], more, x);
      } else {
        CommonMisleads(mode, word, v, owed);
      }
    }
  }

  /** Any other character: it joins the word and is owed in turn. */
  lemma {:induction false} CommonMisleads(mode: Mode, word: Reading, v: string, owed: string)
    requires Behind(mode, owed) && Settled(v) && v != "" && v[0] !in "'\"\\" && (mode == Plain ==> !Special(v[0]))
    requires v[0] == '$' ==> LoneDollar(Source(v[1..]))
    ensures !Becomes(Lex(mode, Some(word), Source(v)), word.text + owed + v)
    decreases |v|, 0
  {
    var c, live := v[0], mode == Plain && Wild(v[0]);
    SettledTail(v, 1);
    CommonStep(mode, word, v);
    if c == owed[0] {
      assert v == [c] + v[1..];
      Paid(word.text, owed, [c], v[1..]);
      LexMisled(mode, Add(word, c, live), v[1..], owed[1..] + [c]);
    } else {
      Owes(mode, word, c, live, Source(v[1..]), owed, v);
    }
  }

  lemma CommonStep(mode: Mode, word: Reading, v: string)
    requires mode != Single && Settled(v) && v != "" && v[0] !in "'\"\\" && (mode == Plain ==> !Special(v[0]))
    requires v[0] == '$' ==> LoneDollar(Source(v[1..]))
    ensures Lex(mode, Some(word), Source(v))
            == Lex(mode, Some(Add(word, v[0], mode == Plain && Wild(v[0]))), Source(v[1..]))
  {
    SourceCons(v);
    assert Source(v) == [v[0]] + Source(v[1..]) && Source(v)[1..] == Source(v[1..]);
  }

  /** With a special character, what is read outside quotes is not the glob's text. */
  lemma {:induction false} LexUnquoted(word: Reading, v: string)
    requires Settled(v) && !NoSpecial(v)
    ensures !Becomes(Lex(Plain, Some(word), Source(v)), word.text + v)
    decreases |v|
  {
    if Special(v[0]) {
      FirstSpecial(word, v);
    } else {
      OrdinaryFirst(word, v);
      SettledTail(v, 1);
      LexUnquoted(Add(word, v[0], Wild(v[0])), v[1..]);
      FirstMoves(word.text, v);
    }
  }

  lemma FirstMoves(text: string, v: string)
    requires v != ""
    ensures text + [v[0]] + v[1..] == text + v
  {
  }

  lemma FirstSpecial(word: Reading, v: string)
    requires Settled(v) && v != "" && Special(v[0])
    ensures !Becomes(Lex(Plain, Some(word), Source(v)), word.text + v)
  {
    if v[0] == '\'' || v[0] == '"' {
      FirstQuote(word, v);
    } else if v[0] == '\\' {
      FirstBackslash(word, v);
    } else {
      SourceCons(v);
      LexSeparator(word, v[0], Source(v[1..]), word.text + v);
    }
  }

  lemma OrdinaryFirst(word: Reading, v: string)
    requires Settled(v) && v != "" && !Special(v[0])
    ensures Lex(Plain, Some(word), Source(v)) == Lex(Plain, Some(Add(word, v[0], Wild(v[0]))), Source(v[1..]))
    ensures NoSpecial(v[1..]) ==> NoSpecial(v)
  {
    SourceCons(v);
    if v[0] == '$' {
      DollarIsLone(v, "''");
    }
    PlainStep(word, v[0], Source(v[1..]));
  }

  lemma FirstQuote(word: Reading, v: string)
    requires Settled(v) && v != "" && (v[0] == '\'' || v[0] == '"')
    ensures !Becomes(Lex(Plain, Some(word), Source(v)), word.text + v)
  {
    SourceCons(v);
    if v[0] == '\'' {
      assert (word.text + v)[|word.text|] == '\'';
      LexApostrophe(Plain, word, Source(v[1..]));
      LexAstray(Double, Add(Add(word, '"', false), '\'', false), Source(v[1..]), word.text + v);
    } else {
      FirstDoubleQuote(word, v[1..]);
      assert ['"'] + Source(v[1..]) == "\"" + Source(v[1..]) && v == "\"" + v[1..];
    }
  }

  lemma FirstDoubleQuote(word: Reading, rest: string)
    requires Settled("\"" + rest)
    ensures !Becomes(Lex(Plain, Some(word), "\"" + Source(rest)), word.text + ("\"" + rest))
  {
    SettledTail("\"" + rest, 1);
    assert ("\"" + rest)[1..] == rest;
    LexQuoteSteps(word, Source(rest));
    LexMisled(Double, word, rest, "\"");
    assert word.text + "\"" + rest == word.text + ("\"" + rest);
  }

  lemma FirstBackslash(word: Reading, v: string)
    requires Settled(v) && v != "" && v[0] == '\\'
    ensures !Becomes(Lex(Plain, Some(word), Source(v)), word.text + v)
  {
    var x := word.text + v;
    assert x[|word.text|] == '\\';
    if |v| == 1 || v[1] == '\'' {
      var more := BackslashQuoteSource(v);
      LexBackslash(Plain, word, '\'', more);
      LexAstray(Plain, Add(word, '\'', false), more, x);
    } else {
      BackslashSource(v);
      LexBackslash(Plain, word, v[1], Source(v[2..]));
      if v[1] == '\n' || v[1] == '\\' {
        FirstPair(word, v);
      } else {
        LexAstray(Plain, Add(word, v[1], false), Source(v[2..]), x);
      }
    }
  }

  lemma FirstPair(word: Reading, v: string)
    requires Settled(v) && |v| >= 2 && v[0] == '\\' && (v[1] == '\n' || v[1] == '\\')
    ensures v[1] == '\n' ==> !Becomes(Lex(Plain, Some(word), Source(v[2..])), word.text + v)
    ensures v[1] == '\\' ==> !Becomes(Lex(Plain, Some(Add(word, '\\', false)), Source(v[2..])), word.text + v)
  {
    SettledTail(v, 2);
    assert v == v[..2] + v[2..];
    if v[1] == '\n' {
      LexMisled(Plain, word, v[2..], v[..2]);
      assert word.text + v[..2] + v[2..] == word.text + v;
    } else {
      LexMisled(Plain, Add(word, '\\', false), v[2..], "\\");
      assert word.text + ['\\'] + "\\" + v[2..] == word.text + v;
    }
  }

  // --- The glob as one word -------------------------------------------------

  /**
   * The word that `v` goes on with outside or inside double quotes, when each of its
   * apostrophes stands as shlex.quote escapes it; None when it does not stay one word.
   */
  function Removed(mode: Mode, word: Reading, v: string): Option<Reading>
    requires mode != Single
    decreases |v|
  {
    if v == "" then if mode == Plain then Some(word) else None
    else
      var c, rest := v[0], v[1..];
      if c == '\'' then
        if mode == Plain then Removed(Double, Add(Add(word, '"', false), '\'', false), rest)
        else Removed(Plain, Add(Add(word, '\'', false), '"', false), rest)
      else if c == '"' then Removed(if mode == Plain then Double else Plain, word, rest)
      else if c == '\\' then
        if rest != "" && rest[0] == '\n' then Removed(mode, word, rest[1..])
        else if rest != "" && rest[0] in "$`\"\\" then Removed(mode, Add(word, rest[0], false), rest[1..])
        else if mode == Double then Removed(mode, Add(word, c, false), rest)
        else if rest == "" || rest[0] == '\'' then None
        else Removed(mode, Add(word, rest[0], false), rest[1..])
      else if c == '`' || (c == '$' && !(rest != "" && Harmless(rest[0]))) then None
      else if mode == Plain && (Special(c) || c == '{') then None
      else Removed(mode, Add(word, c, mode == Plain && Wild(c)), rest)
  }

  /** What the shell makes of the glob's part of the clause. */
  function GlobReading(glob: string): Option<Reading> {
    if forall c | c in glob :: Safe(c) then Some(Dead(INCLUDE + glob)) else Removed(Plain, Dead(INCLUDE), glob)
  }

  predicate OneWord(ts: Option<seq<Token>>) {
    ts.Some? && |ts.value| == 1 && IsWord(ts.value[0])
  }

  /** Read as the one word `r`, or not as one word. */
  predicate ReadAs(ts: Option<seq<Token>>, r: Option<Reading>) {
    match r
    case Some(word) => ts == Some(Flush(Some(word)))
    case None => !OneWord(ts)
  }

  lemma {:induction false} SingleNeverEnds(word: Reading, v: string)
    ensures Lex(Single, Some(word), Source(v)) == None
    decreases |v|
  {
    if v == "" {
      assert Source(v) == "'" + ("'" + "");
      LexQuoteSteps(word, "'" + "");
      LexQuoteSteps(word, "");
    } else {
      SourceCons(v);
      var more := Source(v[1..]);
      if v[0] == '\'' {
        LexEscapedQuote(word, more);
      } else {
        assert ([v[0]] + more)[1..] == more;
      }
      SingleNeverEnds(Add(word, v[0], false), v[1..]);
    }
  }

  /** Something follows a separator: the quotes at the end are a word already. */
  lemma {:induction false} SourceIsSome(v: string)
    ensures Lex(Plain, None, Source(v)) != Some([])
    decreases |v|
  {
    if v == "" {
      assert Source(v) == "'" + "'" && ("'" + "'")[1..] == "'";
      LexQuoteSteps(Dead(""), "");
      assert "'" + "" == "'";
    } else {
      SourceCons(v);
      var s, more := Source(v), Source(v)[1..];
      if v[0] == ' ' {
        assert more == Source(v[1..]);
        SourceIsSome(v[1..]);
      } else if v[0] == '\\' && |v| > 1 && v[1] == '\n' {
        BackslashSource(v);
        assert more == ['\n'] + Source(v[2..]) && more[1..] == Source(v[2..]);
        SourceIsSome(v[2..]);
      } else {
        BeginsSomething(s);
      }
    }
  }

  lemma BeginsSomething(s: string)
    requires s != "" && s[0] != ' ' && !(s[0] == '\\' && |s| > 1 && s[1] == '\n')
    ensures Lex(Plain, None, s) != Some([])
  {
    if s[0] == '|' || s[0] == '>' || (s[0] == '2' && NO_ERRORS <= s) {
      BreakReads(None, s);
    } else if s[0] == '2' && |s| > 1 && s[1] == '>' {
      OtherRedirection(s);
    } else {
      BeginsWord(s);
    }
  }

  lemma OtherRedirection(s: string)
    requires |s| > 1 && s[0] == '2' && s[1] == '>' && !(NO_ERRORS <= s)
    ensures Lex(Plain, None, s) == None
  {
    assert s[1..][0] == '>';
  }

  lemma BeginsWord(s: string)
    requires s != "" && s[0] !in " |>" && !(s[0] == '\\' && |s| > 1 && s[1] == '\n')
    requires !(s[0] == '2' && |s| > 1 && s[1] == '>')
    ensures Lex(Plain, None, s) != Some([])
  {
    var c, rest := s[0], s[1..];
    if Lex(Plain, None, s).Some? {
      if c == '\'' {
        LexGrows(Single, Dead(""), rest);
      } else if c == '"' {
        LexGrows(Double, Dead(""), rest);
      } else if c == '\\' {
        LexGrows(Plain, Add(Dead(""), rest[0], false), rest[1..]);
      } else {
        LexGrows(Plain, Add(Dead(""), c, Wild(c)), rest);
      }
    }
  }

  lemma SeparatorBreaks(word: Reading, v: string)
    requires v != "" && (v[0] == ' ' || v[0] == '|' || v[0] == '>' || Outside(v[0]))
    ensures !OneWord(Lex(Plain, Some(word), Source(v)))
  {
    SourceCons(v);
    SourceIsSome(v[1..]);
    BreakIsTwo(word, v[0], Source(v[1..]));
  }

  lemma BreakIsTwo(word: Reading, c: char, more: string)
    requires (c == ' ' || c == '|' || c == '>' || Outside(c)) && Lex(Plain, None, more) != Some([])
    ensures !OneWord(Lex(Plain, Some(word), [c] + more))
  {
    assert ([c] + more)[1..] == more;
  }

  /** A backslash before an apostrophe or at the end leaves an apostrophe open. */
  lemma QuoteStaysOpen(word: Reading, v: string)
    requires v != "" && v[0] == '\\' && (|v| == 1 || v[1] == '\'')
    ensures Lex(Plain, Some(word), Source(v)) == None
  {
    SourceCons(v);
    var rest := v[1..];
    if rest == "" {
      OpenAtEnd(word);
    } else {
      SourceCons(rest);
      QuoteRegroup(Source(rest[1..]));
      OpenBeforeMore(word, rest[1..]);
    }
  }

  lemma QuoteRegroup(more: string)
    ensures ['\\'] + ("'\"'\"'" + more) == ['\\', '\''] + ("\"'\"'" + more)
  {
  }

  lemma OpenAtEnd(word: Reading)
    ensures Lex(Plain, Some(word), ['\\'] + Source("")) == None
  {
    assert ['\\'] + Source("") == ['\\', '\''] + "'";
    LexBackslash(Plain, word, '\'', "'");
    LexQuoteSteps(Add(word, '\'', false), "");
    assert "'" + "" == "'";
  }

  lemma OpenBeforeMore(word: Reading, v: string)
    ensures Lex(Plain, Some(word), ['\\', '\''] + ("\"'\"'" + Source(v))) == None
  {
    var open := Add(word, '\'', false);
    LexBackslash(Plain, word, '\'', "\"'\"'" + Source(v));
    OpensQuote(open, Source(v));
    SingleNeverEnds(Add(open, '\'', false), v);
  }

  lemma OpensQuote(word: Reading, more: string)
    ensures Lex(Plain, Some(word), "\"'\"'" + more) == Lex(Single, Some(Add(word, '\'', false)), more)
  {
    var t3 := "'" + more;
    var t2 := "\"" + t3;
    var t1 := "'" + t2;
    assert "\"'\"'" + more == "\"" + t1;
    LexQuoteSteps(word, t1);
    LexQuoteSteps(word, t2);
    LexQuoteSteps(Add(word, '\'', false), t3);
    LexQuoteSteps(Add(word, '\'', false), more);
  }

  lemma ApostropheInDouble(word: Reading, more: string)
    ensures Lex(Double, Some(word), "'\"'\"'" + more)
            == Lex(Plain, Some(Add(Add(word, '\'', false), '"', false)), more)
  {
    var t4 := "'" + more;
    var t3 := "\"" + t4;
    var t2 := "'" + t3;
    var t1 := "\"" + t2;
    assert "'\"'\"'" + more == "'" + t1;
    var w := Add(word, '\'', false);
    LexQuoteSteps(word, t1);
    LexQuoteSteps(w, t2);
    LexQuoteSteps(w, t3);
    LexQuoteSteps(w, t4);
    LexQuoteSteps(Add(w, '"', false), more);
  }

  /** A dollar sign that may begin something is not read. */
  lemma DollarIsNot(mode: Mode, word: Reading, v: string)
    requires mode != Single && v != "" && v[0] == '$' && !(|v| > 1 && Harmless(v[1]))
    ensures Lex(mode, Some(word), Source(v)) == None
  {
    SourceCons(v);
    var more := Source(v[1..]);
    assert Source(v)[1..] == more;
    if |v| > 1 {
      SourceCons(v[1..]);
      assert more[0] == v[1];
    } else {
      assert v[1..] == "" && more[0] == '\'';
    }
  }

  lemma LoneInSource(v: string)
    requires |v| > 1 && v[0] == '$' && Harmless(v[1])
    ensures LoneDollar(Source(v[1..]))
  {
    SourceCons(v[1..]);
  }

  /** The shell reads the rest of the clause as the glob's own reading says. */
  lemma {:induction false} SourceReads(mode: Mode, word: Reading, v: string)
    requires mode != Single
    ensures ReadAs(Lex(mode, Some(word), Source(v)), Removed(mode, word, v))
    decreases |v|, 1
  {
    if v == "" {
      assert Source(v) == "''";
      LexTwoQuotes(mode, word);
    } else if v[0] == '\'' {
      SourceCons(v);
      var more := Source(v[1..]);
      if mode == Plain {
        LexApostrophe(Plain, word, more);
        SourceReads(Double, Add(Add(word, '"', false), '\'', false), v[1..]);
      } else {
        ApostropheInDouble(word, more);
        SourceReads(Plain, Add(Add(word, '\'', false), '"', false), v[1..]);
      }
    } else if v[0] == '"' {
      SourceCons(v);
      assert [v[0]] + Source(v[1..]) == "\"" + Source(v[1..]);
      LexQuoteSteps(word, Source(v[1..]));
      SourceReads(if mode == Plain then Double else Plain, word, v[1..]);
    } else if v[0] == '\\' {
      BackslashReads(mode, word, v);
    } else if v[0] == '$' && !(|v| > 1 && Harmless(v[1])) {
      DollarIsNot(mode, word, v);
    } else if mode == Plain && Special(v[0]) {
      SeparatorBreaks(word, v);
    } else {
      CommonReads(mode, word, v);
    }
  }

  lemma {:induction false} BackslashReads(mode: Mode, word: Reading, v: string)
    requires mode != Single && v != "" && v[0] == '\\'
    ensures ReadAs(Lex(mode, Some(word), Source(v)), Removed(mode, word, v))
    decreases |v|, 0
  {
    if mode == Plain && (|v| == 1 || v[1] == '\'') {
      QuoteStaysOpen(word, v);
    } else if mode == Double && (|v| == 1 || v[1] !in "\n$`\"\\") {
      SourceCons(v);
      LoneBackslash(word, Source(v[1..]), v);
      SourceReads(Double, Add(word, '\\', false), v[1..]);
    } else {
      BackslashSource(v);
      LexBackslash(mode, word, v[1], Source(v[2..]));
      assert v[1..][1..] == v[2..];
      SourceReads(mode, if v[1] == '\n' then word else Add(word, v[1], false), v[2..]);
    }
  }

  lemma LoneBackslash(word: Reading, more: string, v: string)
    requires v != "" && v[0] == '\\' && (|v| == 1 || v[1] !in "\n$`\"\\") && more == Source(v[1..])
    ensures Lex(Double, Some(word), ['\\'] + more) == Lex(Double, Some(Add(word, '\\', false)), more)
  {
    if |v| > 1 {
      SourceCons(v[1..]);
    } else {
      assert v[1..] == "";
    }
    assert (['\\'] + more)[1..] == more;
  }

  lemma {:induction false} CommonReads(mode: Mode, word: Reading, v: string)
    requires mode != Single && v != "" && v[0] !in "'\"\\" && (mode == Plain ==> !Special(v[0]))
    requires v[0] == '$' ==> |v| > 1 && Harmless(v[1])
    ensures ReadAs(Lex(mode, Some(word), Source(v)), Removed(mode, word, v))
    decreases |v|, 0
  {
    if v[0] == '$' {
      LoneInSource(v);
    }
    var c, more := v[0], Source(v[1..]);
    SourceCons(v);
    assert Source(v)[1..] == more;
    if c != '`' && !(mode == Plain && c == '{') {
      SourceReads(mode, Add(word, c, mode == Plain && Wild(c)), v[1..]);
    }
  }

  // --- When the glob reaches grep -------------------------------------------

  /** The clause as read when its glob holds no special character. */
  function ClauseReading(glob: string): Reading {
    GrowAll(Dead(INCLUDE), glob)
  }

  /** grep gets the one argument that was meant. */
  predicate Arrives(entries: Entries, glob: string) {
    var ts := Tokens(IncludeClause(glob));
    ts.Some? && Expanded(entries, ts.value) == [Word(INCLUDE + glob)]
  }

  /** The glob leaves pattern characters outside quotes, and their only match is an entry with the clause's own name. */
  predicate NamedAfter(entries: Entries, glob: string) {
    var r := GlobReading(glob);
    r.Some? && r.value.live != {} && entries(r.value) == [INCLUDE + glob]
  }

  predicate Unmatched(entries: Entries, word: Reading) {
    word.live == {} || entries(word) == []
  }

  lemma {:induction false} ExpandedIsLonger(entries: Entries, ts: seq<Token>)
    ensures |Expanded(entries, ts)| >= |ts|
  {
    if ts != [] {
      ExpandedIsLonger(entries, ts[1..]);
    }
  }

  lemma WordsAreOne(texts: seq<string>, x: string)
    ensures Words(texts) == [Word(x)] <==> texts == [x]
  {
    if Words(texts) == [Word(x)] {
      assert Words(texts)[0] == Word(texts[0]);
    }
  }

  /** A token that expands to the one word `x`. */
  predicate Gives(entries: Entries, t: Token, x: string) {
    match t
    case Pattern(r) => entries(r) == [x] || (entries(r) == [] && r.text == x)
    case _ => t == Word(x)
  }

  lemma ExpandedToo(entries: Entries, t: Token)
    ensures Expanded(entries, [t])
            == if !t.Pattern? then [t]
               else if entries(t.reading) == [] then [Word(t.reading.text)]
               else Words(entries(t.reading))
  {
    assert Expanded(entries, [t][1..]) == [];
    if t.Pattern? {
      assert Words(entries(t.reading)) + [] == Words(entries(t.reading));
    }
  }

  lemma ExpandedOne(entries: Entries, t: Token, x: string)
    ensures Expanded(entries, [t]) == [Word(x)] <==> Gives(entries, t, x)
  {
    ExpandedToo(entries, t);
    if t.Pattern? {
      WordsAreOne(entries(t.reading), x);
    }
  }

  lemma LexHead(text: string)
    ensures Lex(Plain, None, INCLUDE + text) == Lex(Plain, Some(Dead(INCLUDE)), text)
  {
    var tail := INCLUDE[1..];
    assert forall c | c in INCLUDE :: Safe(c);
    assert INCLUDE + text == ['-'] + (tail + text);
    SafeStep(None, '-', tail + text);
    SafeIsOrdinary(tail);
    LexOrdinary("-", tail, text);
    assert "" + ['-'] == "-" && "-" + tail == INCLUDE;
  }

  lemma {:induction false} EscapeNothing(v: string)
    requires '\'' !in v
    ensures EscapeQuotes(v) == v
  {
    if v != "" {
      EscapeNothing(v[1..]);
    }
  }

  lemma {:induction false} GrowAllDead(word: string, v: string)
    requires forall c | c in v :: !Wild(c)
    ensures GrowAll(Dead(word), v) == Dead(word + v)
    decreases |v|
  {
    if v == "" {
      assert word + v == word;
    } else {
      assert v[0] in v;
      GrowAllDead(word + [v[0]], v[1..]);
      assert word + [v[0]] + v[1..] == word + v;
    }
  }

  /** A glob that needs no quoting is quoted by the quotes around it. */
  lemma LexSafeClause(glob: string, rest: string)
    requires glob != "" && forall c | c in glob :: Safe(c)
    ensures Lex(Plain, None, IncludeClause(glob) + rest) == Lex(Plain, Some(Dead(INCLUDE + glob)), rest)
  {
    assert '\'' !in glob;
    EscapeNothing(glob);
    ClauseRegroup(glob, rest);
    LexHead("'" + (glob + "'" + rest));
    LexQuoteSteps(Dead(INCLUDE), glob + "'" + rest);
    LexEscaped(INCLUDE, glob, rest);
  }

  lemma ClauseRegroup(text: string, rest: string)
    ensures INCLUDE + ("'" + text + "'") + rest == INCLUDE + ("'" + (text + "'" + rest))
  {
  }

  /** Any other glob stands outside quotes. */
  lemma LexBareClause(glob: string, rest: string)
    requires !(forall c | c in glob :: Safe(c))
    ensures Lex(Plain, None, IncludeClause(glob) + rest)
            == Lex(Plain, Some(Dead(INCLUDE)), EscapeQuotes(glob) + ("''" + rest))
  {
    var body := EscapeQuotes(glob) + ("''" + rest);
    BareRegroup(EscapeQuotes(glob), rest);
    LexHead("''" + body);
    TwoQuotesPass(Dead(INCLUDE), body);
  }

  lemma BareRegroup(text: string, rest: string)
    ensures INCLUDE + ("'" + ("'" + text + "'") + "'") + rest == INCLUDE + ("''" + (text + ("''" + rest)))
  {
  }

  /** Without special characters the clause is one word, up to whatever follows. */
  lemma ClauseReads(glob: string, rest: string)
    requires Settled(glob) && NoSpecial(glob) && glob != "" && StartsApart(rest)
    ensures Lex(Plain, None, IncludeClause(glob) + rest)
            == Then(Flush(Some(ClauseReading(glob))), Lex(Plain, None, AfterSpace(rest)))
  {
    if forall c | c in glob :: Safe(c) {
      LexSafeClause(glob, rest);
      SafeIsOrdinary(glob);
      GrowAllDead(INCLUDE, glob);
    } else {
      LexBareClause(glob, rest);
      LexPlainText(Dead(INCLUDE), glob, "''" + rest);
      TwoQuotesPass(ClauseReading(glob), rest);
    }
    EndOfWord(ClauseReading(glob), rest);
  }

  lemma TwoQuotesPass(word: Reading, rest: string)
    ensures Lex(Plain, Some(word), "''" + rest) == Lex(Plain, Some(word), rest)
  {
    assert "''" + rest == "'" + ("'" + rest);
    LexQuoteSteps(word, "'" + rest);
    LexQuoteSteps(word, rest);
  }

  lemma EndOfWord(word: Reading, rest: string)
    requires StartsApart(rest)
    ensures Lex(Plain, Some(word), rest) == Then(Flush(Some(word)), Lex(Plain, None, AfterSpace(rest)))
  {
    assert Flush(Some(word)) + [] == Flush(Some(word));
  }

  /**
   * For every directory: grep gets --include with the glob's text exactly when the
   * glob holds no special character and no entry matches it as a pattern, or when it
   * is read as a pattern whose only match is a file with that very name.
   */
  lemma IncludeClauseIff(entries: Entries, glob: string)
    requires Settled(glob) && glob != ""
    ensures Arrives(entries, glob)
            <==> (NoSpecial(glob) && Unmatched(entries, ClauseReading(glob))) || NamedAfter(entries, glob)
  {
    ArrivesAsRead(entries, glob);
    ReadingOfGlob(glob);
    if NoSpecial(glob) {
      GrowAllText(Dead(INCLUDE), glob);
    }
  }

  /** In any case the clause is read as its glob is. */
  lemma ClauseIsRead(glob: string)
    requires glob != ""
    ensures ReadAs(Tokens(IncludeClause(glob)), GlobReading(glob))
  {
    assert IncludeClause(glob) + "" == IncludeClause(glob);
    if forall c | c in glob :: Safe(c) {
      LexSafeClause(glob, "");
    } else {
      LexBareClause(glob, "");
      assert EscapeQuotes(glob) + ("''" + "") == Source(glob);
      SourceReads(Plain, Dead(INCLUDE), glob);
    }
  }

  /** One word that expands to `x` alone. */
  predicate Comes(entries: Entries, r: Reading, x: string) {
    if r.live == {} then r.text == x else entries(r) == [x] || (entries(r) == [] && r.text == x)
  }

  lemma ArrivesAsRead(entries: Entries, glob: string)
    requires glob != ""
    ensures Arrives(entries, glob)
            <==> GlobReading(glob).Some? && Comes(entries, GlobReading(glob).value, INCLUDE + glob)
  {
    var ts := Tokens(IncludeClause(glob));
    ClauseIsRead(glob);
    if ts.Some? {
      ExpandedIsLonger(entries, ts.value);
      if |ts.value| == 1 {
        assert ts.value == [ts.value[0]];
        ExpandedOne(entries, ts.value[0], INCLUDE + glob);
      }
    }
  }

  /** The reading is the glob's text exactly when the glob holds no special character. */
  lemma ReadingOfGlob(glob: string)
    requires Settled(glob) && glob != ""
    ensures NoSpecial(glob) ==> GlobReading(glob) == Some(ClauseReading(glob))
    ensures !NoSpecial(glob) && GlobReading(glob).Some? ==> GlobReading(glob).value.text != INCLUDE + glob
  {
    assert IncludeClause(glob) + "" == IncludeClause(glob);
    ClauseIsRead(glob);
    if NoSpecial(glob) {
      ClauseReads(glob, "");
      FlushIsOne(ClauseReading(glob));
      assert Flush(Some(ClauseReading(glob))) + [] == Flush(Some(ClauseReading(glob)));
    } else {
      SafeAreNotSpecial(glob);
      LexBareClause(glob, "");
      assert EscapeQuotes(glob) + ("''" + "") == Source(glob);
      LexUnquoted(Dead(INCLUDE), glob);
    }
  }

  lemma FlushIsOne(r: Reading)
    ensures OneWord(Some(Flush(Some(r)))) && TextOf(Flush(Some(r))[0]) == r.text
    ensures forall q: Reading | Flush(Some(q)) == Flush(Some(r)) :: q == r
  {
    forall q: Reading | Flush(Some(q)) == Flush(Some(r))
      ensures q == r
    {
      assert Flush(Some(q))[0] == Flush(Some(r))[0];
    }
  }

  lemma SafeAreNotSpecial(v: string)
    ensures (forall c | c in v :: Safe(c)) ==> NoSpecial(v)
  {
    if forall c | c in v :: Safe(c) {
      SafeIsOrdinary(v);
    }
  }

  /** The glob "*.py" arrives when nothing in the directory matches --include=*.py ... */
  lemma StarArrives(entries: Entries)
    requires entries(ClauseReading("*.py")) == []
    ensures Arrives(entries, "*.py")
  {
    StarIsPlain("*.py");
    IncludeClauseIff(entries, "*.py");
  }

  /** ... and not when some other file does. */
  lemma StarIsExpanded(entries: Entries, name: string)
    requires entries(ClauseReading("*.py")) == [name] && name != INCLUDE + "*.py"
    ensures !Arrives(entries, "*.py")
  {
    StarIsPlain("*.py");
    PatternIsExpanded(entries, "*.py", [name]);
  }

  /** A pattern that anything else matches does not arrive. */
  lemma PatternIsExpanded(entries: Entries, glob: string, found: seq<string>)
    requires Settled(glob) && NoSpecial(glob) && glob != "" && ClauseReading(glob).live != {}
    requires entries(ClauseReading(glob)) == found && found != [] && found != [INCLUDE + glob]
    ensures !Arrives(entries, glob)
  {
    IncludeClauseIff(entries, glob);
    ReadingOfGlob(glob);
  }

  lemma StarIsPlain(glob: string)
    requires glob == "*.py"
    ensures Settled(glob) && NoSpecial(glob) && ClauseReading(glob).live != {}
  {
    LiveStays(Add(Dead(INCLUDE), glob[0], true), glob[1..], |INCLUDE|);
    assert Wild(glob[0]);
  }

  lemma {:induction false} LiveStays(word: Reading, v: string, i: nat)
    requires i in word.live
    ensures i in GrowAll(word, v).live
    decreases |v|
  {
    if v != "" {
      LiveStays(Add(word, v[0], Wild(v[0])), v[1..], i);
    }
  }

  /** The glob "a;b" does not reach grep in any directory. */
  lemma SemicolonSplitsClause(entries: Entries)
    ensures !Arrives(entries, "a;b")
  {
    var glob := "a;b";
    assert glob[1] == ';' && Special(';') && !Safe(';') && ';' in glob;
    LexBareClause(glob, "");
    assert EscapeQuotes(glob) == "a" + (";" + EscapeQuotes("b"));
    assert IncludeClause(glob) + "" == IncludeClause(glob);
    var more := ";" + EscapeQuotes("b") + "''";
    assert EscapeQuotes(glob) + ("''" + "") == "a" + more;
    PlainStep(Dead(INCLUDE), 'a', more);
    assert more[0] == ';';
    assert Tokens(IncludeClause(glob)) == None;
  }

  // --- The whole command ----------------------------------------------------

  /** ["-rn"], and -i and -F as asked for. */
  function Flags(literal: bool, caseSensitive: bool): seq<string> {
    ["-rn"] + (if caseSensitive then [] else ["-i"]) + if literal then ["-F"] else []
  }

  function Clause(glob: string): string {
    if glob == "" then "" else IncludeClause(glob)
  }

  /** The command text of grep(); an absent glob is "". */
  function GrepText(path: string, pattern: string, glob: string, literal: bool, caseSensitive: bool, max: nat): string {
    Spaced(["grep"] + Flags(literal, caseSensitive))
    + (" " + (Clause(glob)
              + (" " + Spaced(["-m", Decimal(max + 1), "-e", Quote(pattern), Quote(path), NO_ERRORS]))))
  }

  /** The arguments a grep command with errors discarded gets. */
  function Arguments(entries: Entries, text: string): Option<seq<string>> {
    match Tokens(text)
    case None => None
    case Some(ts) =>
      var ws := Expanded(entries, ts);
      if |ws| >= 2 && ws[0] == Word("grep") && ws[|ws| - 1] == DiscardErrors && AllWords(ws[1..|ws| - 1]) then
        Some(TextsOf(ws[1..|ws| - 1]))
      else None
  }

  predicate AllWords(ts: seq<Token>) {
    forall i | 0 <= i < |ts| :: ts[i].Word?
  }

  function TextsOf(ts: seq<Token>): seq<string>
    requires AllWords(ts)
  {
    if ts == [] then [] else [ts[0].text] + TextsOf(ts[1..])
  }

  predicate IsFlag(arg: string) {
    arg == "-rn" || arg == "-i" || arg == "-F"
  }

  /** What grep makes of its arguments. */
  datatype Call = Call(
    flags: seq<string>, includes: seq<string>, caps: seq<string>, patterns: seq<string>, operands: seq<string>)

  /** Options may stand before and after operands; None for options this command does not use. */
  function ReadGrep(args: seq<string>): Option<Call>
    decreases |args|
  {
    if args == [] then Some(Call([], [], [], [], []))
    else if args[0] == "--" then Some(Call([], [], [], [], args[1..]))
    else if args[0] == "-m" || args[0] == "-e" then
      if |args| < 2 then None
      else
        match ReadGrep(args[2..])
        case None => None
        case Some(more) =>
          Some(if args[0] == "-m" then more.(caps := [args[1]] + more.caps)
               else more.(patterns := [args[1]] + more.patterns))
    else
      match ReadGrep(args[1..])
      case None => None
      case Some(more) =>
        if IsFlag(args[0]) then Some(more.(flags := [args[0]] + more.flags))
        else if INCLUDE <= args[0] then Some(more.(includes := [args[0]] + more.includes))
        else if args[0] != "" && args[0] != "-" && args[0][0] == '-' then None
        else Some(more.(operands := [args[0]] + more.operands))
  }

  /** Recursive with line numbers; ignoring case unless it matters; fixed strings if literal; nothing else. */
  predicate FlagsMean(flags: seq<string>, literal: bool, caseSensitive: bool) {
    && "-rn" in flags
    && ("-i" in flags <==> !caseSensitive)
    && ("-F" in flags <==> literal)
    && forall f | f in flags :: f == "-rn" || f == "-i" || f == "-F"
  }

  /** The call that was meant. A lone "-" would be standard input, not a file. */
  predicate Searches(
    args: Option<seq<string>>, path: string, pattern: string, glob: string,
    literal: bool, caseSensitive: bool, max: nat)
  {
    && args.Some? && path != "-" && ReadGrep(args.value).Some?
    && var call := ReadGrep(args.value).value;
       && FlagsMean(call.flags, literal, caseSensitive)
       && call.includes == (if glob == "" then [] else ["--include=" + glob])
       && call.caps == [Decimal(max + 1)] && call.patterns == [pattern] && call.operands == [path]
  }

  /** The last argument is the search path exactly when it is no option. */
  lemma LastArgument(path: string)
    ensures path != "-" && ReadGrep([path]) == Some(Call([], [], [], [], [path])) <==> path == "" || path[0] != '-'
    ensures path != "-" && path != "" && path[0] == '-' && ReadGrep([path]).Some? ==>
              ReadGrep([path]).value.operands == []
  {
    assert [path][1..] == [] && [path] + [] == [path];
    assert INCLUDE[0] == '-' && (INCLUDE <= path ==> path[0] == '-');
  }

  /** The arguments as they stand in the command. */
  function Meant(path: string, pattern: string, glob: string, flags: seq<string>, max: nat): seq<string> {
    flags + Includes(glob) + ["-m", Decimal(max + 1), "-e", pattern, path]
  }

  lemma BackRead(path: string, pattern: string, max: nat)
    ensures ReadGrep(["-m", Decimal(max + 1), "-e", pattern, path])
            == match ReadGrep([path])
               case None => None
               case Some(more) =>
                 Some(more.(caps := [Decimal(max + 1)] + more.caps, patterns := [pattern] + more.patterns))
  {
    var args := ["-m", Decimal(max + 1), "-e", pattern, path];
    assert args[2..] == ["-e", pattern, path] && ["-e", pattern, path][2..] == [path];
  }

  lemma IncludeRead(glob: string, rest: seq<string>)
    ensures ReadGrep([INCLUDE + glob] + rest)
            == match ReadGrep(rest)
               case None => None
               case Some(more) => Some(more.(includes := [INCLUDE + glob] + more.includes))
  {
    var arg := INCLUDE + glob;
    assert arg[2] == 'i' && INCLUDE <= arg && ([arg] + rest)[1..] == rest;
  }

  function WithFlags(flags: seq<string>, call: Option<Call>): Option<Call> {
    if call.Some? then Some(call.value.(flags := flags + call.value.flags)) else None
  }

  lemma WithFlagsTwice(a: seq<string>, b: seq<string>, call: Option<Call>)
    ensures WithFlags(a, WithFlags(b, call)) == WithFlags(a + b, call)
    ensures WithFlags([], call) == call
  {
    if call.Some? {
      assert a + (b + call.value.flags) == a + b + call.value.flags;
      assert [] + call.value.flags == call.value.flags;
    }
  }

  lemma FlagRead(flag: string, rest: seq<string>)
    requires IsFlag(flag)
    ensures ReadGrep([flag] + rest) == WithFlags([flag], ReadGrep(rest))
  {
    assert ([flag] + rest)[1..] == rest;
  }

  lemma OneMoreFlagRead(flag: string, more: seq<string>, rest: seq<string>)
    requires IsFlag(flag) && ReadGrep(more + rest) == WithFlags(more, ReadGrep(rest))
    ensures ReadGrep([flag] + more + rest) == WithFlags([flag] + more, ReadGrep(rest))
  {
    FlagRead(flag, more + rest);
    WithFlagsTwice([flag], more, ReadGrep(rest));
    assert [flag] + more + rest == [flag] + (more + rest);
  }

  lemma {:induction false} FlagsRead(flags: seq<string>, rest: seq<string>)
    requires forall f | f in flags :: IsFlag(f)
    ensures ReadGrep(flags + rest) == WithFlags(flags, ReadGrep(rest))
  {
    if flags == [] {
      assert flags + rest == rest;
      WithFlagsTwice([], [], ReadGrep(rest));
    } else {
      FlagsRead(flags[1..], rest);
      OneMoreFlagRead(flags[0], flags[1..], rest);
      assert [flags[0]] + flags[1..] == flags;
    }
  }

  function Includes(glob: string): seq<string> {
    if glob == "" then [] else [INCLUDE + glob]
  }

  lemma IncludesRead(glob: string, rest: seq<string>)
    ensures ReadGrep(Includes(glob) + rest)
            == match ReadGrep(rest)
               case None => None
               case Some(more) => Some(more.(includes := Includes(glob) + more.includes))
  {
    if glob == "" {
      assert Includes(glob) + rest == rest;
      assert ReadGrep(rest).Some? ==> Includes(glob) + ReadGrep(rest).value.includes == ReadGrep(rest).value.includes;
    } else {
      IncludeRead(glob, rest);
    }
  }

  /** The arguments before the path are understood, whatever the path is. */
  lemma MeantCall(path: string, pattern: string, glob: string, flags: seq<string>, max: nat)
    requires forall f | f in flags :: IsFlag(f)
    ensures ReadGrep(Meant(path, pattern, glob, flags, max))
            == match ReadGrep([path])
               case None => None
               case Some(more) =>
                 Some(Call(flags + more.flags, Includes(glob) + more.includes, [Decimal(max + 1)] + more.caps,
                           [pattern] + more.patterns, more.operands))
  {
    var back := ["-m", Decimal(max + 1), "-e", pattern, path];
    BackRead(path, pattern, max);
    IncludesRead(glob, back);
    FlagsRead(flags, Includes(glob) + back);
    assert Meant(path, pattern, glob, flags, max) == flags + (Includes(glob) + back);
  }

  lemma FlagsAreMeant(literal: bool, caseSensitive: bool)
    ensures FlagsMean(Flags(literal, caseSensitive), literal, caseSensitive)
    ensures forall f | f in Flags(literal, caseSensitive) :: IsFlag(f)
  {
    assert "-rn"[1] != "-i"[1] && "-rn"[1] != "-F"[1] && "-i"[1] != "-F"[1];
  }

  lemma MeantRead(path: string, pattern: string, glob: string, literal: bool, caseSensitive: bool, max: nat)
    ensures var args := Meant(path, pattern, glob, Flags(literal, caseSensitive), max);
            Searches(Some(args), path, pattern, glob, literal, caseSensitive, max) <==> path == "" || path[0] != '-'
  {
    var flags := Flags(literal, caseSensitive);
    FlagsAreMeant(literal, caseSensitive);
    MeantCall(path, pattern, glob, flags, max);
    LastArgument(path);
    assert flags + [] == flags && Includes(glob) + [] == Includes(glob);
    assert [Decimal(max + 1)] + [] == [Decimal(max + 1)] && [pattern] + [] == [pattern];
  }

  // --- The command's tokens -------------------------------------------------

  function Literals(words: seq<string>): seq<Piece> {
    seq(|words|, i requires 0 <= i < |words| => Literal(words[i]))
  }

  function Back(path: string, pattern: string, max: nat): seq<Piece> {
    [Literal("-m"), Literal(Decimal(max + 1)), Literal("-e"), Quoted(pattern), Quoted(path), NoErrors]
  }

  lemma FrontPieces(flags: seq<string>)
    requires forall f | f in flags :: IsFlag(f)
    ensures var front := Literals(["grep"] + flags);
            && (forall p | p in front :: Proper(p)) && Texts(front) == ["grep"] + flags
            && Meanings(front) == Words(["grep"] + flags)
  {
    var words := ["grep"] + flags;
    var front := Literals(words);
    forall p | p in front
      ensures Proper(p)
    {
      var i :| 0 <= i < |words| && p == Literal(words[i]);
      assert words[i] == "grep" || words[i] in flags;
      assert forall c | c in "grep" + "-rn" + "-i" + "-F" :: Safe(c);
      assert forall c | c in p.word :: c in "grep" + "-rn" + "-i" + "-F";
    }
  }

  lemma BackPieces(path: string, pattern: string, max: nat)
    ensures var back := Back(path, pattern, max);
            && (forall p | p in back :: Proper(p))
            && Texts(back) == ["-m", Decimal(max + 1), "-e", Quote(pattern), Quote(path), NO_ERRORS]
            && Meanings(back) == Words(["-m", Decimal(max + 1), "-e", pattern, path]) + [DiscardErrors]
  {
  }

  lemma ThenSome(a: seq<Token>, b: seq<Token>)
    ensures Then(a, Some(b)) == Some(a + b)
  {
  }

  /** Text that is read to its end reads the same before a space. */
  lemma {:induction false} LexThen(mode: Mode, word: Option<Reading>, s: string, rest: string)
    requires Lex(mode, word, s).Some? && StartsApart(rest)
    ensures Lex(mode, word, s + rest) == Then(Lex(mode, word, s).value, Lex(Plain, None, AfterSpace(rest)))
    decreases |s|
  {
    if s == "" {
      LexRest(word, rest);
    } else {
      assert (s + rest)[0] == s[0] && (s + rest)[1..] == s[1..] + rest;
      match mode
      case Single =>
        if s[0] == '\'' {
          LexThen(Plain, word, s[1..], rest);
        } else {
          LexThen(Single, Grow(word, s[0], false), s[1..], rest);
        }
      case Double => LexThenDouble(word, s, rest);
      case Plain => LexThenPlain(word, s, rest);
    }
  }

  lemma LexRest(word: Option<Reading>, rest: string)
    requires StartsApart(rest)
    ensures Lex(Plain, word, "" + rest) == Then(Flush(word), Lex(Plain, None, AfterSpace(rest)))
  {
    assert "" + rest == rest && Flush(word) + [] == Flush(word);
  }

  lemma {:induction false} LexThenDouble(word: Option<Reading>, s: string, rest: string)
    requires s != "" && Lex(Double, word, s).Some? && StartsApart(rest)
    ensures Lex(Double, word, s + rest) == Then(Lex(Double, word, s).value, Lex(Plain, None, AfterSpace(rest)))
    decreases |s|, 0
  {
    var c, more := s[0], s[1..];
    assert (s + rest)[0] == c && (s + rest)[1..] == more + rest;
    assert more != "" ==> (more + rest)[0] == more[0] && (more + rest)[1..] == more[1..] + rest;
    if c == '"' {
      LexThen(Plain, word, more, rest);
    } else if c == '\\' && more != "" && more[0] == '\n' {
      LexThen(Double, word, more[1..], rest);
    } else if c == '\\' && more != "" && more[0] in "$`\"\\" {
      LexThen(Double, Grow(word, more[0], false), more[1..], rest);
    } else {
      LexThen(Double, Grow(word, c, false), more, rest);
    }
  }

  lemma {:induction false} LexThenPlain(word: Option<Reading>, s: string, rest: string)
    requires s != "" && Lex(Plain, word, s).Some? && StartsApart(rest)
    ensures Lex(Plain, word, s + rest) == Then(Lex(Plain, word, s).value, Lex(Plain, None, AfterSpace(rest)))
    decreases |s|, 1
  {
    var c, more := s[0], s[1..];
    assert (s + rest)[0] == c && (s + rest)[1..] == more + rest;
    assert more != "" ==> (more + rest)[0] == more[0] && (more + rest)[1..] == more[1..] + rest;
    if c == ' ' || c == '|' || c == '>' || (c == '2' && word == None && more != "" && more[0] == '>') {
      LexThenBreak(word, s, rest);
    } else if c == '\'' {
      LexThen(Single, Begin(word), more, rest);
    } else if c == '"' {
      LexThen(Double, Begin(word), more, rest);
    } else if c == '\\' {
      LexThen(Plain, if more[0] == '\n' then word else Grow(word, more[0], false), more[1..], rest);
    } else {
      LexThen(Plain, Grow(word, c, Wild(c)), more, rest);
    }
  }

  /** Where a word ends: what is read so far, then the rest. */
  lemma {:induction false} LexThenBreak(word: Option<Reading>, s: string, rest: string)
    requires s != "" && Lex(Plain, word, s).Some? && StartsApart(rest)
    requires s[0] in " |>" || (s[0] == '2' && word == None && |s| > 1 && s[1] == '>')
    ensures Lex(Plain, word, s + rest) == Then(Lex(Plain, word, s).value, Lex(Plain, None, AfterSpace(rest)))
    decreases |s|, 0
  {
    var (read, next) := Break(word, s);
    assert s[0] == '2' ==> NO_ERRORS <= s;
    BreakReads(word, s);
    LexThen(Plain, None, next, rest);
    BreakStays(word, s, rest);
    assert s[0] == '2' ==> NO_ERRORS <= s + rest by { if s[0] == '2' { Beyond(NO_ERRORS, s, rest); } }
    BreakReads(word, s + rest);
    ThenThen(read, Lex(Plain, None, next).value, Lex(Plain, None, AfterSpace(rest)));
  }

  /** The tokens read at a break and the text after it. */
  function Break(word: Option<Reading>, s: string): (seq<Token>, string)
    requires s != ""
  {
    if s[0] == ' ' then (Flush(word), s[1..])
    else if s[0] == '|' then (Flush(word) + [Pipe], s[1..])
    else if s[0] == '>' then
      if |s| > 1 && s[1] == '>' then (Flush(word) + [Append], s[2..]) else (Flush(word) + [Write], s[1..])
    else if NO_ERRORS <= s then ([DiscardErrors], s[|NO_ERRORS|..])
    else ([], s[1..])
  }

  lemma BreakReads(word: Option<Reading>, s: string)
    requires s != "" && (s[0] in " |>" || (s[0] == '2' && word == None && NO_ERRORS <= s))
    ensures var (read, next) := Break(word, s);
            Lex(Plain, word, s) == Then(read, Lex(Plain, None, next)) && |next| < |s|
  {
    assert |s| > 1 ==> s[1..][0] == s[1] && s[1..][1..] == s[2..];
  }

  lemma BreakStays(word: Option<Reading>, s: string, rest: string)
    requires s != "" && StartsApart(rest) && (s[0] == '2' ==> NO_ERRORS <= s)
    ensures Break(word, s + rest) == (Break(word, s).0, Break(word, s).1 + rest)
  {
    assert (s + rest)[1..] == s[1..] + rest;
    if NO_ERRORS <= s {
      Beyond(NO_ERRORS, s, rest);
    }
    assert |s| > 1 ==> (s + rest)[2..] == s[2..] + rest;
  }

  lemma Beyond(head: string, s: string, rest: string)
    requires head <= s
    ensures head <= s + rest && (s + rest)[|head|..] == s[|head|..] + rest
  {
  }

  /** The tokens of the clause, if there is one. */
  function ClauseTokens(glob: string): Option<seq<Token>> {
    if glob == "" then Some([]) else Tokens(IncludeClause(glob))
  }

  /** After the flags: the clause, if any, and the rest. */
  lemma ClauseThenBack(path: string, pattern: string, glob: string, max: nat)
    requires ClauseTokens(glob).Some?
    ensures Lex(Plain, None, Clause(glob) + (" " + Spaced(Texts(Back(path, pattern, max)))))
            == Some(ClauseTokens(glob).value + Meanings(Back(path, pattern, max)))
  {
    var back := Back(path, pattern, max);
    var tail := " " + Spaced(Texts(back));
    BackPieces(path, pattern, max);
    SpacedTokens(back);
    assert AfterSpace(tail) == Spaced(Texts(back));
    if glob == "" {
      LexApart(tail);
      assert "" + tail == tail && [] + Meanings(back) == Meanings(back);
    } else {
      LexThen(Plain, None, IncludeClause(glob), tail);
      ThenSome(ClauseTokens(glob).value, Meanings(back));
    }
  }

  lemma GrepTokens(path: string, pattern: string, glob: string, literal: bool, caseSensitive: bool, max: nat)
    requires ClauseTokens(glob).Some?
    ensures Tokens(GrepText(path, pattern, glob, literal, caseSensitive, max))
            == Some(Words(["grep"] + Flags(literal, caseSensitive))
                    + (ClauseTokens(glob).value + Meanings(Back(path, pattern, max))))
  {
    var front, back := Literals(["grep"] + Flags(literal, caseSensitive)), Back(path, pattern, max);
    FrontPieces(Flags(literal, caseSensitive));
    BackPieces(path, pattern, max);
    var rest := " " + (Clause(glob) + (" " + Spaced(Texts(back))));
    SpacedFirst(front, rest);
    ClauseThenBack(path, pattern, glob, max);
    assert AfterSpace(rest) == Clause(glob) + (" " + Spaced(Texts(back)));
    ThenSome(Meanings(front), ClauseTokens(glob).value + Meanings(back));
  }

  lemma {:induction false} WordsStay(entries: Entries, texts: seq<string>, rest: seq<Token>)
    ensures Expanded(entries, Words(texts) + rest) == Words(texts) + Expanded(entries, rest)
  {
    if texts == [] {
      assert Words(texts) + rest == rest;
      assert Words(texts) + Expanded(entries, rest) == Expanded(entries, rest);
    } else {
      WordsCons(texts, rest);
      WordStays(entries, texts[0], Words(texts[1..]) + rest);
      WordsStay(entries, texts[1..], rest);
      WordsCons(texts, Expanded(entries, rest));
    }
  }

  lemma WordStays(entries: Entries, text: string, rest: seq<Token>)
    ensures Expanded(entries, [Word(text)] + rest) == [Word(text)] + Expanded(entries, rest)
  {
    assert ([Word(text)] + rest)[1..] == rest;
  }

  lemma WordsCons(texts: seq<string>, rest: seq<Token>)
    requires texts != []
    ensures Words(texts) + rest == [Word(texts[0])] + (Words(texts[1..]) + rest)
  {
  }

  lemma {:induction false} ExpandedConcat(entries: Entries, a: seq<Token>, b: seq<Token>)
    ensures Expanded(entries, a + b) == Expanded(entries, a) + Expanded(entries, b)
  {
    if a == [] {
      assert a + b == b;
    } else {
      var first, more := a[0], a[1..];
      ExpandedConcat(entries, more, b);
      ExpandedCons(entries, first, more + b);
      ExpandedCons(entries, first, more);
      TokensRegroup([first], more, b);
      TokensRegroup(Expanded(entries, [first]), Expanded(entries, more), Expanded(entries, b));
      assert [first] + more == a;
    }
  }

  lemma TokensRegroup(a: seq<Token>, b: seq<Token>, c: seq<Token>)
    ensures a + b + c == a + (b + c)
  {
  }

  lemma ExpandedCons(entries: Entries, t: Token, rest: seq<Token>)
    ensures Expanded(entries, [t] + rest) == Expanded(entries, [t]) + Expanded(entries, rest)
  {
    assert ([t] + rest)[1..] == rest;
    ExpandedToo(entries, t);
  }

  lemma ArgumentsOf(entries: Entries, text: string, args: seq<string>)
    requires Tokens(text).Some?
    requires Expanded(entries, Tokens(text).value) == [Word("grep")] + Words(args) + [DiscardErrors]
    ensures Arguments(entries, text) == Some(args)
  {
    var ws := Expanded(entries, Tokens(text).value);
    assert ws[1..|ws| - 1] == Words(args);
    TextsOfWords(args);
  }

  lemma {:induction false} TextsOfWords(texts: seq<string>)
    ensures TextsOf(Words(texts)) == texts
  {
    if texts != [] {
      WordsCons(texts, []);
      assert (Words(texts) + [])[1..] == Words(texts)[1..] == Words(texts[1..]);
      TextsOfWords(texts[1..]);
    }
  }

  /** No glob, or one that reaches grep. */
  predicate GlobArrives(entries: Entries, glob: string) {
    glob == "" || Arrives(entries, glob)
  }

  lemma ClauseExpands(entries: Entries, glob: string)
    requires GlobArrives(entries, glob)
    ensures ClauseTokens(glob).Some? && Expanded(entries, ClauseTokens(glob).value) == Words(Includes(glob))
  {
    assert Words([INCLUDE + glob]) == [Word(INCLUDE + glob)];
    assert Words([]) == [];
  }

  lemma GrepExpands(entries: Entries, path: string, pattern: string, glob: string, flags: seq<string>, max: nat)
    requires GlobArrives(entries, glob) && ClauseTokens(glob).Some?
    ensures Expanded(entries, Words(["grep"] + flags) + (ClauseTokens(glob).value + Meanings(Back(path, pattern, max))))
            == [Word("grep")] + Words(Meant(path, pattern, glob, flags, max)) + [DiscardErrors]
  {
    var back := ["-m", Decimal(max + 1), "-e", pattern, path];
    BackPieces(path, pattern, max);
    WordsStay(entries, back, [DiscardErrors]);
    ExpandedToo(entries, DiscardErrors);
    ClauseExpands(entries, glob);
    ExpandedConcat(entries, ClauseTokens(glob).value, Meanings(Back(path, pattern, max)));
    WordsStay(entries, ["grep"] + flags, ClauseTokens(glob).value + Meanings(Back(path, pattern, max)));
    WordsTogether(flags, Includes(glob), back);
  }

  lemma WordsTogether(a: seq<string>, b: seq<string>, c: seq<string>)
    ensures Words(["grep"] + a) + (Words(b) + (Words(c) + [DiscardErrors]))
            == [Word("grep")] + Words(a + b + c) + [DiscardErrors]
  {
  }

  /**
   * For every pattern, whatever it holds, and every glob that arrives: the command is
   * read as the search that was meant exactly when the search path does not begin
   * with a dash.
   */
  lemma GrepCommandIff(
    entries: Entries, path: string, pattern: string, glob: string, literal: bool, caseSensitive: bool, max: nat)
    requires GlobArrives(entries, glob)
    ensures var text := GrepText(path, pattern, glob, literal, caseSensitive, max);
            Searches(Arguments(entries, text), path, pattern, glob, literal, caseSensitive, max)
            <==> path == "" || path[0] != '-'
  {
    var flags := Flags(literal, caseSensitive);
    ClauseExpands(entries, glob);
    GrepTokens(path, pattern, glob, literal, caseSensitive, max);
    GrepExpands(entries, path, pattern, glob, flags, max);
    var text := GrepText(path, pattern, glob, literal, caseSensitive, max);
    ArgumentsOf(entries, text, Meant(path, pattern, glob, flags, max));
    MeantRead(path, pattern, glob, literal, caseSensitive, max);
  }

  /** A directory named -c is not searched: grep reads an option. */
  lemma DashPathIsAnOption(entries: Entries, pattern: string, literal: bool, caseSensitive: bool, max: nat)
    ensures var text := GrepText("-c", pattern, "", literal, caseSensitive, max);
            !Searches(Arguments(entries, text), "-c", pattern, "", literal, caseSensitive, max)
  {
    GrepCommandIff(entries, "-c", pattern, "", literal, caseSensitive, max);
  }
}
