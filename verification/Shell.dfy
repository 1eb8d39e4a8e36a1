/**
 * The part of the shell the adapter's commands use: words, quoting and redirection
 * (sections 2.2, 2.6 and 2.7 of the POSIX Shell Command Language), and shlex.quote.
 */
module Shell {
  import opened Basics

  /** Characters shlex.quote leaves unquoted. */
  predicate Safe(c: char) {
    'A' <= c <= 'Z' || 'a' <= c <= 'z' || '0' <= c <= '9' || c in "@%+=:,./-_"
  }

  /** s.replace("'", "'\"'\"'") */
  function EscapeQuotes(s: string): string {
    if s == "" then "" else (if s[0] == '\'' then "'\"'\"'" else [s[0]]) + EscapeQuotes(s[1..])
  }

  function Quote(s: string): string {
    if s == "" then "''"
    else if forall c | c in s :: Safe(c) then s
    else "'" + EscapeQuotes(s) + "'"
  }

  const NO_ERRORS := "2>/dev/null"

  /** Characters that separate words, or quote, wherever they stand outside quotes. */
  predicate Special(c: char) {
    c == ' ' || c == '\'' || c == '"' || c == '\\' || c == '|' || c == '>' || Outside(c)
  }

  /** Operators and separators the commands here do not use. */
  predicate Outside(c: char) {
    c == '\t' || c == '\n' || c == '&' || c == ';' || c == '<' || c == '(' || c == ')'
  }

  /** Characters of filename patterns. */
  predicate Wild(c: char) {
    c == '*' || c == '?' || c == '['
  }

  /** A dollar sign before such a character begins no expansion and no quoting: it stands for itself. */
  predicate Harmless(c: char) {
    !('A' <= c <= 'Z' || 'a' <= c <= 'z' || '0' <= c <= '9') && c !in "_@*#?-$!{(['\"`"
  }

  /** What has been read of a word, and where it holds pattern characters outside quotes. */
  datatype Reading = Reading(text: string, live: set<nat>)

  function Dead(text: string): Reading {
    Reading(text, {})
  }

  function Add(word: Reading, c: char, live: bool): Reading {
    Reading(word.text + [c], if live then word.live + {|word.text|} else word.live)
  }

  datatype Token = Word(text: string) | Pattern(reading: Reading) | Pipe | Write | Append | DiscardErrors

  datatype Mode = Plain | Single | Double

  function Flush(word: Option<Reading>): seq<Token> {
    if word.None? then [] else if word.value.live == {} then [Word(word.value.text)] else [Pattern(word.value)]
  }

  function Begin(word: Option<Reading>): Option<Reading> {
    Some(if word.Some? then word.value else Dead(""))
  }

  function Grow(word: Option<Reading>, c: char, live: bool): Option<Reading> {
    Some(Add(Begin(word).value, c, live))
  }

  function Then(ts: seq<Token>, rest: Option<seq<Token>>): Option<seq<Token>> {
    if rest.Some? then Some(ts + rest.value) else None
  }

  /** A dollar sign with `rest` after it stands for itself. */
  predicate LoneDollar(rest: string) {
    rest == "" || Harmless(rest[0])
  }

  /**
   * The tokens of `s` when `word` has been read so far; None for text outside this
   * part of the shell: expansions of variables and commands, braces, other operators.
   */
  function Lex(mode: Mode, word: Option<Reading>, s: string): Option<seq<Token>>
    decreases |s|, 1
  {
    if s == "" then if mode == Plain then Some(Flush(word)) else None
    else
      var c, rest := s[0], s[1..];
      match mode
      case Single => if c == '\'' then Lex(Plain, word, rest) else Lex(Single, Grow(word, c, false), rest)
      case Double => LexDouble(word, c, rest)
      case Plain =>
        if c == ' ' then Then(Flush(word), Lex(Plain, None, rest))
        else if c == '\'' then Lex(Single, Begin(word), rest)
        else if c == '"' then Lex(Double, Begin(word), rest)
        else if c == '|' then Then(Flush(word) + [Pipe], Lex(Plain, None, rest))
        else if c == '>' then
          if rest != "" && rest[0] == '>' then Then(Flush(word) + [Append], Lex(Plain, None, rest[1..]))
          else Then(Flush(word) + [Write], Lex(Plain, None, rest))
        else if c == '2' && word == None && rest != "" && rest[0] == '>' then
          // the only redirection of errors used here
          if NO_ERRORS <= s then Then([DiscardErrors], Lex(Plain, None, s[|NO_ERRORS|..])) else None
        else if c == '\\' then
          if rest == "" then None
          else if rest[0] == '\n' then Lex(Plain, word, rest[1..])
          else Lex(Plain, Grow(word, rest[0], false), rest[1..])
        else if Outside(c) || c == '`' || c == '{' || (word == None && c in "#~") then None
        else if c == '$' && !LoneDollar(rest) then None
        else Lex(Plain, Grow(word, c, Wild(c)), rest)
  }

  /** Inside double quotes, with `c` before `rest`. */
  function LexDouble(word: Option<Reading>, c: char, rest: string): Option<seq<Token>>
    decreases |rest| + 1, 0
  {
    if c == '"' then Lex(Plain, word, rest)
    else if c == '`' || (c == '$' && !LoneDollar(rest)) then None
    else if c == '\\' && rest != "" && rest[0] == '\n' then Lex(Double, word, rest[1..])
    else if c == '\\' && rest != "" && rest[0] in "$`\"\\" then Lex(Double, Grow(word, rest[0], false), rest[1..])
    else Lex(Double, Grow(word, c, false), rest)
  }

  function Tokens(s: string): Option<seq<Token>> {
    Lex(Plain, None, s)
  }

  predicate StartsApart(s: string) {
    s == "" || s[0] == ' '
  }

  /** Stands for itself in the middle of a word. */
  predicate Ordinary(c: char) {
    !Special(c) && !Wild(c) && c != '`' && c != '{' && c != '$'
  }

  lemma SafeIsOrdinary(v: string)
    requires forall c | c in v :: Safe(c)
    ensures forall c | c in v :: Ordinary(c)
  {
  }

  /** A safe character inside a word just extends it. */
  lemma SafeStep(word: Option<Reading>, c: char, rest: string)
    requires Safe(c) && (word.Some? || c != '2' || rest == "" || rest[0] != '>')
    ensures Lex(Plain, word, [c] + rest) == Lex(Plain, Grow(word, c, false), rest)
  {
    SafeIsOrdinary([c]);
    assert ([c] + rest)[1..] == rest;
  }

  lemma {:induction false} LexOrdinary(word: string, v: string, rest: string)
    requires forall c | c in v :: Ordinary(c)
    ensures Lex(Plain, Some(Dead(word)), v + rest) == Lex(Plain, Some(Dead(word + v)), rest)
    decreases |v|
  {
    if v == "" {
      assert v + rest == rest && word + v == word;
    } else {
      assert v[0] in v && (v + rest)[1..] == v[1..] + rest;
      assert word + [v[0]] + v[1..] == word + v;
      LexOrdinary(word + [v[0]], v[1..], rest);
    }
  }

  lemma LexFirst(c: char, v: string, rest: string)
    requires Safe(c) && (forall x | x in v :: Safe(x)) && StartsApart(rest)
    ensures Lex(Plain, None, [c] + (v + rest)) == Lex(Plain, Some(Dead([c])), v + rest)
  {
    assert v + rest == "" || (v + rest)[0] != '>' by {
      if v != "" {
        assert v[0] in v && (v + rest)[0] == v[0];
      } else {
        assert v + rest == rest;
      }
    }
    SafeStep(None, c, v + rest);
    assert "" + [c] == [c];
  }

  lemma LexWord(v: string, rest: string)
    requires v != "" && (forall c | c in v :: Safe(c)) && StartsApart(rest)
    ensures Lex(Plain, None, v + rest) == Lex(Plain, Some(Dead(v)), rest)
  {
    assert v + rest == [v[0]] + (v[1..] + rest);
    assert v[0] in v;
    LexFirst(v[0], v[1..], rest);
    SafeIsOrdinary(v[1..]);
    LexOrdinary([v[0]], v[1..], rest);
    assert [v[0]] + v[1..] == v;
  }

  /** Entering and leaving quotes inside a word, and an apostrophe between double quotes. */
  lemma LexQuoteSteps(word: Reading, rest: string)
    ensures Lex(Single, Some(word), "'" + rest) == Lex(Plain, Some(word), rest)
    ensures Lex(Plain, Some(word), "'" + rest) == Lex(Single, Some(word), rest)
    ensures Lex(Plain, Some(word), "\"" + rest) == Lex(Double, Some(word), rest)
    ensures Lex(Double, Some(word), "\"" + rest) == Lex(Plain, Some(word), rest)
    ensures Lex(Double, Some(word), "'" + rest) == Lex(Double, Some(Add(word, '\'', false)), rest)
    ensures Lex(Single, Some(word), "\"" + rest) == Lex(Single, Some(Add(word, '"', false)), rest)
  {
    assert ("'" + rest)[1..] == rest && ("\"" + rest)[1..] == rest;
  }

  /** A quote inside the single-quoted text leaves it, passes through double quotes and returns. */
  lemma LexEscapedQuote(word: Reading, rest: string)
    ensures Lex(Single, Some(word), "'\"'\"'" + rest) == Lex(Single, Some(Add(word, '\'', false)), rest)
  {
    var t4 := "'" + rest;
    var t3 := "\"" + t4;
    var t2 := "'" + t3;
    var t1 := "\"" + t2;
    assert "'\"'\"'" + rest == "'" + t1;
    LexQuoteSteps(word, t1);
    LexQuoteSteps(word, t2);
    LexQuoteSteps(word, t3);
    LexQuoteSteps(Add(word, '\'', false), t4);
    LexQuoteSteps(Add(word, '\'', false), rest);
  }

  lemma {:induction false} LexEscaped(word: string, v: string, rest: string)
    ensures Lex(Single, Some(Dead(word)), EscapeQuotes(v) + "'" + rest) == Lex(Plain, Some(Dead(word + v)), rest)
    decreases |v|
  {
    if v == "" {
      assert ("'" + rest)[1..] == rest;
      assert EscapeQuotes(v) + "'" + rest == "'" + rest;
      assert word + v == word;
    } else {
      var more := EscapeQuotes(v[1..]) + "'" + rest;
      assert word + [v[0]] + v[1..] == word + v;
      if v[0] == '\'' {
        assert EscapeQuotes(v) + "'" + rest == "'\"'\"'" + more;
        LexEscapedQuote(Dead(word), more);
      } else {
        assert EscapeQuotes(v) + "'" + rest == [v[0]] + more;
        assert ([v[0]] + more)[1..] == more;
      }
      LexEscaped(word + [v[0]], v[1..], rest);
    }
  }

  lemma LexEndOfWord(v: string, rest: string)
    requires StartsApart(rest)
    ensures Lex(Plain, Some(Dead(v)), rest) == Then([Word(v)], Lex(Plain, None, AfterSpace(rest)))
  {
    assert [Word(v)] + [] == [Word(v)];
  }

  lemma LexEmptyQuotes(rest: string)
    ensures Lex(Plain, None, "''" + rest) == Lex(Plain, Some(Dead("")), rest)
  {
    assert ("''" + rest)[1..] == "'" + rest;
    assert ("'" + rest)[1..] == rest;
    assert Lex(Single, Some(Dead("")), "'" + rest) == Lex(Plain, Some(Dead("")), rest);
  }

  lemma LexOpenQuote(body: string)
    ensures Lex(Plain, None, "'" + body) == Lex(Single, Some(Dead("")), body)
  {
    assert ("'" + body)[1..] == body;
  }

  lemma LexQuotes(v: string, rest: string)
    ensures Lex(Plain, None, "'" + EscapeQuotes(v) + "'" + rest) == Lex(Plain, Some(Dead(v)), rest)
  {
    var body := EscapeQuotes(v) + "'" + rest;
    assert "'" + EscapeQuotes(v) + "'" + rest == "'" + body;
    LexOpenQuote(body);
    LexEscaped("", v, rest);
    assert "" + v == v;
  }

  /** The shell reads a quoted text as one word with exactly that text. */
  lemma LexQuoted(v: string, rest: string)
    requires StartsApart(rest)
    ensures Lex(Plain, None, Quote(v) + rest) == Then([Word(v)], Lex(Plain, None, AfterSpace(rest)))
  {
    if v == "" {
      LexEmptyQuotes(rest);
    } else if forall c | c in v :: Safe(c) {
      LexWord(v, rest);
    } else {
      LexQuotes(v, rest);
    }
    LexEndOfWord(v, rest);
  }

  // --- Commands made of words separated by spaces ---------------------------

  /** " ".join(texts) */
  function Spaced(texts: seq<string>): string {
    if texts == [] then "" else if |texts| == 1 then texts[0] else texts[0] + (" " + Spaced(texts[1..]))
  }

  datatype Piece = Literal(word: string) | Quoted(word: string) | Bar | Over | AtEnd | NoErrors

  predicate Proper(p: Piece) {
    p.Literal? ==> p.word != "" && forall c | c in p.word :: Safe(c)
  }

  function Text(p: Piece): string {
    match p
    case Literal(w) => w
    case Quoted(w) => Quote(w)
    case Bar => "|"
    case Over => ">"
    case AtEnd => ">>"
    case NoErrors => NO_ERRORS
  }

  function Meaning(p: Piece): Token {
    match p
    case Literal(w) => Word(w)
    case Quoted(w) => Word(w)
    case Bar => Pipe
    case Over => Write
    case AtEnd => Append
    case NoErrors => DiscardErrors
  }

  function Texts(ps: seq<Piece>): seq<string> {
    seq(|ps|, i requires 0 <= i < |ps| => Text(ps[i]))
  }

  function Meanings(ps: seq<Piece>): seq<Token> {
    seq(|ps|, i requires 0 <= i < |ps| => Meaning(ps[i]))
  }

  function AfterSpace(s: string): string {
    if s == "" then "" else s[1..]
  }

  lemma LexOperator(p: Piece, rest: string)
    requires (p.Bar? || p.Over? || p.AtEnd?) && StartsApart(rest)
    ensures Lex(Plain, None, Text(p) + rest) == Then([Meaning(p)], Lex(Plain, None, rest))
  {
    assert (Text(p) + rest)[1..] == Text(p)[1..] + rest;
    if p.AtEnd? {
      assert (">" + rest)[1..] == rest;
    } else {
      assert Text(p)[1..] + rest == rest;
    }
    assert Flush(None) + [Meaning(p)] == [Meaning(p)];
  }

  lemma LexNoErrors(rest: string)
    ensures Lex(Plain, None, NO_ERRORS + rest) == Then([DiscardErrors], Lex(Plain, None, rest))
  {
    var s := NO_ERRORS + rest;
    assert s[0] == '2' && s[1..][0] == '>' && NO_ERRORS <= s && s[|NO_ERRORS|..] == rest;
  }

  lemma LexApart(rest: string)
    requires StartsApart(rest)
    ensures Lex(Plain, None, rest) == Lex(Plain, None, AfterSpace(rest))
  {
    if rest != "" && Lex(Plain, None, rest[1..]).Some? {
      assert [] + Lex(Plain, None, rest[1..]).value == Lex(Plain, None, rest[1..]).value;
    }
  }

  lemma LexPiece(p: Piece, rest: string)
    requires Proper(p) && StartsApart(rest)
    ensures Lex(Plain, None, Text(p) + rest) == Then([Meaning(p)], Lex(Plain, None, AfterSpace(rest)))
  {
    match p
    case Literal(w) =>
      LexWord(w, rest);
      LexEndOfWord(w, rest);
    case Quoted(w) =>
      LexQuoted(w, rest);
    case NoErrors =>
      LexNoErrors(rest);
      LexApart(rest);
    case _ =>
      LexOperator(p, rest);
      LexApart(rest);
  }

  lemma SpacedCons(p: Piece, ps: seq<Piece>)
    ensures Spaced(Texts([p] + ps)) == Text(p) + if ps == [] then "" else " " + Spaced(Texts(ps))
    ensures Meanings([p] + ps) == [Meaning(p)] + Meanings(ps)
  {
    assert Texts([p] + ps) == [Text(p)] + Texts(ps);
    assert ([Text(p)] + Texts(ps))[1..] == Texts(ps);
  }

  /** Spaced pieces at the head of a command are read as the tokens they stand for, whatever the quoted texts are. */
  lemma {:induction false} SpacedFirst(ps: seq<Piece>, rest: string)
    requires ps != [] && (forall p | p in ps :: Proper(p)) && StartsApart(rest)
    ensures Lex(Plain, None, Spaced(Texts(ps)) + rest) == Then(Meanings(ps), Lex(Plain, None, AfterSpace(rest)))
  {
    var first, tail := ps[0], ps[1..];
    assert first in ps;
    SpacedCons(first, tail);
    assert ps == [first] + tail;
    if tail == [] {
      LexPiece(first, rest);
      assert Text(first) + "" + rest == Text(first) + rest;
      assert [Meaning(first)] + Meanings(tail) == [Meaning(first)];
    } else {
      SpacedFirst(tail, rest);
      SpacedRegroup(Text(first), Spaced(Texts(tail)), rest);
      LexPiece(first, " " + (Spaced(Texts(tail)) + rest));
      ThenThen([Meaning(first)], Meanings(tail), Lex(Plain, None, AfterSpace(rest)));
    }
  }

  lemma SpacedRegroup(a: string, b: string, rest: string)
    ensures a + (" " + b) + rest == a + (" " + (b + rest))
    ensures AfterSpace(" " + (b + rest)) == b + rest
  {
  }

  lemma ThenThen(a: seq<Token>, b: seq<Token>, rest: Option<seq<Token>>)
    ensures Then(a, Then(b, rest)) == Then(a + b, rest)
  {
    if rest.Some? {
      assert a + (b + rest.value) == a + b + rest.value;
    }
  }

  /** A whole command of spaced pieces is read as exactly their tokens. */
  lemma SpacedTokens(ps: seq<Piece>)
    requires forall p | p in ps :: Proper(p)
    ensures Tokens(Spaced(Texts(ps))) == Some(Meanings(ps))
  {
    if ps == [] {
      assert Texts(ps) == [] && Meanings(ps) == [];
    } else {
      SpacedFirst(ps, "");
      assert Spaced(Texts(ps)) + "" == Spaced(Texts(ps));
      assert Meanings(ps) + [] == Meanings(ps);
    }
  }
}
