/**
 * The command router rebuilds an argument list as PowerShell source text and has
 * PowerShell read it back (cli/adp.ps1:52-63, 160-184; string literals: section
 * 2.3.5.2 of the PowerShell Language Specification).
 */
module CommandLine {
  import opened Basics

  // --- Writing --------------------------------------------------------------

  /** -replace "'", "''": only the apostrophe U+0027 is doubled. */
  function Doubled(v: string): string {
    if v == "" then "" else (if v[0] == '\'' then "''" else [v[0]]) + Doubled(v[1..])
  }

  function QuoteArgument(v: string): string {
    "'" + Doubled(v) + "'"
  }

  function Lower(c: char): char {
    if 'A' <= c <= 'Z' then (c as int + 32) as char else c
  }

  function LowerAll(s: string): string {
    seq(|s|, i requires 0 <= i < |s| => Lower(s[i]))
  }

  function ResolveAlias(a: string): string {
    if forall c | c in a :: White(c) then a
    else if LowerAll(a) == "--help-prereqs" then "-HelpPrereqs"
    else a
  }

  /** [A-Za-z] matched without regard to case, which admits the Kelvin sign and the dotted capital I. */
  predicate Letter(c: char) {
    'A' <= c <= 'Z' || 'a' <= c <= 'z' || c as int == 0x212A || c as int == 0x130
  }

  predicate NameChar(c: char) {
    Letter(c) || '0' <= c <= '9' || c == '_' || c == '-'
  }

  predicate SwitchCore(a: string) {
    && |a| >= 2 && a[0] == '-'
    && (Letter(a[1]) || (|a| >= 3 && a[1] == '-' && Letter(a[2])))
    && forall c | c in a :: NameChar(c)
  }

  /** ^-{1,2}[A-Za-z][A-Za-z0-9_-]*$ where $ also matches before a final newline. */
  predicate SwitchShaped(a: string) {
    SwitchCore(a) || (a != "" && a[|a| - 1] == '\n' && SwitchCore(a[..|a| - 1]))
  }

  function Part(a: string): string {
    if SwitchShaped(ResolveAlias(a)) then ResolveAlias(a) else QuoteArgument(ResolveAlias(a))
  }

  function Parts(path: string, args: seq<string>): (parts: seq<string>)
    ensures |parts| == |args| + 1
  {
    if args == [] then [". " + QuoteArgument(path)] else Parts(path, args[..|args| - 1]) + [Part(args[|args| - 1])]
  }

  /** $parts -join " " */
  function Joined(parts: seq<string>): string {
    if parts == [] then ""
    else if |parts| == 1 then parts[0]
    else Joined(parts[..|parts| - 1]) + (" " + parts[|parts| - 1])
  }

  function CommandText(path: string, args: seq<string>): string {
    Joined(Parts(path, args))
  }

  /** The loop of Invoke-CommandFile, up to the text it has PowerShell read. */
  method BuildCommandText(path: string, args: seq<string>) returns (text: string)
    ensures text == CommandText(path, args)
  {
    var parts := [". " + QuoteArgument(path)];
    for i := 0 to |args|
      invariant parts == Parts(path, args[..i])
    {
      assert args[..i + 1][..i] == args[..i];
      var arg := ResolveAlias(args[i]);
      if SwitchShaped(arg) {
        parts := parts + [arg];
      } else {
        parts := parts + [QuoteArgument(arg)];
      }
    }
    assert args[..|args|] == args;
    text := Joined(parts);
  }

  // --- Reading --------------------------------------------------------------

  /** PowerShell's single quotes: the apostrophe and four typographic ones. */
  predicate Typographic(c: char) {
    0x2018 <= c as int <= 0x201B
  }

  predicate SingleQuote(c: char) {
    c == '\'' || Typographic(c)
  }

  datatype Argument = Literal(text: string) | Bare(text: string)

  /** Inside a literal: two adjacent quotes stand for the second, one ends it. The rest follows. */
  function ReadLiteral(s: string): (r: Option<(string, string)>)
    ensures r.Some? ==> |r.value.1| < |s|
  {
    if s == "" then None
    else if !SingleQuote(s[0]) then
      match ReadLiteral(s[1..])
      case Some((v, rest)) => Some(([s[0]] + v, rest))
      case None => None
    else if |s| >= 2 && SingleQuote(s[1]) then
      match ReadLiteral(s[2..])
      case Some((v, rest)) => Some(([s[1]] + v, rest))
      case None => None
    else Some(("", s[1..]))
  }

  function NameLength(s: string): (n: nat)
    ensures n <= |s| && (forall c | c in s[..n] :: NameChar(c)) && (n < |s| ==> !NameChar(s[n]))
  {
    if s != "" && NameChar(s[0]) then
      assert forall i | 0 < i < 1 + NameLength(s[1..]) :: s[i] == s[1..][i - 1];
      1 + NameLength(s[1..])
    else 0
  }

  /**
   * The arguments of one command, each after a space; None when the text is not
   * one command with quoted and switch arguments only. A newline ends the command.
   */
  function ReadArguments(s: string): Option<seq<Argument>>
    decreases |s|
  {
    if forall c | c in s :: White(c) then Some([])
    else if s[0] != ' ' then None
    else if s[1] == ' ' then ReadArguments(s[1..])
    else if SingleQuote(s[1]) then
      (match ReadLiteral(s[2..])
       case None => None
       case Some((v, rest)) =>
         match ReadArguments(rest)
         case Some(more) => Some([Literal(v)] + more)
         case None => None)
    else if s[1] == '-' then
      var t := s[1..];
      var n := NameLength(t);
      match ReadArguments(t[n..])
      case Some(more) => Some([Bare(t[..n])] + more)
      case None => None
    else None
  }

  /** Reading a dot-sourced command: the script path first, then its arguments. */
  function ReadBack(s: string): Option<seq<Argument>> {
    if s != "" && s[0] == '.' then ReadArguments(s[1..]) else None
  }

  // --- What should come back ------------------------------------------------

  function Meant(a: string): Argument {
    if SwitchShaped(ResolveAlias(a)) then Bare(ResolveAlias(a)) else Literal(ResolveAlias(a))
  }

  function AllMeant(path: string, args: seq<string>): seq<Argument> {
    [Literal(path)] + seq(|args|, i requires 0 <= i < |args| => Meant(args[i]))
  }

  function Shown(a: Argument): string {
    match a
    case Literal(v) => QuoteArgument(v)
    case Bare(v) => v
  }

  function Render(xs: seq<Argument>): string {
    if xs == [] then "" else " " + Shown(xs[0]) + Render(xs[1..])
  }

  lemma {:induction false} RenderConcat(a: seq<Argument>, b: seq<Argument>)
    ensures Render(a + b) == Render(a) + Render(b)
  {
    if a == [] {
      assert a + b == b;
    } else {
      assert (a + b)[1..] == a[1..] + b;
      RenderConcat(a[1..], b);
    }
  }

  lemma JoinedSnoc(parts: seq<string>, part: string)
    requires parts != []
    ensures Joined(parts + [part]) == Joined(parts) + (" " + part)
  {
    assert (parts + [part])[..|parts + [part]| - 1] == parts;
  }

  lemma RenderOne(a: Argument)
    ensures Render([a]) == " " + Shown(a)
  {
    assert [a][1..] == [];
    assert " " + Shown(a) + "" == " " + Shown(a);
  }

  lemma TextOfNone(path: string)
    ensures CommandText(path, []) == "." + Render([Literal(path)])
  {
    RenderOne(Literal(path));
    assert ". " + QuoteArgument(path) == "." + (" " + QuoteArgument(path));
  }

  lemma TextOfOneMore(path: string, front: seq<string>, last: string)
    ensures CommandText(path, front + [last]) == CommandText(path, front) + (" " + Shown(Meant(last)))
  {
    var args := front + [last];
    assert args[..|args| - 1] == front && args[|args| - 1] == last;
    JoinedSnoc(Parts(path, front), Part(last));
  }

  lemma MeantOfOneMore(path: string, front: seq<string>, last: string)
    ensures Render(AllMeant(path, front + [last])) == Render(AllMeant(path, front)) + (" " + Shown(Meant(last)))
  {
    assert AllMeant(path, front + [last]) == AllMeant(path, front) + [Meant(last)];
    RenderConcat(AllMeant(path, front), [Meant(last)]);
    RenderOne(Meant(last));
  }

  lemma {:induction false} TextIsRendered(path: string, args: seq<string>)
    ensures CommandText(path, args) == "." + Render(AllMeant(path, args))
  {
    if args == [] {
      TextOfNone(path);
      assert AllMeant(path, args) == [Literal(path)];
    } else {
      var front, last := args[..|args| - 1], args[|args| - 1];
      assert args == front + [last];
      TextIsRendered(path, front);
      TextOfOneMore(path, front, last);
      MeantOfOneMore(path, front, last);
      Regroup(Render(AllMeant(path, front)), " " + Shown(Meant(last)));
    }
  }

  lemma Regroup(a: string, b: string)
    ensures "." + a + b == "." + (a + b)
  {
  }

  // --- Round trip -----------------------------------------------------------

  predicate NoTypographic(v: string) {
    forall c | c in v :: !Typographic(c)
  }

  /** Comes back as it is: a literal without typographic quotes, a switch without a final newline. */
  predicate Faithful(a: Argument) {
    match a
    case Literal(v) => NoTypographic(v)
    case Bare(v) => SwitchCore(v)
  }

  lemma {:induction false} LiteralReadsBack(v: string, rest: string)
    requires NoTypographic(v) && (rest == "" || !SingleQuote(rest[0]))
    ensures ReadLiteral(Doubled(v) + "'" + rest) == Some((v, rest))
  {
    if v == "" {
      assert Doubled(v) + "'" + rest == "'" + rest;
      assert ("'" + rest)[1..] == rest;
    } else {
      var more := Doubled(v[1..]) + "'" + rest;
      LiteralReadsBack(v[1..], rest);
      assert [v[0]] + v[1..] == v;
      if v[0] == '\'' {
        assert Doubled(v) + "'" + rest == "''" + more;
        assert ("''" + more)[2..] == more;
      } else {
        assert Doubled(v) + "'" + rest == [v[0]] + more;
        assert ([v[0]] + more)[1..] == more;
      }
    }
  }

  lemma {:induction false} NameEnds(v: string, rest: string)
    requires (forall c | c in v :: NameChar(c)) && (rest == "" || !NameChar(rest[0]))
    ensures NameLength(v + rest) == |v|
  {
    if v == "" {
      assert v + rest == rest;
    } else {
      assert (v + rest)[1..] == v[1..] + rest;
      assert v[0] in v;
      NameEnds(v[1..], rest);
    }
  }

  lemma ReadQuoted(body: string, v: string, rest: string, more: seq<Argument>)
    requires ReadLiteral(body) == Some((v, rest)) && ReadArguments(rest) == Some(more)
    ensures ReadArguments(" '" + body) == Some([Literal(v)] + more)
  {
    var s := " '" + body;
    assert s[1] in s && s[2..] == body;
  }

  lemma ReadSwitch(v: string, rest: string, more: seq<Argument>)
    requires v != "" && v[0] == '-' && (forall c | c in v :: NameChar(c)) && (rest == "" || rest[0] == ' ')
    requires ReadArguments(rest) == Some(more)
    ensures ReadArguments(" " + (v + rest)) == Some([Bare(v)] + more)
  {
    var s := " " + (v + rest);
    assert s[1] in s && s[1] == '-' && s[1..] == v + rest;
    NameEnds(v, rest);
    assert (v + rest)[..|v|] == v && (v + rest)[|v|..] == rest;
  }

  lemma ReadLiteralArgument(v: string, rest: string, more: seq<Argument>)
    requires NoTypographic(v) && (rest == "" || rest[0] == ' ') && ReadArguments(rest) == Some(more)
    ensures ReadArguments(" " + QuoteArgument(v) + rest) == Some([Literal(v)] + more)
  {
    var body := Doubled(v) + "'" + rest;
    LiteralReadsBack(v, rest);
    ReadQuoted(body, v, rest, more);
    QuoteRegroup(Doubled(v), rest);
  }

  lemma QuoteRegroup(doubled: string, rest: string)
    ensures " " + ("'" + doubled + "'") + rest == " '" + (doubled + "'" + rest)
  {
  }

  lemma ArgumentReadsBack(a: Argument, rest: string, more: seq<Argument>)
    requires Faithful(a) && (rest == "" || rest[0] == ' ') && ReadArguments(rest) == Some(more)
    ensures ReadArguments(" " + Shown(a) + rest) == Some([a] + more)
  {
    match a
    case Literal(v) =>
      ReadLiteralArgument(v, rest, more);
    case Bare(v) =>
      ReadSwitch(v, rest, more);
      assert " " + v + rest == " " + (v + rest);
  }

  lemma {:induction false} RenderedReadsBack(xs: seq<Argument>)
    requires forall a | a in xs :: Faithful(a)
    ensures ReadArguments(Render(xs)) == Some(xs)
  {
    if xs != [] {
      RenderedReadsBack(xs[1..]);
      ArgumentReadsBack(xs[0], Render(xs[1..]), xs[1..]);
      assert [xs[0]] + xs[1..] == xs;
    }
  }

  // --- Nothing else reads back ----------------------------------------------

  function Quotes(v: string): nat {
    if v == "" then 0 else (if SingleQuote(v[0]) then 1 else 0) + Quotes(v[1..])
  }

  function Apostrophes(v: string): nat {
    if v == "" then 0 else (if v[0] == '\'' then 1 else 0) + Apostrophes(v[1..])
  }

  lemma {:induction false} ApostrophesBelow(v: string)
    ensures Apostrophes(v) <= Quotes(v)
    ensures Apostrophes(v) == Quotes(v) ==> NoTypographic(v)
    ensures |Doubled(v)| == |v| + Apostrophes(v)
  {
    if v != "" {
      ApostrophesBelow(v[1..]);
      assert forall c | c in v :: c == v[0] || c in v[1..];
    }
  }

  /** The text an argument takes up when it is read. */
  function Taken(a: Argument): nat {
    match a
    case Literal(v) => 3 + |v| + Quotes(v)
    case Bare(v) => 1 + |v|
  }

  function AllTaken(xs: seq<Argument>): nat {
    if xs == [] then 0 else Taken(xs[0]) + AllTaken(xs[1..])
  }

  lemma {:induction false} LiteralTakes(s: string)
    requires ReadLiteral(s).Some?
    ensures |s| == |ReadLiteral(s).value.0| + Quotes(ReadLiteral(s).value.0) + 1 + |ReadLiteral(s).value.1|
    decreases |s|
  {
    if !SingleQuote(s[0]) {
      LiteralTakes(s[1..]);
      var v := ReadLiteral(s[1..]).value.0;
      assert ([s[0]] + v)[1..] == v;
    } else if |s| >= 2 && SingleQuote(s[1]) {
      LiteralTakes(s[2..]);
      var v := ReadLiteral(s[2..]).value.0;
      assert ([s[1]] + v)[1..] == v;
    }
  }

  predicate NamesOnly(xs: seq<Argument>) {
    forall a | a in xs :: a.Bare? ==> forall c | c in a.text :: NameChar(c)
  }

  lemma TakenCons(a: Argument, xs: seq<Argument>)
    ensures AllTaken([a] + xs) == Taken(a) + AllTaken(xs)
    ensures NamesOnly([a]) && NamesOnly(xs) ==> NamesOnly([a] + xs)
  {
    assert ([a] + xs)[1..] == xs;
  }

  lemma {:induction false} ArgumentsTake(s: string)
    requires ReadArguments(s).Some?
    ensures AllTaken(ReadArguments(s).value) <= |s| && NamesOnly(ReadArguments(s).value)
    decreases |s|
  {
    if forall c | c in s :: White(c) {
    } else if s[1] == ' ' {
      ArgumentsTake(s[1..]);
    } else if SingleQuote(s[1]) {
      LiteralTakes(s[2..]);
      var (v, rest) := ReadLiteral(s[2..]).value;
      ArgumentsTake(rest);
      TakenCons(Literal(v), ReadArguments(rest).value);
    } else {
      var t := s[1..];
      var n := NameLength(t);
      ArgumentsTake(t[n..]);
      TakenCons(Bare(t[..n]), ReadArguments(t[n..]).value);
    }
  }

  /** Writing never takes more room than reading; when it takes as much, no literal holds a typographic quote. */
  lemma {:induction false} RenderTakesLess(xs: seq<Argument>)
    ensures |Render(xs)| <= AllTaken(xs)
    ensures |Render(xs)| == AllTaken(xs) ==> forall a | a in xs :: a.Literal? ==> NoTypographic(a.text)
  {
    if xs != [] {
      RenderTakesLess(xs[1..]);
      if xs[0].Literal? {
        ApostrophesBelow(xs[0].text);
      }
      assert forall a | a in xs :: a == xs[0] || a in xs[1..];
    }
  }

  lemma SwitchWithoutNewline(v: string)
    requires SwitchShaped(v) && forall c | c in v :: NameChar(c)
    ensures SwitchCore(v)
  {
    if !SwitchCore(v) {
      assert v[|v| - 1] in v;
    }
  }

  lemma MeantBare(a: string)
    requires Meant(a).Bare?
    ensures SwitchShaped(Meant(a).text)
  {
  }

  lemma MeantSwitches(path: string, args: seq<string>, i: nat)
    requires i < |AllMeant(path, args)| && AllMeant(path, args)[i].Bare?
    ensures SwitchShaped(AllMeant(path, args)[i].text)
  {
    assert i > 0;
    assert AllMeant(path, args)[i] == Meant(args[i - 1]);
    MeantBare(args[i - 1]);
  }

  lemma OnlyFaithfulComesBack(path: string, args: seq<string>, a: Argument)
    requires ReadArguments(Render(AllMeant(path, args))) == Some(AllMeant(path, args))
    requires a in AllMeant(path, args)
    ensures Faithful(a)
  {
    ArgumentsTake(Render(AllMeant(path, args)));
    RenderTakesLess(AllMeant(path, args));
    if a.Bare? {
      var i :| 0 <= i < |AllMeant(path, args)| && AllMeant(path, args)[i] == a;
      MeantSwitches(path, args, i);
      assert forall c | c in a.text :: NameChar(c);
      SwitchWithoutNewline(a.text);
    }
  }

  /**
   * For every path and argument list: PowerShell reads back the script path and the
   * alias-resolved arguments, in order, switches bare and everything else verbatim,
   * exactly when no quoted text holds a typographic single quote and no switch ends
   * with a newline.
   */
  lemma ReadBackIff(path: string, args: seq<string>)
    ensures ReadBack(CommandText(path, args)) == Some(AllMeant(path, args))
        <==> forall a | a in AllMeant(path, args) :: Faithful(a)
  {
    var xs := AllMeant(path, args);
    TextIsRendered(path, args);
    assert ("." + Render(xs))[1..] == Render(xs);
    if forall a | a in xs :: Faithful(a) {
      RenderedReadsBack(xs);
    }
    if ReadArguments(Render(xs)) == Some(xs) {
      forall a | a in xs
        ensures Faithful(a)
      {
        OnlyFaithfulComesBack(path, args, a);
      }
    }
  }

  // --- What is meant --------------------------------------------------------

  /** The lower-case text `a`, any of its ASCII letters in upper case. */
  predicate AnyCaseOf(s: string, a: string) {
    && |s| == |a|
    && forall i | 0 <= i < |a| :: s[i] == a[i] || ('a' <= a[i] <= 'z' && s[i] as int == a[i] as int - 32)
  }

  /** One or two dashes, a letter, name characters, and perhaps a final newline. */
  ghost predicate SwitchForm(a: string) {
    exists dashes: string, letter: char, name: string, end: string ::
      && a == dashes + [letter] + name + end
      && (dashes == "-" || dashes == "--") && (end == "" || end == "\n")
      && Letter(letter) && forall c | c in name :: NameChar(c)
  }

  /** What the callee should be given for an argument. */
  ghost predicate Given(a: string, arg: Argument) {
    if AnyCaseOf(a, "--help-prereqs") then arg == Bare("-HelpPrereqs")
    else if SwitchForm(a) then arg == Bare(a)
    else arg == Literal(a)
  }

  lemma LowerIffAnyCase(s: string, a: string)
    requires forall c | c in a :: !('A' <= c <= 'Z')
    ensures LowerAll(s) == a <==> AnyCaseOf(s, a)
  {
    if LowerAll(s) == a {
      forall i | 0 <= i < |a|
        ensures s[i] == a[i] || ('a' <= a[i] <= 'z' && s[i] as int == a[i] as int - 32)
      {
        assert LowerAll(s)[i] == a[i];
      }
    }
    if AnyCaseOf(s, a) {
      forall i | 0 <= i < |a|
        ensures LowerAll(s)[i] == a[i]
      {
        assert a[i] in a;
      }
    }
  }

  lemma FormOfCore(a: string, end: string)
    requires SwitchCore(a) && (end == "" || end == "\n")
    ensures SwitchForm(a + end)
  {
    var k := if Letter(a[1]) then 1 else 2;
    assert a == a[..k] + [a[k]] + a[k + 1..];
    assert a[..k] == (if k == 1 then "-" else "--");
    assert forall c | c in a[k + 1..] :: c in a;
    assert a + end == a[..k] + [a[k]] + a[k + 1..] + end;
  }

  lemma CoreOfForm(dashes: string, letter: char, name: string)
    requires (dashes == "-" || dashes == "--") && Letter(letter) && forall c | c in name :: NameChar(c)
    ensures SwitchCore(dashes + [letter] + name)
  {
    var a := dashes + [letter] + name;
    assert a[|dashes|] == letter;
    assert forall c | c in a :: c == '-' || c == letter || c in name;
  }

  lemma ShapeIsForm(a: string)
    ensures SwitchShaped(a) <==> SwitchForm(a)
  {
    if SwitchCore(a) {
      FormOfCore(a, "");
      assert a + "" == a;
    } else if SwitchShaped(a) {
      FormOfCore(a[..|a| - 1], "\n");
      assert a[..|a| - 1] + "\n" == a;
    }
    if SwitchForm(a) {
      var dashes: string, letter: char, name: string, end: string :|
        && a == dashes + [letter] + name + end
        && (dashes == "-" || dashes == "--") && (end == "" || end == "\n")
        && Letter(letter) && forall c | c in name :: NameChar(c);
      CoreOfForm(dashes, letter, name);
      assert end == "" ==> a == dashes + [letter] + name;
      assert end == "\n" ==> a[..|a| - 1] == dashes + [letter] + name && a[|a| - 1] == '\n';
    }
  }

  /**
   * The alias, in any case of its letters, is given as the bare switch -HelpPrereqs; every
   * other argument as itself, bare if it has the form of a switch and quoted if not.
   */
  lemma MeantIsGiven(a: string)
    ensures Given(a, Meant(a))
  {
    var alias := "--help-prereqs";
    LowerIffAnyCase(a, alias);
    assert !AnyCaseOf(a, alias) ==> ResolveAlias(a) == a;
    ShapeIsForm(a);
    if AnyCaseOf(a, alias) {
      assert a[0] in a && a[0] == '-';
      assert SwitchCore("-HelpPrereqs");
    }
  }

  lemma FaithfulIff(a: string)
    ensures Faithful(Meant(a)) <==>
      AnyCaseOf(a, "--help-prereqs") || if SwitchForm(a) then a[|a| - 1] != '\n' else NoTypographic(a)
  {
    MeantIsGiven(a);
    ShapeIsForm(a);
    assert SwitchCore("-HelpPrereqs");
    assert SwitchCore(a) ==> a[|a| - 1] in a;
  }

  lemma AllMeantHolds(path: string, args: seq<string>, x: Argument)
    ensures x in AllMeant(path, args) <==> x == Literal(path) || exists a | a in args :: x == Meant(a)
  {
    var xs := AllMeant(path, args);
    assert xs[0] == Literal(path);
    if a :| a in args && x == Meant(a) {
      var i :| 0 <= i < |args| && args[i] == a;
      assert xs[i + 1] == x;
    }
    if x in xs && x != Literal(path) {
      var i :| 0 <= i < |xs| && xs[i] == x;
      assert args[i - 1] in args;
    }
  }

  lemma AllFaithfulIff(path: string, args: seq<string>)
    ensures (forall x | x in AllMeant(path, args) :: Faithful(x))
      <==> NoTypographic(path) && forall a | a in args :: Faithful(Meant(a))
  {
    assert Faithful(Literal(path)) <==> NoTypographic(path);
    AllMeantHolds(path, args, Literal(path));
    forall a | a in args
      ensures Meant(a) in AllMeant(path, args)
    {
      AllMeantHolds(path, args, Meant(a));
    }
    forall x | x in AllMeant(path, args)
      ensures x == Literal(path) || exists a | a in args :: x == Meant(a)
    {
      AllMeantHolds(path, args, x);
    }
  }

  /** The path and, in order, every argument as it should be given. */
  ghost predicate GivenAll(path: string, args: seq<string>, got: seq<Argument>) {
    && |got| == 1 + |args| && got[0] == Literal(path)
    && forall i | 0 <= i < |args| :: Given(args[i], got[1..][i])
  }

  lemma OnlyMeantIsGiven(a: string, arg: Argument)
    ensures Given(a, arg) <==> arg == Meant(a)
  {
    MeantIsGiven(a);
  }

  lemma GivenOneByOne(args: seq<string>, got: seq<Argument>)
    requires |got| == |args|
    ensures (forall i | 0 <= i < |args| :: Given(args[i], got[i]))
      <==> forall i | 0 <= i < |args| :: got[i] == Meant(args[i])
  {
    forall i | 0 <= i < |args|
      ensures Given(args[i], got[i]) <==> got[i] == Meant(args[i])
    {
      OnlyMeantIsGiven(args[i], got[i]);
    }
  }

  lemma GivenAllIff(path: string, args: seq<string>, got: seq<Argument>)
    ensures GivenAll(path, args, got) <==> got == AllMeant(path, args)
  {
    var xs := AllMeant(path, args);
    assert xs[0] == Literal(path);
    forall i | 0 <= i < |args|
      ensures xs[1..][i] == Meant(args[i])
    {
    }
    if |got| == |xs| {
      GivenOneByOne(args, got[1..]);
      assert got == [got[0]] + got[1..] && xs == [xs[0]] + xs[1..];
      if GivenAll(path, args, got) {
        assert got[1..] == xs[1..];
      }
    }
  }

  /**
   * For every path and argument list: the callee gets them as they should be given exactly
   * when neither the path nor a quoted argument holds a typographic single quote and no
   * switch ends with a newline.
   */
  lemma CalledAsGivenIff(path: string, args: seq<string>)
    ensures (match ReadBack(CommandText(path, args)) case Some(got) => GivenAll(path, args, got) case None => false)
      <==>
      && NoTypographic(path)
      && forall a | a in args && !AnyCaseOf(a, "--help-prereqs") ::
           if SwitchForm(a) then a[|a| - 1] != '\n' else NoTypographic(a)
  {
    var back := ReadBack(CommandText(path, args));
    ReadBackIff(path, args);
    if back.Some? {
      GivenAllIff(path, args, back.value);
    }
    AllFaithfulIff(path, args);
    forall a | a in args
      ensures Faithful(Meant(a)) <==>
        AnyCaseOf(a, "--help-prereqs") || if SwitchForm(a) then a[|a| - 1] != '\n' else NoTypographic(a)
    {
      FaithfulIff(a);
    }
  }

  /** Arguments whose only quote is the apostrophe, no switch with a final newline among them, always come back. */
  lemma OrdinaryArgumentsComeBack(path: string, args: seq<string>)
    requires NoTypographic(path)
    requires forall a | a in args :: NoTypographic(a) && (SwitchShaped(a) ==> SwitchCore(a))
    ensures ReadBack(CommandText(path, args)) == Some(AllMeant(path, args))
  {
    forall a | a in AllMeant(path, args)
      ensures Faithful(a)
    {
      var xs := AllMeant(path, args);
      var i :| 0 <= i < |xs| && xs[i] == a;
      if i > 0 {
        assert a == Meant(args[i - 1]) && args[i - 1] in args;
        AliasIsOrdinary(args[i - 1]);
      }
    }
    ReadBackIff(path, args);
  }

  lemma AliasIsOrdinary(a: string)
    requires NoTypographic(a) && (SwitchShaped(a) ==> SwitchCore(a))
    ensures Faithful(Meant(a))
  {
  }

  /** A switch with a final newline passes the pattern bare and is not read back. */
  lemma NewlineSwitchIsLost()
    ensures ReadBack(CommandText("run.ps1", ["-Plan\n"])) != Some(AllMeant("run.ps1", ["-Plan\n"]))
  {
    var a := "-Plan\n";
    assert LowerAll(a) != "--help-prereqs" by {
      assert |LowerAll(a)| == 6;
    }
    assert a[1] in a && ResolveAlias(a) == a;
    assert a[..5] == "-Plan" && SwitchCore("-Plan");
    assert Meant(a) == Bare(a);
    assert !NameChar(a[5]) && a[5] in a;
    assert AllMeant("run.ps1", [a])[1] == Bare(a);
    assert Bare(a) in AllMeant("run.ps1", [a]) && !Faithful(Bare(a));
    ReadBackIff("run.ps1", [a]);
  }

  /** So is an argument holding one of the four typographic quotes. */
  lemma TypographicQuoteIsLost(quote: char)
    requires quote in "\U{2018}\U{2019}\U{201A}\U{201B}"
    ensures var args := ["it" + [quote] + "s"];
            ReadBack(CommandText("run.ps1", args)) != Some(AllMeant("run.ps1", args))
  {
    var a := "it" + [quote] + "s";
    assert |LowerAll(a)| == 4 && a[0] in a && a[2] in a && a[2] == quote;
    assert ResolveAlias(a) == a && Meant(a) == Literal(a);
    assert AllMeant("run.ps1", [a])[1] == Literal(a);
    assert Literal(a) in AllMeant("run.ps1", [a]) && Typographic(a[2]);
    ReadBackIff("run.ps1", [a]);
  }
}
