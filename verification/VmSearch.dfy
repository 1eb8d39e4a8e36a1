/**
 * find | head | sort and grep | head in the virtual machine (cli/mcp/vm_tools.py:125-222),
 * read through the tools' own SSH call (cli/mcp/core.py:276-318), which translates line
 * ends and strips the whole output.
 */
module VmSearch {
  import opened Basics
  import opened SearchLimits

  // --- What comes back ------------------------------------------------------

  /** Text mode of subprocess: "\r\n" and a lone "\r" become "\n". */
  function Translated(s: string): string
    decreases |s|
  {
    if s == "" then ""
    else if s[0] == '\r' then "\n" + Translated(if |s| > 1 && s[1] == '\n' then s[2..] else s[1..])
    else [s[0]] + Translated(s[1..])
  }

  /** [line for line in lines if line.strip()] */
  function WithText(lines: seq<string>): seq<string> {
    if lines == [] then []
    else WithText(lines[..|lines| - 1]) + if Strip(lines[|lines| - 1]) == "" then [] else [lines[|lines| - 1]]
  }

  function LinesWithText(s: string): seq<string> {
    WithText(Split('\n', s))
  }

  /** The matches and the flag that adp_glob and adp_grep answer when the command printed `printed`. */
  function VmAnswer(success: bool, printed: string, max: nat): (seq<string>, bool) {
    var stdout := Strip(Translated(printed));
    if success && stdout != "" then (First(max, LinesWithText(stdout)), |LinesWithText(stdout)| > max) else ([], false)
  }

  predicate NoBlank(lines: seq<string>) {
    forall l | l in lines :: Strip(l) != ""
  }

  predicate Unbroken(lines: seq<string>) {
    forall l | l in lines :: '\n' !in l
  }

  predicate NoReturn(lines: seq<string>) {
    forall l | l in lines :: '\r' !in l
  }

  predicate Begins(l: string) {
    l != "" && Space(l[0])
  }

  predicate Ends(l: string) {
    l != "" && Space(l[|l| - 1])
  }

  // --- Line ends ------------------------------------------------------------

  lemma {:induction false} TranslatedConcat(a: string, b: string)
    requires a == "" || a[|a| - 1] != '\r'
    ensures Translated(a + b) == Translated(a) + Translated(b)
    decreases |a|
  {
    if a == "" {
      assert a + b == b;
    } else if a[0] == '\r' && a[1] == '\n' {
      assert (a + b)[2..] == a[2..] + b;
      TranslatedConcat(a[2..], b);
    } else {
      assert (a + b)[1..] == a[1..] + b;
      TranslatedConcat(a[1..], b);
    }
  }

  lemma {:induction false} TranslatedPlain(a: string)
    requires '\r' !in a
    ensures Translated(a) == a
  {
    if a != "" {
      assert a[0] in a;
      TranslatedPlain(a[1..]);
    }
  }

  lemma {:induction false} TranslatedClean(s: string)
    ensures '\r' !in Translated(s)
    ensures (forall c | c in s :: Space(c)) ==> forall c | c in Translated(s) :: Space(c)
    decreases |s|
  {
    if s != "" {
      if s[0] == '\r' && |s| > 1 && s[1] == '\n' {
        TranslatedClean(s[2..]);
      } else {
        TranslatedClean(s[1..]);
      }
    }
  }

  /** A line end after a carriage return is part of it. */
  lemma {:induction false} TranslatedReturn(a: string) returns (t: string)
    requires a != "" && a[|a| - 1] == '\r'
    ensures Translated(a) == t + "\n" && Translated(a + "\n") == t + "\n"
    decreases |a|
  {
    if |a| == 1 {
      t := "";
      assert (a + "\n")[2..] == "" && a[1..] == "";
    } else {
      var n := if a[0] == '\r' && a[1] == '\n' then 2 else 1;
      assert (a + "\n")[n..] == a[n..] + "\n";
      var more := TranslatedReturn(a[n..]);
      t := (if a[0] == '\r' then "\n" else [a[0]]) + more;
    }
  }

  // --- Lines with text ------------------------------------------------------

  lemma {:induction false} WithTextFacts(lines: seq<string>)
    ensures multiset(WithText(lines)) <= multiset(lines) && |WithText(lines)| <= |lines|
    ensures NoBlank(WithText(lines))
    ensures NoBlank(lines) <==> |WithText(lines)| == |lines|
    ensures NoBlank(lines) ==> WithText(lines) == lines
  {
    if lines != [] {
      var front, last := lines[..|lines| - 1], lines[|lines| - 1];
      assert lines == front + [last];
      WithTextFacts(front);
    }
  }

  lemma {:induction false} WithTextConcat(a: seq<string>, b: seq<string>)
    ensures WithText(a + b) == WithText(a) + WithText(b)
    decreases |b|
  {
    if b == [] {
      assert a + b == a;
    } else {
      assert (a + b)[..|a + b| - 1] == a + b[..|b| - 1];
      WithTextConcat(a, b[..|b| - 1]);
    }
  }

  lemma WithTextOne(l: string)
    ensures WithText([l]) == if Strip(l) == "" then [] else [l]
  {
    assert [l][..0] == [] && WithText([]) == [];
  }

  lemma LinesConcat(a: string, b: string)
    ensures LinesWithText(a + "\n" + b) == LinesWithText(a) + LinesWithText(b)
  {
    SplitJoined('\n', a, b);
    WithTextConcat(Split('\n', a), Split('\n', b));
  }

  lemma NoLines()
    ensures LinesWithText("") == []
  {
    assert Strip("") == "";
    WithTextOne("");
  }

  /** What the printed text is worth before the strip. */
  function Worth(printed: string): seq<string> {
    LinesWithText(Translated(printed))
  }

  lemma WorthConcat(a: string, b: string)
    ensures Worth(a + "\n" + b) == Worth(a) + Worth(b)
  {
    TranslatedConcat(a + "\n", b);
    NoLines();
    if a != "" && a[|a| - 1] == '\r' {
      var t := TranslatedReturn(a);
      LinesConcat(t, Translated(b));
      LinesConcat(t, "");
      assert t + "\n" + "" == t + "\n";
    } else {
      TranslatedConcat(a, "\n");
      TranslatedPlain("\n");
      LinesConcat(Translated(a), Translated(b));
    }
  }

  lemma WorthOfPlain(l: string)
    requires '\r' !in l && '\n' !in l
    ensures Worth(l) == if Strip(l) == "" then [] else [l]
  {
    TranslatedPlain(l);
    SplitPlain('\n', l);
    WithTextOne(l);
  }

  predicate AllSpace(s: string) {
    forall c | c in s :: Space(c)
  }

  lemma {:induction false} BlankPieces(s: string)
    requires AllSpace(s)
    ensures forall l | l in Split('\n', s) :: AllSpace(l)
  {
    if s != "" {
      assert AllSpace(s[1..]) && s[0] in s;
      BlankPieces(s[1..]);
      var rest := Split('\n', s[1..]);
      assert rest[0] in rest;
    }
  }

  lemma {:induction false} AllBlank(lines: seq<string>)
    requires forall l | l in lines :: Strip(l) == ""
    ensures WithText(lines) == []
  {
    if lines != [] {
      assert lines[|lines| - 1] in lines;
      AllBlank(lines[..|lines| - 1]);
    }
  }

  lemma WorthOfBlank(l: string)
    requires Strip(l) == ""
    ensures Worth(l) == []
  {
    StripBlank(l);
    TranslatedClean(l);
    BlankPieces(Translated(l));
    forall x | x in Split('\n', Translated(l))
      ensures Strip(x) == ""
    {
      StripBlank(x);
    }
    AllBlank(Split('\n', Translated(l)));
  }

  lemma {:induction false} TranslatedKeeps(s: string, c: char)
    requires c in s && c != '\r' && c != '\n'
    ensures c in Translated(s)
    decreases |s|
  {
    if s[0] != c {
      if s[0] == '\r' && |s| > 1 && s[1] == '\n' {
        TranslatedKeeps(s[2..], c);
      } else {
        TranslatedKeeps(s[1..], c);
      }
    }
  }

  lemma {:induction false} SomeText(lines: seq<string>, l: string)
    requires l in lines && Strip(l) != ""
    ensures WithText(lines) != []
  {
    if l != lines[|lines| - 1] {
      SomeText(lines[..|lines| - 1], l);
    }
  }

  lemma WorthOfText(l: string)
    requires Strip(l) != ""
    ensures Worth(l) != []
  {
    StripBlank(l);
    var c :| c in l && !Space(c);
    TranslatedKeeps(l, c);
    SplitKeepsText(Translated(l), c);
    var x :| x in Split('\n', Translated(l)) && c in x;
    StripBlank(x);
    SomeText(Split('\n', Translated(l)), x);
  }

  // --- The strip of the whole output ----------------------------------------

  function LTrimFirst(lines: seq<string>): seq<string> {
    if lines == [] then [] else [LStrip(lines[0])] + lines[1..]
  }

  function RTrimLast(lines: seq<string>): seq<string> {
    if lines == [] then [] else lines[..|lines| - 1] + [RStrip(lines[|lines| - 1])]
  }

  lemma LStripSpace(c: char, l: string)
    requires Space(c)
    ensures LStrip([c] + l) == LStrip(l) && (Strip([c] + l) == "" <==> Strip(l) == "")
  {
    assert ([c] + l)[1..] == l;
    StripBlank([c] + l);
    StripBlank(l);
  }

  lemma RStripSpace(l: string, c: char)
    requires Space(c)
    ensures RStrip(l + [c]) == RStrip(l) && (Strip(l + [c]) == "" <==> Strip(l) == "")
  {
    assert (l + [c])[..|l + [c]| - 1] == l;
    StripBlank(l + [c]);
    StripBlank(l);
  }

  /** Leading white space of a text is that of its first line with text. */
  lemma {:induction false} LStripLines(s: string)
    ensures LinesWithText(LStrip(s)) == LTrimFirst(LinesWithText(s))
    decreases |s|
  {
    if s != "" && Space(s[0]) {
      var rest := s[1..];
      LStripLines(rest);
      if s[0] == '\n' {
        assert s == "" + "\n" + rest;
        LinesConcat("", rest);
        NoLines();
        assert [] + LinesWithText(rest) == LinesWithText(rest);
      } else {
        FirstLineLonger(s[0], rest);
      }
    } else {
      NothingToTrimLeft(s);
    }
  }

  lemma FirstLineLonger(c: char, rest: string)
    requires Space(c) && c != '\n'
    ensures LTrimFirst(LinesWithText([c] + rest)) == LTrimFirst(LinesWithText(rest))
  {
    var pieces := Split('\n', rest);
    assert ([c] + rest)[1..] == rest;
    assert Split('\n', [c] + rest) == [[c] + pieces[0]] + pieces[1..];
    WithTextConcat([[c] + pieces[0]], pieces[1..]);
    WithTextConcat([pieces[0]], pieces[1..]);
    assert [pieces[0]] + pieces[1..] == pieces;
    WithTextOne([c] + pieces[0]);
    WithTextOne(pieces[0]);
    LStripSpace(c, pieces[0]);
  }

  lemma NothingToTrimLeft(s: string)
    requires s == "" || !Space(s[0])
    ensures LTrimFirst(LinesWithText(s)) == LinesWithText(s)
  {
    NoLines();
    if s != "" {
      var pieces := Split('\n', s);
      assert pieces[0] != "" && pieces[0][0] == s[0];
      StripBlank(pieces[0]);
      assert pieces[0][0] in pieces[0];
      WithTextConcat([pieces[0]], pieces[1..]);
      assert [pieces[0]] + pieces[1..] == pieces;
      WithTextOne(pieces[0]);
    }
  }

  lemma {:induction false} SplitEnd(s: string, c: char)
    requires c != '\n'
    ensures var r := Split('\n', s); Split('\n', s + [c]) == r[..|r| - 1] + [r[|r| - 1] + [c]]
  {
    if s == "" {
      SplitPlain('\n', [c]);
      assert s + [c] == [c] && "" + [c] == [c];
    } else {
      assert (s + [c])[1..] == s[1..] + [c];
      SplitEnd(s[1..], c);
      var rest := Split('\n', s[1..]);
      var longer := rest[..|rest| - 1] + [rest[|rest| - 1] + [c]];
      if s[0] == '\n' {
        SplitEndFirst([""], rest, c);
      } else if |rest| == 1 {
        assert [s[0]] + (rest[0] + [c]) == [s[0]] + rest[0] + [c];
      } else {
        assert longer[0] == rest[0];
        SplitEndFirst([[s[0]] + rest[0]], rest[1..], c);
        assert longer[1..] == rest[1..][..|rest[1..]| - 1] + [rest[|rest| - 1] + [c]];
      }
    }
  }

  lemma SplitEndFirst(a: seq<string>, b: seq<string>, c: char)
    requires b != []
    ensures var r := a + b; r[..|r| - 1] + [r[|r| - 1] + [c]] == a + (b[..|b| - 1] + [b[|b| - 1] + [c]])
  {
  }

  /** Trailing white space of a text is that of its last line with text. */
  lemma {:induction false} RStripLines(s: string)
    ensures LinesWithText(RStrip(s)) == RTrimLast(LinesWithText(s))
    decreases |s|
  {
    if s != "" && Space(s[|s| - 1]) {
      var rest, c := s[..|s| - 1], s[|s| - 1];
      RStripLines(rest);
      assert s == rest + [c];
      if c == '\n' {
        NewlineAtEnd(rest);
      } else {
        LastLineLonger(rest, c);
      }
    } else {
      NothingToTrimRight(s);
    }
  }

  lemma NewlineAtEnd(rest: string)
    ensures LinesWithText(rest + ['\n']) == LinesWithText(rest)
  {
    assert rest + ['\n'] == rest + "\n" + "";
    LinesConcat(rest, "");
    NoLines();
  }

  lemma LastOneLonger(front: seq<string>, last: string, c: char)
    requires Space(c)
    ensures RTrimLast(WithText(front + [last + [c]])) == RTrimLast(WithText(front + [last]))
  {
    WithTextConcat(front, [last + [c]]);
    WithTextConcat(front, [last]);
    WithTextOne(last + [c]);
    WithTextOne(last);
    RStripSpace(last, c);
  }

  lemma LastLineLonger(rest: string, c: char)
    requires Space(c) && c != '\n'
    ensures RTrimLast(LinesWithText(rest + [c])) == RTrimLast(LinesWithText(rest))
  {
    var pieces := Split('\n', rest);
    var front, last := pieces[..|pieces| - 1], pieces[|pieces| - 1];
    SplitEnd(rest, c);
    assert front + [last] == pieces;
    LastOneLonger(front, last, c);
  }

  lemma NothingToTrimRight(s: string)
    requires s == "" || !Space(s[|s| - 1])
    ensures RTrimLast(LinesWithText(s)) == LinesWithText(s)
  {
    NoLines();
    if s != "" {
      var rest, c := s[..|s| - 1], s[|s| - 1];
      assert s == rest + [c] && !Space(c) && Space('\n');
      SplitEnd(rest, c);
      var pieces := Split('\n', s);
      var front, last := pieces[..|pieces| - 1], pieces[|pieces| - 1];
      assert last[|last| - 1] == c && c in last;
      StripBlank(last);
      WithTextConcat(front, [last]);
      assert front + [last] == pieces;
      WithTextOne(last);
    }
  }

  /** What is answered, from what the text is worth. */
  lemma AnswerFromWorth(printed: string, max: nat)
    ensures var lines := LTrimFirst(RTrimLast(Worth(printed)));
            VmAnswer(true, printed, max) == (First(max, lines), |lines| > max)
    ensures VmAnswer(false, printed, max) == ([], false)
  {
    RStripLines(Translated(printed));
    LStripLines(RStrip(Translated(printed)));
    NoLines();
  }

  // --- Exactly the printed lines --------------------------------------------

  /**
   * The lines a text of `lines` is answered with are these lines: none is blank, none
   * of the first max holds a carriage return, the first does not begin with white
   * space, and the last, unless it is cut off, does not end with it.
   */
  predicate Undisturbed(max: nat, lines: seq<string>) {
    && NoBlank(lines)
    && NoReturn(First(max, lines))
    && (lines != [] && max > 0 ==> !Begins(lines[0]))
    && (lines != [] && |lines| <= max ==> !Ends(lines[|lines| - 1]))
  }

  /** Lines that are plain text come first, as they are. */
  lemma PlainFirst(kept: seq<string>, rest: seq<string>)
    requires NoBlank(kept) && NoReturn(kept) && Unbroken(kept)
    ensures Worth(Listing(kept + rest)) == kept + Worth(Listing(rest))
  {
    forall a, b
      ensures Worth(a + "\n" + b) == Worth(a) + Worth(b)
    {
      WorthConcat(a, b);
    }
    forall i | 0 <= i < |kept|
      ensures Worth(kept[i]) == [kept[i]]
    {
      assert kept[i] in kept;
      WorthOfPlain(kept[i]);
    }
    LinesFirst(Worth, kept, kept, rest);
  }

  lemma WorthOfOne(l: string)
    ensures Worth(Listing([l])) == Worth(l)
  {
    assert [l][1..] == [];
    assert Listing([l]) == l + "\n" + "";
    WorthConcat(l, "");
    WorthOfPlain("");
    assert Strip("") == "";
  }

  lemma WorthOfNone()
    ensures Worth(Listing([])) == []
  {
    WorthOfPlain("");
    assert Strip("") == "";
  }

  lemma TrimsNothing(lines: seq<string>)
    requires lines != [] ==> !Begins(lines[0]) && !Ends(lines[|lines| - 1])
    ensures LTrimFirst(RTrimLast(lines)) == lines
  {
  }

  /** All lines are kept and plain. */
  lemma WholeAnswer(max: nat, lines: seq<string>)
    requires Unbroken(lines) && |lines| <= max && Undisturbed(max, lines)
    ensures VmAnswer(true, Listing(lines), max) == (lines, false)
  {
    assert First(max, lines) == lines;
    PlainWorth(lines);
    TrimsNothing(lines);
    AnswerFromWorth(Listing(lines), max);
  }

  /** The last line is only there to show that there are more. */
  lemma TrimsTheRest(max: nat, kept: seq<string>, more: seq<string>)
    requires |kept| == max && more != [] && (max > 0 ==> !Begins(kept[0]))
    ensures var lines := LTrimFirst(RTrimLast(kept + more)); First(max, lines) == kept && |lines| > max
  {
    RTrimApart(kept, more);
    if max > 0 {
      LTrimApart(kept, RTrimLast(more));
    }
  }

  lemma RTrimApart(kept: seq<string>, more: seq<string>)
    requires more != []
    ensures RTrimLast(kept + more) == kept + RTrimLast(more)
  {
    assert (kept + more)[..|kept + more| - 1] == kept + more[..|more| - 1];
  }

  lemma LTrimApart(kept: seq<string>, more: seq<string>)
    requires kept != [] && !Begins(kept[0])
    ensures LTrimFirst(kept + more) == kept + more
  {
  }

  lemma CutAnswer(max: nat, kept: seq<string>, last: string)
    requires |kept| == max && Unbroken(kept) && Undisturbed(max, kept + [last])
    ensures VmAnswer(true, Listing(kept + [last]), max) == (kept, true)
  {
    var lines := kept + [last];
    assert First(max, lines) == kept;
    assert forall l | l in kept :: l in lines;
    assert last in lines;
    PlainFirst(kept, [last]);
    WorthOfOne(last);
    WorthOfText(last);
    assert max > 0 ==> kept[0] == lines[0];
    TrimsTheRest(max, kept, Worth(last));
    AnswerFromWorth(Listing(lines), max);
  }

  /** Whatever was printed: answered lines hold text and no line end, and the text's ends are trimmed. */
  lemma AnsweredLines(printed: string)
    ensures var lines := LTrimFirst(RTrimLast(Worth(printed)));
            && NoBlank(lines) && NoReturn(lines) && Unbroken(lines)
            && |lines| == |Worth(printed)|
            && (lines != [] ==> !Begins(lines[0]) && !Ends(lines[|lines| - 1]))
  {
    var all := Worth(printed);
    WithTextFacts(Split('\n', Translated(printed)));
    TranslatedClean(printed);
    SplitHasNoSeparator('\n', Translated(printed));
    PiecesOf(Translated(printed), '\r');
    forall l | l in all
      ensures '\n' !in l && '\r' !in l && Strip(l) != ""
    {
      assert l in multiset(all) && l in multiset(Split('\n', Translated(printed)));
    }
    TrimmedLines(all);
  }

  lemma {:induction false} PiecesOf(s: string, c: char)
    requires c !in s
    ensures forall l | l in Split('\n', s) :: c !in l
  {
    if s != "" {
      PiecesOf(s[1..], c);
      var rest := Split('\n', s[1..]);
      assert rest[0] in rest && s[0] in s;
    }
  }

  lemma TrimmedLine(l: string)
    requires Strip(l) != "" && '\n' !in l && '\r' !in l
    ensures Strip(LStrip(l)) != "" && '\n' !in LStrip(l) && '\r' !in LStrip(l) && !Begins(LStrip(l))
    ensures Strip(RStrip(l)) != "" && '\n' !in RStrip(l) && '\r' !in RStrip(l) && !Ends(RStrip(l))
    ensures !Ends(l) ==> !Ends(LStrip(l))
  {
    StripKeeps(l);
    RStripKeeps(l);
    StripBlank(l);
    RStripEnds(l);
    var c :| c in l && !Space(c);
    assert c in RStrip(l);
    StripBlank(RStrip(l));
    assert LStrip(l)[0] in LStrip(l);
    StripBlank(LStrip(l));
  }

  lemma {:induction false} RStripEnds(l: string)
    ensures !Ends(RStrip(l)) && (Ends(l) ==> |RStrip(l)| < |l|)
  {
    if Ends(l) {
      RStripKeeps(l[..|l| - 1]);
      RStripEnds(l[..|l| - 1]);
    }
  }

  lemma TrimmedLines(all: seq<string>)
    requires forall l | l in all :: '\n' !in l && '\r' !in l && Strip(l) != ""
    ensures var lines := LTrimFirst(RTrimLast(all));
            && NoBlank(lines) && NoReturn(lines) && Unbroken(lines) && |lines| == |all|
            && (lines != [] ==> !Begins(lines[0]) && !Ends(lines[|lines| - 1]))
  {
    if all != [] {
      TrimmedLine(all[|all| - 1]);
      var right := RTrimLast(all);
      forall l | l in right
        ensures '\n' !in l && '\r' !in l && Strip(l) != ""
      {
        assert l == right[|right| - 1] || l in all[..|all| - 1];
      }
      assert right[0] in right;
      TrimmedLine(right[0]);
      var lines := LTrimFirst(right);
      forall l | l in lines
        ensures '\n' !in l && '\r' !in l && Strip(l) != ""
      {
        assert l == lines[0] || l in right[1..];
      }
    }
  }

  /** The lines are answered as they are, up to max, and the flag is right. */
  predicate Exact(max: nat, lines: seq<string>) {
    VmAnswer(true, Listing(lines), max) == (First(max, lines), |lines| > max)
  }

  lemma FirstAreUndisturbed(max: nat, lines: seq<string>, answered: seq<string>)
    requires First(max, lines) == First(max, answered) && (|lines| > max <==> |answered| > max)
    requires NoBlank(answered) && NoReturn(answered)
    requires answered != [] ==> !Begins(answered[0]) && !Ends(answered[|answered| - 1])
    ensures NoBlank(First(max, lines)) && NoReturn(First(max, lines))
    ensures lines != [] && max > 0 ==> !Begins(lines[0])
    ensures |lines| <= max ==> lines == answered
  {
    var kept := First(max, answered);
    assert forall l | l in kept :: l in answered;
    if lines != [] && max > 0 {
      assert kept[0] == lines[0] == answered[0];
    }
  }

  /** Only undisturbed lines are answered as they are. */
  lemma OnlyUndisturbed(max: nat, lines: seq<string>)
    requires Unbroken(lines) && |lines| <= max + 1 && Exact(max, lines)
    ensures Undisturbed(max, lines)
  {
    AnswerFromWorth(Listing(lines), max);
    AnsweredLines(Listing(lines));
    FirstAreUndisturbed(max, lines, LTrimFirst(RTrimLast(Worth(Listing(lines)))));
    if |lines| > max {
      var kept, last := lines[..max], lines[max];
      assert lines == kept + [last] && First(max, lines) == kept;
      assert forall l | l in kept :: l in lines;
      LastHasText(max, kept, last);
      assert forall l | l in lines :: l in kept || l == last;
    }
  }

  lemma LastHasText(max: nat, kept: seq<string>, last: string)
    requires |kept| == max && NoBlank(kept) && NoReturn(kept) && Unbroken(kept)
    requires |Worth(Listing(kept + [last]))| > max
    ensures Strip(last) != ""
  {
    PlainFirst(kept, [last]);
    WorthOfOne(last);
    if Strip(last) == "" {
      WorthOfBlank(last);
    }
  }

  lemma UndisturbedIsExact(max: nat, lines: seq<string>)
    requires Unbroken(lines) && |lines| <= max + 1 && Undisturbed(max, lines)
    ensures Exact(max, lines)
  {
    if |lines| <= max {
      WholeAnswer(max, lines);
    } else {
      assert lines == lines[..max] + [lines[max]];
      assert forall l | l in lines[..max] :: l in lines;
      CutAnswer(max, lines[..max], lines[max]);
    }
  }

  /** For any printed lines, one more than max at most: they are answered as they are exactly if undisturbed. */
  lemma VmAnswerIff(max: nat, lines: seq<string>)
    requires Unbroken(lines) && |lines| <= max + 1
    ensures Exact(max, lines) <==> Undisturbed(max, lines)
  {
    if Undisturbed(max, lines) {
      UndisturbedIsExact(max, lines);
    }
    if Exact(max, lines) {
      OnlyUndisturbed(max, lines);
    }
  }

  // --- The two tools --------------------------------------------------------

  /** `sorted` is what sort may print for `lines`. */
  ghost predicate Sorts<T>(lines: seq<T>, sorted: seq<T>) {
    multiset(lines) == multiset(sorted)
  }

  lemma SortedAlike(lines: seq<string>, sorted: seq<string>)
    requires Sorts(lines, sorted)
    ensures |lines| == |sorted|
    ensures NoBlank(lines) <==> NoBlank(sorted)
    ensures Unbroken(lines) <==> Unbroken(sorted)
    ensures NoReturn(lines) <==> NoReturn(sorted)
  {
    assert |multiset(lines)| == |lines| && |multiset(sorted)| == |sorted|;
    assert forall l :: l in lines <==> l in multiset(lines);
    assert forall l :: l in sorted <==> l in multiset(sorted);
  }

  lemma FirstIsPart<T>(n: nat, xs: seq<T>)
    ensures multiset(First(n, xs)) <= multiset(xs)
  {
    if n < |xs| {
      assert xs == xs[..n] + xs[n..];
    }
  }

  /**
   * adp_glob, `find | head -n max+1 | sort`: the answer is the first max lines that
   * sort printed, with the right flag, if and only if these are undisturbed. Then they
   * are lines that find printed, none more often, and as many as there should be.
   */
  lemma HeadThenSortIsGenuine(max: nat, found: seq<string>, sorted: seq<string>)
    requires Unbroken(found) && Sorts(First(max + 1, found), sorted)
    ensures var answer := VmAnswer(true, Listing(sorted), max);
            && (answer == (First(max, sorted), |found| > max) <==> Undisturbed(max, sorted))
            && multiset(First(max, sorted)) <= multiset(found) && |First(max, sorted)| == |First(max, found)|
  {
    SortedAlike(First(max + 1, found), sorted);
    VmAnswerIff(max, sorted);
    FirstIsPart(max, sorted);
    FirstIsPart(max + 1, found);
  }

  /** adp_grep, `grep | head -n max+1`: exactly the first max lines and the flag, under the same condition. */
  lemma HeadKeepsFirstIff(max: nat, found: seq<string>)
    requires Unbroken(found)
    ensures VmAnswer(true, Listing(First(max + 1, found)), max) == (First(max, found), |found| > max)
            <==> Undisturbed(max, First(max + 1, found))
  {
    var head := First(max + 1, found);
    assert First(max, head) == First(max, found);
    VmAnswerIff(max, head);
  }

  // --- All paths ------------------------------------------------------------

  lemma {:induction false} SplitListing(lines: seq<string>)
    requires Unbroken(lines)
    ensures Split('\n', Listing(lines)) == lines + [""]
  {
    if lines != [] {
      assert lines[0] in lines;
      SplitListing(lines[1..]);
      SplitJoined('\n', lines[0], Listing(lines[1..]));
      SplitPlain('\n', lines[0]);
      assert [lines[0]] + (lines[1..] + [""]) == lines + [""];
    }
  }

  /** The lines that `paths` fill when each is printed with a newline. */
  function PathLines(paths: seq<string>): seq<string> {
    var raw := Split('\n', Listing(paths));
    raw[..|raw| - 1]
  }

  function Total(lines: seq<string>): nat {
    if lines == [] then 0 else |lines[0]| + Total(lines[1..])
  }

  lemma {:induction false} TotalConcat(a: seq<string>, b: seq<string>)
    ensures Total(a + b) == Total(a) + Total(b)
  {
    if a == [] {
      assert a + b == b;
    } else {
      assert (a + b)[1..] == a[1..] + b;
      TotalConcat(a[1..], b);
    }
  }

  lemma TotalOne(l: string)
    ensures Total([l]) == |l|
  {
    assert [l][1..] == [];
  }

  lemma TotalWithout(a: seq<string>, l: string, b: seq<string>)
    ensures Total(a + ([l] + b)) == Total(a + b) + |l|
  {
    TotalConcat(a, [l] + b);
    TotalConcat([l], b);
    TotalConcat(a, b);
    TotalOne(l);
  }

  lemma {:induction false} SameTotal(a: seq<string>, b: seq<string>)
    requires multiset(a) == multiset(b)
    ensures Total(a) == Total(b)
    decreases |a|
  {
    if a == [] {
      assert |multiset(b)| == |b|;
    } else {
      var front, l := a[..|a| - 1], a[|a| - 1];
      assert a == front + [l] && l in multiset(b) && l in b;
      var i :| 0 <= i < |b| && b[i] == l;
      WithoutOne(b, i);
      assert multiset(a) == multiset(front) + multiset{l};
      SameLess(multiset(front), multiset(b[..i] + b[i + 1..]), l);
      SameTotal(front, b[..i] + b[i + 1..]);
      TotalWithout(b[..i], l, b[i + 1..]);
      assert b == b[..i] + ([l] + b[i + 1..]);
      TotalConcat(front, [l]);
      TotalOne(l);
    }
  }

  lemma SameLess(a: multiset<string>, b: multiset<string>, l: string)
    requires a + multiset{l} == b + multiset{l}
    ensures a == b
  {
    forall x
      ensures a[x] == b[x]
    {
      assert (a + multiset{l})[x] == (b + multiset{l})[x];
    }
  }

  lemma WithoutOne(b: seq<string>, i: nat)
    requires i < |b|
    ensures multiset(b) == multiset(b[..i] + b[i + 1..]) + multiset{b[i]}
  {
    assert b == b[..i] + ([b[i]] + b[i + 1..]);
  }

  lemma TotalLast(front: seq<string>, l: string)
    ensures Total(front + [l]) == Total(front) + |l|
  {
    TotalConcat(front, [l]);
    TotalOne(l);
  }

  lemma RTrimIs(front: seq<string>, l: string)
    ensures RTrimLast(front + [l]) == front + [RStrip(l)]
  {
    assert (front + [l])[..|front + [l]| - 1] == front;
  }

  lemma RTrimTotal(lines: seq<string>)
    requires lines != []
    ensures Total(RTrimLast(lines)) <= Total(lines)
    ensures Total(RTrimLast(lines)) == Total(lines) ==> !Ends(lines[|lines| - 1])
  {
    var front, last := lines[..|lines| - 1], lines[|lines| - 1];
    RStripShorter(last);
    assert lines == front + [last];
    RTrimIs(front, last);
    TotalLast(front, last);
    TotalLast(front, RStrip(last));
  }

  lemma RStripShorter(l: string)
    ensures |RStrip(l)| <= |l| && (|RStrip(l)| == |l| ==> !Ends(l))
  {
    RStripKeeps(l);
    RStripEnds(l);
  }

  lemma LTrimTotal(lines: seq<string>)
    requires lines != []
    ensures Total(LTrimFirst(lines)) <= Total(lines)
    ensures Total(LTrimFirst(lines)) == Total(lines) ==> !Begins(lines[0])
  {
    var first, rest := lines[0], lines[1..];
    assert lines == [first] + rest;
    StripKeeps(first);
    LStripBegins(first);
    assert LTrimFirst(lines)[1..] == rest;
  }

  lemma TotalTrimmed(lines: seq<string>)
    requires lines != [] && Total(LTrimFirst(RTrimLast(lines))) == Total(lines)
    ensures !Begins(lines[0]) && !Ends(lines[|lines| - 1])
  {
    RTrimTotal(lines);
    LTrimTotal(RTrimLast(lines));
    if |lines| == 1 {
      assert RStrip(lines[0]) == lines[0];
    } else {
      assert RTrimLast(lines)[0] == lines[0];
    }
  }

  lemma LStripBegins(l: string)
    ensures Begins(l) ==> |LStrip(l)| < |l|
  {
    if Begins(l) {
      StripKeeps(l[1..]);
    }
  }

  /**
   * When head cuts nothing off, adp_glob answers exactly the found paths if and only if
   * none holds a newline and the sorted paths are undisturbed.
   */
  lemma GlobListsAllIff(max: nat, paths: seq<string>, sorted: seq<string>)
    requires |PathLines(paths)| <= max && Sorts(PathLines(paths), sorted)
    ensures multiset(VmAnswer(true, Listing(sorted), max).0) == multiset(paths)
            <==> Unbroken(paths) && Undisturbed(max, sorted)
  {
    SplitHasNoSeparator('\n', Listing(paths));
    SortedAlike(PathLines(paths), sorted);
    if Unbroken(paths) {
      SplitListing(paths);
      assert PathLines(paths) == paths;
      if Undisturbed(max, sorted) {
        VmAnswerIff(max, sorted);
        assert First(max, sorted) == sorted;
      }
    }
    if multiset(VmAnswer(true, Listing(sorted), max).0) == multiset(paths) {
      OnlyPlainPaths(max, paths, sorted);
    }
  }

  lemma OnlyPlainPaths(max: nat, paths: seq<string>, sorted: seq<string>)
    requires |PathLines(paths)| <= max && Sorts(PathLines(paths), sorted) && Unbroken(sorted)
    requires multiset(VmAnswer(true, Listing(sorted), max).0) == multiset(paths)
    ensures Unbroken(paths) && Undisturbed(max, sorted)
  {
    AnswerFromWorth(Listing(sorted), max);
    AnsweredLines(Listing(sorted));
    var lines := LTrimFirst(RTrimLast(Worth(Listing(sorted))));
    PartIsPlain(lines, First(max, lines));
    SortedAlike(First(max, lines), paths);
    SplitListing(paths);
    assert PathLines(paths) == paths;
    SortedAlike(paths, sorted);
    SameIsUntrimmed(max, sorted, lines);
  }

  lemma PartIsPlain(lines: seq<string>, part: seq<string>)
    requires NoBlank(lines) && NoReturn(lines) && Unbroken(lines) && part <= lines
    ensures NoBlank(part) && NoReturn(part) && Unbroken(part)
  {
    assert forall l | l in part :: l in lines;
  }

  lemma PlainWorth(lines: seq<string>)
    requires NoBlank(lines) && NoReturn(lines) && Unbroken(lines)
    ensures Worth(Listing(lines)) == lines
  {
    assert lines + [] == lines;
    PlainFirst(lines, []);
    WorthOfNone();
  }

  lemma SameIsUntrimmed(max: nat, sorted: seq<string>, lines: seq<string>)
    requires NoBlank(sorted) && NoReturn(sorted) && Unbroken(sorted) && |sorted| <= max
    requires lines == LTrimFirst(RTrimLast(Worth(Listing(sorted)))) && multiset(First(max, lines)) == multiset(sorted)
    ensures Undisturbed(max, sorted)
  {
    PlainWorth(sorted);
    assert |lines| == |sorted|;
    if sorted != [] {
      SameTotal(lines, sorted);
      TotalTrimmed(sorted);
    }
  }

  /** White space at the end of a found path is lost. */
  lemma TrailingSpaceIsLost(max: nat)
    requires max > 0
    ensures VmAnswer(true, Listing(["d/a "]), max) != (["d/a "], false)
  {
    assert Ends("d/a ");
    VmAnswerIff(max, ["d/a "]);
  }

  /** A carriage return breaks a found path in two: only its first part is answered, and the flag tells of another. */
  lemma CarriageReturnBreaks(a: string, b: string)
    requires Strip(a) != "" && Strip(b) != "" && !Begins(a) && NoReturn([a, b]) && Unbroken([a, b])
    ensures VmAnswer(true, Listing([a + "\r" + b]), 1) == ([a], true)
  {
    WorthOfOne(a + "\r" + b);
    BrokenInTwo(a, b);
    TrimsTheRest(1, [a], [b]);
    assert [a] + [b] == [a, b];
    AnswerFromWorth(Listing([a + "\r" + b]), 1);
  }

  lemma ReturnFirst(b: string)
    requires '\r' !in b && b != "" && b[0] != '\n'
    ensures Translated(['\r'] + b) == ['\n'] + b
  {
    assert (['\r'] + b)[1..] == b;
    TranslatedPlain(b);
  }

  lemma BreakRegroup(a: string, c: char, b: string)
    ensures a + [c] + b == a + ([c] + b)
  {
  }

  lemma TranslatedBreak(a: string, b: string)
    requires '\r' !in a && '\r' !in b && b != "" && b[0] != '\n'
    ensures Translated(a + ['\r'] + b) == a + ['\n'] + b
  {
    assert a == "" || a[|a| - 1] in a;
    BreakRegroup(a, '\r', b);
    BreakRegroup(a, '\n', b);
    TranslatedConcat(a, ['\r'] + b);
    TranslatedPlain(a);
    ReturnFirst(b);
  }

  lemma BrokenInTwo(a: string, b: string)
    requires Strip(a) != "" && Strip(b) != "" && NoReturn([a, b]) && Unbroken([a, b])
    ensures Worth(a + "\r" + b) == [a, b]
  {
    assert a in [a, b] && b in [a, b];
    StripBlank(b);
    assert b != "" ==> b[0] in b;
    TranslatedBreak(a, b);
    LinesConcat(a, b);
    TranslatedPlain(a);
    TranslatedPlain(b);
    WorthOfPlain(a);
    WorthOfPlain(b);
    assert [a] + [b] == [a, b];
  }
}
