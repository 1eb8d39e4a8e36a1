/**
 * Capped search output and its reading (extensions/deer_flow/sandbox.py:149-206).
 * grep caps each file at one more than the limit; the caller keeps the first `max`
 * lines overall and reports whether there were more.
 */
module SearchLimits {
  import opened Basics

  function First<T>(n: nat, xs: seq<T>): seq<T> {
    if |xs| <= n then xs else xs[..n]
  }

  function Flatten<T>(files: seq<seq<T>>): seq<T> {
    if files == [] then [] else files[0] + Flatten(files[1..])
  }

  /** grep -m n: each file's output stops after n matching lines. */
  function CapEach<T>(n: nat, files: seq<seq<T>>): seq<seq<T>> {
    if files == [] then [] else [First(n, files[0])] + CapEach(n, files[1..])
  }

  lemma FirstConcat<T>(n: nat, a: seq<T>, b: seq<T>)
    ensures First(n, a + b) == First(n, a) + if |a| <= n then First(n - |a|, b) else []
  {
  }

  /** Capping every file at n leaves the first n lines of the whole output as they were. */
  lemma {:induction false} CapKeepsFirst<T>(n: nat, k: nat, files: seq<seq<T>>)
    requires k <= n
    ensures First(k, Flatten(CapEach(n, files))) == First(k, Flatten(files))
  {
    if files != [] {
      var capped := First(n, files[0]);
      FirstConcat(k, files[0], Flatten(files[1..]));
      FirstConcat(k, capped, Flatten(CapEach(n, files[1..])));
      assert First(k, capped) == First(k, files[0]);
      if |capped| <= k {
        CapKeepsFirst(n, k - |capped|, files[1..]);
      }
    }
  }

  /**
   * For every limit max >= 0 and any matches in any files: keeping max lines of the
   * capped output is keeping the first max of the uncapped output, and the flag says
   * exactly whether the uncapped output has more.
   */
  lemma CappedSearchIsExact<T>(max: nat, files: seq<seq<T>>)
    ensures First(max, Flatten(CapEach(max + 1, files))) == First(max, Flatten(files))
    ensures |Flatten(CapEach(max + 1, files))| > max <==> |Flatten(files)| > max
  {
    CapKeepsFirst(max + 1, max, files);
    CapKeepsFirst(max + 1, max + 1, files);
  }

  // --- Reading grep's lines -------------------------------------------------

  datatype Match = Match(path: string, lineNumber: nat, line: string)

  function IndexOf(c: char, s: string): Option<nat> {
    if s == "" then None
    else if s[0] == c then Some(0)
    else match IndexOf(c, s[1..])
         case Some(i) => Some(i + 1)
         case None => None
  }

  function Number(s: string): Option<nat> {
    if s == "" || !('0' <= s[|s| - 1] <= '9') then None
    else
      var last := s[|s| - 1] as int - '0' as int;
      if |s| == 1 then Some(last)
      else match Number(s[..|s| - 1])
           case Some(n) => Some(n * 10 + last)
           case None => None
  }

  /** line.split(":", 2): at most three parts. */
  function Parts(s: string): seq<string> {
    match IndexOf(':', s)
    case None => [s]
    case Some(i) =>
      if i >= |s| then [s]
      else
        var tail := s[i + 1..];
        match IndexOf(':', tail)
        case None => [s[..i], tail]
        case Some(j) => if j >= |tail| then [s[..i], tail] else [s[..i], tail[..j], tail[j + 1..]]
  }

  /** Three parts must hold a number, or int() raises; two parts fall back; fewer give no match. */
  function ReadLine(s: string): Result<Option<Match>> {
    var parts := Parts(s);
    if |parts| == 3 then
      match Number(parts[1])
      case Some(n) => Ok(Some(Match(parts[0], n, parts[2])))
      case None => Err("invalid literal for int()")
    else if |parts| == 2 then
      match Number(parts[1])
      case Some(n) => Ok(Some(Match(parts[0], n, "")))
      case None => Ok(Some(Match(parts[0], 0, parts[1])))
    else Ok(None)
  }

  /** What grep -rn prints. */
  function Show(m: Match): string {
    m.path + ":" + (Decimal(m.lineNumber) + ":" + m.line)
  }

  // --- Lines ---------------------------------------------------------------

  lemma {:induction false} RStripAfter(a: string, b: string)
    requires a != "" && !Space(a[|a| - 1])
    ensures RStrip(a + b) == a + RStrip(b)
    decreases |b|
  {
    if b == "" {
      assert a + b == a;
    } else {
      assert (a + b)[..|a + b| - 1] == a + b[..|b| - 1];
      RStripAfter(a, b[..|b| - 1]);
    }
  }

  lemma {:induction false} LStripShifts(s: string)
    ensures |LStrip(s)| <= |s| && (|LStrip(s)| < |s| <==> s != "" && Space(s[0]))
    ensures IndexOf(':', s).Some? ==>
              && IndexOf(':', LStrip(s)).Some?
              && IndexOf(':', s).value - IndexOf(':', LStrip(s)).value == |s| - |LStrip(s)|
  {
    if s != "" && Space(s[0]) {
      LStripShifts(s[1..]);
    }
  }

  /** [ln.strip() for ln in raw if ln.strip()] */
  function Cleaned(raw: seq<string>): seq<string> {
    if raw == [] then []
    else Cleaned(raw[..|raw| - 1]) + if Strip(raw[|raw| - 1]) == "" then [] else [Strip(raw[|raw| - 1])]
  }

  /** The same over stdout.split("\n"). */
  function TextLines(stdout: string): seq<string> {
    Cleaned(Split('\n', stdout))
  }

  // --- One line -------------------------------------------------------------

  lemma {:induction false} NumberOfDecimal(n: nat)
    ensures Number(Decimal(n)) == Some(n)
  {
    var s := Decimal(n);
    assert s[|s| - 1] == Digit(n % 10);
    if n >= 10 {
      NumberOfDecimal(n / 10);
      assert s[..|s| - 1] == Decimal(n / 10);
    }
  }

  lemma {:induction false} IndexAfter(a: string, b: string)
    ensures IndexOf(':', a + ":" + b) == if ':' in a then IndexOf(':', a) else Some(|a|)
    ensures ':' in a ==> IndexOf(':', a).Some? && IndexOf(':', a).value < |a|
  {
    if a == "" {
      assert (a + ":" + b)[0] == ':';
    } else {
      assert (a + ":" + b)[1..] == a[1..] + ":" + b;
      IndexAfter(a[1..], b);
    }
  }

  lemma ShowIsRead(m: Match)
    requires ':' !in m.path
    ensures ReadLine(Show(m)) == Ok(Some(m))
  {
    var digits := Decimal(m.lineNumber);
    ThreeParts(m.path, digits, m.line);
    assert Show(m) == m.path + ":" + digits + ":" + m.line;
    NumberOfDecimal(m.lineNumber);
  }

  predicate AllDigits(s: string) {
    s != "" && forall c | c in s :: '0' <= c <= '9'
  }

  lemma {:induction false} NumberIff(s: string)
    ensures Number(s).Some? <==> AllDigits(s)
  {
    if |s| >= 1 {
      var front, last := s[..|s| - 1], s[|s| - 1];
      assert s == front + [last];
      assert forall c | c in s :: c in front || c == last;
      assert last in s && forall c | c in front :: c in s;
      NumberIff(front);
    }
  }

  lemma {:induction false} IndexNowhere(a: string)
    ensures IndexOf(':', a).None? <==> ':' !in a
  {
    if a != "" {
      assert a == [a[0]] + a[1..];
      IndexNowhere(a[1..]);
    }
  }

  /**
   * What any line is read as: its path ends at the first colon. Two colons must have digits
   * between them; after a lone colon anything but digits is the text of a match on line 0.
   */
  lemma LinesAreRead(path: string, middle: string, text: string, n: nat)
    requires ':' !in path && ':' !in middle
    ensures ReadLine(path) == Ok(None)
    ensures ReadLine(path + ":" + middle + ":" + text).Ok? <==> AllDigits(middle)
    ensures ReadLine(path + ":" + Decimal(n) + ":" + text) == Ok(Some(Match(path, n, text)))
    ensures ReadLine(path + ":" + Decimal(n)) == Ok(Some(Match(path, n, "")))
    ensures !AllDigits(middle) ==> ReadLine(path + ":" + middle) == Ok(Some(Match(path, 0, middle)))
  {
    IndexNowhere(path);
    NumberIff(middle);
    ThreeParts(path, middle, text);
    TwoParts(path, middle);
    ThreeParts(path, Decimal(n), text);
    TwoParts(path, Decimal(n));
    NumberOfDecimal(n);
  }

  lemma ThreeParts(a: string, b: string, c: string)
    requires ':' !in a && ':' !in b
    ensures Parts(a + ":" + b + ":" + c) == [a, b, c]
  {
    var tail := b + ":" + c;
    assert a + ":" + b + ":" + c == a + ":" + tail;
    IndexAfter(a, tail);
    assert (a + ":" + tail)[..|a|] == a && (a + ":" + tail)[|a| + 1..] == tail;
    IndexAfter(b, c);
    assert tail[..|b|] == b && tail[|b| + 1..] == c;
  }

  lemma TwoParts(a: string, b: string)
    requires ':' !in a && ':' !in b
    ensures Parts(a + ":" + b) == [a, b]
  {
    IndexAfter(a, b);
    assert (a + ":" + b)[..|a|] == a && (a + ":" + b)[|a| + 1..] == b;
    IndexNowhere(b);
  }

  function Trimmed(m: Match): Match {
    m.(line := RStrip(m.line))
  }

  lemma RStripShow(m: Match)
    ensures RStrip(Show(m)) == Show(Trimmed(m))
  {
    var front := m.path + ":" + (Decimal(m.lineNumber) + ":");
    assert Show(m) == front + m.line;
    RStripAfter(front, m.line);
    assert front + RStrip(m.line) == Show(Trimmed(m));
  }

  /** A path that comes back from a line: no colon, no line end, no white space in front. */
  predicate Readable(path: string) {
    ':' !in path && '\n' !in path && (path != "" ==> !Space(path[0]))
  }

  lemma ReadableStrip(m: Match)
    requires Readable(m.path)
    ensures Strip(Show(m)) == Show(Trimmed(m))
  {
    RStripShow(m);
    var s := Show(Trimmed(m));
    assert s[0] == if m.path == "" then ':' else m.path[0];
    assert LStrip(s) == s;
  }

  /** One line without a line end is one line of the text. */
  lemma OneTextLine(s: string)
    requires '\n' !in s && Strip(s) != ""
    ensures TextLines(s) == [Strip(s)]
  {
    SplitPlain('\n', s);
    assert [s][..0] == [] && Cleaned([]) == [];
  }

  lemma ReadableLine(m: Match)
    requires Readable(m.path) && '\n' !in m.line
    ensures TextLines(Show(m)) == [Strip(Show(m))] && ReadLine(Strip(Show(m))) == Ok(Some(Trimmed(m)))
  {
    ReadableStrip(m);
    ShowIsRead(Trimmed(m));
    assert '\n' !in Show(m) && Show(Trimmed(m)) != "";
    OneTextLine(Show(m));
  }

  /** A match in one file given as the operand: grep -r prints no path in front of it. */
  function ShowAlone(m: Match): string {
    Decimal(m.lineNumber) + ":" + m.line
  }

  lemma StripAlone(m: Match)
    ensures Strip(ShowAlone(m)) == Decimal(m.lineNumber) + ":" + RStrip(m.line)
  {
    var digits, line := Decimal(m.lineNumber), RStrip(m.line);
    RStripAfter(digits + ":", m.line);
    assert ShowAlone(m) == digits + ":" + m.line;
    assert (digits + ":" + line)[0] == digits[0] && digits[0] in digits;
  }

  /** Such a line does not read back: its number is taken for a path. */
  lemma AloneIsMisread(m: Match)
    requires m.lineNumber >= 1
    ensures ReadLine(Strip(ShowAlone(m))) != Ok(Some(Trimmed(m)))
    ensures Strip(ShowAlone(m)) != "" && ReadLine(Strip(ShowAlone(m))) != Ok(None)
  {
    var digits, line := Decimal(m.lineNumber), RStrip(m.line);
    StripAlone(m);
    var s := digits + ":" + line;
    IndexAfter(digits, line);
    assert s[|digits| + 1..] == line;
    assert |Parts(s)| == 3 ==> |Parts(s)[2]| < |line|;
  }

  // --- The lines of a text --------------------------------------------------

  lemma {:induction false} CleanedConcat(a: seq<string>, b: seq<string>)
    ensures Cleaned(a + b) == Cleaned(a) + Cleaned(b)
    decreases |b|
  {
    if b == [] {
      assert a + b == a;
    } else {
      assert (a + b)[..|a + b| - 1] == a + b[..|b| - 1];
      CleanedConcat(a, b[..|b| - 1]);
    }
  }

  lemma TextLinesConcat(a: string, b: string)
    ensures TextLines(a + "\n" + b) == TextLines(a) + TextLines(b)
  {
    SplitJoined('\n', a, b);
    CleanedConcat(Split('\n', a), Split('\n', b));
  }

  /** A line as the code sees it: within one line of the text, not blank, not beginning with white space. */
  predicate CleanLine(l: string) {
    '\n' !in l && l != "" && !Space(l[0])
  }

  lemma {:induction false} CleanedAreClean(raw: seq<string>)
    requires forall l | l in raw :: '\n' !in l
    ensures forall l | l in Cleaned(raw) :: CleanLine(l)
    ensures (exists l | l in raw :: exists c | c in l :: !Space(c)) ==> Cleaned(raw) != []
  {
    if raw != [] {
      var front, last := raw[..|raw| - 1], raw[|raw| - 1];
      assert last in raw && raw == front + [last];
      CleanedAreClean(front);
      RStripKeeps(last);
      StripKeeps(RStrip(last));
      if l :| l in raw && exists c | c in l :: !Space(c) {
        assert l in front || l == last;
      }
    }
  }

  lemma {:induction false} SplitKeepsText(s: string, c: char)
    requires c in s && c != '\n'
    ensures exists l | l in Split('\n', s) :: c in l
  {
    var rest := Split('\n', s[1..]);
    if c == s[0] {
      assert c in Split('\n', s)[0];
    } else {
      SplitKeepsText(s[1..], c);
      var l :| l in rest && c in l;
      if s[0] == '\n' {
        assert Split('\n', s) == [""] + rest;
      } else if l == rest[0] {
        assert c in Split('\n', s)[0];
      } else {
        assert l in rest[1..];
      }
    }
  }

  lemma TextLinesAreClean(stdout: string)
    ensures forall l | l in TextLines(stdout) :: CleanLine(l)
    ensures (exists c | c in stdout :: !Space(c)) ==> TextLines(stdout) != []
  {
    SplitHasNoSeparator('\n', stdout);
    CleanedAreClean(Split('\n', stdout));
    if c :| c in stdout && !Space(c) {
      SplitKeepsText(stdout, c);
    }
  }

  // --- What the loop reads --------------------------------------------------

  /** What the lines are read as, in order; an error fails the whole call. */
  function ReadEach(read: string -> Result<Option<Match>>, lines: seq<string>): Result<seq<Match>> {
    if lines == [] then Ok([])
    else
      match ReadEach(read, lines[..|lines| - 1])
      case Err(e) => Err(e)
      case Ok(ms) =>
        match read(lines[|lines| - 1])
        case Err(e) => Err(e)
        case Ok(None) => Ok(ms)
        case Ok(Some(m)) => Ok(ms + [m])
  }

  function ReadAll(lines: seq<string>): Result<seq<Match>> {
    ReadEach(ReadLine, lines)
  }

  /** What grep() answers to the text the machine printed. */
  function Answer(stdout: string, max: nat): (Result<seq<Match>>, bool) {
    var lines := TextLines(stdout);
    (ReadAll(First(max, lines)), ReadAll(First(max, lines)).Ok? && |lines| > max)
  }

  /** grep(), from what the command printed. */
  method Grep(stdout: string, max: nat) returns (matches: Result<seq<Match>>, truncated: bool)
    ensures (matches, truncated) == Answer(stdout, max)
  {
    var lines := Cleaned(Split('\n', stdout));
    var kept := First(max, lines);
    var found: seq<Match> := [];
    for i := 0 to |kept|
      invariant ReadAll(kept[..i]) == Ok(found)
    {
      assert kept[..i + 1][..i] == kept[..i];
      var read := ReadLine(kept[i]);
      if read.Err? {
        AnErrorStays(ReadLine, kept, i + 1);
        return Err(read.message), false;
      }
      if read.value.Some? {
        found := found + [read.value.value];
      }
    }
    assert kept[..|kept|] == kept;
    return Ok(found), |lines| > max;
  }

  lemma {:induction false} AnErrorStays(read: string -> Result<Option<Match>>, lines: seq<string>, i: nat)
    requires i <= |lines| && ReadEach(read, lines[..i]).Err?
    ensures ReadEach(read, lines) == ReadEach(read, lines[..i])
    decreases |lines| - i
  {
    if i == |lines| {
      assert lines[..i] == lines;
    } else {
      assert lines[..i + 1][..i] == lines[..i];
      AnErrorStays(read, lines, i + 1);
    }
  }

  lemma {:induction false} EachReads(read: string -> Result<Option<Match>>, lines: seq<string>, ms: seq<Match>)
    requires |lines| == |ms| && forall i | 0 <= i < |lines| :: read(lines[i]) == Ok(Some(ms[i]))
    ensures ReadEach(read, lines) == Ok(ms)
  {
    if ms != [] {
      var last := |ms| - 1;
      EachReads(read, lines[..last], ms[..last]);
      assert ms[..last] + [ms[last]] == ms;
    }
  }

  predicate Names(line: string, path: string) {
    |Parts(line)| >= 2 && Parts(line)[0] == path
  }

  ghost predicate SomeLineNames(lines: seq<string>, path: string) {
    exists l :: l in lines && Names(l, path)
  }

  ghost predicate SomeMatchIn(ms: seq<Match>, path: string) {
    exists m :: m in ms && m.path == path
  }

  lemma LastLineNames(front: seq<string>, last: string, path: string)
    ensures SomeLineNames(front + [last], path) <==> SomeLineNames(front, path) || Names(last, path)
  {
    var lines := front + [last];
    if SomeLineNames(front, path) {
      var l :| l in front && Names(l, path);
      assert l in lines;
    }
    assert last in lines;
  }

  lemma LastMatchIn(front: seq<Match>, last: Match, path: string)
    ensures SomeMatchIn(front + [last], path) <==> SomeMatchIn(front, path) || last.path == path
  {
    var ms := front + [last];
    if SomeMatchIn(front, path) {
      var m :| m in front && m.path == path;
      assert m in ms;
    }
    assert last in ms;
  }

  /** The paths of the answered matches are those before the first colon of a line. */
  lemma {:induction false} ReadPaths(lines: seq<string>, path: string)
    requires ReadAll(lines).Ok?
    ensures SomeMatchIn(ReadAll(lines).value, path) <==> SomeLineNames(lines, path)
  {
    if lines != [] {
      var front, last := lines[..|lines| - 1], lines[|lines| - 1];
      assert lines == front + [last];
      ReadPaths(front, path);
      LastLineNames(front, last, path);
      var read := ReadLine(last);
      if read.value.Some? {
        LastMatchIn(ReadAll(front).value, read.value.value, path);
      }
    }
  }

  lemma {:induction false} BeforeFirstColon(s: string)
    ensures IndexOf(':', s).Some? ==> IndexOf(':', s).value < |s| && ':' !in s[..IndexOf(':', s).value]
    ensures IndexOf(':', s).None? <==> ':' !in s
  {
    if s != "" {
      BeforeFirstColon(s[1..]);
    }
  }

  /** Whatever was printed, only readable paths are answered. */
  lemma AnsweredPathsAreReadable(stdout: string, max: nat, m: Match)
    requires Answer(stdout, max).0.Ok? && m in Answer(stdout, max).0.value
    ensures Readable(m.path)
  {
    var kept := First(max, TextLines(stdout));
    TextLinesAreClean(stdout);
    ReadPaths(kept, m.path);
    assert SomeMatchIn(ReadAll(kept).value, m.path);
    var l :| l in kept && Names(l, m.path);
    assert CleanLine(l);
    BeforeFirstColon(l);
  }

  // --- What grep prints -----------------------------------------------------

  function ShowAll(ms: seq<Match>): seq<string> {
    seq(|ms|, i requires 0 <= i < |ms| => Show(ms[i]))
  }

  /** What the command writes for some results, each ended by a newline. */
  function Listing(texts: seq<string>): string {
    if texts == [] then "" else texts[0] + "\n" + Listing(texts[1..])
  }

  function Output(ms: seq<Match>): string {
    Listing(ShowAll(ms))
  }

  function TrimmedAll(ms: seq<Match>): seq<Match> {
    seq(|ms|, i requires 0 <= i < |ms| => Trimmed(ms[i]))
  }

  function StripAll(ms: seq<Match>): seq<string> {
    seq(|ms|, i requires 0 <= i < |ms| => Strip(Show(ms[i])))
  }

  /** Readable, and without a line end in its line, as grep selects lines one by one. */
  predicate Fine(m: Match) {
    Readable(m.path) && '\n' !in m.line
  }

  predicate AllFine(ms: seq<Match>) {
    forall i | 0 <= i < |ms| :: Fine(ms[i])
  }

  lemma LinesOfOneMore(text: string, rest: seq<string>)
    ensures TextLines(Listing([text] + rest)) == TextLines(text) + TextLines(Listing(rest))
  {
    assert ([text] + rest)[1..] == rest;
    TextLinesConcat(text, Listing(rest));
  }

  /** Texts that fill one line each come first, in order. */
  lemma {:induction false} LinesFirst(
    split: string -> seq<string>, texts: seq<string>, lines: seq<string>, rest: seq<string>)
    requires forall a, b :: split(a + "\n" + b) == split(a) + split(b)
    requires |texts| == |lines| && forall i | 0 <= i < |texts| :: split(texts[i]) == [lines[i]]
    ensures split(Listing(texts + rest)) == lines + split(Listing(rest))
  {
    if texts == [] {
      assert texts + rest == rest;
    } else {
      LinesFirst(split, texts[1..], lines[1..], rest);
      assert (texts + rest)[1..] == texts[1..] + rest;
      assert lines == [lines[0]] + lines[1..];
    }
  }

  lemma ShowConcat(a: seq<Match>, b: seq<Match>)
    ensures ShowAll(a + b) == ShowAll(a) + ShowAll(b)
  {
  }

  lemma FineLines(fine: seq<Match>, rest: seq<Match>)
    requires AllFine(fine)
    ensures TextLines(Output(fine + rest)) == StripAll(fine) + TextLines(Output(rest))
  {
    forall a, b
      ensures TextLines(a + "\n" + b) == TextLines(a) + TextLines(b)
    {
      TextLinesConcat(a, b);
    }
    forall i | 0 <= i < |fine|
      ensures TextLines(ShowAll(fine)[i]) == [StripAll(fine)[i]]
    {
      assert Fine(fine[i]);
      ReadableLine(fine[i]);
    }
    LinesFirst(TextLines, ShowAll(fine), StripAll(fine), ShowAll(rest));
    ShowConcat(fine, rest);
  }

  lemma FineRead(fine: seq<Match>)
    requires AllFine(fine)
    ensures ReadAll(StripAll(fine)) == Ok(TrimmedAll(fine))
  {
    forall i | 0 <= i < |fine|
      ensures ReadLine(StripAll(fine)[i]) == Ok(Some(TrimmedAll(fine)[i]))
    {
      assert Fine(fine[i]);
      ReadableLine(fine[i]);
    }
    EachReads(ReadLine, StripAll(fine), TrimmedAll(fine));
  }

  lemma ShowHasText(m: Match)
    ensures TextLines(Show(m)) != []
  {
    var text := Show(m);
    assert text[|m.path|] == ':' && ':' in text && !Space(':');
    TextLinesAreClean(text);
  }

  /** Every match fills at least one line. */
  lemma MatchesHaveText(ms: seq<Match>)
    requires ms != []
    ensures TextLines(Output(ms)) != []
  {
    ShowHasText(ms[0]);
    LinesOfOneMore(Show(ms[0]), ShowAll(ms[1..]));
    ShowConcat([ms[0]], ms[1..]);
    assert ms == [ms[0]] + ms[1..];
    assert ShowAll([ms[0]]) == [Show(ms[0])];
  }

  // --- The whole call -------------------------------------------------------

  /**
   * What grep() should answer: the first max matches, up to white space at the end of
   * their lines, and whether there are more.
   */
  function Wanted(max: nat, ms: seq<Match>): (Result<seq<Match>>, bool) {
    (Ok(TrimmedAll(First(max, ms))), |ms| > max)
  }

  lemma NoLines()
    ensures TextLines("") == []
  {
    assert [""][..0] == [] && Cleaned([]) == [];
  }

  lemma FineAnswer(max: nat, ms: seq<Match>)
    requires AllFine(First(max, ms))
    ensures Answer(Output(ms), max) == Wanted(max, ms)
  {
    var fine := First(max, ms);
    var rest := ms[|fine|..];
    assert ms == fine + rest;
    FineLines(fine, rest);
    FineRead(fine);
    if rest == [] {
      NoLines();
    } else {
      MatchesHaveText(rest);
    }
    assert First(max, TextLines(Output(ms))) == StripAll(fine);
  }

  predicate OneLine(ms: seq<Match>) {
    forall m | m in ms :: '\n' !in m.line
  }

  predicate AllReadable(ms: seq<Match>) {
    forall m | m in ms :: Readable(m.path)
  }

  lemma FirstOf<T>(max: nat, xs: seq<T>)
    ensures forall x | x in First(max, xs) :: x in xs
  {
  }

  /**
   * For any lines that grep prints with their path: grep() answers the first max
   * matches, and tells exactly whether there are more, if and only if their paths
   * hold no colon and no line end and do not begin with white space.
   */
  lemma ReadBackIff(max: nat, ms: seq<Match>)
    requires OneLine(ms)
    ensures Answer(Output(ms), max) == Wanted(max, ms) <==> AllReadable(First(max, ms))
  {
    FirstOf(max, ms);
    if AllReadable(First(max, ms)) {
      forall i | 0 <= i < |First(max, ms)|
        ensures Fine(First(max, ms)[i])
      {
        assert First(max, ms)[i] in First(max, ms);
      }
      FineAnswer(max, ms);
    }
    if Answer(Output(ms), max) == Wanted(max, ms) {
      forall m | m in First(max, ms)
        ensures Readable(m.path)
      {
        TrimmedIsIn(First(max, ms), m);
        AnsweredPathsAreReadable(Output(ms), max, Trimmed(m));
      }
    }
  }

  lemma TrimmedIsIn(ms: seq<Match>, m: Match)
    requires m in ms
    ensures Trimmed(m) in TrimmedAll(ms)
  {
    var i :| 0 <= i < |ms| && ms[i] == m;
    assert TrimmedAll(ms)[i] == Trimmed(m);
  }

  /** Two searches of a directory d that are not answered as wanted: a colon and a newline in a path. */
  lemma MisreadSearches(max: nat)
    requires max > 0
    ensures Answer(Output([Match("d/a:b", 1, "x")]), max) != Wanted(max, [Match("d/a:b", 1, "x")])
    ensures Answer(Output([Match("d/a\nb", 1, "x")]), max) != Wanted(max, [Match("d/a\nb", 1, "x")])
  {
    assert "d/a:b"[3] == ':' && "d/a\nb"[3] == '\n';
    forall m | m in [Match("d/a:b", 1, "x"), Match("d/a\nb", 1, "x")]
      ensures Answer(Output([m]), max) != Wanted(max, [m])
    {
      assert First(max, [m]) == [m] && m in [m];
      ReadBackIff(max, [m]);
    }
    assert Match("d/a:b", 1, "x") in [Match("d/a:b", 1, "x"), Match("d/a\nb", 1, "x")];
    assert Match("d/a\nb", 1, "x") in [Match("d/a:b", 1, "x"), Match("d/a\nb", 1, "x")];
  }

  /** The same with the per-file cap: the command stops each file at max + 1, the caller keeps max. */
  lemma GrepFindsFirstMatchesIff(max: nat, files: seq<seq<Match>>)
    requires OneLine(Flatten(files))
    ensures Answer(Output(Flatten(CapEach(max + 1, files))), max) == Wanted(max, Flatten(files))
            <==> AllReadable(First(max, Flatten(files)))
  {
    CappedSearchIsExact(max, files);
    CapIsSubset(max + 1, files);
    ReadBackIff(max, Flatten(CapEach(max + 1, files)));
  }

  lemma {:induction false} CapIsSubset<T>(n: nat, files: seq<seq<T>>)
    ensures forall x | x in Flatten(CapEach(n, files)) :: x in Flatten(files)
  {
    if files != [] {
      CapIsSubset(n, files[1..]);
    }
  }

  // --- White space at the end of lines --------------------------------------

  lemma {:induction false} RStripIsRest(s: string)
    ensures |RStrip(s)| <= |s| && RStrip(s) == s[..|RStrip(s)|]
    ensures RStrip(s) != "" ==> !Space(RStrip(s)[|RStrip(s)| - 1])
    ensures RStrip(s) == s <==> s == "" || !Space(s[|s| - 1])
  {
    if s != "" && Space(s[|s| - 1]) {
      RStripIsRest(s[..|s| - 1]);
    }
  }

  /** The text behind the last colon split off ends as the line does. */
  lemma ReadLineEnds(l: string)
    requires l != "" && !Space(l[|l| - 1]) && ReadLine(l).Ok? && ReadLine(l).value.Some?
    ensures Trimmed(ReadLine(l).value.value) == ReadLine(l).value.value
  {
    RStripIsRest(ReadLine(l).value.value.line);
    var parts := Parts(l);
    var last := parts[|parts| - 1];
    assert last != "" ==> last[|last| - 1] == l[|l| - 1];
  }

  lemma {:induction false} ReadEachTrimmed(lines: seq<string>)
    requires ReadAll(lines).Ok? && forall l | l in lines :: l != "" && !Space(l[|l| - 1])
    ensures forall m | m in ReadAll(lines).value :: Trimmed(m) == m
  {
    if lines != [] {
      var front, last := lines[..|lines| - 1], lines[|lines| - 1];
      assert last in lines;
      ReadEachTrimmed(front);
      if ReadLine(last).value.Some? {
        ReadLineEnds(last);
      }
    }
  }

  lemma {:induction false} CleanedEnds(raw: seq<string>)
    ensures forall l | l in Cleaned(raw) :: l != "" && !Space(l[|l| - 1])
  {
    if raw != [] {
      var last := raw[|raw| - 1];
      CleanedEnds(raw[..|raw| - 1]);
      RStripIsRest(last);
      StripKeeps(RStrip(last));
    }
  }

  /** The line does not end in white space. */
  predicate Whole(m: Match) {
    m.line == "" || !Space(m.line[|m.line| - 1])
  }

  predicate AllWhole(ms: seq<Match>) {
    forall m | m in ms :: Whole(m)
  }

  /** Lines come back whole exactly when, besides, none of them ends in white space. */
  lemma ReadBackWholeIff(max: nat, ms: seq<Match>)
    requires OneLine(ms)
    ensures Answer(Output(ms), max) == (Ok(First(max, ms)), |ms| > max)
            <==> AllReadable(First(max, ms)) && AllWhole(First(max, ms))
  {
    var kept := First(max, ms);
    if AllWhole(kept) {
      UntrimmedAll(kept);
      ReadBackIff(max, ms);
    } else if Answer(Output(ms), max) == (Ok(kept), |ms| > max) {
      CleanedEnds(Split('\n', Output(ms)));
      FirstOf(max, TextLines(Output(ms)));
      ReadEachTrimmed(First(max, TextLines(Output(ms))));
      forall m | m in kept
        ensures Whole(m)
      {
        assert Trimmed(m) == m;
        RStripIsRest(m.line);
      }
    }
  }

  lemma UntrimmedAll(ms: seq<Match>)
    requires AllWhole(ms)
    ensures TrimmedAll(ms) == ms
  {
    forall i | 0 <= i < |ms|
      ensures TrimmedAll(ms)[i] == ms[i]
    {
      assert ms[i] in ms;
      RStripIsRest(ms[i].line);
    }
  }

  // --- Files that grep takes for binary -------------------------------------

  /** A selected line. Where its file turns binary grep prints nothing: its notice goes to the discarded errors. */
  datatype Selected = Selected(found: Match, shown: bool)

  function Shown(all: seq<Selected>): seq<Match> {
    if all == [] then [] else (if all[0].shown then [all[0].found] else []) + Shown(all[1..])
  }

  function Matches(all: seq<Selected>): seq<Match> {
    seq(|all|, i requires 0 <= i < |all| => all[i].found)
  }

  predicate AllShown(all: seq<Selected>) {
    forall s | s in all :: s.shown
  }

  /** No two lines have the same number in the same file. */
  predicate Distinct(all: seq<Selected>) {
    forall i, j | 0 <= i < j < |all| ::
      all[i].found.path != all[j].found.path || all[i].found.lineNumber != all[j].found.lineNumber
  }

  lemma ShownCons(first: Selected, rest: seq<Selected>)
    ensures Shown([first] + rest) == (if first.shown then [first.found] else []) + Shown(rest)
  {
    assert ([first] + rest)[1..] == rest;
  }

  lemma {:induction false} ShownConcat(a: seq<Selected>, b: seq<Selected>)
    ensures Shown(a + b) == Shown(a) + Shown(b)
  {
    if a == [] {
      assert a + b == b;
    } else {
      ShownConcat(a[1..], b);
      ShownCons(a[0], a[1..] + b);
      assert a + b == [a[0]] + (a[1..] + b);
    }
  }

  lemma {:induction false} ShownFacts(all: seq<Selected>)
    ensures |Shown(all)| <= |all|
    ensures AllShown(all) ==> Shown(all) == Matches(all)
    ensures forall m | m in Shown(all) :: exists i | 0 <= i < |all| :: all[i].found == m && all[i].shown
  {
    if all != [] {
      ShownFacts(all[1..]);
      if AllShown(all) {
        assert all[0] in all && forall s | s in all[1..] :: s in all;
        assert Matches(all) == [all[0].found] + Matches(all[1..]);
      }
      forall m | m in Shown(all)
        ensures exists i | 0 <= i < |all| :: all[i].found == m && all[i].shown
      {
        if m in Shown(all[1..]) {
          var i :| 0 <= i < |all[1..]| && all[1..][i].found == m && all[1..][i].shown;
          assert all[i + 1].found == m;
        } else {
          assert all[0].found == m;
        }
      }
    }
  }

  /** How many lines come before the first that is not shown. */
  function ShownPrefix(all: seq<Selected>): (n: nat)
    ensures n <= |all| && AllShown(all[..n]) && (n < |all| ==> !all[n].shown)
  {
    if all == [] || !all[0].shown then 0
    else
      assert forall i | 0 < i < 1 + ShownPrefix(all[1..]) :: all[i] == all[1..][i - 1];
      1 + ShownPrefix(all[1..])
  }

  lemma ShownFirst(all: seq<Selected>, n: nat)
    requires n <= |all| && AllShown(all[..n])
    ensures Shown(all) == Matches(all[..n]) + Shown(all[n..])
  {
    assert all == all[..n] + all[n..];
    ShownConcat(all[..n], all[n..]);
    ShownFacts(all[..n]);
  }

  lemma LaterIsOther(all: seq<Selected>, n: nat, m: Match)
    requires Distinct(all) && n < |all| && m in Shown(all[n + 1..])
    ensures m.path != all[n].found.path || m.lineNumber != all[n].found.lineNumber
  {
    var later := all[n + 1..];
    ShownFacts(later);
    var j :| 0 <= j < |later| && later[j].found == m;
    assert all[n + 1 + j].found == m;
  }

  lemma ShownWithout(all: seq<Selected>, n: nat)
    requires n < |all| && AllShown(all[..n]) && !all[n].shown
    ensures Shown(all) == Matches(all[..n]) + Shown(all[n + 1..])
  {
    ShownFirst(all, n);
    assert all[n..][1..] == all[n + 1..];
  }

  /** A line that is not shown is missed: what stands in its place is another one, or nothing. */
  lemma HiddenIsMissed(max: nat, all: seq<Selected>, n: nat)
    requires Distinct(all) && n < |all| && n < max && AllShown(all[..n]) && !all[n].shown
    ensures TrimmedAll(First(max, Shown(all))) != TrimmedAll(First(max, Matches(all)))
  {
    ShownWithout(all, n);
    var shown, wanted := TrimmedAll(First(max, Shown(all))), TrimmedAll(First(max, Matches(all)));
    assert wanted[n] == Trimmed(all[n].found);
    if |shown| > n && shown[n] == wanted[n] {
      LaterIsOther(all, n, Shown(all)[n]);
    }
  }

  /** The first max lines are shown, and one more of the rest if there is a rest. */
  predicate EnoughShown(max: nat, all: seq<Selected>) {
    AllShown(First(max, all)) && (|all| > max ==> |Shown(all)| > max)
  }

  lemma FirstShown(max: nat, all: seq<Selected>)
    requires AllShown(First(max, all))
    ensures First(max, Shown(all)) == First(max, Matches(all))
  {
    var kept := First(max, all);
    assert kept == all[..|kept|];
    ShownFirst(all, |kept|);
  }

  lemma SomeHidden(max: nat, all: seq<Selected>)
    requires Distinct(all) && !AllShown(First(max, all))
    ensures TrimmedAll(First(max, Shown(all))) != TrimmedAll(First(max, Matches(all)))
  {
    var n := ShownPrefix(all);
    HiddenIsMissed(max, all, n);
  }

  lemma ShownIsWantedIff(max: nat, all: seq<Selected>)
    requires Distinct(all)
    ensures Wanted(max, Shown(all)) == Wanted(max, Matches(all)) <==> EnoughShown(max, all)
  {
    ShownFacts(all);
    if AllShown(First(max, all)) {
      FirstShown(max, all);
    } else {
      SomeHidden(max, all);
    }
  }

  /**
   * Counting the lines of binary files too, with readable paths: the answer is the
   * first max selected lines with the right flag if and only if all of these are
   * shown, and one more whenever more were selected.
   */
  lemma BinarySearchIff(max: nat, all: seq<Selected>)
    requires Distinct(all) && OneLine(Shown(all)) && AllReadable(Shown(all))
    ensures Answer(Output(Shown(all)), max) == Wanted(max, Matches(all)) <==> EnoughShown(max, all)
  {
    FirstOf(max, Shown(all));
    ReadBackIff(max, Shown(all));
    ShownIsWantedIff(max, all);
  }

  /** Once grep has taken a file for binary it shows no more of it. */
  predicate BinaryStops(file: seq<Selected>) {
    forall i, j | 0 <= i < j < |file| :: file[j].shown ==> file[i].shown
  }

  lemma {:induction false} NoneShown(all: seq<Selected>)
    requires forall i | 0 <= i < |all| :: !all[i].shown
    ensures Shown(all) == []
  {
    if all != [] {
      NoneShown(all[1..]);
    }
  }

  lemma FirstCons<T>(n: nat, x: T, xs: seq<T>)
    requires n > 0
    ensures First(n, [x] + xs) == [x] + First(n - 1, xs)
  {
  }

  /** So the cap on selected lines is a cap on shown ones. */
  lemma {:induction false} CapShown(n: nat, file: seq<Selected>)
    requires BinaryStops(file)
    ensures Shown(First(n, file)) == First(n, Shown(file))
    decreases |file|
  {
    if file != [] && n > 0 {
      var first, rest := file[0], file[1..];
      assert file == [first] + rest;
      FirstCons(n, first, rest);
      if first.shown {
        CapShown(n - 1, rest);
        FirstCons(n, first.found, Shown(rest));
        assert ([first] + First(n - 1, rest))[1..] == First(n - 1, rest);
      } else {
        NoneShown(file);
        NoneShown(First(n, file));
      }
    }
  }

  function ShownEach(files: seq<seq<Selected>>): seq<seq<Match>> {
    if files == [] then [] else [Shown(files[0])] + ShownEach(files[1..])
  }

  lemma {:induction false} ShownFlat(n: nat, files: seq<seq<Selected>>)
    requires forall f | f in files :: BinaryStops(f)
    ensures Shown(Flatten(files)) == Flatten(ShownEach(files))
    ensures Shown(Flatten(CapEach(n, files))) == Flatten(CapEach(n, ShownEach(files)))
    decreases |files|
  {
    if files != [] {
      assert files[0] in files;
      ShownFlat(n, files[1..]);
      ShownConcat(files[0], Flatten(files[1..]));
      ShownConcat(First(n, files[0]), Flatten(CapEach(n, files[1..])));
      CapShown(n, files[0]);
      FlattenCons(Shown(files[0]), ShownEach(files[1..]));
      FlattenCons(First(n, files[0]), CapEach(n, files[1..]));
      FlattenCons(First(n, Shown(files[0])), CapEach(n, ShownEach(files[1..])));
      CapEachCons(n, Shown(files[0]), ShownEach(files[1..]));
    }
  }

  lemma FlattenCons<T>(x: seq<T>, xs: seq<seq<T>>)
    ensures Flatten([x] + xs) == x + Flatten(xs)
  {
    assert ([x] + xs)[1..] == xs;
  }

  lemma CapEachCons<T>(n: nat, x: seq<T>, xs: seq<seq<T>>)
    ensures CapEach(n, [x] + xs) == [First(n, x)] + CapEach(n, xs)
  {
    assert ([x] + xs)[1..] == xs;
  }

  /** The same with the per-file cap, which counts the line at which a file turns binary. */
  lemma CappedBinarySearchIff(max: nat, files: seq<seq<Selected>>)
    requires forall f | f in files :: BinaryStops(f)
    requires Distinct(Flatten(files)) && OneLine(Shown(Flatten(files))) && AllReadable(Shown(Flatten(files)))
    ensures Answer(Output(Shown(Flatten(CapEach(max + 1, files)))), max) == Wanted(max, Matches(Flatten(files)))
            <==> EnoughShown(max, Flatten(files))
  {
    var all, texts := Flatten(files), ShownEach(files);
    ShownFlat(max + 1, files);
    GrepFindsFirstMatchesIff(max, texts);
    FirstOf(max, Shown(all));
    ShownIsWantedIff(max, all);
  }

  /** The only match is in a binary file: it vanishes without a trace. */
  lemma BinaryMatchVanishes(max: nat, m: Match)
    ensures Answer(Output(Shown([Selected(m, false)])), max) == (Ok([]), false)
  {
    NoneShown([Selected(m, false)]);
    NoLines();
    assert First(max, TextLines("")) == [];
  }

  /** A shown match fills the limit and one in a binary file follows: nothing tells that there is more. */
  lemma BinaryMatchHidesTruncation(m: Match, hidden: Match)
    requires Fine(m) && Whole(m)
    ensures var all := [Selected(m, true), Selected(hidden, false)];
            Answer(Output(Shown(all)), 1) == (Ok([m]), false) && Wanted(1, Matches(all)) == (Ok([m]), true)
  {
    NoneShown([Selected(hidden, false)]);
    ShownCons(Selected(m, true), [Selected(hidden, false)]);
    assert [Selected(m, true)] + [Selected(hidden, false)] == [Selected(m, true), Selected(hidden, false)];
    assert [m] + [] == [m];
    assert First(1, [m]) == [m] && First(1, Matches([Selected(m, true), Selected(hidden, false)])) == [m];
    UntrimmedAll([m]);
    ReadBackWholeIff(1, [m]);
  }

  // --- A file as the search path --------------------------------------------

  function AllAlone(ms: seq<Match>): seq<string> {
    seq(|ms|, i requires 0 <= i < |ms| => ShowAlone(ms[i]))
  }

  lemma {:induction false} FirstRead(lines: seq<string>)
    requires lines != [] && ReadAll(lines).Ok?
    ensures ReadLine(lines[0]).Ok?
    ensures ReadLine(lines[0]).value.Some? ==>
              ReadAll(lines).value != [] && ReadAll(lines).value[0] == ReadLine(lines[0]).value.value
  {
    if |lines| == 1 {
      assert ReadAll(lines[..0]) == Ok([]);
    } else {
      FirstRead(lines[..|lines| - 1]);
    }
  }

  /** A search of a file instead of a directory is never answered as wanted, whatever matches there are. */
  lemma FileOperandIsMisread(max: nat, ms: seq<Match>)
    requires max > 0 && ms != [] && forall m | m in ms :: m.lineNumber >= 1 && '\n' !in m.line
    ensures Answer(Listing(AllAlone(ms)), max).0 != Wanted(max, ms).0
  {
    var first := ms[0];
    assert first in ms;
    AloneIsMisread(first);
    OneTextLine(ShowAlone(first));
    assert AllAlone(ms) == [ShowAlone(first)] + AllAlone(ms)[1..];
    LinesOfOneMore(ShowAlone(first), AllAlone(ms)[1..]);
    var kept := First(max, TextLines(Listing(AllAlone(ms))));
    assert kept[0] == Strip(ShowAlone(first));
    if ReadAll(kept).Ok? {
      FirstRead(kept);
      assert TrimmedAll(First(max, ms))[0] == Trimmed(first);
    }
  }
}
