/** What installs and uninstalls of the global command keep and undo. */
module RegistrationTheorems {
  import opened Basics
  import opened CommandRegistration

  // --- PATH strings ---------------------------------------------------------

  lemma {:induction false} NonBlankConcat(xs: seq<string>, ys: seq<string>)
    ensures NonBlank(xs + ys) == NonBlank(xs) + NonBlank(ys)
  {
    if xs == [] {
      assert xs + ys == ys;
    } else {
      assert (xs + ys)[1..] == xs[1..] + ys;
      NonBlankConcat(xs[1..], ys);
    }
  }

  predicate Plain(xs: seq<string>) {
    forall x | x in xs :: ';' !in x && !Blank(x)
  }

  lemma {:induction false} NonBlankPlain(xs: seq<string>)
    requires forall x | x in xs :: ';' !in x
    ensures Plain(NonBlank(xs))
  {
    if xs != [] {
      NonBlankPlain(xs[1..]);
    }
  }

  lemma EntriesPlain(path: string)
    ensures Plain(Entries(path))
  {
    SplitHasNoSeparator(';', path);
    NonBlankPlain(Split(';', path));
  }

  /** Joining entries and splitting again gives them back. */
  lemma {:induction false} EntriesOfJoin(xs: seq<string>)
    requires Plain(xs)
    ensures Entries(Join(xs)) == xs
  {
    if |xs| == 1 {
      SplitPlain(';', xs[0]);
    } else if |xs| > 1 {
      SplitPlain(';', xs[0]);
      SplitJoined(';', xs[0], Join(xs[1..]));
      EntriesOfJoin(xs[1..]);
      NonBlankConcat([xs[0]], Split(';', Join(xs[1..])));
      assert NonBlank([xs[0]]) == [xs[0]];
    }
  }

  lemma {:induction false} BlankHasNoEntries(s: string)
    requires Blank(s)
    ensures Entries(s) == []
  {
    assert ';' !in s;
    SplitPlain(';', s);
    assert NonBlank([s]) == [];
  }

  lemma {:induction false} WithoutBinFacts(h: Host, xs: seq<string>)
    ensures forall x :: x in WithoutBin(h, xs) <==> x in xs && !IsBin(h, x)
    ensures (forall x | x in xs :: !IsBin(h, x)) <==> WithoutBin(h, xs) == xs
    ensures |WithoutBin(h, xs)| <= |xs|
  {
    if xs != [] {
      var front, last := xs[..|xs| - 1], xs[|xs| - 1];
      assert xs == front + [last];
      WithoutBinFacts(h, front);
      if forall x | x in xs :: !IsBin(h, x) {
        assert forall x | x in front :: x in xs;
      }
    }
  }

  /** The bin directory is a proper PATH entry. */
  predicate GoodBin(h: Host) {
    ';' !in h.bin && !Blank(h.bin)
  }

  /** Removal keeps every other non-blank entry, in order. */
  lemma RemoveKeepsOthers(h: Host, path: string)
    ensures Entries(RemoveEntry(h, path)) == WithoutBin(h, Entries(path))
  {
    EntriesPlain(path);
    WithoutBinFacts(h, Entries(path));
    EntriesOfJoin(WithoutBin(h, Entries(path)));
  }

  /** Adding appends one entry, and only when the bin directory is not listed yet. */
  lemma AddAppends(h: Host, path: string)
    requires GoodBin(h)
    ensures Entries(AddEntry(h, path)) == if ContainsBin(h, path) then Entries(path) else Entries(path) + [h.bin]
    ensures ContainsBin(h, AddEntry(h, path))
  {
    if !ContainsBin(h, path) {
      SplitPlain(';', h.bin);
      assert NonBlank([h.bin]) == [h.bin];
      assert IsBin(h, h.bin);
      if Blank(path) {
        BlankHasNoEntries(path);
      } else {
        SplitJoined(';', path, h.bin);
        NonBlankConcat(Split(';', path), [h.bin]);
      }
      assert h.bin in Entries(AddEntry(h, path));
    }
  }

  // --- Host facts -----------------------------------------------------------

  /** Normalising twice is normalising once. */
  predicate Stable(h: Host, p: string) {
    Normalize(h, Normalize(h, p)) == Normalize(h, p)
  }

  /** A full path is its own full path. */
  predicate Resolved(h: Host, root: string) {
    match h.fullPath(root)
    case None => true
    case Some(full) => full != "" && h.fullPath(full) == Some(full)
  }

  /** A checkout root that also normalises stably, as every one but a drive root does. */
  predicate GoodRoot(h: Host, root: string) {
    Resolved(h, root) && (h.fullPath(root).Some? ==> Stable(h, h.fullPath(root).value))
  }

  predicate GoodEnv(h: Host, e: Env) {
    Stable(h, EffectiveHome(h, e)) && Stable(h, e.userHome) && Stable(h, e.processHome)
  }

  lemma SameIsEquivalence(h: Host, a: string, b: string, c: string)
    ensures Same(h, a, a)
    ensures Same(h, a, b) ==> Same(h, b, a)
    ensures Same(h, a, b) && Same(h, b, c) ==> Same(h, a, c)
  {
  }

  // --- Install, then uninstall ----------------------------------------------

  /** Installing twice from one checkout is installing once, whatever the second flags are. */
  lemma InstallTwiceIsOnce(h: Host, e: Env, root: string, n: bool, f: bool, a: bool, n2: bool, f2: bool, a2: bool)
    requires GoodBin(h) && Resolved(h, root) && Installed(h, e, root, n, f, a).1 == Registered
    ensures var e1 := Installed(h, e, root, n, f, a).0; Installed(h, e1, root, n2, f2, a2).0 == e1
  {
    AddAppends(h, e.userPath);
    AddAppends(h, e.processPath);
  }

  /** After an install the checkout owns the binding. */
  lemma InstallerOwns(h: Host, e: Env, root: string, n: bool, f: bool, a: bool)
    requires Resolved(h, root) && Installed(h, e, root, n, f, a).1 == Registered
    requires !Blank(Normalize(h, h.fullPath(root).value))
    ensures Owner(h, Installed(h, e, root, n, f, a).0) == Normalize(h, h.fullPath(root).value)
  {
  }

  /**
   * What a registered install gives: our shim, the root as the home of the user and of
   * the process and so as owner, and the bin directory listed in both PATH strings once
   * more at most, behind all they listed before; nothing else changes.
   */
  lemma InstallGives(h: Host, e: Env, root: string, n: bool, f: bool, a: bool)
    requires GoodBin(h) && Resolved(h, root) && Installed(h, e, root, n, f, a).1 == Registered
    ensures var e1 := Installed(h, e, root, n, f, a).0;
            var full := h.fullPath(root).value;
            && e1.shim == AdpShim && e1.binExists
            && e1.userHome == full && e1.processHome == full
            && (!Blank(Normalize(h, full)) ==> Owner(h, e1) == Normalize(h, full))
            && ContainsBin(h, e1.userPath) && ContainsBin(h, e1.processPath)
            && Entries(e1.userPath)
               == Entries(e.userPath) + (if ContainsBin(h, e.userPath) then [] else [h.bin])
            && Entries(e1.processPath)
               == Entries(e.processPath) + (if ContainsBin(h, e.processPath) then [] else [h.bin])
            && e1.machineHome == e.machineHome && e1.machinePath == e.machinePath && e1.otherFiles == e.otherFiles
  {
    AddAppends(h, e.userPath);
    AddAppends(h, e.processPath);
    assert Entries(e.userPath) + [] == Entries(e.userPath) && Entries(e.processPath) + [] == Entries(e.processPath);
    if !Blank(Normalize(h, h.fullPath(root).value)) {
      InstallerOwns(h, e, root, n, f, a);
    }
  }

  /** The binding is free for the checkout at `full`: it has no owner, or this one. */
  predicate FreeFor(h: Host, e: Env, full: string) {
    Blank(Owner(h, e)) || Same(h, Owner(h, e), Normalize(h, full))
  }

  /**
   * An install fails exactly without a full path or a command to point at. Otherwise it
   * is registered exactly if the binding is free, or by force, or by the answer at the
   * prompt; and skipped, with nothing changed, if not.
   */
  lemma InstallAnswersIff(h: Host, e: Env, root: string, n: bool, f: bool, a: bool)
    ensures var (e1, outcome) := Installed(h, e, root, n, f, a);
            if h.fullPath(root).None? || !h.hasRepoCommand(h.fullPath(root).value) then outcome == Threw && e1 == e
            else if FreeFor(h, e, h.fullPath(root).value) || f || (!n && a) then outcome == Registered
            else outcome == Skipped && e1 == e
  {
  }

  /**
   * An uninstall removes exactly if the file in the shim's place is not foreign, and the
   * binding is free as far as its decision sees, or force is used; and else changes nothing.
   */
  lemma UninstallAnswersIff(h: Host, e: Env, root: string, f: bool)
    requires GoodRoot(h, root) && h.fullPath(root).Some? && Stable(h, EffectiveHome(h, e))
    ensures var (e1, outcome) := Uninstalled(h, e, root, f);
            if e.shim != ForeignFile && (FreeFor(h, e, h.fullPath(root).value) || f) then outcome == Removed
            else outcome == Threw && e1 == e
  {
  }

  // --- Who owns the binding -------------------------------------------------

  /** A PATH entry that normalises to a checkout. */
  predicate IsHome(h: Host, entry: string) {
    !Blank(Normalize(h, entry)) && h.isCheckout(Normalize(h, entry))
  }

  ghost predicate IsFirstHome(h: Host, entries: seq<string>, n: string) {
    exists i :: 0 <= i < |entries| && IsHome(h, entries[i]) && Normalize(h, entries[i]) == n
                && forall j | 0 <= j < i :: !IsHome(h, entries[j])
  }

  lemma {:induction false} FirstHomeFacts(h: Host, entries: seq<string>)
    ensures FirstHome(h, entries).Some? ==> IsFirstHome(h, entries, FirstHome(h, entries).value)
    ensures FirstHome(h, entries).None? ==> forall i | 0 <= i < |entries| :: !IsHome(h, entries[i])
  {
    if entries != [] && !IsHome(h, entries[0]) {
      FirstHomeFacts(h, entries[1..]);
      if FirstHome(h, entries[1..]).Some? {
        var n := FirstHome(h, entries[1..]).value;
        var i :| 0 <= i < |entries[1..]| && IsHome(h, entries[1..][i]) && Normalize(h, entries[1..][i]) == n
                 && forall j | 0 <= j < i :: !IsHome(h, entries[1..][j]);
        forall j | 0 <= j < i + 1
          ensures !IsHome(h, entries[j])
        {
          assert j > 0 ==> entries[j] == entries[1..][j - 1];
        }
        assert IsHome(h, entries[i + 1]) && Normalize(h, entries[i + 1]) == n;
      }
    }
  }

  /**
   * Who owns the binding: the user's home variable goes before the machine's, and both
   * go before the first checkout listed in the user's and then the machine's PATH.
   */
  lemma OwnerIsLookedUp(h: Host, e: Env)
    ensures !Blank(e.userHome) ==> Owner(h, e) == Normalize(h, e.userHome)
    ensures Blank(e.userHome) && !Blank(e.machineHome) ==> Owner(h, e) == Normalize(h, e.machineHome)
    ensures Blank(e.userHome) && Blank(e.machineHome) ==>
              var entries := Entries(e.userPath) + Entries(e.machinePath);
              if exists i :: 0 <= i < |entries| && IsHome(h, entries[i])
              then exists n :: IsFirstHome(h, entries, n) && Owner(h, e) == Normalize(h, n)
              else Owner(h, e) == ""
  {
    FirstHomeFacts(h, Entries(e.userPath) + Entries(e.machinePath));
  }

  lemma {:induction false} TrimEndFacts(s: string)
    ensures TrimEnd(s) <= s
    ensures forall i | |TrimEnd(s)| <= i < |s| :: s[i] == '\\' || s[i] == '/'
    ensures TrimEnd(s) != "" ==> TrimEnd(s)[|TrimEnd(s)| - 1] != '\\' && TrimEnd(s)[|TrimEnd(s)| - 1] != '/'
  {
    if s != [] && (s[|s| - 1] == '\\' || s[|s| - 1] == '/') {
      TrimEndFacts(s[..|s| - 1]);
    }
  }

  /** A normal form is the full path, or the text where there is none, up to the separators at its end. */
  lemma NormalFormIs(h: Host, p: string)
    requires !Blank(p)
    ensures var whole := if h.fullPath(p).Some? then h.fullPath(p).value else p;
            var n := Normalize(h, p);
            && n <= whole && (forall i | |n| <= i < |whole| :: whole[i] == '\\' || whole[i] == '/')
            && (n != "" ==> n[|n| - 1] != '\\' && n[|n| - 1] != '/')
  {
    TrimEndFacts(if h.fullPath(p).Some? then h.fullPath(p).value else p);
  }

  /** The uninstall decision normalises the registered home twice, its own root once. */
  predicate KnowsItself(h: Host, root: string)
    requires h.fullPath(root).Some?
  {
    var once := Normalize(h, h.fullPath(root).value);
    Blank(Normalize(h, once)) || Same(h, Normalize(h, once), once)
  }

  /** What an uninstall leaves of an installation over `e`. */
  predicate Undone(h: Host, e: Env, e2: Env) {
    && e2.shim == NoShim && e2.binExists == e2.otherFiles && e2.otherFiles == e.otherFiles
    && e2.userHome == "" && e2.processHome == ""
    && e2.machineHome == e.machineHome && e2.machinePath == e.machinePath
    && Entries(e2.userPath) == WithoutBin(h, Entries(e.userPath))
    && Entries(e2.processPath) == WithoutBin(h, Entries(e.processPath))
  }

  /**
   * Uninstalling from the checkout that installed removes the shim and the homes, and
   * leaves the original non-blank PATH entries in order minus the bin directory,
   * exactly when the home it registered is recognised as its own or force is used.
   * Otherwise it is refused and changes nothing.
   */
  lemma InstallThenUninstallIff(h: Host, e: Env, root: string, n: bool, f: bool, a: bool, f2: bool)
    requires GoodBin(h) && Resolved(h, root) && Installed(h, e, root, n, f, a).1 == Registered
    requires !Blank(Normalize(h, h.fullPath(root).value))
    ensures var e1 := Installed(h, e, root, n, f, a).0;
            var (e2, outcome) := Uninstalled(h, e1, root, f2);
            if f2 || KnowsItself(h, root) then outcome == Removed && Undone(h, e, e2) else outcome == Threw && e2 == e1
  {
    InstallerOwns(h, e, root, n, f, a);
    AddThenRemove(h, e.userPath);
    AddThenRemove(h, e.processPath);
    var once := Normalize(h, h.fullPath(root).value);
    SameIsEquivalence(h, once, once, once);
  }

  /** So every root that normalises stably can be uninstalled from, without force. */
  lemma InstallThenUninstall(h: Host, e: Env, root: string, n: bool, f: bool, a: bool)
    requires GoodBin(h) && GoodRoot(h, root) && Installed(h, e, root, n, f, a).1 == Registered
    requires !Blank(Normalize(h, h.fullPath(root).value))
    ensures var (e2, outcome) := Uninstalled(h, Installed(h, e, root, n, f, a).0, root, false);
            outcome == Removed && Undone(h, e, e2)
  {
    var once := Normalize(h, h.fullPath(root).value);
    SameIsEquivalence(h, once, once, once);
    InstallThenUninstallIff(h, e, root, n, f, a, false);
  }

  /** Windows with a checkout at the root of drive D, whose current directory is D:\work. */
  function DriveHost(): Host {
    Host(p => if p == "D:" then Some("D:\\work") else Some(p), c => c, p => true, p => false, "C:\\bin")
  }

  function BareEnv(): Env {
    Env("", "", "", "", "", "", NoShim, false, false)
  }

  /** There the uninstall without force is refused: "D:\" is kept as "D:", which means D:\work when read again. */
  lemma DriveRootIsRefused()
    ensures var (e1, first) := Installed(DriveHost(), BareEnv(), "D:\\", true, false, false);
            first == Registered && Uninstalled(DriveHost(), e1, "D:\\", false) == (e1, Threw)
  {
    DriveNames(DriveHost());
    DriveInstalls(DriveHost());
    assert "D:\\work"[2] == '\\';
    InstallThenUninstallIff(DriveHost(), BareEnv(), "D:\\", true, false, false, false);
  }

  lemma DriveInstalls(h: Host)
    requires h == DriveHost()
    ensures GoodBin(h) && Resolved(h, "D:\\") && Installed(h, BareEnv(), "D:\\", true, false, false).1 == Registered
  {
    assert 'C' in h.bin && !White('C');
    BlankHasNoEntries("");
    assert EffectiveHome(h, BareEnv()) == "";
  }

  lemma DriveNames(h: Host)
    requires h == DriveHost()
    ensures Normalize(h, "D:\\") == "D:" && Normalize(h, "D:") == "D:\\work"
    ensures !Blank("D:") && !Blank("D:\\work")
  {
    assert 'D' in "D:\\" && 'D' in "D:" && 'D' in "D:\\work" && !White('D');
    assert "D:\\"[..2] == "D:";
  }

  lemma AddThenRemove(h: Host, path: string)
    requires GoodBin(h)
    ensures Entries(RemoveEntry(h, AddEntry(h, path))) == WithoutBin(h, Entries(path))
  {
    AddAppends(h, path);
    RemoveKeepsOthers(h, AddEntry(h, path));
    if !ContainsBin(h, path) {
      assert IsBin(h, h.bin);
      var xs := Entries(path) + [h.bin];
      assert xs[..|xs| - 1] == Entries(path);
    }
  }

  // --- The decision describes the effects -----------------------------------

  lemma EffectsListed(h: Host, e: Env, full: string, force: bool)
    requires GoodEnv(h, e) && h.fullPath(full) == Some(full) && Stable(h, full)
    requires DecideUninstall(h, Existing(h, e, full), full, force).Uninstall?
    ensures var effects := DecideUninstall(h, Existing(h, e, full), full, force).effects;
            && (RemoveShim in effects <==> e.shim == AdpShim)
            && (RemoveUserPath in effects <==> ContainsBin(h, e.userPath))
            && (RemoveUserHome in effects <==> CleansHome(h, e.userHome, full, force))
            && (RemoveProcessHome in effects <==> CleansHome(h, e.processHome, full, force))
  {
    assert Normalize(h, Normalize(h, e.userHome)) == Normalize(h, e.userHome);
    assert Normalize(h, Normalize(h, e.processHome)) == Normalize(h, e.processHome);
  }

  lemma ClearingShows(h: Host, home: string, full: string, force: bool)
    ensures CleansHome(h, home, full, force) ==> home != ""
  {
  }

  /**
   * The pure uninstall decision names exactly what the uninstall changes, and a
   * refusal changes nothing.
   */
  lemma DecisionNamesEffects(h: Host, e: Env, root: string, force: bool)
    requires GoodRoot(h, root) && GoodEnv(h, e) && h.fullPath(root).Some?
    ensures var full := h.fullPath(root).value;
            var (e2, outcome) := Uninstalled(h, e, root, force);
            match DecideUninstall(h, Existing(h, e, full), full, force)
            case Uninstall(effects) =>
              && outcome == Removed
              && (RemoveShim in effects <==> e2.shim != e.shim)
              && (RemoveUserPath in effects <==> Entries(e2.userPath) != Entries(e.userPath))
              && (RemoveUserHome in effects <==> e2.userHome != e.userHome)
              && (RemoveProcessHome in effects <==> e2.processHome != e.processHome)
            case _ => outcome == Threw && e2 == e
  {
    var full := h.fullPath(root).value;
    if DecideUninstall(h, Existing(h, e, full), full, force).Uninstall? {
      EffectsListed(h, e, full, force);
      RemovalShows(h, e.userPath);
      ClearingShows(h, e.userHome, full, force);
      ClearingShows(h, e.processHome, full, force);
    }
  }

  /** A PATH string without blank entries, which removal leaves as it is when the bin directory is not listed. */
  predicate Tidy(path: string) {
    path == "" || forall x | x in Split(';', path) :: !Blank(x)
  }

  lemma {:induction false} NonBlankAll(xs: seq<string>)
    ensures NonBlank(xs) == xs <==> forall x | x in xs :: !Blank(x)
    ensures |NonBlank(xs)| <= |xs|
  {
    if xs != [] {
      NonBlankAll(xs[1..]);
      assert forall x | x in xs :: x == xs[0] || x in xs[1..];
    }
  }

  lemma {:induction false} SplitOfJoin(xs: seq<string>)
    requires xs != [] && forall x | x in xs :: ';' !in x
    ensures Split(';', Join(xs)) == xs
  {
    SplitPlain(';', xs[0]);
    if |xs| > 1 {
      SplitJoined(';', xs[0], Join(xs[1..]));
      SplitOfJoin(xs[1..]);
    }
  }

  lemma {:induction false} JoinOfSplit(path: string)
    ensures Join(Split(';', path)) == path
  {
    if path != "" {
      JoinOfSplit(path[1..]);
      var rest := Split(';', path[1..]);
      if path[0] == ';' {
        assert ([""] + rest)[1..] == rest;
      } else if |rest| > 1 {
        assert ([[path[0]] + rest[0]] + rest[1..])[1..] == rest[1..];
      }
    }
  }

  /** Removal leaves a PATH string alone exactly when it lists no bin directory and no blank entry. */
  lemma RemovalKeepsIff(h: Host, path: string)
    ensures RemoveEntry(h, path) == path <==> !ContainsBin(h, path) && Tidy(path)
  {
    RemovalShows(h, path);
    WithoutBinFacts(h, Entries(path));
    EntriesPlain(path);
    NonBlankAll(Split(';', path));
    JoinOfSplit(path);
    SplitHasNoSeparator(';', path);
    if RemoveEntry(h, path) == path && Entries(path) != [] {
      SplitOfJoin(Entries(path));
    }
  }

  /**
   * Exactly when an uninstall changes more than its decision names: a PATH string it
   * rewrites for a blank entry, the PATH of the process, or an empty bin directory.
   */
  lemma UnnamedChangeIff(h: Host, e: Env, root: string, force: bool)
    requires GoodRoot(h, root) && GoodEnv(h, e) && h.fullPath(root).Some?
    requires Uninstalled(h, e, root, force).1 == Removed
    ensures var full := h.fullPath(root).value;
            var effects := DecideUninstall(h, Existing(h, e, full), full, force).effects;
            var e2 := Uninstalled(h, e, root, force).0;
            var named := e.(shim := if RemoveShim in effects then NoShim else e.shim,
                            userPath := if RemoveUserPath in effects then e2.userPath else e.userPath,
                            userHome := if RemoveUserHome in effects then "" else e.userHome,
                            processHome := if RemoveProcessHome in effects then "" else e.processHome);
            e2 == named <==> && (ContainsBin(h, e.userPath) || Tidy(e.userPath))
                             && !ContainsBin(h, e.processPath) && Tidy(e.processPath)
                             && (e.binExists ==> e.otherFiles)
  {
    EffectsListed(h, e, h.fullPath(root).value, force);
    RemovalKeepsIff(h, e.userPath);
    RemovalKeepsIff(h, e.processPath);
  }

  lemma RemovalShows(h: Host, path: string)
    ensures ContainsBin(h, path) <==> Entries(RemoveEntry(h, path)) != Entries(path)
  {
    RemoveKeepsOthers(h, path);
    WithoutBinFacts(h, Entries(path));
  }

  // --- Many checkouts -------------------------------------------------------

  datatype Op =
    | InstallOp(root: string, nonInteractive: bool, force: bool, answer: bool)
    | UninstallOp(root: string, force: bool)
    | NewProcess(home: string, path: string)

  function Happen(h: Host, e: Env, op: Op): Env {
    match op
    case InstallOp(root, n, f, a) => Installed(h, e, root, n, f, a).0
    case UninstallOp(root, f) => Uninstalled(h, e, root, f).0
    case NewProcess(home, path) => e.(processHome := home, processPath := path)
  }

  /** The checkout that runs the step is the one with home `owner`. */
  predicate By(h: Host, op: Op, owner: string) {
    !op.NewProcess? && h.fullPath(op.root).Some? && Same(h, owner, Normalize(h, h.fullPath(op.root).value))
  }

  /** Neither forced nor a replacement accepted at the prompt. */
  predicate Polite(op: Op) {
    match op
    case InstallOp(_, n, f, a) => !f && (n || !a)
    case UninstallOp(_, f) => !f
    case NewProcess(_, _) => true
  }

  predicate GoodOp(h: Host, op: Op) {
    op.NewProcess? || GoodRoot(h, op.root)
  }

  /** What the environment holds beyond the current process. */
  function Lasting(e: Env): Env {
    e.(processHome := "", processPath := "")
  }

  /** While a checkout owns the binding, another one gets through exactly by force or an accepted prompt. */
  lemma OutsiderActsIff(h: Host, e: Env, op: Op)
    requires Stable(h, EffectiveHome(h, e)) && GoodOp(h, op) && !op.NewProcess? && h.fullPath(op.root).Some?
    requires !Blank(Owner(h, e)) && !By(h, op, Owner(h, e))
    ensures op.InstallOp? ==>
              (Installed(h, e, op.root, op.nonInteractive, op.force, op.answer).1 == Registered
               <==> h.hasRepoCommand(h.fullPath(op.root).value) && (op.force || (!op.nonInteractive && op.answer)))
    ensures op.UninstallOp? ==>
              (Uninstalled(h, e, op.root, op.force).1 == Removed <==> op.force && e.shim != ForeignFile)
  {
  }

  /** Without either, the other checkout's step changes nothing. */
  lemma OutsiderChangesNothing(h: Host, e: Env, op: Op)
    requires Stable(h, EffectiveHome(h, e)) && GoodOp(h, op) && !op.NewProcess?
    requires !Blank(Owner(h, e)) && !By(h, op, Owner(h, e)) && Polite(op)
    ensures Happen(h, e, op) == e
  {
    if h.fullPath(op.root).Some? {
      OutsiderActsIff(h, e, op);
    }
  }

  /** Case folding keeps white space apart from the rest. */
  ghost predicate FoldKeepsWhite(h: Host) {
    forall c, d :: h.fold(c) == h.fold(d) ==> (White(c) <==> White(d))
  }

  lemma SameBlank(h: Host, a: string, b: string)
    requires FoldKeepsWhite(h) && Same(h, a, b) && !Blank(a)
    ensures !Blank(b)
  {
    var i :| 0 <= i < |a| && !White(a[i]);
    assert h.fold(a[i]) == h.fold(b[i]);
  }

  function Final(h: Host, e: Env, ops: seq<Op>): Env
    decreases |ops|
  {
    if ops == [] then e else Final(h, Happen(h, e, ops[0]), ops[1..])
  }

  lemma OwnerDependsOnLasting(h: Host, e: Env, home: string, path: string)
    ensures Owner(h, e.(processHome := home, processPath := path)) == Owner(h, e)
    ensures EffectiveHome(h, e.(processHome := home, processPath := path)) == EffectiveHome(h, e)
  {
  }

  /**
   * Over any run of polite installs and uninstalls by any checkouts in any
   * processes, the owner stays the owner unless it uninstalls itself.
   */
  lemma {:induction false} OwnerKeepsBinding(h: Host, e: Env, ops: seq<Op>, owner: string)
    requires Same(h, owner, Owner(h, e)) && !Blank(owner) && Stable(h, EffectiveHome(h, e))
    requires forall op | op in ops :: GoodOp(h, op) && Polite(op) && !(op.UninstallOp? && By(h, op, owner))
    requires FoldKeepsWhite(h)
    ensures Same(h, owner, Owner(h, Final(h, e, ops)))
    decreases |ops|
  {
    if ops != [] {
      var op := ops[0];
      var e1 := Happen(h, e, op);
      SameBlank(h, owner, Owner(h, e));
      if op.NewProcess? {
        OwnerDependsOnLasting(h, e, op.home, op.path);
      } else if By(h, op, owner) {
        var full := h.fullPath(op.root).value;
        SameBlank(h, owner, Normalize(h, full));
        if Installed(h, e, op.root, op.nonInteractive, op.force, op.answer).1 == Registered {
          InstallerOwns(h, e, op.root, op.nonInteractive, op.force, op.answer);
        }
      } else {
        if By(h, op, Owner(h, e)) {
          SameIsEquivalence(h, owner, Owner(h, e), Normalize(h, h.fullPath(op.root).value));
        }
        OutsiderChangesNothing(h, e, op);
      }
      OwnerKeepsBinding(h, e1, ops[1..], owner);
    }
  }

  /** Without any step of the owner, nothing beyond the current process changes at all. */
  lemma {:induction false} OutsidersLeaveNoTrace(h: Host, e: Env, ops: seq<Op>)
    requires !Blank(Owner(h, e)) && Stable(h, EffectiveHome(h, e))
    requires forall op | op in ops :: GoodOp(h, op) && Polite(op) && !By(h, op, Owner(h, e))
    ensures Lasting(Final(h, e, ops)) == Lasting(e)
    decreases |ops|
  {
    if ops != [] {
      var op := ops[0];
      if op.NewProcess? {
        OwnerDependsOnLasting(h, e, op.home, op.path);
      } else {
        OutsiderChangesNothing(h, e, op);
      }
      OutsidersLeaveNoTrace(h, Happen(h, e, op), ops[1..]);
    }
  }
}
