/**
 * The user-level `adpos` binding that several checkouts compete for: environment
 * variables, PATH strings and a shim file (scripts/adpos-registration.ps1).
 */
module CommandRegistration {
  import opened Basics

  /**
   * What the code asks of Windows: full paths (None when GetFullPath throws), ordinal
   * case folding, which directories hold adpos.cmd or a whole checkout, and the
   * command bin directory.
   */
  datatype Host = Host(
    fullPath: string -> Option<string>,
    fold: char -> char,
    hasRepoCommand: string -> bool,
    isCheckout: string -> bool,
    bin: string)

  datatype Shim = NoShim | AdpShim | ForeignFile

  /** An unset variable is "". */
  datatype Env = Env(
    userHome: string, machineHome: string, processHome: string,
    userPath: string, machinePath: string, processPath: string,
    shim: Shim, binExists: bool, otherFiles: bool)

  // --- Text -----------------------------------------------------------------

  predicate Blank(s: string) {
    forall c | c in s :: White(c)
  }

  function TrimEnd(s: string): string {
    if s != [] && (s[|s| - 1] == '\\' || s[|s| - 1] == '/') then TrimEnd(s[..|s| - 1]) else s
  }

  function Normalize(h: Host, p: string): string {
    if Blank(p) then ""
    else match h.fullPath(p)
         case Some(f) => TrimEnd(f)
         case None => TrimEnd(p)
  }

  /** OrdinalIgnoreCase equality. */
  predicate Same(h: Host, a: string, b: string) {
    |a| == |b| && forall i | 0 <= i < |a| :: h.fold(a[i]) == h.fold(b[i])
  }

  function NonBlank(xs: seq<string>): seq<string> {
    if xs == [] then [] else (if Blank(xs[0]) then [] else [xs[0]]) + NonBlank(xs[1..])
  }

  /** The entries of a PATH string that the code looks at. */
  function Entries(path: string): seq<string> {
    NonBlank(Split(';', path))
  }

  function Join(xs: seq<string>): string {
    if xs == [] then "" else if |xs| == 1 then xs[0] else xs[0] + ";" + Join(xs[1..])
  }

  predicate IsBin(h: Host, entry: string) {
    Same(h, Normalize(h, entry), Normalize(h, h.bin))
  }

  predicate ContainsBin(h: Host, path: string) {
    exists e | e in Entries(path) :: IsBin(h, e)
  }

  function WithoutBin(h: Host, xs: seq<string>): seq<string> {
    if xs == [] then []
    else WithoutBin(h, xs[..|xs| - 1]) + if IsBin(h, xs[|xs| - 1]) then [] else [xs[|xs| - 1]]
  }

  function AddEntry(h: Host, path: string): string {
    if ContainsBin(h, path) then path else if Blank(path) then h.bin else path + ";" + h.bin
  }

  function RemoveEntry(h: Host, path: string): string {
    Join(WithoutBin(h, Entries(path)))
  }

  // --- Looking up the present registration ----------------------------------

  /** The first PATH entry that is a checkout. */
  function FirstHome(h: Host, entries: seq<string>): Option<string> {
    if entries == [] then None
    else
      var n := Normalize(h, entries[0]);
      if !Blank(n) && h.isCheckout(n) then Some(n) else FirstHome(h, entries[1..])
  }

  function EffectiveHome(h: Host, e: Env): string {
    if !Blank(e.userHome) then e.userHome
    else if !Blank(e.machineHome) then e.machineHome
    else match FirstHome(h, Entries(e.userPath) + Entries(e.machinePath))
         case Some(n) => n
         case None => ""
  }

  function Owner(h: Host, e: Env): string {
    Normalize(h, EffectiveHome(h, e))
  }

  datatype Registration = Registration(
    home: string, userHome: string, processHome: string,
    userPathHasBin: bool, shimExists: bool, shimOwned: bool, isDifferentHome: bool)

  function Existing(h: Host, e: Env, root: string): Registration {
    var home := Owner(h, e);
    Registration(
      home, Normalize(h, e.userHome), Normalize(h, e.processHome), ContainsBin(h, e.userPath),
      e.shim != NoShim, e.shim == AdpShim, !Blank(home) && !Same(h, home, Normalize(h, root)))
  }

  // --- The two decisions ----------------------------------------------------

  datatype Decision = RequiresConfirmation | KeepExisting | Register(replaced: bool)

  function RegistrationDecision(x: Registration, nonInteractive: bool, force: bool, accepted: Option<bool>): Decision {
    if x.isDifferentHome && !force && !nonInteractive && accepted == None then RequiresConfirmation
    else if x.isDifferentHome && !force && (nonInteractive || accepted != Some(true)) then KeepExisting
    else Register(x.isDifferentHome)
  }

  datatype Effect = RemoveShim | RemoveUserPath | RemoveUserHome | RemoveProcessHome

  datatype UninstallDecision = NonAdpShim | DifferentHome | Uninstall(effects: set<Effect>)

  /** `root` is the resolved project root; `full` what GetFullPath makes of it once more. */
  function DecideUninstall(h: Host, x: Registration, full: string, force: bool): UninstallDecision {
    var root := Normalize(h, full);
    var home := Normalize(h, x.home);
    if x.shimExists && !x.shimOwned then NonAdpShim
    else if !Blank(home) && !Same(h, home, root) && !force then DifferentHome
    else
      var user := Normalize(h, x.userHome);
      var process := Normalize(h, x.processHome);
      Uninstall(
        (if x.shimExists && x.shimOwned then {RemoveShim} else {})
        + (if x.userPathHasBin then {RemoveUserPath} else {})
        + (if !Blank(user) && (force || Same(h, user, root)) then {RemoveUserHome} else {})
        + (if !Blank(process) && (force || Same(h, process, root)) then {RemoveProcessHome} else {}))
  }

  // --- Install and uninstall ------------------------------------------------

  datatype Outcome = Threw | Skipped | Registered | Removed

  /** `answer`: the reply to the replacement prompt, when it is asked. */
  function Installed(h: Host, e: Env, root: string, nonInteractive: bool, force: bool, answer: bool): (Env, Outcome) {
    match h.fullPath(root)
    case None => (e, Threw)
    case Some(full) =>
      if !h.hasRepoCommand(full) then (e, Threw)
      else
        var x := Existing(h, e, full);
        var asked := RegistrationDecision(x, nonInteractive, force, None);
        var d :=
          if asked.RequiresConfirmation? then RegistrationDecision(x, nonInteractive, force, Some(answer)) else asked;
        if d.KeepExisting? then (e, Skipped)
        else
          (e.(shim := AdpShim, binExists := true, userHome := full, processHome := full,
              userPath := AddEntry(h, e.userPath), processPath := AddEntry(h, e.processPath)), Registered)
  }

  function CleansHome(h: Host, home: string, full: string, force: bool): bool {
    !Blank(Normalize(h, home)) && (force || Same(h, Normalize(h, home), Normalize(h, full)))
  }

  function Uninstalled(h: Host, e: Env, root: string, force: bool): (Env, Outcome) {
    match h.fullPath(root)
    case None => (e, Threw)
    case Some(full) =>
      match h.fullPath(full)
      case None => (e, Threw)
      case Some(again) =>
        if !DecideUninstall(h, Existing(h, e, full), again, force).Uninstall? || e.shim == ForeignFile then (e, Threw)
        else
          (e.(shim := NoShim,
              userPath := RemoveEntry(h, e.userPath), processPath := RemoveEntry(h, e.processPath),
              userHome := if CleansHome(h, e.userHome, full, force) then "" else e.userHome,
              processHome := if CleansHome(h, e.processHome, full, force) then "" else e.processHome,
              binExists := e.binExists && e.otherFiles), Removed)
  }

  // --- The same, changing a computer in place -------------------------------

  class Computer {
    const host: Host
    var env: Env

    constructor (host: Host, env: Env)
      ensures this.host == host && this.env == env
    {
      this.host := host;
      this.env := env;
    }

    method AddPathEntry()
      modifies this
      ensures env == old(env).(userPath := AddEntry(host, old(env).userPath),
                               processPath := AddEntry(host, old(env).processPath))
    {
      if !ContainsBin(host, env.userPath) {
        env := env.(userPath := if Blank(env.userPath) then host.bin else env.userPath + ";" + host.bin);
      }
      if !ContainsBin(host, env.processPath) {
        env := env.(processPath := if Blank(env.processPath) then host.bin else env.processPath + ";" + host.bin);
      }
    }

    /** The loop both halves of Remove-ADPOSPathEntry run. */
    method Keep(path: string) returns (kept: seq<string>)
      ensures kept == WithoutBin(host, Entries(path))
    {
      kept := [];
      var entries := Entries(path);
      for i := 0 to |entries|
        invariant kept == WithoutBin(host, entries[..i])
      {
        assert entries[..i + 1][..i] == entries[..i];
        if !IsBin(host, entries[i]) {
          kept := kept + [entries[i]];
        }
      }
      assert entries[..|entries|] == entries;
    }

    method RemovePathEntry()
      modifies this
      ensures env == old(env).(userPath := RemoveEntry(host, old(env).userPath),
                               processPath := RemoveEntry(host, old(env).processPath))
    {
      var kept := Keep(env.userPath);
      env := env.(userPath := Join(kept));
      kept := Keep(env.processPath);
      env := env.(processPath := Join(kept));
    }

    method Install(root: string, nonInteractive: bool, force: bool, answer: bool) returns (o: Outcome)
      modifies this
      ensures (env, o) == Installed(host, old(env), root, nonInteractive, force, answer)
    {
      var full := host.fullPath(root);
      if full.None? || !host.hasRepoCommand(full.value) {
        return Threw;
      }
      var existing := Existing(host, env, full.value);
      var decision := RegistrationDecision(existing, nonInteractive, force, None);
      if decision.RequiresConfirmation? {
        decision := RegistrationDecision(existing, nonInteractive, force, Some(answer));
      }
      if decision.KeepExisting? {
        return Skipped;
      }
      env := env.(binExists := true);
      env := env.(shim := AdpShim);
      env := env.(userHome := full.value);
      env := env.(processHome := full.value);
      AddPathEntry();
      return Registered;
    }

    method UninstallRegistration(root: string, force: bool) returns (o: Outcome)
      modifies this
      ensures (env, o) == Uninstalled(host, old(env), root, force)
    {
      var full := host.fullPath(root);
      if full.None? {
        return Threw;
      }
      var again := host.fullPath(full.value);
      if again.None? {
        return Threw;
      }
      var decision := DecideUninstall(host, Existing(host, env, full.value), again.value, force);
      if !decision.Uninstall? {
        return Threw;
      }
      if env.shim != NoShim {
        if env.shim == AdpShim {
          env := env.(shim := NoShim);
        } else {
          return Threw;
        }
      }
      RemovePathEntry();
      if CleansHome(host, env.userHome, full.value, force) {
        env := env.(userHome := "");
      }
      if CleansHome(host, env.processHome, full.value, force) {
        env := env.(processHome := "");
      }
      if env.binExists && !env.otherFiles {
        env := env.(binExists := false);
      }
      return Removed;
    }
  }
}
