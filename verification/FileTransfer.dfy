/**
 * File transfer through shell commands (extensions/deer_flow/sandbox.py:58-73,
 * 103-115, 212-219). A command is text; the remote machine reads it as the shell
 * does, runs it on its files, and answers text. `disk` and `stdin` are the machine's
 * own: how the file behaves and what is on the command's standard input. Text content
 * stands as its UTF-8 bytes.
 */
module FileTransfer {
  import opened Basics
  import opened Base64
  import opened Shell

  type Files = map<string, seq<byte>>

  // --- Commands -------------------------------------------------------------

  /** echo ENCODED | base64 -d > PATH */
  function UploadCommand(path: string, content: seq<byte>, append: bool): string {
    Spaced(["echo", Quote(Encode(content)), "|", "base64", "-d", if append then ">>" else ">", Quote(path)])
  }

  /** base64 -- PATH 2>/dev/null */
  function DownloadCommand(path: string): string {
    Spaced(["base64", "--", Quote(path), NO_ERRORS])
  }

  // --- The remote machine ---------------------------------------------------

  /** The files, and which of them a path leads to: several paths may lead to one file. */
  datatype Machine = Machine(names: string -> string, files: Files)

  /** How a file behaves: it opens and works, it cannot be opened, or it fails after `kept` bytes. */
  datatype Disk = Works | Refuses | Breaks(kept: nat)

  datatype Reply = Reply(vm: Machine, stdout: string, exitCode: int)

  function FileAt(vm: Machine, path: string): Option<seq<byte>> {
    if vm.names(path) in vm.files then Some(vm.files[vm.names(path)]) else None
  }

  function Existing(vm: Machine, path: string): seq<byte> {
    if FileAt(vm, path).Some? then FileAt(vm, path).value else []
  }

  function Put(vm: Machine, path: string, bs: seq<byte>): Machine {
    vm.(files := vm.files[vm.names(path) := bs])
  }

  function Upto(n: nat, bs: seq<byte>): seq<byte> {
    if n < |bs| then bs[..n] else bs
  }

  /** The shell opens, and without append empties, the file before base64 -d writes to it. */
  function Written(vm: Machine, path: string, append: bool, bs: seq<byte>, disk: Disk): Machine {
    var before := if append then Existing(vm, path) else [];
    match disk
    case Works => Put(vm, path, before + bs)
    case Refuses => vm
    case Breaks(kept) => Put(vm, path, before + Upto(kept, bs))
  }

  /** What the operand of base64 names: "-" is standard input, also after "--". */
  function Source(vm: Machine, operand: string, stdin: seq<byte>): Option<seq<byte>> {
    if operand == "-" then Some(stdin) else FileAt(vm, operand)
  }

  /** echo TEXT | base64 -d > PATH, the same with >>, and base64 -- PATH 2>/dev/null. */
  function RunTokens(vm: Machine, ts: seq<Token>, stdin: seq<byte>, disk: Disk): Reply {
    if |ts| == 7 && ts[0] == Word("echo") && ts[1].Word? && ts[2..5] == [Pipe, Word("base64"), Word("-d")]
       && (ts[5] == Write || ts[5] == Append) && ts[6].Word?
    then
      match Decode(DropLineEnds(ts[1].text + "\n"))
      case Some(bs) => Reply(Written(vm, ts[6].text, ts[5] == Append, bs, disk), "", if disk.Works? then 0 else 1)
      case None => Reply(Written(vm, ts[6].text, ts[5] == Append, [], disk), "", 1)
    else if |ts| == 4 && ts[..2] == [Word("base64"), Word("--")] && ts[2].Word? && ts[3] == DiscardErrors
    then
      match Source(vm, ts[2].text, stdin)
      case None => Reply(vm, "", 1)
      case Some(bs) =>
        match disk
        case Works => Reply(vm, Wrap(Encode(bs)), 0)
        case Refuses => Reply(vm, "", 1)
        case Breaks(kept) => Reply(vm, Wrap(Encode(Upto(kept, bs))), 1)
    else Reply(vm, "", 127)
  }

  function RunCommand(vm: Machine, command: string, stdin: seq<byte>, disk: Disk): Reply {
    match Tokens(command)
    case None => Reply(vm, "", 2)
    case Some(ts) => RunTokens(vm, ts, stdin, disk)
  }

  // --- The commands read back as meant --------------------------------------

  lemma UploadTokens(path: string, content: seq<byte>, append: bool)
    ensures Tokens(UploadCommand(path, content, append))
            == Some([Word("echo"), Word(Encode(content)), Pipe, Word("base64"), Word("-d"),
                     if append then Append else Write, Word(path)])
  {
    var ps := [Literal("echo"), Quoted(Encode(content)), Bar, Literal("base64"), Literal("-d"),
               if append then AtEnd else Over, Quoted(path)];
    SpacedTokens(ps);
    assert Texts(ps) == ["echo", Quote(Encode(content)), "|", "base64", "-d",
                         if append then ">>" else ">", Quote(path)];
    assert Meanings(ps) == [Word("echo"), Word(Encode(content)), Pipe, Word("base64"), Word("-d"),
                            if append then Append else Write, Word(path)];
  }

  lemma DownloadTokens(path: string)
    ensures Tokens(DownloadCommand(path)) == Some([Word("base64"), Word("--"), Word(path), DiscardErrors])
  {
    var ps := [Literal("base64"), Literal("--"), Quoted(path), NoErrors];
    SpacedTokens(ps);
    assert Texts(ps) == ["base64", "--", Quote(path), NO_ERRORS];
    assert Meanings(ps) == [Word("base64"), Word("--"), Word(path), DiscardErrors];
  }

  lemma EchoedDecodes(content: seq<byte>)
    ensures Decode(DropLineEnds(Encode(content) + "\n")) == Some(content)
  {
    var text := Encode(content);
    EncodeIsSafe(content);
    DropLine(text, "");
    assert text + "\n" + "" == text + "\n" && text + "" == text;
    DecodeEncode(content);
  }

  /** What an upload command does to the files, for every path and every content. */
  lemma UploadRuns(vm: Machine, path: string, content: seq<byte>, append: bool, stdin: seq<byte>, disk: Disk)
    ensures RunCommand(vm, UploadCommand(path, content, append), stdin, disk)
            == Reply(Written(vm, path, append, content, disk), "", if disk.Works? then 0 else 1)
  {
    UploadTokens(path, content, append);
    EchoedDecodes(content);
  }

  // --- The client side ------------------------------------------------------

  /** download_file's reading of a reply. */
  function ReadBack(stdout: string, exitCode: int): Result<seq<byte>> {
    if exitCode != 0 then Err("Cannot download file")
    else
      var text := Strip(DropLineEnds(stdout));
      if text == "" then Ok([])
      else match LenientDecode(text)
           case Some(bs) => Ok(bs)
           case None => Err("Failed to decode base64")
  }

  function Downloaded(vm: Machine, path: string, stdin: seq<byte>, disk: Disk): Result<seq<byte>> {
    var reply := RunCommand(vm, DownloadCommand(path), stdin, disk);
    ReadBack(reply.stdout, reply.exitCode)
  }

  lemma SafeHasNoSpace(text: string)
    requires forall c | c in text :: SafeText(c)
    ensures Strip(text) == text
  {
    if text != "" {
      assert text[0] in text && text[|text| - 1] in text;
    }
    StripNothing(text);
  }

  lemma ListedReadsBack(content: seq<byte>)
    ensures ReadBack(Wrap(Encode(content)), 0) == Ok(content)
  {
    var text := Encode(content);
    EncodeIsSafe(content);
    UnwrapWrap(text);
    SafeHasNoSpace(text);
    SiftSafe(text);
    DecodeEncode(content);
  }

  lemma DownloadRuns(vm: Machine, path: string, stdin: seq<byte>, disk: Disk)
    ensures Downloaded(vm, path, stdin, disk)
            == if disk.Works? && Source(vm, path, stdin).Some? then Ok(Source(vm, path, stdin).value)
               else Err("Cannot download file")
  {
    DownloadTokens(path);
    if disk.Works? && Source(vm, path, stdin).Some? {
      ListedReadsBack(Source(vm, path, stdin).value);
    }
  }

  /**
   * Bytes that went up come back, through base64, shell quoting, decoding on the
   * machine, 76-column wrapping and decoding here, by every path to the file but "-";
   * what other paths lead to stays as it was.
   */
  lemma UploadThenDownloadIff(
    vm: Machine, path: string, content: seq<byte>, disk: Disk, other: string, stdin: seq<byte>)
    ensures var up := RunCommand(vm, UploadCommand(path, content, false), stdin, disk);
            && (up.exitCode == 0 <==> disk.Works?)
            && (up.exitCode == 0 && vm.names(other) == vm.names(path) ==>
                  (Downloaded(up.vm, other, stdin, Works) == Ok(content) <==> other != "-" || stdin == content))
            && (vm.names(other) != vm.names(path) || other == "-" || disk.Refuses? ==>
                  Downloaded(up.vm, other, stdin, Works) == Downloaded(vm, other, stdin, Works))
  {
    UploadRuns(vm, path, content, false, stdin, disk);
    var up := RunCommand(vm, UploadCommand(path, content, false), stdin, disk);
    DownloadRuns(up.vm, other, stdin, Works);
    DownloadRuns(vm, other, stdin, Works);
    assert [] + content == content;
  }

  /** Whatever is uploaded to "-", downloading "-" answers standard input, so some contents do not come back. */
  lemma DashIsStandardInput(vm: Machine, content: seq<byte>, stdin: seq<byte>)
    ensures var up := RunCommand(vm, UploadCommand("-", content, false), stdin, Works);
            && up.exitCode == 0
            && FileAt(up.vm, "-") == Some(content)
            && Downloaded(up.vm, "-", stdin, Works) == Ok(stdin)
            && Downloaded(up.vm, "-", content + [0], Works) != Ok(content)
  {
    UploadRuns(vm, "-", content, false, stdin, Works);
    var up := RunCommand(vm, UploadCommand("-", content, false), stdin, Works);
    DownloadRuns(up.vm, "-", stdin, Works);
    DownloadRuns(up.vm, "-", content + [0], Works);
    assert [] + content == content;
  }

  lemma AppendOnto(vm: Machine, p: string, q: string, a: seq<byte>, b: seq<byte>)
    requires vm.names(p) == vm.names(q)
    ensures Written(vm, p, false, a, Works) == Put(vm, p, a)
    ensures Written(Put(vm, p, a), q, true, b, Works) == Put(vm, p, a + b)
  {
    assert [] + a == a;
    assert vm.files[vm.names(p) := a][vm.names(q) := a + b] == vm.files[vm.names(p) := a + b];
  }

  /** Writing and then appending leaves the concatenation, by whatever paths to one file. */
  lemma WriteThenAppend(vm: Machine, p: string, q: string, r: string, a: seq<byte>, b: seq<byte>, stdin: seq<byte>)
    requires vm.names(p) == vm.names(q) == vm.names(r)
    ensures var first := RunCommand(vm, UploadCommand(p, a, false), stdin, Works);
            var second := RunCommand(first.vm, UploadCommand(q, b, true), stdin, Works);
            && second.exitCode == 0 && second.vm == Put(vm, p, a + b)
            && (Downloaded(second.vm, r, stdin, Works) == Ok(a + b) <==> r != "-" || stdin == a + b)
  {
    AppendOnto(vm, p, q, a, b);
    UploadRuns(vm, p, a, false, stdin, Works);
    UploadRuns(Put(vm, p, a), q, b, true, stdin, Works);
    DownloadRuns(Put(vm, p, a + b), r, stdin, Works);
  }

  /** An append that breaks off keeps what was there; an overwrite that breaks off has lost it. */
  lemma BrokenWriteKeepsIff(vm: Machine, path: string, content: seq<byte>, append: bool, kept: nat, stdin: seq<byte>)
    ensures var up := RunCommand(vm, UploadCommand(path, content, append), stdin, Breaks(kept));
            && up.exitCode != 0
            && (Existing(vm, path) <= Existing(up.vm, path) <==> append || Existing(vm, path) <= Upto(kept, content))
  {
    UploadRuns(vm, path, content, append, stdin, Breaks(kept));
    assert [] + Upto(kept, content) == Upto(kept, content);
  }

  // --- The sandbox ----------------------------------------------------------

  class Remote {
    const names: string -> string
    var files: Files

    constructor (names: string -> string, files: Files)
      ensures this.names == names && this.files == files
    {
      this.names := names;
      this.files := files;
    }

    function View(): Machine
      reads this
    {
      Machine(names, files)
    }

    method Exec(command: string, stdin: seq<byte>, disk: Disk) returns (stdout: string, exitCode: int)
      modifies this
      ensures Reply(View(), stdout, exitCode) == RunCommand(old(View()), command, stdin, disk)
    {
      var reply := RunCommand(View(), command, stdin, disk);
      NamesStay(View(), command, stdin, disk);
      files := reply.vm.files;
      return reply.stdout, reply.exitCode;
    }
  }

  lemma NamesStay(vm: Machine, command: string, stdin: seq<byte>, disk: Disk)
    ensures RunCommand(vm, command, stdin, disk).vm.names == vm.names
  {
  }

  class ADPSSHSandbox {
    const ssh: Remote

    constructor (ssh: Remote)
      ensures this.ssh == ssh
    {
      this.ssh := ssh;
    }

    method WriteFile(path: string, content: seq<byte>, append: bool, stdin: seq<byte>, disk: Disk)
      returns (r: Result<()>)
      modifies ssh
      ensures r.Ok? <==> disk.Works?
      ensures ssh.View() == Written(old(ssh.View()), path, append, content, disk)
    {
      var encoded := Encode(content);
      var redirect := if append then ">>" else ">";
      var command := Spaced(["echo", Quote(encoded), "|", "base64", "-d", redirect, Quote(path)]);
      UploadRuns(ssh.View(), path, content, append, stdin, disk);
      var stdout, exitCode := ssh.Exec(command, stdin, disk);
      if exitCode != 0 {
        return Err("Cannot write file");
      }
      return Ok(());
    }

    method UpdateFile(path: string, content: seq<byte>, stdin: seq<byte>, disk: Disk) returns (r: Result<()>)
      modifies ssh
      ensures r.Ok? <==> disk.Works?
      ensures r.Ok? ==> ssh.View() == Put(old(ssh.View()), path, content)
      ensures ssh.View() == Written(old(ssh.View()), path, false, content, disk)
    {
      var command := Spaced(["echo", Quote(Encode(content)), "|", "base64", "-d", ">", Quote(path)]);
      assert [] + content == content;
      UploadRuns(ssh.View(), path, content, false, stdin, disk);
      var stdout, exitCode := ssh.Exec(command, stdin, disk);
      if exitCode != 0 {
        return Err("Cannot update file");
      }
      return Ok(());
    }

    method DownloadFile(path: string, stdin: seq<byte>, disk: Disk) returns (r: Result<seq<byte>>)
      modifies ssh
      ensures r == if disk.Works? && Source(old(ssh.View()), path, stdin).Some?
                   then Ok(Source(old(ssh.View()), path, stdin).value) else Err("Cannot download file")
      ensures ssh.files == old(ssh.files)
    {
      DownloadRuns(ssh.View(), path, stdin, disk);
      DownloadTokens(path);
      var stdout, exitCode := ssh.Exec(Spaced(["base64", "--", Quote(path), NO_ERRORS]), stdin, disk);
      if exitCode != 0 {
        return Err("Cannot download file");
      }
      var text := Strip(DropLineEnds(stdout));
      if text == "" {
        return Ok([]);
      }
      var decoded := LenientDecode(text);
      if decoded.None? {
        return Err("Failed to decode base64");
      }
      return Ok(decoded.value);
    }
  }
}
