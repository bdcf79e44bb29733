/** Operating-system and container updates: the shell wrapper, the parser of the simulated
  * `apt-get` upgrade, and the command chains that stop at the first failure. What a command
  * prints and its exit code are what the `shell` parameter answers for the command text. */
module Update {
  import opened Text
  import opened Wrappers

  /** What `subprocess.run` gives for a command: its output and exit code, or the error it
    * raised. */
  datatype Proc = Ran(stdout: string, stderr: string, code: int) | Raised(err: string)

  /** The `(stdout, stderr, returncode)` triple `run_command` returns. */
  datatype CommandResult = CommandResult(out: string, err: string, code: int)

  /** `run_command(cmd)`: outputs stripped; a raised error becomes `("", message, 1)`. */
  function RunCommand(p: Proc): (r: CommandResult)
    ensures p.Raised? ==> r == CommandResult("", p.err, 1)
    ensures p.Ran? ==> r.code == p.code
  {
    match p
    case Ran(o, e, c) => CommandResult(Strip(o), Strip(e), c)
    case Raised(e) => CommandResult("", e, 1)
  }

  /** A command that raised is never taken for a success, and the output carries no
    * surrounding whitespace. */
  lemma RunCommandShape(p: Proc)
    ensures RunCommand(p).code == 0 ==> p.Ran? && p.code == 0
    ensures RunCommand(p).out != [] ==> !IsSpace(RunCommand(p).out[0]) && !IsSpace(RunCommand(p).out[|RunCommand(p).out| - 1])
  {
  }

  const AptSimulate: string := "apt-get -s upgrade"
  const AptUpdate: string := "apt-get update"
  const Unattended: string := "unattended-upgrade -v"
  const FullUpgrade: string := "apt-get update && apt-get upgrade -y"
  const DockerLookup: string := "docker ps --filter 'name=frigate' --format '{{.Image}}'"
  const DockerRestart: string := "docker restart frigate"

  /** The `"Inst "` prefix of a line that announces a package. */
  const InstPrefix: string := "Inst "

  /** The packages named by the `"Inst "` lines, in order; `None` when such a line has no
    * second field, where `line.split()[1]` raises. */
  function InstPackages(lines: seq<string>): Option<seq<string>> {
    if lines == [] then Some([]) else NextLine(InstPackages(lines[..|lines| - 1]), lines[|lines| - 1])
  }

  /** One line's effect on the packages found so far. */
  function NextLine(found: Option<seq<string>>, line: string): Option<seq<string>> {
    match found
    case None => None
    case Some(pkgs) =>
      if !StartsWith(line, InstPrefix) then Some(pkgs)
      else if |Split(line)| < 2 then None
      else Some(pkgs + [Split(line)[1]])
  }

  lemma InstPackagesPrefix(lines: seq<string>, i: nat)
    requires i < |lines|
    ensures InstPackages(lines[..i + 1]) == NextLine(InstPackages(lines[..i]), lines[i])
  {
    assert lines[..i + 1][..i] == lines[..i];
  }

  /** What `check_for_updates()` gives: `False`, the package list, or the `IndexError` that
    * escapes it. */
  datatype UpdateCheck = CheckFailed | Updates(packages: seq<string>) | Crashed

  /** The specification of `check_for_updates()` for the simulation's answer `p`. */
  function CheckSpec(p: Proc): UpdateCheck {
    var r := RunCommand(p);
    if r.code != 0 then CheckFailed
    else match InstPackages(SplitLines(r.out))
      case Some(pkgs) => Updates(pkgs)
      case None => Crashed
  }

  /** `check_for_updates()` */
  method CheckForUpdates(shell: string -> Proc) returns (result: UpdateCheck)
    ensures result == CheckSpec(shell(AptSimulate))
  {
    var r := RunCommand(shell(AptSimulate));
    if r.code != 0 {
      return CheckFailed;
    }
    var found := ParseUpgrade(SplitLines(r.out));
    if found.None? {
      return Crashed;
    }
    return Updates(found.value);
  }

  /** The loop of `check_for_updates()` over the simulation's lines. */
  method ParseUpgrade(lines: seq<string>) returns (found: Option<seq<string>>)
    ensures found == InstPackages(lines)
  {
    var updates: seq<string> := [];
    var i := 0;
    while i < |lines|
      invariant 0 <= i <= |lines|
      invariant InstPackages(lines[..i]) == Some(updates)
    {
      var line := lines[i];
      InstPackagesPrefix(lines, i);
      if StartsWith(line, InstPrefix) {
        var fields := Split(line);
        if |fields| < 2 {
          InstPackagesStaysNone(lines, i + 1);
          return None;
        }
        updates := updates + [fields[1]];
      }
      i := i + 1;
    }
    assert lines[..i] == lines;
    return Some(updates);
  }

  /** Once a line crashes the parse, no later line recovers it. */
  lemma {:induction false} InstPackagesStaysNone(lines: seq<string>, n: nat)
    requires n <= |lines| && InstPackages(lines[..n]).None?
    ensures InstPackages(lines).None?
    decreases |lines| - n
  {
    if n < |lines| {
      assert lines[..n + 1][..n] == lines[..n];
      InstPackagesStaysNone(lines, n + 1);
    } else {
      assert lines[..n] == lines;
    }
  }

  lemma SplitOfOneWord(w: string)
    requires w != [] && NoSpace(w)
    ensures Split(w) == [w]
  {
    assert !IsSpace(w[0]);
    WordWhole(w);
    assert w[|w|..] == [];
  }

  lemma SplitOfWord(w: string, rest: string)
    requires w != [] && NoSpace(w)
    requires rest == [] || IsSpace(rest[0])
    ensures Split(w + rest) == [w] + Split(rest)
  {
    SplitOfConcat(w, rest);
    SplitOfOneWord(w);
  }

  /** Two words joined by a space, then text starting at a boundary. */
  lemma SplitOfTwoWords(a: string, b: string, rest: string)
    requires a != [] && NoSpace(a) && b != [] && NoSpace(b)
    requires rest == [] || IsSpace(rest[0])
    ensures Split(a + " " + b + rest) == [a, b] + Split(rest)
  {
    var tail := " " + (b + rest);
    assert a + " " + b + rest == a + tail;
    SplitOfWord(a, tail);
    SplitOfSpacedWord(b, rest);
  }

  lemma SplitOfSpacedWord(b: string, rest: string)
    requires b != [] && NoSpace(b)
    requires rest == [] || IsSpace(rest[0])
    ensures Split(" " + (b + rest)) == [b] + Split(rest)
  {
    assert AllSpace(" ");
    SplitIgnoresLeadingSpace(" ", b + rest);
    SplitOfWord(b, rest);
  }

  /** A line `"Inst " + pkg + rest`, where `rest` is empty or starts with whitespace, names
    * exactly `pkg`. */
  lemma InstLineNamesPackage(pkg: string, rest: string)
    requires pkg != [] && NoSpace(pkg)
    requires rest == [] || IsSpace(rest[0])
    ensures StartsWith(InstPrefix + pkg + rest, InstPrefix)
    ensures |Split(InstPrefix + pkg + rest)| >= 2 && Split(InstPrefix + pkg + rest)[1] == pkg
  {
    var line := InstPrefix + pkg + rest;
    assert line[..|InstPrefix|] == InstPrefix;
    InstIsWord();
    assert line == "Inst" + " " + pkg + rest;
    SplitOfTwoWords("Inst", pkg, rest);
  }

  lemma InstIsWord()
    ensures NoSpace("Inst") && InstPrefix == "Inst" + " "
  {
  }

  /** Lines that do not start with `"Inst "` contribute nothing; an announcing line adds its
    * package at the end. */
  lemma InstPackagesStep(lines: seq<string>, pkg: string, rest: string, other: string)
    requires InstPackages(lines).Some?
    requires pkg != [] && NoSpace(pkg) && (rest == [] || IsSpace(rest[0]))
    requires !StartsWith(other, InstPrefix)
    ensures InstPackages(lines + [other]) == InstPackages(lines)
    ensures InstPackages(lines + [InstPrefix + pkg + rest]) == Some(InstPackages(lines).value + [pkg])
  {
    assert (lines + [other])[..|lines|] == lines;
    assert (lines + [InstPrefix + pkg + rest])[..|lines|] == lines;
    InstLineNamesPackage(pkg, rest);
  }

  /** The outcome of a command chain and the commands it ran, in order. */
  datatype Chain = Chain(ok: bool, ran: seq<string>)

  /** `run_security_updates()` */
  function SecurityUpdates(shell: string -> Proc): Chain {
    if RunCommand(shell(AptUpdate)).code != 0 then Chain(false, [AptUpdate])
    else Chain(RunCommand(shell(Unattended)).code == 0, [AptUpdate, Unattended])
  }

  /** `run_full_update()` */
  function FullUpdate(shell: string -> Proc): Chain {
    Chain(RunCommand(shell(FullUpgrade)).code == 0, [FullUpgrade])
  }

  /** `update_frigate()` */
  function UpdateFrigate(shell: string -> Proc): Chain {
    var lookup := RunCommand(shell(DockerLookup));
    if lookup.code != 0 || lookup.out == "" then Chain(false, [DockerLookup])
    else
      var pull := "docker pull " + Strip(lookup.out);
      if RunCommand(shell(pull)).code != 0 then Chain(false, [DockerLookup, pull])
      else Chain(RunCommand(shell(DockerRestart)).code == 0, [DockerLookup, pull, DockerRestart])
  }

  /** The security chain succeeds exactly when both steps exit 0; the upgrade runs only
    * after the package lists were updated. */
  lemma SecurityChain(shell: string -> Proc)
    ensures SecurityUpdates(shell).ok <==>
      RunCommand(shell(AptUpdate)).code == 0 && RunCommand(shell(Unattended)).code == 0
    ensures Unattended in SecurityUpdates(shell).ran <==> RunCommand(shell(AptUpdate)).code == 0
  {
    assert Unattended != AptUpdate by { assert Unattended[0] != AptUpdate[0]; }
  }

  /** The full update succeeds exactly when its one command exits 0. */
  lemma FullChain(shell: string -> Proc)
    ensures FullUpdate(shell).ok <==> RunCommand(shell(FullUpgrade)).code == 0
    ensures FullUpdate(shell).ran == [FullUpgrade]
  {
  }

  /** The output `run_command` returns is already stripped. */
  lemma RunCommandOutStripped(p: Proc)
    ensures Strip(RunCommand(p).out) == RunCommand(p).out
  {
    if p.Ran? {
      StripIdempotent(p.stdout);
    } else {
      assert TrimStart("") == "";
    }
  }

  /** The container update succeeds exactly when the lookup prints an image and the pull of
    * that image and the restart exit 0. */
  lemma FrigateChain(shell: string -> Proc)
    ensures var lookup := RunCommand(shell(DockerLookup));
      var pull := "docker pull " + lookup.out;
      (UpdateFrigate(shell).ok <==>
            lookup.code == 0 && lookup.out != "" && RunCommand(shell(pull)).code == 0
            && RunCommand(shell(DockerRestart)).code == 0)
  {
    var lookup := RunCommand(shell(DockerLookup));
    if lookup.code == 0 && lookup.out != "" {
      RunCommandOutStripped(shell(DockerLookup));
    }
  }

  /** The container update runs its steps in order and none after a failed one. */
  lemma FrigateSteps(shell: string -> Proc)
    ensures var lookup := RunCommand(shell(DockerLookup));
      var ran := UpdateFrigate(shell).ran;
      var steps := [DockerLookup, "docker pull " + lookup.out, DockerRestart];
      && 1 <= |ran| <= 3 && ran == steps[..|ran|]
      && (|ran| > 1 <==> lookup.code == 0 && lookup.out != "")
  {
    var lookup := RunCommand(shell(DockerLookup));
    if lookup.code == 0 && lookup.out != "" {
      RunCommandOutStripped(shell(DockerLookup));
    }
  }

  /** A chain cut short failed: the pull ran last only because it failed. */
  lemma FrigateStops(shell: string -> Proc)
    ensures var ran := UpdateFrigate(shell).ran;
      && (|ran| == 2 ==> RunCommand(shell(ran[1])).code != 0)
      && (|ran| < 3 ==> !UpdateFrigate(shell).ok)
  {
  }

  /** Stripping twice is stripping once. */
  lemma StripIdempotent(s: string)
    ensures Strip(Strip(s)) == Strip(s)
  {
    var r := Strip(s);
    if r != [] {
      assert TrimStart(r) == r;
      assert TrimEnd(r) == r;
    } else {
      assert TrimStart(r) == r;
    }
  }
}
