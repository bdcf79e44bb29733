/** Hardware detection and driver installation. The device listing, the `lspci` text and
  * the outcome of each command are parameters. */
module Drivers {
  import opened Text
  import Update

  const IntelPackages: seq<string> := ["intel-media-va-driver-non-free", "i965-va-driver-shaders"]
  const NvidiaPackages: seq<string> := ["nvidia-driver", "firmware-misc-nonfree"]
  const AmdPackages: seq<string> := ["firmware-amd-graphics"]
  const CoralLabel: string := "Coral TPU drivers (community installer)"

  /** The detection flags `detect_drivers()` reports; the recommended packages are the
    * constants above. */
  datatype Detection = Detection(coral: bool, intel: bool, nvidia: bool, amd: bool)

  /** `detect_drivers()`: `apex` is what listing `/dev/apex*` gave (an exception means no
    * Coral), `lspci` the `lspci` text. The GPU tests are case-sensitive substring tests. */
  function Detect(apex: Update.Proc, lspci: string): (d: Detection)
    ensures d.coral <==> apex.Ran? && Strip(apex.stdout) != ""
  {
    Detection(apex.Ran? && Strip(apex.stdout) != "",
              Contains(lspci, "Intel Corporation") && Contains(lspci, "Graphics"),
              Contains(lspci, "NVIDIA"),
              Contains(lspci, "AMD") || Contains(lspci, "ATI"))
  }

  /** An occurrence stays an occurrence inside a longer text. */
  lemma ContainsWithin(a: string, s: string, b: string, sub: string)
    requires Contains(s, sub)
    ensures Contains(a + s + b, sub)
  {
    ContainsAt(s, sub);
    var i :| OccursAt(s, sub, i);
    var t := a + s + b;
    assert t[|a| + i..|a| + i + |sub|] == s[i..i + |sub|];
    assert OccursAt(t, sub, |a| + i);
    ContainsAt(t, sub);
  }

  /** Each GPU flag is exactly the presence of its marker texts, so more `lspci` output
    * never turns a flag off. */
  lemma DetectionMonotone(apex: Update.Proc, a: string, s: string, b: string)
    ensures Detect(apex, s).intel ==> Detect(apex, a + s + b).intel
    ensures Detect(apex, s).nvidia ==> Detect(apex, a + s + b).nvidia
    ensures Detect(apex, s).amd ==> Detect(apex, a + s + b).amd
  {
    if Detect(apex, s).intel {
      ContainsWithin(a, s, b, "Intel Corporation");
      ContainsWithin(a, s, b, "Graphics");
    }
    if Detect(apex, s).nvidia {
      ContainsWithin(a, s, b, "NVIDIA");
    }
    if Contains(s, "AMD") {
      ContainsWithin(a, s, b, "AMD");
    }
    if Contains(s, "ATI") {
      ContainsWithin(a, s, b, "ATI");
    }
  }

  /** The markers are case-sensitive: a lower-case vendor name is not detected. */
  lemma LowerCaseVendorMissed()
    ensures !Detect(Update.Raised(""), "nvidia").nvidia
  {
    var s, sub := "nvidia", "NVIDIA";
    assert |s| - |sub| == 0;
    assert s[0..|sub|] != sub by { assert s[0] != sub[0]; }
    ContainsAt(s, sub);
  }

  /** `install_coral_drivers()`: the download (run with `check=True`, so a non-zero exit
    * raises), the `chmod`, and the installer run. Every exception gives `False`. */
  function InstallCoral(download: Update.Proc, chmodOk: bool, run: Update.Proc): (ok: bool)
    ensures ok <==> download.Ran? && download.code == 0 && chmodOk && run.Ran? && run.code == 0
  {
    if !download.Ran? || download.code != 0 || !chmodOk then false
    else run.Ran? && run.code == 0
  }

  /** `"apt-get install -y " + pkg` */
  function InstallCommand(pkg: string): string {
    "apt-get install -y " + pkg
  }

  predicate Installs(shell: string -> Update.Proc, pkg: string) {
    Update.RunCommand(shell(InstallCommand(pkg))).code == 0
  }

  /** The packages of a group whose install command exits 0, in order. */
  function Succeeded(pkgs: seq<string>, shell: string -> Update.Proc): seq<string> {
    if pkgs == [] then []
    else
      var rest := Succeeded(pkgs[..|pkgs| - 1], shell);
      if Installs(shell, pkgs[|pkgs| - 1]) then rest + [pkgs[|pkgs| - 1]] else rest
  }

  /** A group installs exactly its packages whose command succeeds. */
  lemma {:induction false} SucceededMembers(pkgs: seq<string>, shell: string -> Update.Proc)
    ensures forall x :: x in Succeeded(pkgs, shell) <==> x in pkgs && Installs(shell, x)
    ensures |Succeeded(pkgs, shell)| <= |pkgs|
  {
    if pkgs != [] {
      var init := pkgs[..|pkgs| - 1];
      SucceededMembers(init, shell);
      assert pkgs == init + [pkgs[|pkgs| - 1]];
    }
  }

  /** `installed` as `install_drivers()` builds it: the Coral label, then the Intel, NVIDIA
    * and AMD packages, each group only when detected. */
  function Installed(d: Detection, coralOk: bool, shell: string -> Update.Proc): seq<string> {
    (if d.coral && coralOk then [CoralLabel] else [])
    + Group(d.intel, IntelPackages, shell)
    + Group(d.nvidia, NvidiaPackages, shell)
    + Group(d.amd, AmdPackages, shell)
  }

  /** What one group contributes: nothing unless its hardware was detected. */
  function Group(detected: bool, pkgs: seq<string>, shell: string -> Update.Proc): seq<string> {
    if detected then Succeeded(pkgs, shell) else []
  }

  /** The `{"ok": ..., "installed": [...]}` answer. */
  datatype InstallResult = InstallResult(ok: bool, installed: seq<string>)

  /** A group contributes exactly its succeeding packages, and only when detected. */
  lemma GroupMembers(detected: bool, pkgs: seq<string>, shell: string -> Update.Proc, x: string)
    ensures x in Group(detected, pkgs, shell) <==> detected && x in pkgs && Installs(shell, x)
  {
    SucceededMembers(pkgs, shell);
  }

  /** The Coral label is not the name of any package. */
  lemma CoralLabelIsNoPackage()
    ensures CoralLabel !in IntelPackages && CoralLabel !in NvidiaPackages && CoralLabel !in AmdPackages
  {
    assert CoralLabel[0] == 'C';
    assert IntelPackages[0][0] == 'i' && IntelPackages[1][0] == 'i';
    assert NvidiaPackages[0][0] == 'n' && NvidiaPackages[1][0] == 'f';
    assert AmdPackages[0][0] == 'f';
  }

  /** An item is installed exactly when its group was detected and its installation
    * succeeded; the Coral label exactly when Coral was detected and its installer succeeded. */
  lemma InstalledExactly(d: Detection, coralOk: bool, shell: string -> Update.Proc, x: string)
    requires x != CoralLabel
    ensures CoralLabel in Installed(d, coralOk, shell) <==> d.coral && coralOk
    ensures x in Installed(d, coralOk, shell) <==>
      Installs(shell, x) &&
      ((d.intel && x in IntelPackages) || (d.nvidia && x in NvidiaPackages) || (d.amd && x in AmdPackages))
  {
    CoralLabelIsNoPackage();
    var c: seq<string> := if d.coral && coralOk then [CoralLabel] else [];
    var gi, gn, ga := Group(d.intel, IntelPackages, shell), Group(d.nvidia, NvidiaPackages, shell),
      Group(d.amd, AmdPackages, shell);
    assert Installed(d, coralOk, shell) == c + gi + gn + ga;
    GroupMembers(d.intel, IntelPackages, shell, x);
    GroupMembers(d.nvidia, NvidiaPackages, shell, x);
    GroupMembers(d.amd, AmdPackages, shell, x);
    GroupMembers(d.intel, IntelPackages, shell, CoralLabel);
    GroupMembers(d.nvidia, NvidiaPackages, shell, CoralLabel);
    GroupMembers(d.amd, AmdPackages, shell, CoralLabel);
  }

  /** With nothing detected nothing is attempted and the answer is `{"ok": False}`. */
  lemma NothingDetected(coralOk: bool, shell: string -> Update.Proc)
    ensures Installed(Detection(false, false, false, false), coralOk, shell) == []
  {
  }

  /** One group's loop: appends each package whose install command succeeds. */
  method InstallGroup(installed: seq<string>, pkgs: seq<string>, shell: string -> Update.Proc)
    returns (out: seq<string>)
    ensures out == installed + Succeeded(pkgs, shell)
  {
    out := installed;
    var i := 0;
    while i < |pkgs|
      invariant 0 <= i <= |pkgs|
      invariant out == installed + Succeeded(pkgs[..i], shell)
    {
      assert pkgs[..i + 1][..i] == pkgs[..i];
      var r := Update.RunCommand(shell(InstallCommand(pkgs[i])));
      if r.code == 0 {
        out := out + [pkgs[i]];
      }
      i := i + 1;
    }
    assert pkgs[..i] == pkgs;
  }

  /** A group's block: its loop runs only when the hardware was detected. */
  method InstallIf(installed: seq<string>, detected: bool, pkgs: seq<string>, shell: string -> Update.Proc)
    returns (out: seq<string>)
    ensures out == installed + Group(detected, pkgs, shell)
  {
    out := installed;
    if detected {
      out := InstallGroup(installed, pkgs, shell);
    }
  }

  /** The four blocks of `install_drivers()`, in order. */
  method Accumulate(d: Detection, coralOk: bool, shell: string -> Update.Proc) returns (installed: seq<string>)
    ensures installed == Installed(d, coralOk, shell)
  {
    installed := [];
    if d.coral && coralOk {
      installed := [CoralLabel];
    }
    installed := InstallIf(installed, d.intel, IntelPackages, shell);
    installed := InstallIf(installed, d.nvidia, NvidiaPackages, shell);
    installed := InstallIf(installed, d.amd, AmdPackages, shell);
  }

  /** `install_drivers()`: `coralOk` is what `install_coral_drivers()` returned. */
  method InstallDrivers(d: Detection, coralOk: bool, shell: string -> Update.Proc)
    returns (result: InstallResult)
    ensures result.installed == Installed(d, coralOk, shell)
    ensures result.ok <==> result.installed != []
  {
    var installed := Accumulate(d, coralOk, shell);
    if installed != [] {
      return InstallResult(true, installed);
    }
    return InstallResult(false, []);
  }
}
