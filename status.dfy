/** The dashboard's system summary, read from command output: the OS description, the
  * Frigate image tag and whether a Coral device node exists. `None` stands for a call that
  * raised. */
module Status {
  import opened Text
  import opened Wrappers
  import opened Clock
  import Update
  import Drivers

  /** `get_os_version()`: `lsb` is the output of `lsb_release -ds`, `platform` what
    * `platform.platform()` gives in the handler; the result is `None` when that raises too. */
  function OsVersion(lsb: Option<string>, platform: Option<string>): (r: Option<string>)
    ensures lsb.Some? ==> r.Some? && '"' !in r.value
    ensures lsb.None? ==> r == platform
  {
    match lsb
    case Some(out) => Some(RemoveChar(Strip(out), '"'))
    case None => platform
  }

  /** Only the quotes go: every other character of the stripped description stays. */
  lemma OsVersionKeepsText(out: string, c: char)
    requires c != '"'
    ensures c in OsVersion(Some(out), None).value <==> c in Strip(out)
  {
  }

  /** `get_frigate_version()` for the `docker ps` output (`None` when the call raised). */
  function FrigateVersion(out: Option<string>): string {
    match out
    case None => "Unknown"
    case Some(o) => if o == "" then "Not running" else Tag(Strip(o))
  }

  /** The version shown for an image reference: the text after its last colon, if any. */
  function Tag(image: string): string {
    if ':' in image then AfterLast(image, ':') else image
  }

  /** With a colon, the tag holds no colon, ends the reference and follows its last colon. */
  lemma TagAfterLastColon(image: string)
    requires ':' in image
    ensures ':' !in Tag(image) && EndsWith(image, Tag(image))
    ensures |Tag(image)| < |image| && image[|image| - |Tag(image)| - 1] == ':'
  {
    var r := AfterLast(image, ':');
    var k :| 0 <= k < |image| && image[k] == ':';
    var off := |image| - |r|;
    assert forall j :: off <= j < |image| ==> image[j] == r[j - off];
    assert k < off;
  }

  /** Empty output means not running; with a colon the text after the last colon is given;
    * without one the stripped image itself, so whitespace-only output gives `""`, not
    * "Not running". */
  lemma FrigateVersionCases(o: string)
    ensures o == "" ==> FrigateVersion(Some(o)) == "Not running"
    ensures o != "" && ':' in Strip(o) ==>
      ':' !in FrigateVersion(Some(o)) && EndsWith(Strip(o), FrigateVersion(Some(o)))
      && Strip(o)[|Strip(o)| - |FrigateVersion(Some(o))| - 1] == ':'
    ensures o != "" && ':' !in Strip(o) ==> FrigateVersion(Some(o)) == Strip(o)
    ensures o != "" && AllSpace(o) ==> FrigateVersion(Some(o)) == ""
  {
    if o != "" {
      var image := Strip(o);
      assert FrigateVersion(Some(o)) == Tag(image);
      if ':' in image {
        TagAfterLastColon(image);
      } else {
        assert Tag(image) == image;
      }
    }
  }

  /** The text after the last colon of `name:tag` is the tag, whatever colons the name has. */
  lemma {:induction false} TagOfTagged(name: string, tag: string)
    requires ':' !in tag
    ensures Tag(name + ":" + tag) == tag
    decreases |tag|
  {
    var s := name + ":" + tag;
    assert s[|name|] == ':';
    if tag == [] {
      assert s[|s| - 1] == ':';
    } else {
      var init := tag[..|tag| - 1];
      TagOfTagged(name, init);
      assert s[..|s| - 1] == name + ":" + init;
      assert s[|s| - 1] == tag[|tag| - 1];
      assert init + [tag[|tag| - 1]] == tag;
    }
  }

  /** The tag of a usual image reference is its version. */
  lemma TaggedImage()
    ensures Tag("frigate:stable") == "stable"
  {
    assert ':' !in "stable";
    TagOfTagged("frigate", "stable");
    assert "frigate" + ":" + "stable" == "frigate:stable";
  }

  /** An untagged reference through a registry with a port shows the port and the path. */
  lemma RegistryPortShown()
    ensures Tag("reg:5/f") == "5/f"
  {
    assert ':' !in "5/f";
    TagOfTagged("reg", "5/f");
    assert "reg" + ":" + "5/f" == "reg:5/f";
  }

  /** `get_coral_status()` for the listing of `/dev/apex*`. */
  function CoralStatus(out: Option<string>): (r: string)
    ensures r in {"Detected", "Not detected", "Unknown"}
    ensures r == "Unknown" <==> out.None?
  {
    match out
    case None => "Unknown"
    case Some(o) => if Strip(o) != "" then "Detected" else "Not detected"
  }

  /** The status page and the driver page agree on whether a Coral device is present. */
  lemma CoralAgreesWithDrivers(stdout: string, stderr: string, code: int, lspci: string)
    ensures CoralStatus(Some(stdout)) == "Detected" <==> Drivers.Detect(Update.Ran(stdout, stderr, code), lspci).coral
  {
  }

  /** The `system` part of the summary. */
  datatype SystemInfo = SystemInfo(os: string, frigate: string, coral: string)

  datatype Summary = Summary(timestamp: string, system: SystemInfo)

  /** `get_status_summary()` at local time `now`. */
  function StatusSummary(now: DateTime, lsb: Option<string>, platform: Option<string>,
                         docker: Option<string>, apex: Option<string>): Summary {
    match OsVersion(lsb, platform)
    case None => Summary(LogStamp(now), SystemInfo("Unknown", "Unknown", "Unknown"))
    case Some(os) => Summary(LogStamp(now), SystemInfo(os, FrigateVersion(docker), CoralStatus(apex)))
  }

  /** The summary always carries the timestamp and all three fields; only the OS lookup can
    * fail past its own handler, and then every field is "Unknown". */
  lemma SummaryShape(now: DateTime, lsb: Option<string>, platform: Option<string>,
                     docker: Option<string>, apex: Option<string>)
    ensures var s := StatusSummary(now, lsb, platform, docker, apex);
      && s.timestamp == LogStamp(now)
      && (lsb.None? && platform.None? ==> s.system == SystemInfo("Unknown", "Unknown", "Unknown"))
      && (lsb.Some? ==> s.system.frigate == FrigateVersion(docker) && s.system.coral == CoralStatus(apex)
                        && '"' !in s.system.os)
  {
  }
}
