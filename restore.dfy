/** Restoring the configuration from a local archive or from one on Google Drive. Archive
  * extraction, Drive requests and the credentials lookup are parameters: their outcome, or
  * the text of the exception they raise. */
module Restore {
  import opened Text
  import opened Lex
  import opened Wrappers
  import Backup

  /** `_list_local_backups()`: the `.tar.gz` entries, newest name first; `[]` when the
    * directory cannot be listed. */
  function LocalListing(es: seq<string>, listOk: bool): seq<string> {
    if !listOk then [] else SortDesc(Backup.Archives(es))
  }

  /** The restore page lists exactly the archives the backup listing returns, in the
    * opposite order. */
  lemma LocalListingIsReversed(es: seq<string>)
    ensures LocalListing(es, true) == Reverse(Backup.Listing(es))
    ensures SortedDesc(LocalListing(es, true))
    ensures forall x :: x in LocalListing(es, true) <==> x in es && EndsWith(x, Backup.Suffix)
  {
    SortDescIsReversedSort(Backup.Archives(es));
    SortDescProps(Backup.Archives(es));
    assert forall x :: x in LocalListing(es, true) <==> x in multiset(LocalListing(es, true));
  }

  /** One entry of a Drive file listing. */
  datatype DriveFile = DriveFile(id: string, name: string, modifiedTime: string)

  function InsertByTime(f: DriveFile, s: seq<DriveFile>): seq<DriveFile> {
    if s == [] then [f]
    else if Le(s[0].modifiedTime, f.modifiedTime) then [f] + s
    else [s[0]] + InsertByTime(f, s[1..])
  }

  /** `sorted(files, key=modifiedTime, reverse=True)` */
  function SortByTime(s: seq<DriveFile>): seq<DriveFile> {
    if s == [] then [] else InsertByTime(s[0], SortByTime(s[1..]))
  }

  predicate NewestFirst(s: seq<DriveFile>) {
    forall i, j :: 0 <= i < j < |s| ==> Le(s[j].modifiedTime, s[i].modifiedTime)
  }

  lemma {:induction false} InsertByTimePerm(f: DriveFile, s: seq<DriveFile>)
    ensures multiset(InsertByTime(f, s)) == multiset(s) + multiset{f}
  {
    if s != [] && !Le(s[0].modifiedTime, f.modifiedTime) {
      InsertByTimePerm(f, s[1..]);
      assert s == [s[0]] + s[1..];
    }
  }

  lemma NewestFirstTail(s: seq<DriveFile>)
    requires s != [] && NewestFirst(s)
    ensures NewestFirst(s[1..])
    ensures forall x :: x in s[1..] ==> Le(x.modifiedTime, s[0].modifiedTime)
  {
    var t := s[1..];
    forall i, j | 0 <= i < j < |t| ensures Le(t[j].modifiedTime, t[i].modifiedTime) {
      assert t[i] == s[i + 1] && t[j] == s[j + 1];
    }
    forall x | x in t ensures Le(x.modifiedTime, s[0].modifiedTime) {
      var k :| 0 <= k < |t| && t[k] == x;
      assert s[k + 1] == x;
    }
  }

  /** Putting `h` in front keeps the order when it is at least as new as every element. */
  lemma NewestFirstCons(h: DriveFile, r: seq<DriveFile>)
    requires NewestFirst(r)
    requires forall x :: x in r ==> Le(x.modifiedTime, h.modifiedTime)
    ensures NewestFirst([h] + r)
  {
    var out := [h] + r;
    forall i, j | 0 <= i < j < |out| ensures Le(out[j].modifiedTime, out[i].modifiedTime) {
      assert out[j] == r[j - 1] && out[j] in r;
      if i > 0 {
        assert out[i] == r[i - 1];
      }
    }
  }

  lemma {:induction false} InsertByTimeSorted(f: DriveFile, s: seq<DriveFile>)
    requires NewestFirst(s)
    ensures NewestFirst(InsertByTime(f, s))
  {
    if s == [] {
    } else if Le(s[0].modifiedTime, f.modifiedTime) {
      NewestFirstTail(s);
      forall x | x in s ensures Le(x.modifiedTime, f.modifiedTime) {
        if x != s[0] {
          assert x in s[1..] by { assert s == [s[0]] + s[1..]; }
          LeTrans(x.modifiedTime, s[0].modifiedTime, f.modifiedTime);
        }
      }
      NewestFirstCons(f, s);
    } else {
      NewestFirstTail(s);
      InsertByTimeSorted(f, s[1..]);
      InsertByTimePerm(f, s[1..]);
      var r := InsertByTime(f, s[1..]);
      LeTotal(s[0].modifiedTime, f.modifiedTime);
      forall x | x in r ensures Le(x.modifiedTime, s[0].modifiedTime) {
        assert x in multiset(r);
        if x != f {
          assert x in multiset(s[1..]);
        }
      }
      NewestFirstCons(s[0], r);
    }
  }

  /** The Drive listing is newest first by modification time and loses no file. */
  lemma {:induction false} SortByTimeProps(s: seq<DriveFile>)
    ensures NewestFirst(SortByTime(s))
    ensures multiset(SortByTime(s)) == multiset(s)
  {
    if s != [] {
      SortByTimeProps(s[1..]);
      InsertByTimeSorted(s[0], SortByTime(s[1..]));
      InsertByTimePerm(s[0], SortByTime(s[1..]));
      assert s == [s[0]] + s[1..];
    }
  }

  function Names(fs: seq<DriveFile>): (r: seq<string>)
    ensures |r| == |fs| && forall i :: 0 <= i < |fs| ==> r[i] == fs[i].name
  {
    if fs == [] then [] else [fs[0].name] + Names(fs[1..])
  }

  /** `_list_drive_backups()`: `hasCreds` is what `get_credentials()` returns, `listing` the
    * files the query answers or `None` when a request raises. Failures give `[]`. */
  function DriveListing(hasCreds: bool, listing: Option<seq<DriveFile>>): seq<string> {
    if !hasCreds || listing.None? then [] else Names(SortByTime(listing.value))
  }

  /** `list_backups(source)`: Drive only for exactly `"gdrive"`, the local directory for
    * every other source. */
  function ListBackups(source: string, es: seq<string>, listOk: bool,
                       hasCreds: bool, listing: Option<seq<DriveFile>>): seq<string> {
    if source == "gdrive" then DriveListing(hasCreds, listing) else LocalListing(es, listOk)
  }

  lemma ListBackupsDispatch(source: string, es: seq<string>, listOk: bool,
                            hasCreds: bool, listing: Option<seq<DriveFile>>, other: Option<seq<DriveFile>>)
    ensures source != "gdrive" ==>
      ListBackups(source, es, listOk, hasCreds, listing) == ListBackups(source, es, listOk, false, other)
    ensures source == "gdrive" ==>
      ListBackups(source, es, listOk, hasCreds, listing) == ListBackups(source, [], false, hasCreds, listing)
  {
  }

  /** The `{"ok": ..., "message": ...}` answer of a restore. */
  datatype RestoreResult = RestoreResult(ok: bool, message: string)

  /** `restore_local(filename)`: `found` says whether the archive is there, `extractError`
    * is the text of the exception extraction raises, if any. */
  function RestoreLocal(filename: string, found: bool, extractError: Option<string>): (r: LocalRestore)
    ensures r.extracted == found
  {
    if !found then LocalRestore(RestoreResult(false, "Backup file not found."), false)
    else match extractError
      case None => LocalRestore(RestoreResult(true, "Restored " + filename), true)
      case Some(e) => LocalRestore(RestoreResult(false, e), true)
  }

  /** The answer of a local restore and whether extraction into the config directory was
    * attempted. */
  datatype LocalRestore = LocalRestore(result: RestoreResult, extracted: bool)

  /** A missing archive is reported without touching the config directory; success means
    * the archive was there and extracted without error, and names the archive; a failed
    * extraction reports the error's text. */
  lemma RestoreLocalOutcomes(filename: string, found: bool, extractError: Option<string>)
    ensures var r := RestoreLocal(filename, found, extractError);
      && (!found ==> r == LocalRestore(RestoreResult(false, "Backup file not found."), false))
      && (r.result.ok <==> found && extractError.None?)
      && (r.result.ok ==> r.result.message == "Restored " + filename)
      && (found && extractError.Some? ==> r.result.message == extractError.value)
  {
  }

  /** One answer of `downloader.next_chunk()`. */
  datatype Chunk = Progress | Done | ChunkError(err: string)

  /** The first chunk answer that is not `Progress`. */
  function FirstFinal(chunks: seq<Chunk>): (i: nat)
    requires exists i :: 0 <= i < |chunks| && !chunks[i].Progress?
    ensures i < |chunks| && !chunks[i].Progress?
    ensures forall j :: 0 <= j < i ==> chunks[j].Progress?
  {
    if !chunks[0].Progress? then 0
    else
      assert exists i :: 0 <= i < |chunks[1..]| && !chunks[1..][i].Progress? by {
        var i :| 0 <= i < |chunks| && !chunks[i].Progress?;
        assert chunks[1..][i - 1] == chunks[i];
      }
      1 + FirstFinal(chunks[1..])
  }

  /** Everything a Drive restore reports: the answer, the id it downloaded (if any), whether
    * extraction was attempted, and whether a temporary file was left behind. */
  datatype DriveRestore = DriveRestore(result: RestoreResult, downloaded: Option<string>,
                                       extracted: bool, leftTemp: bool)

  /** `restore_from_drive(filename)`: `matches` is what the exact-name query answers (or the
    * error it raises), `chunks` the downloader's answers, `extractError` the extraction's. */
  function DriveRestoreSpec(filename: string, hasCreds: bool, matches: Result<seq<DriveFile>>,
                            chunks: seq<Chunk>, extractError: Option<string>): DriveRestore
    requires exists i :: 0 <= i < |chunks| && !chunks[i].Progress?
  {
    if !hasCreds then DriveRestore(RestoreResult(false, "Drive not configured."), None, false, false)
    else match matches
      case Failure(e) => DriveRestore(RestoreResult(false, e), None, false, false)
      case Success(files) =>
        if files == [] then DriveRestore(RestoreResult(false, "File not found on Drive."), None, false, false)
        else
          var id := files[0].id;
          match chunks[FirstFinal(chunks)]
          case ChunkError(e) => DriveRestore(RestoreResult(false, e), Some(id), false, true)
          case _ =>
            match extractError
            case Some(e) => DriveRestore(RestoreResult(false, e), Some(id), true, true)
            case None =>
              DriveRestore(RestoreResult(true, "Restored " + filename + " from Google Drive"), Some(id), true, false)
  }

  /** The outcomes in order: no credentials, no match, then the first match is downloaded;
    * the temporary file is removed exactly when extraction succeeds, and is left behind on
    * every failure after it was created. */
  lemma DriveRestoreOutcomes(filename: string, hasCreds: bool, matches: Result<seq<DriveFile>>,
                             chunks: seq<Chunk>, extractError: Option<string>)
    requires exists i :: 0 <= i < |chunks| && !chunks[i].Progress?
    ensures var r := DriveRestoreSpec(filename, hasCreds, matches, chunks, extractError);
      && (!hasCreds ==> r.result == RestoreResult(false, "Drive not configured.") && r.downloaded.None?)
      && (hasCreds && matches == Success([]) ==> r.result == RestoreResult(false, "File not found on Drive."))
      && (r.downloaded.Some? <==> hasCreds && matches.Success? && matches.value != [])
      && (r.downloaded.Some? ==> r.downloaded.value == matches.value[0].id)
      && (r.result.ok <==> r.downloaded.Some? && r.extracted && extractError.None?)
      && (r.leftTemp <==> r.downloaded.Some? && !r.result.ok)
  {
  }

  /** The temporary files the restore leaves on disk. */
  class TempFiles {
    var left: nat

    constructor ()
      ensures left == 0
    {
      left := 0;
    }

    /** `restore_from_drive(filename)`, downloading chunk by chunk. */
    method RestoreFromDrive(filename: string, hasCreds: bool, matches: Result<seq<DriveFile>>,
                            chunks: seq<Chunk>, extractError: Option<string>)
      returns (r: RestoreResult)
      requires exists i :: 0 <= i < |chunks| && !chunks[i].Progress?
      modifies this
      ensures r == DriveRestoreSpec(filename, hasCreds, matches, chunks, extractError).result
      ensures left == old(left) + (if DriveRestoreSpec(filename, hasCreds, matches, chunks, extractError).leftTemp then 1 else 0)
    {
      if !hasCreds {
        return RestoreResult(false, "Drive not configured.");
      }
      if matches.Failure? {
        return RestoreResult(false, matches.err);
      }
      var files := matches.value;
      if files == [] {
        return RestoreResult(false, "File not found on Drive.");
      }
      left := left + 1;
      var done := false;
      var i := 0;
      ghost var last := FirstFinal(chunks);
      while !done
        invariant 0 <= i <= last + 1
        invariant done ==> i == last + 1
        invariant !done ==> i <= last
        invariant done ==> chunks[last].Done?
        invariant !done ==> forall j :: 0 <= j < i ==> chunks[j].Progress?
        decreases last + 1 - i, if done then 0 else 1
      {
        match chunks[i] {
          case ChunkError(e) =>
            return RestoreResult(false, e);
          case Done =>
            done := true;
          case Progress =>
        }
        i := i + 1;
      }
      match extractError {
        case Some(e) =>
          return RestoreResult(false, e);
        case None =>
          left := left - 1;
          return RestoreResult(true, "Restored " + filename + " from Google Drive");
      }
    }
  }
}
