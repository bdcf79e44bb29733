/** The manager's log: `manager.log` in slot 0 and its rotated copies `manager.log.1` ..
  * `manager.log.5` in slots 1 .. 5.  A slot that is absent from the map has no file. */
module Logger {
  import opened Clock
  import opened Wrappers

  /** `MAX_SIZE_BYTES`: rotation starts once the live log reaches 512 KiB. */
  const MaxSizeBytes: nat := 512 * 1024
  /** `MAX_BACKUPS`: the highest numbered copy that is kept. */
  const MaxBackups: nat := 5

  /** Bytes one character takes in UTF-8. */
  function Utf8Len(c: char): (n: nat)
    ensures 1 <= n <= 4
  {
    if c as int < 0x80 then 1
    else if c as int < 0x800 then 2
    else if c as int < 0x10000 then 3
    else 4
  }

  /** `os.path.getsize` of a file whose text was written with `encoding="utf-8"`. */
  function Utf8Size(s: string): nat {
    if s == [] then 0 else Utf8Len(s[0]) + Utf8Size(s[1..])
  }

  /** Sizes add up, and every character takes between one and four bytes. */
  lemma {:induction false} Utf8SizeConcat(a: string, b: string)
    ensures Utf8Size(a + b) == Utf8Size(a) + Utf8Size(b)
    ensures |a| <= Utf8Size(a) <= 4 * |a|
  {
    if a == [] {
      assert a + b == b;
    } else {
      Utf8SizeConcat(a[1..], b);
      assert (a + b)[0] == a[0] && (a + b)[1..] == a[1..] + b;
    }
  }

  /** Slot `k` after the shift: `.k-1` moved up for 1 <= k <= 5; copies above `.5` stay put. */
  predicate ShiftedHas(m: map<nat, string>, k: nat) {
    || (1 <= k <= MaxBackups && k - 1 in m)
    || (k > MaxBackups && k in m)
  }

  function ShiftedAt(m: map<nat, string>, k: nat): string
    requires ShiftedHas(m, k)
  {
    if k <= MaxBackups then m[k - 1] else m[k]
  }

  /** The directory after a full rotation: `manager.log -> .1 -> .. -> .5`, old `.5` dropped. */
  function Shift(m: map<nat, string>): map<nat, string> {
    map k | k in m.Keys + (set j | j in m.Keys :: j + 1) && ShiftedHas(m, k) :: ShiftedAt(m, k)
  }

  /** The directory as `_rotate_if_needed` leaves it. */
  function Rotated(m: map<nat, string>): map<nat, string> {
    if 0 !in m || Utf8Size(m[0]) < MaxSizeBytes then m else Shift(m)
  }

  /** No rotation while the log is absent or below the limit. */
  lemma NoRotationBelowLimit(m: map<nat, string>)
    requires 0 !in m || Utf8Size(m[0]) < MaxSizeBytes
    ensures Rotated(m) == m
  {
  }

  /** A rotation moves the live log to `.1`, shifts `.1 .. .4` up by one (absence included),
    * drops the old `.5`, and leaves no live log behind. */
  lemma RotationShifts(m: map<nat, string>)
    requires 0 in m && Utf8Size(m[0]) >= MaxSizeBytes
    ensures 0 !in Rotated(m)
    ensures 1 in Rotated(m) && Rotated(m)[1] == m[0]
    ensures forall k :: 1 <= k < MaxBackups ==>
      (k + 1 in Rotated(m) <==> k in m) && (k in m ==> Rotated(m)[k + 1] == m[k])
  {
    ShiftKey(m, 0);
    ShiftKey(m, 1);
    forall k | 1 <= k < MaxBackups
      ensures (k + 1 in Shift(m) <==> k in m) && (k in m ==> Shift(m)[k + 1] == m[k])
    {
      ShiftMovesCopy(m, k);
    }
  }

  lemma ShiftMovesCopy(m: map<nat, string>, k: nat)
    requires 1 <= k < MaxBackups
    ensures k + 1 in Shift(m) <==> k in m
    ensures k in m ==> Shift(m)[k + 1] == m[k]
  {
    ShiftKey(m, k + 1);
  }

  /** The shifted directory, slot by slot. */
  lemma ShiftKey(m: map<nat, string>, k: nat)
    ensures k in Shift(m) <==> ShiftedHas(m, k)
    ensures ShiftedHas(m, k) ==> Shift(m)[k] == ShiftedAt(m, k)
  {
    if 1 <= k <= MaxBackups && k - 1 in m {
      assert k == (k - 1) + 1;
      assert k in (set j | j in m.Keys :: j + 1);
    }
  }

  /** Only the old `.5` is lost: every other file's content survives in some slot, and no
    * slot beyond `.5` appears that was not there before. */
  lemma RotationLosesOnlyLast(m: map<nat, string>)
    ensures forall k :: k in m && k != MaxBackups ==>
      exists j :: j in Rotated(m) && Rotated(m)[j] == m[k]
    ensures forall k :: k in Rotated(m) && k > MaxBackups ==> k in m && Rotated(m)[k] == m[k]
  {
    var r := Rotated(m);
    if r != m {
      forall k | k in m && k != MaxBackups
        ensures exists j :: j in r && r[j] == m[k]
      {
        if k < MaxBackups {
          assert k + 1 in (set j | j in m.Keys :: j + 1);
          assert k + 1 in r && r[k + 1] == m[k];
        } else {
          assert k in r && r[k] == m[k];
        }
      }
    }
  }

  /** The directory while the loop of `_rotate_if_needed` stands at `i`: slots above `i`
    * are done, slot `i + 1` has been vacated, everything at or below `i` is untouched. */
  function Partial(m: map<nat, string>, i: nat): map<nat, string>
    requires i <= MaxBackups
  {
    map k | k in m.Keys + (set j | j in m.Keys :: j + 1) && PartialHas(m, i, k) :: PartialAt(m, i, k)
  }

  predicate PartialHas(m: map<nat, string>, i: nat, k: nat) {
    || (k <= i && k in m)
    || (i + 1 < k <= MaxBackups && k - 1 in m)
    || (k > MaxBackups && k in m)
  }

  function PartialAt(m: map<nat, string>, i: nat, k: nat): string
    requires PartialHas(m, i, k)
  {
    if i + 1 < k <= MaxBackups then m[k - 1] else m[k]
  }

  /** The partial directory, slot by slot. */
  lemma PartialKey(m: map<nat, string>, i: nat, k: nat)
    requires i <= MaxBackups
    ensures k in Partial(m, i) <==> PartialHas(m, i, k)
    ensures PartialHas(m, i, k) ==> Partial(m, i)[k] == PartialAt(m, i, k)
  {
    if i + 1 < k <= MaxBackups && k - 1 in m {
      assert k == (k - 1) + 1;
      assert k in (set j | j in m.Keys :: j + 1);
    }
  }

  /** What one pass of the loop does to slot `i` of directory `p`. */
  function MoveUp(p: map<nat, string>, i: nat): map<nat, string> {
    if i !in p then p else if i == MaxBackups then p - {i} else p[i + 1 := p[i]] - {i}
  }

  /** One pass of the loop takes the partial directory at `i` to the one at `i - 1`. */
  lemma PartialStep(m: map<nat, string>, i: nat)
    requires 1 <= i <= MaxBackups
    ensures MoveUp(Partial(m, i), i) == Partial(m, i - 1)
  {
    var n, q := MoveUp(Partial(m, i), i), Partial(m, i - 1);
    PartialKey(m, i, i);
    forall k: nat ensures (k in n <==> k in q) && (k in n ==> n[k] == q[k]) {
      PartialKey(m, i, k);
      PartialKey(m, i - 1, k);
    }
    assert n.Keys == q.Keys;
  }

  /** Before the loop nothing has moved. */
  lemma PartialStart(m: map<nat, string>)
    ensures Partial(m, MaxBackups) == m
  {
    var p := Partial(m, MaxBackups);
    forall k: nat ensures (k in p <==> k in m) && (k in p ==> p[k] == m[k]) {
      PartialKey(m, MaxBackups, k);
    }
    assert p.Keys == m.Keys;
  }

  /** Moving the live log to `.1` after the loop completes the shift. */
  lemma PartialFinish(m: map<nat, string>)
    requires 0 in m
    ensures 0 in Partial(m, 0) && Partial(m, 0)[1 := Partial(m, 0)[0]] - {0} == Shift(m)
  {
    var p := Partial(m, 0);
    PartialKey(m, 0, 0);
    var n, r := p[1 := p[0]] - {0}, Shift(m);
    forall k: nat ensures (k in n <==> k in r) && (k in n ==> n[k] == r[k]) {
      PartialKey(m, 0, k);
      ShiftKey(m, k);
    }
    assert n.Keys == r.Keys;
  }

  /** The log line `f"[{ts}] [{component}] {message}\n"`. */
  function FormatLine(ts: string, component: string, message: string): string {
    "[" + ts + "] [" + component + "] " + message + "\n"
  }

  /** Index of the first `c` in `s`, or `|s|`. */
  function Find(s: string, c: char): (i: nat)
    ensures i <= |s| && c !in s[..i] && (i < |s| ==> s[i] == c)
  {
    if s == [] || s[0] == c then 0 else 1 + Find(s[1..], c)
  }

  lemma {:induction false} FindAfter(a: string, c: char, b: string)
    requires c !in a
    ensures Find(a + [c] + b, c) == |a|
  {
    if a != [] {
      assert (a + [c] + b)[1..] == a[1..] + [c] + b;
      FindAfter(a[1..], c, b);
    }
  }

  datatype Entry = Entry(ts: string, component: string, message: string)

  /** Reads a log line back into its three parts. */
  function ParseLine(line: string): Option<Entry> {
    if |line| < 2 || line[0] != '[' || line[|line| - 1] != '\n' then None
    else ParseBody(line[1..|line| - 1])
  }

  /** `ts] [component] message` */
  function ParseBody(body: string): Option<Entry> {
    var i := Find(body, ']');
    if i + 3 > |body| || body[i + 1..i + 3] != " [" then None
    else
      match ParseRest(body[i + 3..])
      case None => None
      case Some(cm) => Some(Entry(body[..i], cm.0, cm.1))
  }

  /** `component] message` */
  function ParseRest(rest: string): Option<(string, string)> {
    var j := Find(rest, ']');
    if j + 2 > |rest| || rest[j + 1] != ' ' then None
    else Some((rest[..j], rest[j + 2..]))
  }

  lemma RestParse(component: string, message: string)
    requires ']' !in component
    ensures ParseRest(component + "] " + message) == Some((component, message))
  {
    var rest := component + "] " + message;
    assert rest == component + [']'] + (" " + message);
    FindAfter(component, ']', " " + message);
    assert rest[..|component|] == component;
    assert rest[|component| + 2..] == message;
  }

  lemma BodyParse(ts: string, component: string, message: string)
    requires ']' !in ts && ']' !in component
    ensures ParseBody(ts + "] [" + component + "] " + message) == Some(Entry(ts, component, message))
  {
    var body := ts + "] [" + component + "] " + message;
    var tail := component + "] " + message;
    assert body == ts + [']'] + (" [" + tail);
    FindAfter(ts, ']', " [" + tail);
    assert body[|ts| + 1..|ts| + 3] == " [";
    assert body[|ts| + 3..] == tail;
    assert body[..|ts|] == ts;
    RestParse(component, message);
  }

  /** A formatted line parses back into the stamp, component and message it was built from,
    * provided neither the stamp nor the component contains `]`. */
  lemma FormatParse(ts: string, component: string, message: string)
    requires ']' !in ts && ']' !in component
    ensures ParseLine(FormatLine(ts, component, message)) == Some(Entry(ts, component, message))
  {
    var line := FormatLine(ts, component, message);
    var body := ts + "] [" + component + "] " + message;
    assert line == "[" + body + "\n";
    assert line[1..|line| - 1] == body;
    BodyParse(ts, component, message);
  }

  /** Timestamps written to the log never contain `]`, so every line parses back. */
  lemma LogStampParses(t: DateTime, component: string, message: string)
    requires ']' !in component
    ensures ParseLine(FormatLine(LogStamp(t), component, message))
      == Some(Entry(LogStamp(t), component, message))
  {
    DigitsNoBracket(t.year, 4);
    DigitsNoBracket(t.month, 2);
    DigitsNoBracket(t.day, 2);
    DigitsNoBracket(t.hour, 2);
    DigitsNoBracket(t.minute, 2);
    DigitsNoBracket(t.second, 2);
    FormatParse(LogStamp(t), component, message);
  }

  lemma {:induction false} DigitsNoBracket(n: nat, w: nat)
    ensures ']' !in Digits(n, w)
  {
    if w > 0 { DigitsNoBracket(n / 10, w - 1); }
  }

  /** The log directory. */
  class LogDir {
    var files: map<nat, string>

    constructor (files0: map<nat, string>)
      ensures files == files0
    {
      files := files0;
    }

    /** `_rotate_if_needed` */
    method RotateIfNeeded()
      modifies this
      ensures files == Rotated(old(files))
    {
      if 0 !in files || Utf8Size(files[0]) < MaxSizeBytes {
        return;
      }
      ghost var m := files;
      var i := MaxBackups;
      PartialStart(m);
      while i > 0
        invariant 0 <= i <= MaxBackups
        invariant files == Partial(m, i)
        decreases i
      {
        PartialStep(m, i);
        if i in files {
          if i == MaxBackups {
            files := files - {i};
          } else {
            files := files[i + 1 := files[i]] - {i};
          }
        }
        i := i - 1;
      }
      PartialFinish(m);
      files := files[1 := files[0]] - {0};
    }

    /** `write_log(component, message)` at time `now`. */
    method WriteLog(now: DateTime, component: string, message: string)
      modifies this
      ensures files == Rotated(old(files))[0 := AppendedLog(Rotated(old(files)), now, component, message)]
    {
      RotateIfNeeded();
      var line := FormatLine(LogStamp(now), component, message);
      var current := if 0 in files then files[0] else "";
      files := files[0 := current + line];
    }
  }

  /** The live log's text after one append. */
  function AppendedLog(m: map<nat, string>, now: DateTime, component: string, message: string): string {
    (if 0 in m then m[0] else "") + FormatLine(LogStamp(now), component, message)
  }

  /** One write keeps what the live log held (unless it rotated) and adds exactly one line. */
  lemma AppendKeepsContent(m: map<nat, string>, now: DateTime, component: string, message: string)
    requires 0 in m && Utf8Size(m[0]) < MaxSizeBytes
    ensures AppendedLog(Rotated(m), now, component, message)[..|m[0]|] == m[0]
    ensures |AppendedLog(Rotated(m), now, component, message)| == |m[0]| + |FormatLine(LogStamp(now), component, message)|
  {
  }

  /** After a rotation the live log holds only the new line. */
  lemma AppendAfterRotation(m: map<nat, string>, now: DateTime, component: string, message: string)
    requires 0 in m && Utf8Size(m[0]) >= MaxSizeBytes
    ensures AppendedLog(Rotated(m), now, component, message) == FormatLine(LogStamp(now), component, message)
  {
    RotationShifts(m);
  }
}
