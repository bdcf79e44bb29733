/** The cron-expression gate the settings page relies on, and the fallback description. */
module CronUtils {
  import opened Text
  import opened Json
  import opened Wrappers

  /** `is_valid_cron(expr)`: a string with exactly five whitespace-separated fields, the
    * layout of a crontab line in the POSIX `crontab` utility (IEEE Std 1003.1). A value
    * without `split` (a number, a boolean, null, a list, an object) is rejected. */
  predicate IsValidCron(expr: Value) {
    expr.Str? && |Split(expr.s)| == 5
  }

  /** Whitespace before, after and between fields does not change the verdict. */
  lemma WhitespaceInsensitive(pre: string, s: string, post: string)
    requires AllSpace(pre) && AllSpace(post)
    ensures IsValidCron(Str(pre + s + post)) <==> IsValidCron(Str(s))
  {
    SplitIgnoresTrailingSpace(pre + s, post);
    SplitIgnoresLeadingSpace(pre, s);
  }

  lemma RunsCollapse(a: string, run: string, b: string)
    requires run != [] && AllSpace(run)
    ensures IsValidCron(Str(a + run + b)) <==> IsValidCron(Str(a + " " + b))
  {
    SplitCollapsesRuns(a, run, b);
  }

  /** Field contents are never looked at: any five words joined by spaces pass, and a
    * different number of words fails. */
  lemma AnyFiveWords(ws: seq<string>)
    requires forall k :: 0 <= k < |ws| ==> ws[k] != [] && NoSpace(ws[k])
    ensures IsValidCron(Str(JoinSpaced(ws))) <==> |ws| == 5
  {
    SplitJoinSpaced(ws);
  }

  /** "a b c d e" passes although no field is a cron field. */
  lemma FiveLettersPass()
    ensures IsValidCron(Str("a b c d e"))
  {
    var ws := ["a", "b", "c", "d", "e"];
    assert JoinSpaced(ws[4..]) == "e";
    assert JoinSpaced(ws[3..]) == "d e";
    assert JoinSpaced(ws[2..]) == "c d e";
    assert JoinSpaced(ws[1..]) == "b c d e";
    assert JoinSpaced(ws) == "a b c d e";
    AnyFiveWords(ws);
  }

  /** "* * *" has three fields and fails. */
  lemma ThreeStarsFail()
    ensures !IsValidCron(Str("* * *"))
  {
    var ws := ["*", "*", "*"];
    assert JoinSpaced(ws[2..]) == "*";
    assert JoinSpaced(ws[1..]) == "* *";
    assert JoinSpaced(ws) == "* * *";
    AnyFiveWords(ws);
  }

  /** The three schedules of the default configuration pass. */
  lemma DefaultsPass()
    ensures IsValidCron(Str("0 3 * * *")) && IsValidCron(Str("0 4 * * *")) && IsValidCron(Str("0 5 * * *"))
  {
    DailyAtPasses('3');
    DailyAtPasses('4');
    DailyAtPasses('5');
  }

  /** A daily schedule at minute 0 of any one-character hour passes. */
  lemma DailyAtPasses(h: char)
    requires !IsSpace(h)
    ensures IsValidCron(Str(['0', ' ', h, ' ', '*', ' ', '*', ' ', '*']))
  {
    var tail := ["*", "*", "*"];
    assert JoinSpaced(tail[2..]) == "*";
    assert JoinSpaced(tail[1..]) == "* *";
    assert JoinSpaced(tail) == "* * *";
    var ws := ["0", [h]] + tail;
    assert ws[2..] == tail && ws[1..] == [[h]] + tail;
    assert JoinSpaced(ws[1..]) == [h] + " " + "* * *";
    assert JoinSpaced(ws) == ['0', ' ', h, ' ', '*', ' ', '*', ' ', '*'];
    AnyFiveWords(ws);
  }

  /** `describe_cron(expr)`: the library's description, or `"Cron: " + expr` when the
    * library fails (`described` is `None`). */
  function DescribeCron(expr: string, described: Option<string>): (r: string)
    ensures described.None? ==> StartsWith(r, "Cron: ") && r[6..] == expr
    ensures described.Some? ==> r == described.value
  {
    match described
    case Some(d) => d
    case None => "Cron: " + expr
  }
}
