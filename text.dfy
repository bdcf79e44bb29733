/** Python `str` operations the application relies on, over code points. */
module Text {

  /** What Python's `str.isspace()` accepts: the separators of `str.split()` and `str.strip()`. */
  predicate IsSpace(c: char) {
    || c == ' ' || ('\t' <= c <= '\r') || ('\U{1C}' <= c <= '\U{1F}')
    || c == '\U{85}' || c == '\U{A0}' || c == '\U{1680}' || ('\U{2000}' <= c <= '\U{200A}')
    || c == '\U{2028}' || c == '\U{2029}' || c == '\U{202F}' || c == '\U{205F}' || c == '\U{3000}'
  }

  predicate NoSpace(s: string) {
    forall i :: 0 <= i < |s| ==> !IsSpace(s[i])
  }

  predicate AllSpace(s: string) {
    forall i :: 0 <= i < |s| ==> IsSpace(s[i])
  }

  /** `s.startswith(p)` */
  predicate StartsWith(s: string, p: string) {
    |p| <= |s| && s[..|p|] == p
  }

  /** `s.endswith(p)` */
  predicate EndsWith(s: string, p: string) {
    |p| <= |s| && s[|s| - |p|..] == p
  }

  /** `sub in s`, computed by trying every start position. */
  predicate Contains(s: string, sub: string)
    decreases |s|
  {
    StartsWith(s, sub) || (s != [] && Contains(s[1..], sub))
  }

  /** `sub` occurs in `s` starting at index `i`. */
  predicate OccursAt(s: string, sub: string, i: int) {
    0 <= i <= |s| - |sub| && s[i..i + |sub|] == sub
  }

  lemma {:induction false} ContainsAt(s: string, sub: string)
    ensures Contains(s, sub) <==> exists i :: OccursAt(s, sub, i)
    decreases |s|
  {
    if StartsWith(s, sub) {
      assert OccursAt(s, sub, 0);
    }
    if s != [] {
      ContainsAt(s[1..], sub);
      if exists i :: OccursAt(s, sub, i) {
        var i :| OccursAt(s, sub, i);
        if i > 0 {
          assert s[1..][i - 1..i - 1 + |sub|] == sub;
          assert OccursAt(s[1..], sub, i - 1);
        }
      }
      if Contains(s[1..], sub) && !StartsWith(s, sub) {
        var i :| OccursAt(s[1..], sub, i);
        assert s[i + 1..i + 1 + |sub|] == sub;
        assert OccursAt(s, sub, i + 1);
      }
    } else {
      if exists i :: OccursAt(s, sub, i) {
        var i :| OccursAt(s, sub, i);
        assert sub == [];
      }
    }
  }

  /** `s.lstrip()` */
  function TrimStart(s: string): (r: string)
    ensures |r| <= |s| && r == s[|s| - |r|..]
    ensures r != [] ==> !IsSpace(r[0])
    decreases |s|
  {
    if s != [] && IsSpace(s[0]) then TrimStart(s[1..]) else s
  }

  /** `s.rstrip()` */
  function TrimEnd(s: string): (r: string)
    ensures |r| <= |s| && r == s[..|r|]
    ensures r != [] ==> !IsSpace(r[|r| - 1])
    decreases |s|
  {
    if s != [] && IsSpace(s[|s| - 1]) then TrimEnd(s[..|s| - 1]) else s
  }

  lemma {:induction false} TrimStartEmpty(s: string)
    ensures TrimStart(s) == [] <==> AllSpace(s)
    decreases |s|
  {
    if s == [] {
    } else if IsSpace(s[0]) {
      var t := s[1..];
      TrimStartEmpty(t);
      assert TrimStart(s) == TrimStart(t);
      if AllSpace(t) {
        forall i | 0 <= i < |s| ensures IsSpace(s[i]) {
          if i > 0 { assert s[i] == t[i - 1]; }
        }
      }
      if AllSpace(s) {
        forall i | 0 <= i < |t| ensures IsSpace(t[i]) {
          assert t[i] == s[i + 1];
        }
      }
    } else {
      assert TrimStart(s) == s;
      assert !AllSpace(s) by { assert !IsSpace(s[0]); }
    }
  }

  lemma {:induction false} TrimEndEmpty(s: string)
    ensures TrimEnd(s) == [] <==> AllSpace(s)
    decreases |s|
  {
    if s != [] && IsSpace(s[|s| - 1]) {
      var p := s[..|s| - 1];
      TrimEndEmpty(p);
      assert AllSpace(s) <==> AllSpace(p) by {
        if AllSpace(p) {
          forall i | 0 <= i < |s| ensures IsSpace(s[i]) {
            if i < |s| - 1 { assert s[i] == p[i]; }
          }
        }
      }
    }
  }

  lemma StripBounds(s: string)
    ensures var r := TrimEnd(TrimStart(s));
      && (r != [] ==> !IsSpace(r[0]) && !IsSpace(r[|r| - 1]))
      && (r == [] <==> AllSpace(s))
  {
    var t := TrimStart(s);
    var r := TrimEnd(t);
    TrimStartEmpty(s);
    TrimEndEmpty(t);
    assert r != [] ==> r[0] == t[0];
    assert t != [] ==> !AllSpace(t);
  }

  /** `s.strip()` */
  function Strip(s: string): (r: string)
    ensures |r| <= |s|
    ensures r != [] ==> !IsSpace(r[0]) && !IsSpace(r[|r| - 1])
    ensures r == [] <==> AllSpace(s)
  {
    StripBounds(s);
    TrimEnd(TrimStart(s))
  }

  /** The longest prefix of `s` without whitespace. */
  function Word(s: string): (w: string)
    ensures |w| <= |s| && w == s[..|w|]
    ensures s != [] && !IsSpace(s[0]) ==> w != []
    ensures NoSpace(w)
    decreases |s|
  {
    if s == [] || IsSpace(s[0]) then [] else [s[0]] + Word(s[1..])
  }

  /** `s.split()` with no separator: the maximal runs of non-whitespace characters, in order. */
  function Split(s: string): (ws: seq<string>)
    ensures forall k :: 0 <= k < |ws| ==> ws[k] != [] && NoSpace(ws[k])
    decreases |s|
  {
    if s == [] then []
    else if IsSpace(s[0]) then Split(s[1..])
    else var w := Word(s); [w] + Split(s[|w|..])
  }

  /** `" ".join(ws)` */
  function JoinSpaced(ws: seq<string>): string {
    if ws == [] then "" else if |ws| == 1 then ws[0] else ws[0] + " " + JoinSpaced(ws[1..])
  }

  lemma {:induction false} WordOfConcat(t: string, y: string)
    requires y == [] || IsSpace(y[0])
    ensures Word(t + y) == Word(t)
    decreases |t|
  {
    if t == [] {
      assert t + y == y;
    } else if !IsSpace(t[0]) {
      assert (t + y)[1..] == t[1..] + y;
      WordOfConcat(t[1..], y);
    }
  }

  lemma {:induction false} WordWhole(w: string)
    requires NoSpace(w)
    ensures Word(w) == w
    decreases |w|
  {
    if w != [] { WordWhole(w[1..]); }
  }

  /** Splitting distributes over a concatenation whose right part starts at a whitespace boundary. */
  lemma {:induction false} SplitOfConcat(x: string, y: string)
    requires y == [] || IsSpace(y[0])
    ensures Split(x + y) == Split(x) + Split(y)
    decreases |x|
  {
    if x == [] {
      assert x + y == y;
    } else if IsSpace(x[0]) {
      assert (x + y)[1..] == x[1..] + y;
      SplitOfConcat(x[1..], y);
    } else {
      var w := Word(x);
      WordOfConcat(x, y);
      assert (x + y)[|w|..] == x[|w|..] + y;
      SplitOfConcat(x[|w|..], y);
    }
  }

  /** Whitespace alone has no fields. */
  lemma {:induction false} SplitOfSpace(run: string)
    requires AllSpace(run)
    ensures Split(run) == []
    decreases |run|
  {
    if run != [] { SplitOfSpace(run[1..]); }
  }

  /** Whitespace in front of the text does not change the fields. */
  lemma {:induction false} SplitIgnoresLeadingSpace(run: string, s: string)
    requires AllSpace(run)
    ensures Split(run + s) == Split(s)
    decreases |run|
  {
    if run != [] {
      assert (run + s)[1..] == run[1..] + s;
      SplitIgnoresLeadingSpace(run[1..], s);
    } else {
      assert run + s == s;
    }
  }

  /** Whitespace after the text does not change the fields. */
  lemma SplitIgnoresTrailingSpace(s: string, run: string)
    requires AllSpace(run)
    ensures Split(s + run) == Split(s)
  {
    SplitOfConcat(s, run);
    SplitOfSpace(run);
  }

  /** A run of whitespace between two parts splits exactly like a single space. */
  lemma SplitCollapsesRuns(a: string, run: string, b: string)
    requires run != [] && AllSpace(run)
    ensures Split(a + run + b) == Split(a + " " + b)
  {
    assert a + run + b == a + (run + b);
    assert a + " " + b == a + (" " + b);
    SplitOfConcat(a, run + b);
    SplitOfConcat(a, " " + b);
    SplitIgnoresLeadingSpace(run, b);
    SplitIgnoresLeadingSpace(" ", b);
  }

  /** Joining non-empty whitespace-free words with single spaces and splitting gives them back. */
  lemma {:induction false} SplitJoinSpaced(ws: seq<string>)
    requires forall k :: 0 <= k < |ws| ==> ws[k] != [] && NoSpace(ws[k])
    ensures Split(JoinSpaced(ws)) == ws
  {
    if ws != [] {
      var w := ws[0];
      WordWhole(w);
      assert w[|w|..] == [];
      assert Split(w) == [w];
      if |ws| > 1 {
        var rest := JoinSpaced(ws[1..]);
        SplitJoinSpaced(ws[1..]);
        assert JoinSpaced(ws) == w + (" " + rest);
        SplitOfConcat(w, " " + rest);
        SplitIgnoresLeadingSpace(" ", rest);
      }
    }
  }

  /** The line boundaries of Python's `str.splitlines()`. */
  predicate IsLineBreak(c: char) {
    || c == '\n' || c == '\r' || c == '\U{0B}' || c == '\U{0C}'
    || c == '\U{1C}' || c == '\U{1D}' || c == '\U{1E}' || c == '\U{85}'
    || c == '\U{2028}' || c == '\U{2029}'
  }

  predicate NoLineBreak(s: string) {
    forall i :: 0 <= i < |s| ==> !IsLineBreak(s[i])
  }

  /** Index of the first line boundary, or `|s|`. */
  function LineEnd(s: string): (i: nat)
    ensures i <= |s| && NoLineBreak(s[..i])
    ensures i < |s| ==> IsLineBreak(s[i])
    decreases |s|
  {
    if s == [] || IsLineBreak(s[0]) then 0 else 1 + LineEnd(s[1..])
  }

  /** `s.splitlines()`: "\r\n" is one boundary, and a final boundary opens no empty line. */
  function SplitLines(s: string): (ls: seq<string>)
    ensures forall k :: 0 <= k < |ls| ==> NoLineBreak(ls[k])
    decreases |s|
  {
    if s == [] then [] else
    var i := LineEnd(s);
    if i == |s| then [s]
    else if s[i] == '\r' && i + 1 < |s| && s[i + 1] == '\n' then [s[..i]] + SplitLines(s[i + 2..])
    else [s[..i]] + SplitLines(s[i + 1..])
  }

  /** `"\n".join(ls)` */
  function JoinLines(ls: seq<string>): string {
    if ls == [] then "" else if |ls| == 1 then ls[0] else ls[0] + "\n" + JoinLines(ls[1..])
  }

  lemma LineEndOfConcat(l: string, y: string)
    requires NoLineBreak(l)
    requires y == [] || IsLineBreak(y[0])
    ensures LineEnd(l + y) == |l|
    decreases |l|
  {
    if l == [] {
      assert l + y == y;
    } else {
      assert (l + y)[1..] == l[1..] + y;
      LineEndOfConcat(l[1..], y);
    }
  }

  /** Joining lines with "\n" and splitting gives them back when the last one is not empty. */
  lemma {:induction false} SplitLinesJoin(ls: seq<string>)
    requires forall k :: 0 <= k < |ls| ==> NoLineBreak(ls[k])
    requires ls != [] ==> ls[|ls| - 1] != []
    ensures SplitLines(JoinLines(ls)) == ls
  {
    if ls == [] {
    } else if |ls| == 1 {
      LineEndOfConcat(ls[0], []);
      assert ls[0] + [] == ls[0];
    } else {
      var l := ls[0];
      var rest := JoinLines(ls[1..]);
      var s := l + ("\n" + rest);
      assert JoinLines(ls) == s;
      LineEndOfConcat(l, "\n" + rest);
      SplitLinesJoin(ls[1..]);
      assert s[..|l|] == l;
      assert s[|l| + 1..] == rest;
      assert s[|l|] == '\n';
    }
  }

  /** ASCII part of `str.lower()`. */
  function LowerChar(c: char): char {
    if 'A' <= c <= 'Z' then (c as int + 32) as char else c
  }

  function Lower(s: string): (r: string)
    ensures |r| == |s| && forall i :: 0 <= i < |s| ==> r[i] == LowerChar(s[i])
  {
    if s == [] then [] else [LowerChar(s[0])] + Lower(s[1..])
  }

  /** `s.replace(c, "")` for one character. */
  function RemoveChar(s: string, c: char): (r: string)
    ensures c !in r
    ensures |r| <= |s|
    ensures forall x :: x in r <==> x in s && x != c
  {
    if s == [] then [] else (if s[0] == c then [] else [s[0]]) + RemoveChar(s[1..], c)
  }

  /** `s.split(c)[-1]`: the text after the last `c`, or all of `s`. */
  function AfterLast(s: string, c: char): (r: string)
    ensures c !in r
    ensures EndsWith(s, r)
    ensures |r| < |s| ==> s[|s| - |r| - 1] == c
    decreases |s|
  {
    if s == [] then []
    else if s[|s| - 1] == c then []
    else AfterLast(s[..|s| - 1], c) + [s[|s| - 1]]
  }
}
