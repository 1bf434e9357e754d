/**
 * Character classes and string primitives of JavaScript that the readers rely on:
 * the regular-expression classes `\s` and `\w`, `String.prototype.trim`,
 * `String.prototype.split("\n")`, the quote strip `replace(/^["']|["']$/g, "")`,
 * and the blank-or-comment test every reader applies to a line first.
 */
module Text {
  import opened Wrappers

  /** The characters a regular-expression `.` does not match. */
  predicate IsLineTerminator(c: char) {
    c == '\n' || c == '\r' || c == '\U{2028}' || c == '\U{2029}'
  }

  /** The class `\s`, which is also the set `trim` removes: the ECMAScript WhiteSpace
      characters (tab, vertical tab, form feed, space, no-break space, byte order mark
      and the space separators) together with the line terminators. */
  predicate IsSpace(c: char) {
    || c == '\t' || c == '\U{000B}' || c == '\U{000C}' || c == ' '
    || c == '\U{00A0}' || c == '\U{FEFF}' || c == '\U{1680}'
    || ('\U{2000}' <= c <= '\U{200A}')
    || c == '\U{202F}' || c == '\U{205F}' || c == '\U{3000}'
    || IsLineTerminator(c)
  }

  /** The class `\w` (no `u` flag): ASCII letters, digits and underscore. */
  predicate IsWordChar(c: char) {
    ('A' <= c <= 'Z') || ('a' <= c <= 'z') || ('0' <= c <= '9') || c == '_'
  }

  /** The class `[a-z]`. */
  predicate IsLower(c: char) {
    'a' <= c <= 'z'
  }

  /** The class `["']`. */
  predicate IsQuote(c: char) {
    c == '"' || c == '\''
  }

  /** A non-empty run of word characters: what `(\w+)` captures. */
  predicate IsWord(s: string) {
    |s| > 0 && forall i | 0 <= i < |s| :: IsWordChar(s[i])
  }

  predicate AllSpace(s: string) {
    forall i | 0 <= i < |s| :: IsSpace(s[i])
  }

  /** Length of the longest prefix of `s` whose characters all satisfy `p`:
      what a greedy `p*` consumes. */
  function Span(s: string, p: char -> bool): (n: nat)
    ensures n <= |s|
    ensures forall i | 0 <= i < n :: p(s[i])
    ensures n < |s| ==> !p(s[n])
  {
    if s == [] || !p(s[0]) then 0 else 1 + Span(s[1..], p)
  }

  /** Length of the longest suffix of `s` whose characters all satisfy `p`. */
  function SpanEnd(s: string, p: char -> bool): (n: nat)
    ensures n <= |s|
    ensures forall i | |s| - n <= i < |s| :: p(s[i])
    ensures n < |s| ==> !p(s[|s| - n - 1])
  {
    if s == [] || !p(s[|s| - 1]) then 0 else 1 + SpanEnd(s[..|s| - 1], p)
  }

  /** A greedy span over `a + b` stops at the seam when all of `a` matches and `b`
      does not start with a match. */
  lemma SpanConcat(a: string, b: string, p: char -> bool)
    requires forall i | 0 <= i < |a| :: p(a[i])
    requires b == [] || !p(b[0])
    ensures Span(a + b, p) == |a|
  {
    assert forall i | 0 <= i < |a| :: (a + b)[i] == a[i];
    assert b != [] ==> (a + b)[|a|] == b[0];
  }

  /** A greedy span from the end of `a + b` stops at the seam when all of `b` matches
      and `a` does not end with a match. */
  lemma SpanEndConcat(a: string, b: string, p: char -> bool)
    requires forall i | 0 <= i < |b| :: p(b[i])
    requires a == [] || !p(a[|a| - 1])
    ensures SpanEnd(a + b, p) == |b|
  {
    assert forall i | 0 <= i < |b| :: (a + b)[|a| + i] == b[i];
    assert a != [] ==> (a + b)[|a| - 1] == a[|a| - 1];
  }

  // ---------------------------------------------------------------------------
  // content.split("\n")
  // ---------------------------------------------------------------------------

  /** A line of a split text: it holds no newline. */
  type Line = s: string | '\n' !in s

  /** `s.split("\n")`: the pieces between newlines, always at least one. */
  function Split(s: string): (lines: seq<Line>)
    ensures |lines| >= 1
    ensures |lines| == NewlineCount(s) + 1
  {
    if s == [] then [""]
    else
      var rest := Split(s[1..]);
      if s[0] == '\n' then [""] + rest
      else [[s[0]] + rest[0]] + rest[1..]
  }

  /** The number of newlines in `s`. */
  function NewlineCount(s: string): nat {
    if s == [] then 0 else (if s[0] == '\n' then 1 else 0) + NewlineCount(s[1..])
  }

  /** `lines.join("\n")`. */
  function Join(lines: seq<string>): string
    requires |lines| > 0
  {
    if |lines| == 1 then lines[0] else lines[0] + "\n" + Join(lines[1..])
  }

  lemma JoinConsHead(x: string, y: string, t: seq<string>)
    ensures Join([x + y] + t) == x + Join([y] + t)
  {
    if |t| > 0 {
      assert ([x + y] + t)[1..] == t;
      assert ([y] + t)[1..] == t;
    }
  }

  /** Joining the pieces of a split restores the text. */
  lemma {:induction false} JoinSplit(s: string)
    ensures Join(Split(s)) == s
  {
    if s != [] {
      var rest := Split(s[1..]);
      JoinSplit(s[1..]);
      if s[0] == '\n' {
        assert ([""] + rest)[1..] == rest;
        assert Join([""] + rest) == "" + "\n" + Join(rest);
      } else {
        assert [rest[0]] + rest[1..] == rest;
        JoinConsHead([s[0]], rest[0], rest[1..]);
        assert [s[0]] + s[1..] == s;
      }
    }
  }

  lemma {:induction false} SplitLine(w: Line)
    ensures Split(w) == [w]
  {
    if w != [] {
      assert '\n' != w[0] by { assert w[0] in w; }
      assert '\n' !in w[1..] by {
        forall i | 0 <= i < |w[1..]| ensures w[1..][i] != '\n' {
          assert w[1..][i] == w[i + 1];
          assert w[i + 1] in w;
        }
      }
      SplitLine(w[1..]);
      assert [w[0]] + w[1..] == w;
    }
  }

  lemma {:induction false} SplitLineNewline(w: Line, u: string)
    ensures Split(w + "\n" + u) == [w] + Split(u)
  {
    if w == [] {
      assert w + "\n" + u == "\n" + u;
      assert ("\n" + u)[1..] == u;
    } else {
      assert '\n' != w[0] by { assert w[0] in w; }
      assert '\n' !in w[1..] by {
        forall i | 0 <= i < |w[1..]| ensures w[1..][i] != '\n' {
          assert w[1..][i] == w[i + 1];
          assert w[i + 1] in w;
        }
      }
      var s := w + "\n" + u;
      assert s[0] == w[0];
      assert s[1..] == w[1..] + "\n" + u;
      SplitLineNewline(w[1..], u);
      assert [w[0]] + w[1..] == w;
    }
  }

  /** Splitting a join of newline-free pieces gives the pieces back. */
  lemma {:induction false} SplitJoin(lines: seq<Line>)
    requires |lines| > 0
    ensures Split(Join(lines)) == lines
  {
    if |lines| == 1 {
      SplitLine(lines[0]);
    } else {
      SplitJoin(lines[1..]);
      SplitLineNewline(lines[0], Join(lines[1..]));
      assert [lines[0]] + lines[1..] == lines;
    }
  }

  // ---------------------------------------------------------------------------
  // trim, quote strip, blank-or-comment
  // ---------------------------------------------------------------------------

  /** `s.trim()`: `s` without its leading and trailing whitespace. */
  function Trim(s: string): (r: string)
    ensures r == "" || (!IsSpace(r[0]) && !IsSpace(r[|r| - 1]))
    ensures exists i, j | 0 <= i <= j <= |s| :: r == s[i..j] && AllSpace(s[..i]) && AllSpace(s[j..])
  {
    var a := Span(s, IsSpace);
    var j := a + |s[a..]| - SpanEnd(s[a..], IsSpace);
    TrimBounds(s, a, j);
    s[a..j]
  }

  /** The leading whitespace and the trailing whitespace of what follows it. */
  lemma TrimBounds(s: string, a: nat, j: int)
    requires a == Span(s, IsSpace)
    requires j == a + |s[a..]| - SpanEnd(s[a..], IsSpace)
    ensures a <= j <= |s| && AllSpace(s[..a]) && AllSpace(s[j..])
    ensures a < j ==> !IsSpace(s[a]) && !IsSpace(s[j - 1])
  {
    var t := s[a..];
    assert AllSpace(s[..a]);
    assert s[j..] == t[j - a..];
    assert a < j ==> s[j - 1] == t[j - a - 1];
  }

  /** Trimming finds the unique split of a text into leading whitespace, a core that
      neither starts nor ends with whitespace, and trailing whitespace. */
  lemma TrimSplit(x: string, m: string, y: string)
    requires AllSpace(x) && AllSpace(y)
    requires m == "" || (!IsSpace(m[0]) && !IsSpace(m[|m| - 1]))
    ensures Trim(x + m + y) == m
  {
    var s := x + m + y;
    if m == "" {
      assert s == x + y;
      assert forall i | 0 <= i < |s| :: IsSpace(s[i]) by {
        assert forall i | 0 <= i < |x| :: s[i] == x[i];
        assert forall i | |x| <= i < |s| :: s[i] == y[i - |x|];
      }
      assert Span(s, IsSpace) == |s|;
    } else {
      assert s == x + (m + y);
      SpanConcat(x, m + y, IsSpace);
      assert s[|x|..] == m + y;
      SpanEndConcat(m, y, IsSpace);
      assert (m + y)[..|m|] == m;
    }
  }

  lemma AllSpaceConcat(x: string, y: string)
    requires AllSpace(x) && AllSpace(y)
    ensures AllSpace(x + y)
  {
    assert forall i | 0 <= i < |x| :: (x + y)[i] == x[i];
    assert forall i | |x| <= i < |x + y| :: (x + y)[i] == y[i - |x|];
  }

  /** Whitespace added at either end does not change the trimmed text. */
  lemma TrimPadded(a: string, s: string, b: string)
    requires AllSpace(a) && AllSpace(b)
    ensures Trim(a + s + b) == Trim(s)
  {
    var m := Trim(s);
    var x, y := TrimParts(s);
    AllSpaceConcat(a, x);
    AllSpaceConcat(y, b);
    Assoc3(a, x + m, y);
    Assoc3(a, x, m);
    Assoc3(a + x + m, y, b);
    TrimSplit(a + x, m, y + b);
  }

  /** The whitespace `Trim` removes from each end. */
  lemma TrimParts(s: string) returns (x: string, y: string)
    ensures s == x + Trim(s) + y && AllSpace(x) && AllSpace(y)
  {
    var i, j :| 0 <= i <= j <= |s| && Trim(s) == s[i..j] && AllSpace(s[..i]) && AllSpace(s[j..]);
    x, y := s[..i], s[j..];
    assert s == s[..i] + s[i..j] + s[j..];
  }

  /** A text trims to nothing exactly when it is all whitespace. */
  lemma TrimEmpty(s: string)
    ensures Trim(s) == "" <==> AllSpace(s)
  {
  }

  /** `replace(/^["']|["']$/g, "")`: drops one leading quote if there is one, then one
      trailing quote if one is left; the two quotes are matched independently, so they
      need not be the same character. */
  function StripQuotes(s: string): (r: string)
    ensures |s| >= 2 && IsQuote(s[0]) && IsQuote(s[|s| - 1]) ==> r == s[1..|s| - 1]
    ensures |s| >= 1 && IsQuote(s[0]) && !IsQuote(s[|s| - 1]) ==> r == s[1..]
    ensures |s| >= 1 && !IsQuote(s[0]) && IsQuote(s[|s| - 1]) ==> r == s[..|s| - 1]
    ensures (|s| == 0 || (!IsQuote(s[0]) && !IsQuote(s[|s| - 1]))) ==> r == s
    ensures |s| == 1 && IsQuote(s[0]) ==> r == ""
  {
    var a := if |s| > 0 && IsQuote(s[0]) then s[1..] else s;
    if |a| > 0 && IsQuote(a[|a| - 1]) then a[..|a| - 1] else a
  }

  // ---------------------------------------------------------------------------
  // Indented lines
  // ---------------------------------------------------------------------------

  /** `line` is the indentation `ind`, non-empty whitespace, followed by `rest`:
      what `^\s+` leaves for the rest of a pattern. */
  predicate IndentedAfter(line: string, ind: string, rest: string) {
    |ind| > 0 && AllSpace(ind) && line == ind + rest
  }

  /** `line` is the indentation `ind`, a dash, the whitespace `ws` and then `rest`:
      what `^\s+-\s+` leaves for the rest of a pattern. */
  predicate DashedAfter(line: string, ind: string, ws: string, rest: string) {
    && |ind| > 0 && AllSpace(ind) && |ws| > 0 && AllSpace(ws)
    && line == ind + ("-" + (ws + rest))
  }

  /** The characters a greedy `\s*` consumes are whitespace. */
  lemma SpanSpace(s: string)
    ensures AllSpace(s[..Span(s, IsSpace)])
  {
    var n := Span(s, IsSpace);
    assert forall i | 0 <= i < n :: s[..n][i] == s[i];
  }

  /** A line cut after its greedy leading whitespace. */
  lemma IndentCut(line: string, a: nat)
    requires a == Span(line, IsSpace) && a > 0
    ensures IndentedAfter(line, line[..a], line[a..])
  {
    SpanSpace(line);
    assert line == line[..a] + line[a..];
  }

  /** A line cut after its greedy leading whitespace, the dash that follows it and
      the greedy whitespace after the dash. */
  lemma DashCut(line: string, a: nat, b: nat)
    requires a == Span(line, IsSpace) && 0 < a < |line| && line[a] == '-'
    requires b == Span(line[a + 1..], IsSpace) && b > 0
    ensures DashedAfter(line, line[..a], line[a + 1..][..b], line[a + 1..][b..])
  {
    SpanSpace(line);
    SpanSpace(line[a + 1..]);
    DashSplit(line, a, b);
  }

  lemma DashSplit(line: string, a: nat, b: nat)
    requires a < |line| && line[a] == '-' && b <= |line[a + 1..]|
    ensures line == line[..a] + ("-" + (line[a + 1..][..b] + line[a + 1..][b..]))
  {
    var after := line[a + 1..];
    assert after == after[..b] + after[b..];
    assert line == line[..a] + ([line[a]] + after);
  }

  /** `!line.trim() || line.trim().startsWith("#")`: a line every reader skips. */
  predicate IsBlankOrComment(line: string) {
    var t := Trim(line);
    t == "" || t[0] == '#'
  }

  /** A line whose first character after its indentation is neither whitespace nor
      `#` is not skipped. */
  lemma NotBlankAfterIndent(line: string, a: nat)
    requires a < |line| && AllSpace(line[..a])
    requires !IsSpace(line[a]) && line[a] != '#'
    ensures !IsBlankOrComment(line)
  {
    var u := line[a..];
    assert line == line[..a] + u;
    PadFront(line[..a], u);
    TrimKeepsFirst(u);
  }

  /** A text that starts with a character other than whitespace keeps that
      character in front when trimmed. */
  lemma TrimKeepsFirst(u: string)
    requires |u| > 0 && !IsSpace(u[0])
    ensures |Trim(u)| > 0 && Trim(u)[0] == u[0]
  {
    var r := u[1..];
    var x, y := TrimParts(r);
    assert u == [u[0]] + r;
    KeepsFirst(u, [u[0]], x, Trim(r), y);
  }

  lemma KeepsFirst(u: string, c: string, x: string, m: string, y: string)
    requires |c| == 1 && !IsSpace(c[0]) && AllSpace(x) && AllSpace(y)
    requires m == "" || !IsSpace(m[|m| - 1])
    requires u == c + (x + m + y)
    ensures |Trim(u)| > 0 && Trim(u)[0] == c[0]
  {
    if m == "" {
      KeepsFirstBlank(u, c, x, y);
    } else {
      KeepsFirstCore(u, c, x, m, y);
    }
  }

  lemma KeepsFirstBlank(u: string, c: string, x: string, y: string)
    requires |c| == 1 && !IsSpace(c[0]) && AllSpace(x) && AllSpace(y)
    requires u == c + (x + "" + y)
    ensures Trim(u) == c
  {
    AllSpaceConcat(x, y);
    assert u == "" + c + (x + y);
    TrimSplit("", c, x + y);
  }

  lemma KeepsFirstCore(u: string, c: string, x: string, m: string, y: string)
    requires |c| == 1 && !IsSpace(c[0]) && AllSpace(x) && AllSpace(y)
    requires |m| > 0 && !IsSpace(m[|m| - 1])
    requires u == c + (x + m + y)
    ensures Trim(u) == c + x + m
  {
    assert (c + x + m)[0] == c[0];
    assert (c + x + m)[|c + x + m| - 1] == m[|m| - 1];
    assert u == "" + (c + x + m) + y;
    TrimSplit("", c + x + m, y);
  }

  /** `^(\w+):` — a non-empty run of word characters directly followed by a colon.
      Since `:` is not a word character, the run is the maximal one and the match is
      unique. Returns the key and the text after the colon. */
  function KeyColon(s: string): (r: Option<(string, string)>)
    ensures r.Some? <==> exists k | 0 < k < |s| :: s[k] == ':' && (forall i | 0 <= i < k :: IsWordChar(s[i]))
    ensures r.Some? ==> |r.value.0| > 0 && s == r.value.0 + ":" + r.value.1
    ensures r.Some? ==> forall i | 0 <= i < |r.value.0| :: IsWordChar(r.value.0[i])
  {
    var n := Span(s, IsWordChar);
    if 0 < n < |s| && s[n] == ':' then
      assert s == s[..n] + ":" + s[n + 1..];
      Some((s[..n], s[n + 1..]))
    else
      assert forall k | 0 < k < |s| && s[k] == ':' :: !(forall i | 0 <= i < k :: IsWordChar(s[i])) by {
        forall k | 0 < k < |s| && s[k] == ':'
          ensures !(forall i | 0 <= i < k :: IsWordChar(s[i]))
        {
          if n < k { assert !IsWordChar(s[n]); }
        }
      }
      None
  }

  /** A key followed by a colon is split at that colon. */
  lemma KeyColonOf(k: string, rest: string)
    requires IsWord(k)
    ensures KeyColon(k + ":" + rest) == Some((k, rest))
  {
    var s := k + ":" + rest;
    assert s == k + (":" + rest);
    SpanConcat(k, ":" + rest, IsWordChar);
    assert s[..|k|] == k && s[|k| + 1..] == rest;
  }

  /** `\s*(.*)$` — skips the whitespace a greedy `\s*` takes and returns the rest,
      provided the rest holds no line terminator (which `.` does not match). Giving
      whitespace back to `.*` cannot help, so there is no other match. */
  function DotRest(s: string): (r: Option<string>)
    ensures r.Some? ==> |r.value| <= |s| && AllSpace(s[..|s| - |r.value|]) && r.value == s[|s| - |r.value|..]
    ensures r.Some? ==> forall i | 0 <= i < |r.value| :: !IsLineTerminator(r.value[i])
    ensures r.Some? ==> r.value == "" || !IsSpace(r.value[0])
    ensures r.None? <==> exists i | 0 <= i < |s| :: IsLineTerminator(s[i]) && !AllSpace(s[..i + 1])
  {
    var w := Span(s, IsSpace);
    var v := s[w..];
    if exists i | 0 <= i < |v| :: IsLineTerminator(v[i]) then
      var i :| 0 <= i < |v| && IsLineTerminator(v[i]);
      assert s[w + i] == v[i];
      assert !IsSpace(s[w]) && s[..w + i + 1][w] == s[w];
      None
    else
      assert AllSpace(s[..w]);
      assert forall j | w <= j < |s| :: s[j] == v[j - w];
      assert forall i | 0 <= i < |s| && IsLineTerminator(s[i]) :: AllSpace(s[..i + 1]) by {
        forall i | 0 <= i < |s| && IsLineTerminator(s[i]) ensures AllSpace(s[..i + 1]) {
        }
      }
      Some(v)
  }

  /** Whitespace followed by a text without line terminators that does not start
      with whitespace: the rest is that text. */
  lemma DotRestOf(w: string, v: string)
    requires AllSpace(w)
    requires forall i | 0 <= i < |v| :: !IsLineTerminator(v[i])
    requires v == "" || !IsSpace(v[0])
    ensures DotRest(w + v) == Some(v)
  {
    SpanConcat(w, v, IsSpace);
    assert (w + v)[|w|..] == v;
  }

  /** `[^"'\n]` on a line, which holds no newline: any character but a quote. */
  predicate NotQuote(c: char) {
    !IsQuote(c)
  }

  predicate NoQuotes(s: string) {
    forall i | 0 <= i < |s| :: NotQuote(s[i])
  }

  /** At most one quote character: what an optional `["']?` consumes. */
  predicate OptQuote(q: string) {
    |q| <= 1 && (q == "" || IsQuote(q[0]))
  }

  /** The group the tail pattern `\s*["']?([^"'\n]*)["']?\s*$` captures from the text
      after a key's colon, or `None` when the pattern fails. With `nonEmpty` the group
      is `([^"'\n]+)`: when the greedy attempt leaves it empty, the pattern can still
      match by giving one character of the leading whitespace back to the group, which
      succeeds exactly when nothing but an optional quote follows the whitespace.
      Giving back characters never helps otherwise, so the greedy attempt decides. */
  function QuotedTail(s: string, nonEmpty: bool): (r: Option<string>)
    ensures r.Some? ==> NoQuotes(r.value)
    ensures r.Some? && nonEmpty ==> |r.value| > 0
    ensures r.Some? ==> exists w, q1, q2, w2 :: TailParts(s, w, q1, r.value, q2, w2)
  {
    var w := Span(s, IsSpace);
    GroupShape(s, w, nonEmpty);
    Group(s, w, AfterOpening(s, w), nonEmpty)
  }

  /** Whitespace and an optional quote before the group, an optional quote and
      whitespace after it. */
  predicate Padding(w: string, q1: string, q2: string, w2: string) {
    AllSpace(w) && OptQuote(q1) && OptQuote(q2) && AllSpace(w2)
  }

  /** `s` is the group `v` with its padding around it. */
  predicate TailParts(s: string, w: string, q1: string, v: string, q2: string, w2: string) {
    Padding(w, q1, q2, w2) && s == w + q1 + v + q2 + w2
  }

  /** Whatever group the tail pattern captures sits between its padding: in the
      greedy case the closing quote and whitespace follow it, and in the backtracking
      case it is the last leading whitespace character, with the opening quote, if
      any, read as the closing one. */
  lemma GroupShape(s: string, w: nat, nonEmpty: bool)
    requires w == Span(s, IsSpace)
    ensures var g := Group(s, w, AfterOpening(s, w), nonEmpty);
      g.Some? ==> exists w', q1, q2, w2 :: TailParts(s, w', q1, g.value, q2, w2)
  {
    var t := AfterOpening(s, w);
    var g := Group(s, w, t, nonEmpty);
    if g.Some? {
      SpanSpace(s);
      var q1 := OpeningSplit(s, w);
      var n := Span(t, NotQuote);
      if n > 0 || !nonEmpty {
        var q2, w2 := ClosingSplit(t, n);
        TailWitness(s, s[..w], q1, t, t[..n], q2, w2);
      } else {
        BacktrackWitness(s, w, q1);
      }
    }
  }

  /** The optional opening quote the tail pattern reads after the whitespace. */
  lemma OpeningSplit(s: string, w: nat) returns (q1: string)
    requires w <= |s|
    ensures OptQuote(q1) && s == s[..w] + q1 + AfterOpening(s, w)
  {
    if w < |s| && IsQuote(s[w]) {
      q1 := s[w..w + 1];
      assert s == s[..w] + s[w..w + 1] + s[w + 1..];
    } else {
      q1 := "";
      assert s == s[..w] + s[w..];
    }
  }

  /** What may follow the group: an optional closing quote and whitespace. */
  lemma ClosingSplit(t: string, n: nat) returns (q2: string, w2: string)
    requires n <= |t| && ClosingOk(t[n..])
    ensures OptQuote(q2) && AllSpace(w2) && t == t[..n] + q2 + w2
  {
    var rest := t[n..];
    if rest == "" {
      q2, w2 := "", "";
      assert t == t[..n] + rest;
    } else {
      q2, w2 := rest[..1], rest[1..];
      assert rest == q2 + w2;
      assert t == t[..n] + rest;
    }
  }

  lemma TailWitness(s: string, w: string, q1: string, t: string, v: string, q2: string, w2: string)
    requires s == w + q1 + t && t == v + q2 + w2 && Padding(w, q1, q2, w2)
    ensures TailParts(s, w, q1, v, q2, w2)
  {
    Assoc3(w + q1, v + q2, w2);
    Assoc3(w + q1, v, q2);
  }

  /** The backtracking case: the group is the last leading whitespace character. */
  lemma BacktrackWitness(s: string, w: nat, q1: string)
    requires 0 < w <= |s| && AllSpace(s[..w]) && OptQuote(q1) && s == s[..w] + q1
    ensures TailParts(s, s[..w - 1], "", [s[w - 1]], q1, "")
  {
    assert s[..w] == s[..w - 1] + [s[w - 1]];
    assert AllSpace(s[..w - 1]) by {
      assert forall i | 0 <= i < w - 1 :: s[..w - 1][i] == s[..w][i];
    }
  }

  /** The text after the greedy whitespace and an optional opening quote. */
  function AfterOpening(s: string, w: nat): string
    requires w <= |s|
  {
    if w < |s| && IsQuote(s[w]) then s[w + 1..] else s[w..]
  }

  lemma SpaceNotQuote(c: char)
    requires IsSpace(c)
    ensures NotQuote(c)
  {
  }

  /** The rest after the group may only be a closing quote followed by whitespace. */
  predicate ClosingOk(rest: string) {
    rest == "" || (IsQuote(rest[0]) && AllSpace(rest[1..]))
  }

  /** The group taken greedily from `t`, with the backtracking case of `nonEmpty`;
      `w` is the length of the leading whitespace of `s`. */
  function Group(s: string, w: nat, t: string, nonEmpty: bool): (r: Option<string>)
    requires w <= |s| && forall i | 0 <= i < w :: IsSpace(s[i])
    ensures r.Some? ==> NoQuotes(r.value)
    ensures r.Some? && nonEmpty ==> |r.value| > 0
  {
    var n := Span(t, NotQuote);
    if !ClosingOk(t[n..]) then None
    else if n > 0 || !nonEmpty then Some(t[..n])
    else if t == "" && w > 0 then
      assert IsSpace(s[w - 1]);
      SpaceNotQuote(s[w - 1]);
      Some([s[w - 1]])
    else None
  }

  /** The group of quote-free text followed by an optional quote and whitespace. */
  lemma GroupOfBody(s: string, w: nat, v: string, q2: string, w2: string, nonEmpty: bool)
    requires w <= |s| && forall i | 0 <= i < w :: IsSpace(s[i])
    requires NoQuotes(v) && OptQuote(q2) && AllSpace(w2)
    requires nonEmpty ==> |v| > 0
    ensures q2 == "" ==> Group(s, w, v + q2 + w2, nonEmpty) == Some(v + w2)
    ensures q2 != "" ==> Group(s, w, v + q2 + w2, nonEmpty) == Some(v)
  {
    var t := v + q2 + w2;
    if q2 != "" {
      assert t == v + (q2 + w2);
      SpanConcat(v, q2 + w2, NotQuote);
      assert t[..|v|] == v && t[|v|..] == q2 + w2 && (q2 + w2)[1..] == w2;
    } else {
      assert NoQuotes(w2);
      assert t == (v + w2) + "";
      assert NoQuotes(v + w2) by {
        assert forall i | 0 <= i < |v| :: (v + w2)[i] == v[i];
        assert forall i | |v| <= i < |v + w2| :: (v + w2)[i] == w2[i - |v|];
      }
      SpanConcat(v + w2, "", NotQuote);
      assert t[..|t|] == t && t[|t|..] == [];
    }
  }

  /** Every text of the tail's shape (whitespace, an optional quote, quote-free text, an
      optional quote, whitespace) is matched, and the captured group trims to the
      quote-free text trimmed: the pattern and `QuotedTail` agree. */
  lemma QuotedTailComplete(w: string, q1: string, v: string, q2: string, w2: string, nonEmpty: bool)
    requires AllSpace(w) && OptQuote(q1) && NoQuotes(v) && OptQuote(q2) && AllSpace(w2)
    requires nonEmpty ==> |v| > 0
    ensures QuotedTail(w + q1 + v + q2 + w2, nonEmpty).Some?
    ensures Trim(QuotedTail(w + q1 + v + q2 + w2, nonEmpty).value) == Trim(v)
  {
    if q1 != "" {
      CompleteOpened(w, q1, v, q2, w2, nonEmpty);
    } else {
      assert w + q1 + v + q2 + w2 == w + v + q2 + w2;
      CompleteNoOpening(w, v, q2, w2, nonEmpty);
    }
  }

  /** Without an opening quote, the leading whitespace of the quote-free text joins the
      greedy whitespace. */
  lemma CompleteNoOpening(w: string, v: string, q2: string, w2: string, nonEmpty: bool)
    requires AllSpace(w) && NoQuotes(v) && OptQuote(q2) && AllSpace(w2)
    requires nonEmpty ==> |v| > 0
    ensures QuotedTail(w + v + q2 + w2, nonEmpty).Some?
    ensures Trim(QuotedTail(w + v + q2 + w2, nonEmpty).value) == Trim(v)
  {
    var k := Span(v, IsSpace);
    var a, u := v[..k], v[k..];
    assert AllSpace(a);
    assert v == a + u;
    if k < |v| {
      assert NoQuotes(u) by { assert forall i | 0 <= i < |u| :: u[i] == v[k + i]; }
      CompleteLeadingSpace(w, a, u, q2, w2, nonEmpty);
    } else {
      assert v == a;
      CompleteAllSpace(w, v, q2, w2, nonEmpty);
    }
  }

  lemma CompleteLeadingSpace(w: string, a: string, u: string, q2: string, w2: string, nonEmpty: bool)
    requires AllSpace(w) && AllSpace(a) && NoQuotes(u) && |u| > 0 && !IsSpace(u[0]) && OptQuote(q2) && AllSpace(w2)
    ensures QuotedTail(w + (a + u) + q2 + w2, nonEmpty).Some?
    ensures Trim(QuotedTail(w + (a + u) + q2 + w2, nonEmpty).value) == Trim(a + u)
  {
    var s1, s2 := w + (a + u) + q2 + w2, (w + a) + u + q2 + w2;
    assert s1 == s2;
    AllSpaceConcat(w, a);
    CompleteUnopened(w + a, u, q2, w2, nonEmpty);
    PadFront(a, u);
  }

  lemma PadFront(a: string, u: string)
    requires AllSpace(a)
    ensures Trim(a + u) == Trim(u)
  {
    var m := Trim(u);
    var x, y := TrimParts(u);
    AllSpaceConcat(a, x);
    Assoc3(a, x + m, y);
    Assoc3(a, x, m);
    TrimSplit(a + x, m, y);
  }

  lemma PadBack(u: string, b: string)
    requires AllSpace(b)
    ensures Trim(u + b) == Trim(u)
  {
    var m := Trim(u);
    var x, y := TrimParts(u);
    AllSpaceConcat(y, b);
    Assoc3(x + m, y, b);
    TrimSplit(x, m, y + b);
  }

  lemma CompleteAllSpace(w: string, v: string, q2: string, w2: string, nonEmpty: bool)
    requires AllSpace(w) && AllSpace(v) && OptQuote(q2) && AllSpace(w2)
    requires nonEmpty ==> |v| > 0
    ensures QuotedTail(w + v + q2 + w2, nonEmpty).Some?
    ensures Trim(QuotedTail(w + v + q2 + w2, nonEmpty).value) == Trim(v)
  {
    AllSpaceConcat(w, v);
    CompleteBlank(w + v, q2, w2, nonEmpty);
    TrimEmptyOfSpace(v);
  }

  /** The case of an opening quote: the greedy whitespace stops at it and it is
      consumed. */
  lemma CompleteOpened(w: string, q1: string, v: string, q2: string, w2: string, nonEmpty: bool)
    requires AllSpace(w) && |q1| == 1 && IsQuote(q1[0]) && NoQuotes(v) && OptQuote(q2) && AllSpace(w2)
    requires nonEmpty ==> |v| > 0
    ensures QuotedTail(w + q1 + v + q2 + w2, nonEmpty).Some?
    ensures Trim(QuotedTail(w + q1 + v + q2 + w2, nonEmpty).value) == Trim(v)
  {
    OpenedGroup(w, q1, v, q2, w2, nonEmpty);
    GroupTrim(v, q2, w2);
  }

  lemma OpenedGroup(w: string, q1: string, v: string, q2: string, w2: string, nonEmpty: bool)
    requires AllSpace(w) && |q1| == 1 && IsQuote(q1[0]) && NoQuotes(v) && OptQuote(q2) && AllSpace(w2)
    requires nonEmpty ==> |v| > 0
    ensures QuotedTail(w + q1 + v + q2 + w2, nonEmpty) == (if q2 == "" then Some(v + w2) else Some(v))
  {
    var t := v + q2 + w2;
    Assoc3(w + q1, v + q2, w2);
    Assoc3(w + q1, v, q2);
    Opening(w, q1, t, nonEmpty);
    GroupOfBody(w + q1 + t, |w|, v, q2, w2, nonEmpty);
  }

  /** The greedy whitespace of `w + q1 + t` is `w`, and the optional opening quote is
      `q1`, when `t` cannot extend either. */
  lemma Opening(w: string, q1: string, t: string, nonEmpty: bool)
    requires AllSpace(w) && OptQuote(q1)
    requires q1 == "" ==> t == "" || (!IsSpace(t[0]) && !IsQuote(t[0]))
    ensures Span(w + q1 + t, IsSpace) == |w|
    ensures AfterOpening(w + q1 + t, |w|) == t
    ensures QuotedTail(w + q1 + t, nonEmpty) == Group(w + q1 + t, |w|, t, nonEmpty)
  {
    Assoc3(w, q1, t);
    if q1 != "" {
      assert q1 == [q1[0]];
      OpeningQuote(w, q1[0], t);
    } else {
      assert q1 + t == t;
      OpeningNone(w, t);
    }
  }

  lemma Assoc3<T>(a: seq<T>, b: seq<T>, c: seq<T>)
    ensures a + b + c == a + (b + c)
  {
  }

  lemma OpeningQuote(w: string, q: char, t: string)
    requires AllSpace(w) && IsQuote(q)
    ensures Span(w + ([q] + t), IsSpace) == |w|
    ensures AfterOpening(w + ([q] + t), |w|) == t
  {
    var b := [q] + t;
    assert b[0] == q && !IsSpace(q);
    SpanConcat(w, b, IsSpace);
    AfterQuote(w, b);
  }

  lemma AfterQuote(w: string, b: string)
    requires |b| > 0 && IsQuote(b[0])
    ensures AfterOpening(w + b, |w|) == b[1..]
  {
    assert (w + b)[|w|] == b[0];
    assert (w + b)[|w| + 1..] == b[1..];
  }

  lemma OpeningNone(w: string, t: string)
    requires AllSpace(w)
    requires t == "" || (!IsSpace(t[0]) && !IsQuote(t[0]))
    ensures Span(w + t, IsSpace) == |w|
    ensures AfterOpening(w + t, |w|) == t
  {
    SpanConcat(w, t, IsSpace);
    assert (w + t)[|w|..] == t;
    assert t != "" ==> (w + t)[|w|] == t[0];
  }

  /** Whichever way the closing quote goes, the group trims to the quote-free text
      trimmed. */
  lemma GroupTrim(v: string, q2: string, w2: string)
    requires AllSpace(w2)
    ensures Trim(if q2 == "" then v + w2 else v) == Trim(v)
  {
    if q2 == "" {
      PadBack(v, w2);
    }
  }

  /** The case without an opening quote, where the quote-free text starts with a
      character that is not whitespace. */
  lemma CompleteUnopened(w: string, v: string, q2: string, w2: string, nonEmpty: bool)
    requires AllSpace(w) && NoQuotes(v) && |v| > 0 && !IsSpace(v[0]) && OptQuote(q2) && AllSpace(w2)
    ensures QuotedTail(w + v + q2 + w2, nonEmpty).Some?
    ensures Trim(QuotedTail(w + v + q2 + w2, nonEmpty).value) == Trim(v)
  {
    UnopenedGroup(w, v, q2, w2, nonEmpty);
    GroupTrim(v, q2, w2);
  }

  lemma UnopenedGroup(w: string, v: string, q2: string, w2: string, nonEmpty: bool)
    requires AllSpace(w) && NoQuotes(v) && |v| > 0 && !IsSpace(v[0]) && OptQuote(q2) && AllSpace(w2)
    ensures QuotedTail(w + v + q2 + w2, nonEmpty) == (if q2 == "" then Some(v + w2) else Some(v))
  {
    var t := v + q2 + w2;
    Assoc3(w + "", v + q2, w2);
    Assoc3(w + "", v, q2);
    assert w + "" == w;
    assert t[0] == v[0];
    Opening(w, "", t, nonEmpty);
    GroupOfBody(w + t, |w|, v, q2, w2, nonEmpty);
  }

  /** The case without an opening quote where the quote-free text is whitespace: the
      group is empty or whitespace. */
  lemma CompleteBlank(w: string, q2: string, w2: string, nonEmpty: bool)
    requires AllSpace(w) && OptQuote(q2) && AllSpace(w2)
    requires nonEmpty ==> |w| > 0
    ensures QuotedTail(w + q2 + w2, nonEmpty).Some?
    ensures Trim(QuotedTail(w + q2 + w2, nonEmpty).value) == ""
  {
    if q2 != "" {
      BlankOpened(w, q2, w2, nonEmpty);
    } else {
      assert w + q2 + w2 == w + w2;
      BlankUnopened(w, w2, nonEmpty);
    }
  }

  lemma BlankOpened(w: string, q2: string, w2: string, nonEmpty: bool)
    requires AllSpace(w) && |q2| == 1 && IsQuote(q2[0]) && AllSpace(w2)
    requires nonEmpty ==> |w| > 0
    ensures QuotedTail(w + q2 + w2, nonEmpty).Some?
    ensures Trim(QuotedTail(w + q2 + w2, nonEmpty).value) == ""
  {
    var s := w + q2 + w2;
    assert s == w + (q2 + w2);
    SpanConcat(w, q2 + w2, IsSpace);
    assert s[|w|] == q2[0];
    assert AfterOpening(s, |w|) == w2;
    BlankGroup(s, |w|, w2, nonEmpty);
  }

  lemma BlankUnopened(w: string, w2: string, nonEmpty: bool)
    requires AllSpace(w) && AllSpace(w2)
    requires nonEmpty ==> |w| > 0
    ensures QuotedTail(w + w2, nonEmpty).Some?
    ensures Trim(QuotedTail(w + w2, nonEmpty).value) == ""
  {
    var s := w + w2;
    AllSpaceConcat(w, w2);
    assert s == s + "";
    SpanConcat(s, "", IsSpace);
    assert AfterOpening(s, |s|) == "";
    BlankGroup(s, |s|, "", nonEmpty);
  }

  /** A group taken from whitespace is whitespace, found when the leading whitespace
      is non-empty. */
  lemma BlankGroup(s: string, n: nat, t: string, nonEmpty: bool)
    requires n <= |s| && forall i | 0 <= i < n :: IsSpace(s[i])
    requires AllSpace(t) && (nonEmpty ==> n > 0)
    ensures Group(s, n, t, nonEmpty).Some?
    ensures Trim(Group(s, n, t, nonEmpty).value) == ""
  {
    assert NoQuotes(t);
    SpanConcat(t, "", NotQuote);
    assert t + "" == t && t[|t|..] == "" && t[..|t|] == t;
    var g := Group(s, n, t, nonEmpty);
    assert AllSpace(g.value);
    TrimEmptyOfSpace(g.value);
  }

  lemma TrimEmptyOfSpace(s: string)
    requires AllSpace(s)
    ensures Trim(s) == ""
  {
    TrimSplit(s, "", "");
    assert s + "" + "" == s;
  }

  /** A quote inside the value, followed by anything but whitespace, makes the tail
      pattern fail, whichever form the group has. */
  lemma InteriorQuoteRejected(w: string, q1: string, v: string, q: char, u: string, nonEmpty: bool)
    requires AllSpace(w) && OptQuote(q1) && NoQuotes(v) && IsQuote(q) && !AllSpace(u)
    requires q1 == "" ==> |v| > 0 && !IsSpace(v[0])
    ensures QuotedTail(w + q1 + v + [q] + u, nonEmpty).None?
  {
    var t := v + [q] + u;
    Assoc3(w + q1, v + [q], u);
    Assoc3(w + q1, v, [q]);
    if q1 == "" {
      assert t[0] == v[0];
    }
    Opening(w, q1, t, nonEmpty);
    RejectedGroup(w + q1 + t, |w|, v, q, u, nonEmpty);
  }

  lemma RejectedGroup(s: string, w: nat, v: string, q: char, u: string, nonEmpty: bool)
    requires w <= |s| && forall i | 0 <= i < w :: IsSpace(s[i])
    requires NoQuotes(v) && IsQuote(q) && !AllSpace(u)
    ensures Group(s, w, v + [q] + u, nonEmpty).None?
  {
    var t := v + [q] + u;
    assert t == v + ([q] + u);
    SpanConcat(v, [q] + u, NotQuote);
    assert t[|v|..] == [q] + u;
    assert ([q] + u)[1..] == u;
  }
}
