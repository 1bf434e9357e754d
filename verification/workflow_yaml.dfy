/**
 * The restricted YAML reader of the step accessor (`parseWorkflowYaml` in the
 * JavaScript copy, `parseSimpleYaml` in the TypeScript copy of `get_next_prompt`).
 *
 * The reader is one forward fold over the lines of the text. Each line is classified
 * by three regular expressions, tried in order:
 *   top-level    `^(\w+):\s*(.*)$`
 *   item start   `^(\s+)-\s+(\w+):\s*(.*)$`
 *   continuation `^(\s+)(\w+):\s*(.*)$`
 * and the fold state is the five variables of the source (`currentKey`,
 * `currentArray`, `currentArrayItem`, `inArray`, `arrayKey`) plus the result object.
 */
module WorkflowYaml {
  import opened Wrappers
  import opened Text

  /** A field of a sequence item: a string, or a boolean coerced from `true`/`false`. */
  datatype Field = Str(text: string) | Bool(flag: bool)

  /** A flat object of a sequence. */
  type Item = map<string, Field>

  /** A top-level value: a string scalar or a sequence of flat objects. */
  datatype Value = Scalar(text: string) | Items(items: seq<Item>)

  /** The object the reader returns. */
  type Document = map<string, Value>

  // ---------------------------------------------------------------------------
  // Line classification
  // ---------------------------------------------------------------------------

  /** `^(\w+):\s*(.*)$`: the key and the value text after the colon and the
      whitespace that follows it. */
  function MatchTopLevel(line: string): (r: Option<(string, string)>)
    ensures r.Some? ==> TopLevelParts(line, r.value.0, r.value.1)
  {
    match KeyColon(line)
    case None => None
    case Some((key, rest)) =>
      match DotRest(rest)
      case None => None
      case Some(value) =>
        TopLevelShape(line, key, rest, value);
        Some((key, value))
  }

  /** `line` is the key `k`, a colon, whitespace and the value `v`, which holds no
      line terminator and does not start with whitespace. */
  predicate TopLevelParts(line: string, k: string, v: string) {
    && IsWord(k)
    && |k| + 1 + |v| <= |line|
    && line[..|k|] == k && line[|k|] == ':'
    && AllSpace(line[|k| + 1..|line| - |v|])
    && line[|line| - |v|..] == v
    && (forall i | 0 <= i < |v| :: !IsLineTerminator(v[i]))
    && (v == "" || !IsSpace(v[0]))
  }

  /** The shape of a matched top-level line, from the shapes of its parts. */
  lemma TopLevelShape(line: string, k: string, rest: string, v: string)
    requires line == k + ":" + rest && IsWord(k)
    requires |v| <= |rest| && AllSpace(rest[..|rest| - |v|]) && v == rest[|rest| - |v|..]
    requires (forall i | 0 <= i < |v| :: !IsLineTerminator(v[i])) && (v == "" || !IsSpace(v[0]))
    ensures TopLevelParts(line, k, v)
  {
    KeyedSlices(k, rest, |v|);
  }

  /** The parts of `key:rest` when the last `n` characters of `rest` are set apart. */
  lemma KeyedSlices(key: string, rest: string, n: nat)
    requires n <= |rest|
    ensures var line := key + ":" + rest;
      && line[..|key|] == key && line[|key|] == ':'
      && line[|key| + 1..|line| - n] == rest[..|rest| - n]
      && line[|line| - n..] == rest[|rest| - n..]
  {
  }

  /** Every line of the top-level shape is matched, with the key and the value the
      greedy match captures: the regular expression and `MatchTopLevel` agree. */
  lemma MatchTopLevelComplete(k: string, w: string, v: string)
    requires IsWord(k)
    requires AllSpace(w)
    requires forall i | 0 <= i < |v| :: !IsLineTerminator(v[i])
    requires v == "" || !IsSpace(v[0])
    ensures MatchTopLevel(k + ":" + w + v) == Some((k, v))
  {
    assert k + ":" + w + v == k + ":" + (w + v);
    KeyColonOf(k, w + v);
    DotRestOf(w, v);
  }

  /** A line of the top-level shape is classified as a top-level line with the key
      and the value the pattern captures. */
  lemma TopLevelLineClassified(line: Line, k: string, w: string, v: string)
    requires line == k + ":" + w + v
    requires IsWord(k)
    requires AllSpace(w)
    requires forall i | 0 <= i < |v| :: !IsLineTerminator(v[i])
    requires v == "" || !IsSpace(v[0])
    ensures Classify(line) == TopLevel(k, v)
  {
    assert line[0] == k[0];
    NotBlankAfterIndent(line, 0);
    MatchTopLevelComplete(k, w, v);
  }

  /** An indented line of the top-level shape, whose key does not follow a dash, is
      classified as a continuation line with that key and value. */
  lemma ContinuationLineClassified(line: Line, ind: string, k: string, w: string, v: string)
    requires line == ind + (k + ":" + w + v)
    requires |ind| > 0 && AllSpace(ind)
    requires IsWord(k)
    requires AllSpace(w)
    requires forall i | 0 <= i < |v| :: !IsLineTerminator(v[i])
    requires v == "" || !IsSpace(v[0])
    ensures Classify(line) == Continuation(k, v)
  {
    var rest := k + ":" + w + v;
    assert rest[0] == k[0];
    Indented(line, ind, rest);
    NotBlankAfterIndent(line, |ind|);
    MatchTopLevelComplete(k, w, v);
  }

  /** An indented dash, whitespace and a text of the top-level shape is classified
      as an item-start line with that key and value. */
  lemma ItemStartLineClassified(line: Line, ind: string, ws: string, k: string, w: string, v: string)
    requires line == ind + ("-" + (ws + (k + ":" + w + v)))
    requires |ind| > 0 && AllSpace(ind) && |ws| > 0 && AllSpace(ws)
    requires IsWord(k)
    requires AllSpace(w)
    requires forall i | 0 <= i < |v| :: !IsLineTerminator(v[i])
    requires v == "" || !IsSpace(v[0])
    ensures Classify(line) == ItemStart(k, v)
  {
    var rest := k + ":" + w + v;
    assert rest[0] == k[0];
    DashedItem(line, ind, ws, rest);
    NotBlankAfterIndent(line, |ind|);
    MatchTopLevelComplete(k, w, v);
  }

  /** The item-start pattern sees the text after the indentation, the dash and the
      whitespace; the top-level pattern does not match an indented line. */
  lemma DashedItem(line: string, ind: string, ws: string, rest: string)
    requires line == ind + ("-" + (ws + rest))
    requires |ind| > 0 && AllSpace(ind) && |ws| > 0 && AllSpace(ws)
    requires |rest| > 0 && !IsSpace(rest[0])
    ensures line[..|ind|] == ind && line[|ind|] == '-'
    ensures MatchTopLevel(line).None? && MatchItemStart(line) == MatchTopLevel(rest)
  {
    IndentedNotTopLevel(line);
    DashedRest(line, ind, ws, rest);
  }

  /** The top-level pattern needs a word character in column 0. */
  lemma IndentedNotTopLevel(line: string)
    requires |line| > 0 && IsSpace(line[0])
    ensures MatchTopLevel(line).None?
  {
    assert Span(line, IsWordChar) == 0;
  }

  lemma DashedRest(line: string, ind: string, ws: string, rest: string)
    requires line == ind + ("-" + (ws + rest))
    requires |ind| > 0 && AllSpace(ind) && |ws| > 0 && AllSpace(ws)
    requires |rest| > 0 && !IsSpace(rest[0])
    ensures line[..|ind|] == ind && line[|ind|] == '-'
    ensures MatchItemStart(line) == MatchTopLevel(rest)
  {
    var after := ws + rest;
    SpanConcat(ind, "-" + after, IsSpace);
    assert line[|ind| + 1..] == after;
    SpanConcat(ws, rest, IsSpace);
    assert after[|ws|..] == rest;
  }

  /** An indented line whose text after the indentation starts with neither
      whitespace nor a dash matches neither the top-level nor the item-start
      pattern, and the continuation pattern sees the text after the indentation. */
  lemma Indented(line: string, ind: string, rest: string)
    requires line == ind + rest
    requires |ind| > 0 && AllSpace(ind)
    requires |rest| > 0 && !IsSpace(rest[0]) && rest[0] != '-'
    ensures line[..|ind|] == ind && line[|ind|] == rest[0]
    ensures MatchTopLevel(line).None? && MatchItemStart(line).None?
    ensures MatchContinuation(line) == MatchTopLevel(rest)
  {
    SpanConcat(ind, rest, IsSpace);
    assert line[|ind|..] == rest;
    assert Span(line, IsWordChar) == 0 by {
      assert IsSpace(line[0]);
    }
  }

  /** `^(\s+)-\s+(\w+):\s*(.*)$`. A greedy `\s+` must stop at the dash and at the
      first word character, so this is the top-level pattern applied after an
      indentation, a dash and at least one more whitespace character. */
  function MatchItemStart(line: string): (r: Option<(string, string)>)
    ensures r.Some? ==> exists ind, ws, rest :: ItemStartParts(line, ind, ws, rest, r.value.0, r.value.1)
  {
    var a := Span(line, IsSpace);
    if 0 < a < |line| && line[a] == '-' then
      var after := line[a + 1..];
      var b := Span(after, IsSpace);
      if b > 0 then
        ItemStartOf(line, a, b);
        MatchTopLevel(after[b..])
      else None
    else
      None
  }

  /** `line` is the indentation `ind`, a dash, the whitespace `ws` and then a text
      `rest` the top-level pattern matches with key `k` and value `v`. */
  predicate ItemStartParts(line: string, ind: string, ws: string, rest: string, k: string, v: string) {
    DashedAfter(line, ind, ws, rest) && MatchTopLevel(rest) == Some((k, v))
  }

  /** The greedy spans of `MatchItemStart` cut an item-start line into its parts. */
  lemma ItemStartOf(line: string, a: nat, b: nat)
    requires a == Span(line, IsSpace) && 0 < a < |line| && line[a] == '-'
    requires b == Span(line[a + 1..], IsSpace) && b > 0
    ensures var m := MatchTopLevel(line[a + 1..][b..]);
      m.Some? ==> exists ind, ws, rest :: ItemStartParts(line, ind, ws, rest, m.value.0, m.value.1)
  {
    DashCut(line, a, b);
    ItemStartWitness(line, line[..a], line[a + 1..][..b], line[a + 1..][b..]);
  }

  lemma ItemStartWitness(line: string, ind: string, ws: string, rest: string)
    requires DashedAfter(line, ind, ws, rest)
    ensures var m := MatchTopLevel(rest);
      m.Some? ==> exists ind, ws, rest :: ItemStartParts(line, ind, ws, rest, m.value.0, m.value.1)
  {
    var m := MatchTopLevel(rest);
    if m.Some? {
      assert ItemStartParts(line, ind, ws, rest, m.value.0, m.value.1);
    }
  }

  /** `^(\s+)(\w+):\s*(.*)$`: the top-level pattern after a non-empty indentation. */
  function MatchContinuation(line: string): (r: Option<(string, string)>)
    ensures r.Some? ==> exists ind, rest :: ContinuationParts(line, ind, rest, r.value.0, r.value.1)
  {
    var a := Span(line, IsSpace);
    if a > 0 then
      ContinuationOf(line, a);
      MatchTopLevel(line[a..])
    else None
  }

  /** The greedy indentation of `MatchContinuation` cuts a continuation line into its
      parts. */
  lemma ContinuationOf(line: string, a: nat)
    requires a == Span(line, IsSpace) && a > 0
    ensures var m := MatchTopLevel(line[a..]);
      m.Some? ==> exists ind, rest :: ContinuationParts(line, ind, rest, m.value.0, m.value.1)
  {
    IndentCut(line, a);
    ContinuationWitness(line, line[..a], line[a..]);
  }

  lemma ContinuationWitness(line: string, ind: string, rest: string)
    requires IndentedAfter(line, ind, rest)
    ensures var m := MatchTopLevel(rest);
      m.Some? ==> exists ind, rest :: ContinuationParts(line, ind, rest, m.value.0, m.value.1)
  {
    var m := MatchTopLevel(rest);
    if m.Some? {
      assert ContinuationParts(line, ind, rest, m.value.0, m.value.1);
    }
  }

  /** `line` is the indentation `ind` and then a text `rest` the top-level pattern
      matches with key `k` and value `v`. */
  predicate ContinuationParts(line: string, ind: string, rest: string, k: string, v: string) {
    IndentedAfter(line, ind, rest) && MatchTopLevel(rest) == Some((k, v))
  }

  /** How the reader sees one line. */
  datatype LineKind =
    | Skipped
    | TopLevel(key: string, value: string)
    | ItemStart(key: string, value: string)
    | Continuation(key: string, value: string)
    | Unmatched

  /** The classification of a line, with the precedence of the source: blank and
      comment lines first, then the three patterns in order. */
  function Classify(line: Line): LineKind {
    if IsBlankOrComment(line) then Skipped
    else
      match MatchTopLevel(line)
      case Some((k, v)) => TopLevel(k, v)
      case None =>
        match MatchItemStart(line)
        case Some((k, v)) => ItemStart(k, v)
        case None =>
          match MatchContinuation(line)
          case Some((k, v)) => Continuation(k, v)
          case None => Unmatched
  }

  // ---------------------------------------------------------------------------
  // Values
  // ---------------------------------------------------------------------------

  /** `value.replace(/^["']|["']$/g, "").trim()`. */
  function Clean(value: string): string {
    Trim(StripQuotes(value))
  }

  /** A continuation field's value: a boolean exactly for the texts `true` and
      `false`, the text itself otherwise. */
  function Coerce(s: string): (f: Field)
    ensures f.Bool? <==> (s == "true" || s == "false")
    ensures f.Bool? ==> (f.flag <==> s == "true")
    ensures f.Str? ==> f.text == s
  {
    if s == "true" then Bool(true)
    else if s == "false" then Bool(false)
    else Str(s)
  }

  // ---------------------------------------------------------------------------
  // The fold
  // ---------------------------------------------------------------------------

  /** The reader's variables: the result object and the five accumulators. */
  datatype Reader = Reader(
    doc: Document,
    currentKey: string,
    currentArray: seq<Item>,
    currentItem: Item,
    inArray: bool,
    arrayKey: string)

  /** The state before the first line. */
  const Start: Reader := Reader(map[], "", [], map[], false, "")

  /** `if (Object.keys(item).length > 0) items.push(item)`. */
  function Append(items: seq<Item>, item: Item): seq<Item> {
    if |item| > 0 then items + [item] else items
  }

  /** The block run before a top-level line and at the end of input: when a sequence
      is open under a non-empty key, push the pending item and store the sequence. */
  function Commit(r: Reader): Reader {
    if r.inArray && r.arrayKey != "" then
      r.(doc := r.doc[r.arrayKey := Items(Append(r.currentArray, r.currentItem))],
         currentArray := [], currentItem := map[], inArray := false)
    else
      r
  }

  /** One iteration of the line loop. */
  function Step(r: Reader, line: Line): Reader {
    Apply(r, Classify(line))
  }

  /** The effect of one classified line on the reader. */
  function Apply(r: Reader, kind: LineKind): Reader {
    match kind
    case Skipped => r
    case TopLevel(key, value) =>
      var c := Commit(r);
      if Trim(value) != "" then c.(doc := c.doc[key := Scalar(Clean(value))])
      else c.(currentKey := key)
    case ItemStart(key, value) =>
      r.(currentArray := Append(r.currentArray, r.currentItem),
         currentItem := map[key := Str(Clean(value))],
         inArray := true,
         arrayKey := r.currentKey)
    case Continuation(key, value) =>
      if r.inArray then r.(currentItem := r.currentItem[key := Coerce(Clean(value))]) else r
    case Unmatched => r
  }

  /** The loop over the lines. */
  function Run(r: Reader, lines: seq<Line>): Reader
    decreases |lines|
  {
    if lines == [] then r else Run(Step(r, lines[0]), lines[1..])
  }

  /** The reader applied to lines that are already split. */
  function ReadLines(lines: seq<Line>): Document {
    Commit(Run(Start, lines)).doc
  }

  // ---------------------------------------------------------------------------
  // Shape invariant
  // ---------------------------------------------------------------------------

  predicate NonEmptyItems(items: seq<Item>) {
    forall i | 0 <= i < |items| :: |items[i]| > 0
  }

  /** Every sequence of the document has at least one item, and every item has at
      least one field. */
  predicate WellShaped(doc: Document) {
    forall k | k in doc && doc[k].Items? :: |doc[k].items| > 0 && NonEmptyItems(doc[k].items)
  }

  /** The reader's invariant: an open sequence always has a pending item with a field,
      a closed one has no leftovers, and everything stored so far is well shaped. */
  ghost predicate Valid(r: Reader) {
    && (r.inArray ==> |r.currentItem| > 0)
    && (!r.inArray ==> r.currentArray == [] && r.currentItem == map[])
    && NonEmptyItems(r.currentArray)
    && WellShaped(r.doc)
  }

  lemma ApplyValid(r: Reader, kind: LineKind)
    requires Valid(r)
    ensures Valid(Apply(r, kind))
  {
    match kind
    case TopLevel(key, value) =>
      CommitValid(r);
      var c := Commit(r);
      if Trim(value) != "" {
        StoreScalarShaped(c.doc, key, Clean(value));
      }
    case ItemStart(key, value) =>
      AppendNonEmpty(r.currentArray, r.currentItem);
    case Continuation(key, value) =>
    case Skipped =>
    case Unmatched =>
  }

  lemma AppendNonEmpty(items: seq<Item>, item: Item)
    requires NonEmptyItems(items)
    ensures NonEmptyItems(Append(items, item))
  {
  }

  lemma StoreScalarShaped(doc: Document, key: string, text: string)
    requires WellShaped(doc)
    ensures WellShaped(doc[key := Scalar(text)])
  {
  }

  lemma StoreItemsShaped(doc: Document, key: string, items: seq<Item>)
    requires WellShaped(doc) && |items| > 0 && NonEmptyItems(items)
    ensures WellShaped(doc[key := Items(items)])
  {
  }

  lemma CommitValid(r: Reader)
    requires Valid(r)
    ensures Valid(Commit(r))
  {
    if r.inArray && r.arrayKey != "" {
      var items := Append(r.currentArray, r.currentItem);
      AppendNonEmpty(r.currentArray, r.currentItem);
      StoreItemsShaped(r.doc, r.arrayKey, items);
    }
  }

  lemma {:induction false} RunValid(r: Reader, lines: seq<Line>)
    requires Valid(r)
    ensures Valid(Run(r, lines))
    decreases |lines|
  {
    if lines != [] {
      ApplyValid(r, Classify(lines[0]));
      RunValid(Step(r, lines[0]), lines[1..]);
    }
  }

  /** `parseWorkflowYaml(content)`. Every sequence it returns has at least one item
      and every item at least one field. */
  function ParseWorkflowYaml(content: string): (doc: Document)
    ensures WellShaped(doc)
  {
    RunValid(Start, Split(content));
    ReadLines(Split(content))
  }

  // ---------------------------------------------------------------------------
  // Properties of the fold
  // ---------------------------------------------------------------------------

  /** Reading `a + b` is reading `a`, then reading `b` from where `a` left off. */
  lemma {:induction false} RunAppend(r: Reader, a: seq<Line>, b: seq<Line>)
    ensures Run(r, a + b) == Run(Run(r, a), b)
    decreases |a|
  {
    if a != [] {
      assert (a + b)[0] == a[0];
      assert (a + b)[1..] == a[1..] + b;
      assert Run(r, a + b) == Run(Step(r, a[0]), a[1..] + b);
      RunAppend(Step(r, a[0]), a[1..], b);
    } else {
      assert a + b == b;
    }
  }

  lemma RunSnoc(r: Reader, a: seq<Line>, line: Line)
    ensures Run(r, a + [line]) == Step(Run(r, a), line)
  {
    RunAppend(r, a, [line]);
  }

  /** Blank lines and comment lines can be deleted anywhere without changing the
      result. */
  lemma SkippedLineIrrelevant(a: seq<Line>, line: Line, b: seq<Line>)
    requires IsBlankOrComment(line)
    ensures ReadLines(a + [line] + b) == ReadLines(a + b)
  {
    LineWithoutEffect(a, line, b);
  }

  /** A top-level line first closes a sequence open under a non-empty key: the
      pending item, when it has a field, is pushed and the sequence is stored under
      its key, unless the line itself then overwrites that key with a scalar.
      Afterwards no sequence is open. */
  lemma TopLevelClosesSequence(r: Reader, key: string, value: string)
    ensures var r2 := Apply(r, TopLevel(key, value));
      !(r2.inArray && r2.arrayKey != "")
    ensures var r2 := Apply(r, TopLevel(key, value));
      r.inArray && r.arrayKey != "" && (Trim(value) == "" || key != r.arrayKey) ==>
        r.arrayKey in r2.doc && r2.doc[r.arrayKey] == Items(Append(r.currentArray, r.currentItem))
    ensures var r2 := Apply(r, TopLevel(key, value));
      r.inArray && r.arrayKey != "" ==> r2.currentArray == [] && r2.currentItem == map[]
  {
    CommitCloses(r);
    TopLevelAfterCommit(r, key, value);
  }

  /** A top-level line changes no stored key other than its own and the key of the
      sequence it closes. */
  lemma TopLevelKeepsOthers(r: Reader, key: string, value: string)
    ensures var r2 := Apply(r, TopLevel(key, value));
      forall k | k in r.doc && k != key && !(r.inArray && k == r.arrayKey) :: k in r2.doc && r2.doc[k] == r.doc[k]
  {
    CommitKeeps(r);
    TopLevelKeepsCommitted(r, key, value);
  }

  /** `Commit` changes no stored key but the one of the sequence it stores. */
  lemma CommitKeeps(r: Reader)
    ensures forall k | k in r.doc && !(r.inArray && k == r.arrayKey) :: k in Commit(r).doc && Commit(r).doc[k] == r.doc[k]
  {
  }

  /** After the commit, a top-level line changes no stored key but its own. */
  lemma TopLevelKeepsCommitted(r: Reader, key: string, value: string)
    ensures forall k | k in Commit(r).doc && k != key ::
      k in Apply(r, TopLevel(key, value)).doc && Apply(r, TopLevel(key, value)).doc[k] == Commit(r).doc[k]
  {
    TopLevelAfterCommit(r, key, value);
  }

  /** What `Commit` keeps and what it stores. */
  lemma CommitCloses(r: Reader)
    ensures var c := Commit(r);
      && !(c.inArray && c.arrayKey != "")
      && (r.inArray && r.arrayKey != "" ==>
            c.doc == r.doc[r.arrayKey := Items(Append(r.currentArray, r.currentItem))]
            && c.currentArray == [] && c.currentItem == map[])
      && (!(r.inArray && r.arrayKey != "") ==> c == r)
  {
  }

  /** A top-level line after the commit either stores a scalar or sets the current
      key. */
  lemma TopLevelAfterCommit(r: Reader, key: string, value: string)
    ensures var c := Commit(r);
      Apply(r, TopLevel(key, value))
        == if Trim(value) != "" then c.(doc := c.doc[key := Scalar(Clean(value))]) else c.(currentKey := key)
  {
  }

  /** In a reachable state the pending item of an open sequence always has a field,
      so closing the sequence stores every item read, the pending one last. */
  lemma TopLevelStoresSequence(r: Reader, key: string, value: string)
    requires Valid(r) && r.inArray && r.arrayKey != ""
    requires Trim(value) == "" || key != r.arrayKey
    ensures var r2 := Apply(r, TopLevel(key, value));
      r.arrayKey in r2.doc && r2.doc[r.arrayKey] == Items(r.currentArray + [r.currentItem])
  {
    TopLevelClosesSequence(r, key, value);
  }

  /** A top-level line `k: v` with a non-empty value stores the cleaned value as a
      string, whatever came before: the last such line for a key wins when it ends
      the input. */
  lemma TopLevelScalarStored(a: seq<Line>, line: Line, k: string, w: string, v: string)
    requires line == k + ":" + w + v
    requires IsWord(k)
    requires AllSpace(w)
    requires forall i | 0 <= i < |v| :: !IsLineTerminator(v[i])
    requires |v| > 0 && !IsSpace(v[0])
    ensures k in ReadLines(a + [line])
    ensures ReadLines(a + [line])[k] == Scalar(Clean(v))
  {
    TopLevelLineClassified(line, k, w, v);
    TrimKeepsFirst(v);
    RunSnoc(Start, a, line);
    TopLevelClosesSequence(Run(Start, a), k, v);
  }

  /** A top-level line with a non-empty value leaves `currentKey` alone, so it never
      becomes the key a following sequence is stored under. */
  lemma InlineKeyNotCurrent(r: Reader, key: string, value: string)
    requires Trim(value) != ""
    ensures Apply(r, TopLevel(key, value)).currentKey == r.currentKey
  {
  }

  /** An item-start line pushes the pending item behind the earlier ones and opens a
      new item whose one field is a string, under the key most recently declared with
      an empty value. */
  lemma ItemStartPushes(r: Reader, key: string, value: string)
    requires Valid(r)
    ensures Apply(r, ItemStart(key, value)).currentArray == r.currentArray + (if r.inArray then [r.currentItem] else [])
    ensures Apply(r, ItemStart(key, value)).currentItem == map[key := Str(Clean(value))]
    ensures Apply(r, ItemStart(key, value)).inArray
    ensures Apply(r, ItemStart(key, value)).arrayKey == r.currentKey
  {
    if r.inArray {
      assert Append(r.currentArray, r.currentItem) == r.currentArray + [r.currentItem];
    } else {
      assert Append(r.currentArray, r.currentItem) == r.currentArray;
    }
  }

  /** While a sequence is open, a continuation line sets one field of the pending
      item: a boolean exactly when the cleaned value is `true` or `false`, the cleaned
      text otherwise. The item's other fields and everything else stay as they were. */
  lemma ContinuationSetsField(r: Reader, key: string, value: string)
    requires r.inArray
    ensures var item := Apply(r, Continuation(key, value)).currentItem;
      && key in item
      && (item[key] == Bool(true) <==> Clean(value) == "true")
      && (item[key] == Bool(false) <==> Clean(value) == "false")
      && (item[key].Str? ==> item[key].text == Clean(value))
      && forall k | k in r.currentItem && k != key :: k in item && item[k] == r.currentItem[k]
    ensures Apply(r, Continuation(key, value)).(currentItem := r.currentItem) == r
  {
  }

  /** Outside a sequence an indented `key: value` line is ignored: deleting it
      changes nothing. */
  lemma ContinuationOutsideIgnored(a: seq<Line>, line: Line, ind: string, k: string, w: string, v: string, b: seq<Line>)
    requires line == ind + (k + ":" + w + v)
    requires |ind| > 0 && AllSpace(ind)
    requires IsWord(k)
    requires AllSpace(w)
    requires forall i | 0 <= i < |v| :: !IsLineTerminator(v[i])
    requires v == "" || !IsSpace(v[0])
    requires !Run(Start, a).inArray
    ensures ReadLines(a + [line] + b) == ReadLines(a + b)
  {
    ContinuationLineClassified(line, ind, k, w, v);
    assert Step(Run(Start, a), line) == Run(Start, a);
    LineWithoutEffect(a, line, b);
  }

  /** A line that leaves the reader's state as it is can be deleted. */
  lemma LineWithoutEffect(a: seq<Line>, line: Line, b: seq<Line>)
    requires Step(Run(Start, a), line) == Run(Start, a)
    ensures ReadLines(a + [line] + b) == ReadLines(a + b)
  {
    RunAppend(Start, a + [line], b);
    RunAppend(Start, a, b);
    RunSnoc(Start, a, line);
  }

  /** An item read before any key with an empty value is not lost: it opens a
      sequence under the empty key, which a top-level line does not close, and it ends
      up in front of the next sequence. */
  lemma LeadingItemCarried(k1: string, v1: string, key: string, k2: string, v2: string)
    requires key != ""
    ensures var r1 := Apply(Start, ItemStart(k1, v1));
      var r2 := Apply(r1, TopLevel(key, ""));
      var r3 := Apply(r2, ItemStart(k2, v2));
      Commit(r3).doc == map[key := Items([map[k1 := Str(Clean(v1))], map[k2 := Str(Clean(v2))]])]
  {
    var i1, i2 := map[k1 := Str(Clean(v1))], map[k2 := Str(Clean(v2))];
    var r1 := Apply(Start, ItemStart(k1, v1));
    FirstItemOpened(k1, v1);
    var r2 := Apply(r1, TopLevel(key, ""));
    DeclarationAfterItem(i1, key);
    var r3 := Apply(r2, ItemStart(k2, v2));
    SecondItemOpened(i1, key, k2, v2);
    assert r3 == Reader(map[], key, [i1], i2, true, key);
    TwoItemsStored(key, i1, i2);
  }

  lemma TwoItemsStored(key: string, i1: Item, i2: Item)
    requires key != "" && |i2| > 0
    ensures Commit(Reader(map[], key, [i1], i2, true, key)).doc == map[key := Items([i1, i2])]
  {
    SequenceStored(Reader(map[], key, [i1], i2, true, key), [i1, i2]);
  }

  lemma FirstItemOpened(k: string, v: string)
    ensures Apply(Start, ItemStart(k, v)) == Reader(map[], "", [], map[k := Str(Clean(v))], true, "")
  {
    ItemOpened(Start, k, v);
  }

  lemma DeclarationAfterItem(item: Item, key: string)
    ensures Apply(Reader(map[], "", [], item, true, ""), TopLevel(key, "")) == Reader(map[], key, [], item, true, "")
  {
    DeclarationKeepsSequence(Reader(map[], "", [], item, true, ""), key);
  }

  lemma SecondItemOpened(item: Item, key: string, k: string, v: string)
    requires |item| > 0
    ensures Apply(Reader(map[], key, [], item, true, ""), ItemStart(k, v))
      == Reader(map[], key, [item], map[k := Str(Clean(v))], true, key)
  {
    ItemOpened(Reader(map[], key, [], item, true, ""), k, v);
  }

  lemma ItemOpened(r: Reader, k: string, v: string)
    ensures Apply(r, ItemStart(k, v)) == r.(currentArray := Append(r.currentArray, r.currentItem),
      currentItem := map[k := Str(Clean(v))], inArray := true, arrayKey := r.currentKey)
  {
  }

  lemma SequenceStored(r: Reader, items: seq<Item>)
    requires r.inArray && r.arrayKey != "" && items == Append(r.currentArray, r.currentItem)
    ensures Commit(r).doc == r.doc[r.arrayKey := Items(items)]
  {
  }

  /** A key with an empty value only becomes the current key when no sequence is
      open under a non-empty key. */
  lemma DeclarationKeepsSequence(r: Reader, key: string)
    requires !(r.inArray && r.arrayKey != "")
    ensures Apply(r, TopLevel(key, "")) == r.(currentKey := key)
  {
    TrimEmpty("");
  }

  /** At the end of the input an open sequence is stored under its key, pending item
      last. */
  lemma EndCommitsPending(lines: seq<Line>)
    ensures var r := Run(Start, lines);
      r.inArray && r.arrayKey != "" ==>
        ReadLines(lines)[r.arrayKey] == Items(r.currentArray + [r.currentItem])
  {
    RunValid(Start, lines);
  }

  // ---------------------------------------------------------------------------
  // Only keys declared with an empty value host sequences
  // ---------------------------------------------------------------------------

  /** `line` is a top-level line with an empty value. */
  predicate IsEmptyDeclaration(line: Line) {
    var c := Classify(line);
    c.TopLevel? && Trim(c.value) == ""
  }

  /** `line` is a top-level line for `key` with an empty value. */
  predicate DeclaresEmpty(line: Line, key: string) {
    IsEmptyDeclaration(line) && Classify(line).key == key
  }

  /** Some line of `lines` declares `key` with an empty value. */
  ghost predicate Declared(lines: seq<Line>, key: string) {
    exists i | 0 <= i < |lines| :: DeclaresEmpty(lines[i], key)
  }

  /** The keys some line of `lines` declares with an empty value. */
  ghost function DeclaredKeys(lines: seq<Line>): iset<string> {
    iset k | Declared(lines, k)
  }

  /** The keys the reader holds, as the current key, as the key of the open sequence
      or as a key of a stored sequence, are all in `keys`. */
  ghost predicate KeysIn(r: Reader, keys: iset<string>) {
    && (r.currentKey != "" ==> r.currentKey in keys)
    && (r.arrayKey != "" ==> r.arrayKey in keys)
    && forall k | k in r.doc && r.doc[k].Items? :: k in keys
  }

  ghost predicate KeysDeclared(lines: seq<Line>, r: Reader) {
    KeysIn(r, DeclaredKeys(lines))
  }

  lemma DeclaredGrows(lines: seq<Line>, line: Line, key: string)
    requires Declared(lines, key)
    ensures Declared(lines + [line], key)
  {
    var i :| 0 <= i < |lines| && DeclaresEmpty(lines[i], key);
    assert (lines + [line])[i] == lines[i];
  }

  lemma {:induction false} RunKeysDeclared(lines: seq<Line>)
    ensures KeysDeclared(lines, Run(Start, lines))
    decreases |lines|
  {
    if lines != [] {
      var init, last := lines[..|lines| - 1], lines[|lines| - 1];
      assert init + [last] == lines;
      RunKeysDeclared(init);
      RunSnoc(Start, init, last);
      StepKeysDeclared(init, last, Run(Start, init));
    }
  }

  /** One more line keeps every key of the reader declared. */
  lemma StepKeysDeclared(init: seq<Line>, last: Line, r: Reader)
    requires KeysDeclared(init, r)
    ensures KeysDeclared(init + [last], Step(r, last))
  {
    var lines := init + [last];
    var before, after := DeclaredKeys(init), DeclaredKeys(lines);
    forall k | k in before ensures k in after {
      DeclaredGrows(init, last, k);
    }
    KeysInGrow(r, before, after);
    var kind := Classify(last);
    if kind.TopLevel? && Trim(kind.value) == "" {
      assert IsEmptyDeclaration(last);
      assert lines[|lines| - 1] == last;
      assert DeclaresEmpty(lines[|lines| - 1], kind.key);
      assert kind.key in after;
    }
    ApplyKeysIn(r, kind, after);
  }

  lemma KeysInGrow(r: Reader, before: iset<string>, after: iset<string>)
    requires KeysIn(r, before) && before <= after
    ensures KeysIn(r, after)
  {
  }

  /** Only a top-level line with an empty value brings in a new key. */
  lemma ApplyKeysIn(r: Reader, kind: LineKind, keys: iset<string>)
    requires KeysIn(r, keys)
    requires kind.TopLevel? && Trim(kind.value) == "" ==> kind.key in keys
    ensures KeysIn(Apply(r, kind), keys)
  {
  }

  /** Every key that holds a sequence was declared by some top-level line with an
      empty value; a key only ever given inline values is never a sequence. */
  lemma SequencesOnlyUnderEmptyKeys(lines: seq<Line>)
    ensures forall k | k in ReadLines(lines) && ReadLines(lines)[k].Items? :: Declared(lines, k)
  {
    RunKeysDeclared(lines);
  }

  /** Without any top-level key with an empty value, the result holds only strings. */
  lemma NoEmptyKeyOnlyScalars(lines: seq<Line>)
    requires forall i | 0 <= i < |lines| :: !IsEmptyDeclaration(lines[i])
    ensures forall k | k in ReadLines(lines) :: ReadLines(lines)[k].Scalar?
  {
    SequencesOnlyUnderEmptyKeys(lines);
  }
}
