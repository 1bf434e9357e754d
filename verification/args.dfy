/**
 * The argument-section reader `parseArgsFromYaml` (one algorithm, three copies).
 *
 * The reader looks for a column-0 `args:` header, then reads a list of argument
 * declarations: a line `  - key: value` opens a declaration and may set one of its
 * fields, and indented `key: value` lines set more fields of the open declaration.
 * The first column-0 lower-case key ends the section and stops the loop. Only the
 * fields `name`, `description` and `required` are recognised, and a declaration is
 * returned only when it has a non-empty name.
 */
module Args {
  import opened Wrappers
  import opened Text

  /** An argument declaration. `description` is absent when no description field was
      seen; a declaration under construction with no name, or an empty one, has
      `name == ""` (both are falsy and are never returned). */
  datatype Arg = Arg(name: string, description: Option<string>, required: bool)

  /** `{ required: false }`: a declaration as an item-start line opens it. */
  const Fresh: Arg := Arg("", None, false)

  // ---------------------------------------------------------------------------
  // Line classification
  // ---------------------------------------------------------------------------

  /** `^args:\s*$`. */
  predicate IsArgsHeader(line: string) {
    |line| >= 5 && line[..5] == "args:" && AllSpace(line[5..])
  }

  /** `^[a-z]+:`: a column-0 lower-case key. Since `:` is not a lower-case letter, the
      run is the maximal one. */
  predicate IsSectionEnd(line: string) {
    var n := Span(line, IsLower);
    0 < n < |line| && line[n] == ':'
  }

  /** `^\s+-\s+`: indentation, a dash, and at least one whitespace character. */
  predicate IsItemStart(line: string) {
    var a := Span(line, IsSpace);
    0 < a < |line| && line[a] == '-' && Span(line[a + 1..], IsSpace) > 0
  }

  /** `(\w+):\s*["']?([^"'\n]*)["']?\s*$` on the text after the indentation: the key
      and the captured value. */
  function KeyField(s: string): (f: Option<(string, string)>)
    ensures f.Some? ==> |f.value.0| > 0 && NoQuotes(f.value.1)
  {
    match KeyColon(s)
    case None => None
    case Some((key, rest)) =>
      match QuotedTail(rest, false)
      case None => None
      case Some(value) => Some((key, value))
  }

  /** The field of an item-start line, `^\s+-\s+(\w+):…`: the field pattern applied
      after the indentation, the dash and the whitespace. */
  function ItemField(line: string): (f: Option<(string, string)>)
    ensures f.Some? ==> exists ind, ws, rest :: DashedAfter(line, ind, ws, rest) && KeyField(rest) == f
  {
    var a := Span(line, IsSpace);
    if 0 < a < |line| && line[a] == '-' then
      var after := line[a + 1..];
      var b := Span(after, IsSpace);
      if b > 0 then
        DashCut(line, a, b);
        KeyField(after[b..])
      else None
    else
      None
  }

  /** The field of a nested line, `^\s+(\w+):…`: the field pattern applied after the
      indentation. */
  function NestedField(line: string): (f: Option<(string, string)>)
    ensures f.Some? ==> exists ind, rest :: IndentedAfter(line, ind, rest) && KeyField(rest) == f
  {
    var a := Span(line, IsSpace);
    if a > 0 then
      IndentCut(line, a);
      KeyField(line[a..])
    else None
  }

  /** The effect of a matched field on the declaration: the three recognised keys set
      their field from the trimmed value, any other key and a failed match change
      nothing. */
  function ApplyField(arg: Arg, field: Option<(string, string)>): (a: Arg)
    ensures field.None? ==> a == arg
    ensures field.Some? && field.value.0 !in {"name", "description", "required"} ==> a == arg
    ensures field.Some? && field.value.0 == "name" ==> a == arg.(name := Trim(field.value.1))
    ensures field.Some? && field.value.0 == "description" ==> a == arg.(description := Some(Trim(field.value.1)))
    ensures field.Some? && field.value.0 == "required" ==> a == arg.(required := Trim(field.value.1) == "true")
  {
    match field
    case None => arg
    case Some((key, value)) =>
      if key == "name" then arg.(name := Trim(value))
      else if key == "description" then arg.(description := Some(Trim(value)))
      else if key == "required" then arg.(required := Trim(value) == "true")
      else arg
  }

  /** `if (currentArg?.name) args.push(currentArg)`. */
  function PushNamed(args: seq<Arg>, current: Option<Arg>): seq<Arg> {
    if current.Some? && current.value.name != "" then args + [current.value] else args
  }

  // ---------------------------------------------------------------------------
  // The fold
  // ---------------------------------------------------------------------------

  /** The reader's variables: `inArgs`, `currentArg` (`None` for `null`), the
      collected `args` and `sectionEnded`, which also stands for the `break`. */
  datatype ArgsReader = ArgsReader(inArgs: bool, current: Option<Arg>, args: seq<Arg>, ended: bool)

  const ArgsStart: ArgsReader := ArgsReader(false, None, [], false)

  /** One iteration of the line loop; after the `break` nothing changes. */
  function ArgsStep(r: ArgsReader, line: Line): ArgsReader {
    if r.ended || IsBlankOrComment(line) then r
    else if IsArgsHeader(line) then r.(inArgs := true)
    else if r.inArgs && IsSectionEnd(line) then r.(args := PushNamed(r.args, r.current), ended := true)
    else if !r.inArgs then r
    else if IsItemStart(line) then
      r.(args := PushNamed(r.args, r.current), current := Some(ApplyField(Fresh, ItemField(line))))
    else if r.current.Some? then r.(current := Some(ApplyField(r.current.value, NestedField(line))))
    else r
  }

  function ArgsRun(r: ArgsReader, lines: seq<Line>): ArgsReader
    decreases |lines|
  {
    if lines == [] then r else ArgsRun(ArgsStep(r, lines[0]), lines[1..])
  }

  /** After the loop: the pending declaration is pushed unless the section ended. */
  function Finish(r: ArgsReader): seq<Arg> {
    if r.ended then r.args else PushNamed(r.args, r.current)
  }

  function ParseArgsLines(lines: seq<Line>): seq<Arg> {
    Finish(ArgsRun(ArgsStart, lines))
  }

  /** Every declaration in the list has a name. */
  predicate AllNamed(args: seq<Arg>) {
    forall i | 0 <= i < |args| :: args[i].name != ""
  }

  /** `parseArgsFromYaml(content)`: every declaration it returns has a non-empty
      name. */
  function ParseArgsFromYaml(content: string): (args: seq<Arg>)
    ensures AllNamed(args)
  {
    ArgsRunNamed(ArgsStart, Split(content));
    ParseArgsLines(Split(content))
  }

  // ---------------------------------------------------------------------------
  // Properties of the fold
  // ---------------------------------------------------------------------------

  lemma PushNamedNamed(args: seq<Arg>, current: Option<Arg>)
    requires AllNamed(args)
    ensures AllNamed(PushNamed(args, current))
  {
  }

  lemma {:induction false} ArgsRunNamed(r: ArgsReader, lines: seq<Line>)
    requires AllNamed(r.args)
    ensures AllNamed(ArgsRun(r, lines).args)
    ensures AllNamed(Finish(ArgsRun(r, lines)))
    decreases |lines|
  {
    if lines != [] {
      PushNamedNamed(r.args, r.current);
      ArgsRunNamed(ArgsStep(r, lines[0]), lines[1..]);
    } else {
      PushNamedNamed(r.args, r.current);
    }
  }

  lemma {:induction false} ArgsRunAppend(r: ArgsReader, a: seq<Line>, b: seq<Line>)
    ensures ArgsRun(r, a + b) == ArgsRun(ArgsRun(r, a), b)
    decreases |a|
  {
    if a != [] {
      assert (a + b)[0] == a[0];
      assert (a + b)[1..] == a[1..] + b;
      assert ArgsRun(r, a + b) == ArgsRun(ArgsStep(r, a[0]), a[1..] + b);
      ArgsRunAppend(ArgsStep(r, a[0]), a[1..], b);
    } else {
      assert a + b == b;
    }
  }

  /** Once the section has ended, the remaining lines change nothing. */
  lemma {:induction false} EndedStays(r: ArgsReader, lines: seq<Line>)
    requires r.ended
    ensures ArgsRun(r, lines) == r
    decreases |lines|
  {
    if lines != [] {
      EndedStays(ArgsStep(r, lines[0]), lines[1..]);
    }
  }

  /** Lines after the end of the section are ignored. */
  lemma AfterEndIgnored(a: seq<Line>, b: seq<Line>)
    requires ArgsRun(ArgsStart, a).ended
    ensures ParseArgsLines(a + b) == ParseArgsLines(a)
  {
    ArgsRunAppend(ArgsStart, a, b);
    EndedStays(ArgsRun(ArgsStart, a), b);
  }

  /** Before any header the reader's state does not move. */
  lemma {:induction false} NoHeaderStays(lines: seq<Line>)
    requires forall i | 0 <= i < |lines| :: !IsArgsHeader(lines[i])
    ensures ArgsRun(ArgsStart, lines) == ArgsStart
    decreases |lines|
  {
    if lines != [] {
      assert ArgsStep(ArgsStart, lines[0]) == ArgsStart;
      NoHeaderStays(lines[1..]);
    }
  }

  /** All lines before the first `args:` header are ignored. */
  lemma BeforeHeaderIgnored(a: seq<Line>, b: seq<Line>)
    requires forall i | 0 <= i < |a| :: !IsArgsHeader(a[i])
    ensures ParseArgsLines(a + b) == ParseArgsLines(b)
  {
    ArgsRunAppend(ArgsStart, a, b);
    NoHeaderStays(a);
  }

  /** Without an `args:` header the result is empty. */
  lemma NoHeaderNoArgs(lines: seq<Line>)
    requires forall i | 0 <= i < |lines| :: !IsArgsHeader(lines[i])
    ensures ParseArgsLines(lines) == []
  {
    NoHeaderStays(lines);
  }

  /** The number of item-start lines. */
  function CountItemStarts(lines: seq<Line>): nat {
    if lines == [] then 0
    else CountItemStarts(lines[..|lines| - 1]) + (if IsItemStart(lines[|lines| - 1]) then 1 else 0)
  }

  /** The declarations collected and pending never outnumber the item-start lines
      read. */
  ghost predicate Bounded(r: ArgsReader, count: nat) {
    |r.args| + (if r.current.Some? && !r.ended then 1 else 0) <= count
  }

  lemma StepBounded(r: ArgsReader, line: Line, count: nat)
    requires Bounded(r, count)
    ensures Bounded(ArgsStep(r, line), count + (if IsItemStart(line) then 1 else 0))
  {
  }

  lemma {:induction false} RunBounded(lines: seq<Line>)
    ensures Bounded(ArgsRun(ArgsStart, lines), CountItemStarts(lines))
    decreases |lines|
  {
    if lines != [] {
      var init, last := lines[..|lines| - 1], lines[|lines| - 1];
      assert init + [last] == lines;
      RunBounded(init);
      ArgsRunAppend(ArgsStart, init, [last]);
      StepBounded(ArgsRun(ArgsStart, init), last, CountItemStarts(init));
    }
  }

  /** The result has at most as many declarations as there are item-start lines. */
  lemma ResultBounded(lines: seq<Line>)
    ensures |ParseArgsLines(lines)| <= CountItemStarts(lines)
  {
    RunBounded(lines);
  }

  // ---------------------------------------------------------------------------
  // The fields of one declaration: the last occurrence of each key wins
  // ---------------------------------------------------------------------------

  /** The fields applied in order to a declaration. */
  function FoldFields(a: Arg, fields: seq<Option<(string, string)>>): Arg
    decreases |fields|
  {
    if fields == [] then a else FoldFields(ApplyField(a, fields[0]), fields[1..])
  }

  predicate HasKey(field: Option<(string, string)>, key: string) {
    field.Some? && field.value.0 == key
  }

  /** `i` is the position of the last field with `key`. */
  ghost predicate IsLast(fields: seq<Option<(string, string)>>, key: string, i: int) {
    && 0 <= i < |fields| && HasKey(fields[i], key)
    && forall j | i < j < |fields| :: !HasKey(fields[j], key)
  }

  ghost predicate Absent(fields: seq<Option<(string, string)>>, key: string) {
    forall j | 0 <= j < |fields| :: !HasKey(fields[j], key)
  }

  lemma {:induction false} FoldAbsent(a: Arg, fields: seq<Option<(string, string)>>)
    ensures Absent(fields, "name") ==> FoldFields(a, fields).name == a.name
    ensures Absent(fields, "description") ==> FoldFields(a, fields).description == a.description
    ensures Absent(fields, "required") ==> FoldFields(a, fields).required == a.required
    decreases |fields|
  {
    if fields != [] {
      FoldAbsent(ApplyField(a, fields[0]), fields[1..]);
      assert forall j | 0 <= j < |fields[1..]| :: fields[1..][j] == fields[j + 1];
    }
  }

  /** A declaration's `required` comes from the last `required` field: it is true
      exactly when that field's value trims to `true`. */
  lemma {:induction false} FoldLastRequired(a: Arg, fields: seq<Option<(string, string)>>, i: int)
    requires IsLast(fields, "required", i)
    ensures FoldFields(a, fields).required <==> Trim(fields[i].value.1) == "true"
    decreases |fields|
  {
    var a1, rest := ApplyField(a, fields[0]), fields[1..];
    assert forall j | 0 <= j < |rest| :: rest[j] == fields[j + 1];
    if i == 0 {
      FoldAbsent(a1, rest);
    } else {
      FoldLastRequired(a1, rest, i - 1);
    }
  }

  /** A declaration's `name` is the trimmed value of the last `name` field. */
  lemma {:induction false} FoldLastName(a: Arg, fields: seq<Option<(string, string)>>, i: int)
    requires IsLast(fields, "name", i)
    ensures FoldFields(a, fields).name == Trim(fields[i].value.1)
    decreases |fields|
  {
    var a1, rest := ApplyField(a, fields[0]), fields[1..];
    assert forall j | 0 <= j < |rest| :: rest[j] == fields[j + 1];
    if i == 0 {
      FoldAbsent(a1, rest);
    } else {
      FoldLastName(a1, rest, i - 1);
    }
  }

  /** A declaration's `description` is the trimmed value of the last `description`
      field. */
  lemma {:induction false} FoldLastDescription(a: Arg, fields: seq<Option<(string, string)>>, i: int)
    requires IsLast(fields, "description", i)
    ensures FoldFields(a, fields).description == Some(Trim(fields[i].value.1))
    decreases |fields|
  {
    var a1, rest := ApplyField(a, fields[0]), fields[1..];
    assert forall j | 0 <= j < |rest| :: rest[j] == fields[j + 1];
    if i == 0 {
      FoldAbsent(a1, rest);
    } else {
      FoldLastDescription(a1, rest, i - 1);
    }
  }

  // ---------------------------------------------------------------------------
  // A section made of declaration blocks
  // ---------------------------------------------------------------------------

  /** A line that neither ends the section nor opens a declaration: it is skipped,
      a repeated header, or a candidate field line. */
  predicate InItem(line: Line) {
    IsBlankOrComment(line) || IsArgsHeader(line) || (!IsSectionEnd(line) && !IsItemStart(line))
  }

  /** The field a line inside a declaration contributes. */
  function LineField(line: Line): Option<(string, string)> {
    if IsBlankOrComment(line) || IsArgsHeader(line) then None else NestedField(line)
  }

  function Fields(lines: seq<Line>): (fs: seq<Option<(string, string)>>)
    ensures |fs| == |lines|
    decreases |lines|
  {
    if lines == [] then [] else [LineField(lines[0])] + Fields(lines[1..])
  }

  /** A declaration block: an item-start line and the lines of its declaration. */
  ghost predicate IsBlock(b: seq<Line>) {
    |b| > 0 && IsItemStart(b[0]) && forall i | 1 <= i < |b| :: InItem(b[i])
  }

  /** The fields of a block: the one on its item-start line, then one per line. */
  function BlockFields(b: seq<Line>): seq<Option<(string, string)>> {
    if b == [] then [] else [ItemField(b[0])] + Fields(b[1..])
  }

  /** The declaration a block describes: its fields applied in order to a fresh one. */
  function BlockArg(b: seq<Line>): Arg {
    FoldFields(Fresh, BlockFields(b))
  }

  function Flatten(bs: seq<seq<Line>>): seq<Line>
    decreases |bs|
  {
    if bs == [] then [] else bs[0] + Flatten(bs[1..])
  }

  function BlockArgs(bs: seq<seq<Line>>): seq<Arg>
    decreases |bs|
  {
    if bs == [] then [] else [BlockArg(bs[0])] + BlockArgs(bs[1..])
  }

  /** The named declarations, in order. */
  function Named(args: seq<Arg>): seq<Arg>
    decreases |args|
  {
    if args == [] then [] else (if args[0].name != "" then [args[0]] else []) + Named(args[1..])
  }

  /** What the reader would return if the input ended here. */
  function Flush(r: ArgsReader): seq<Arg> {
    PushNamed(r.args, r.current)
  }

  lemma HeaderStartsWithA(line: Line)
    requires IsArgsHeader(line)
    ensures line[0] == 'a'
  {
    assert line[0] == line[..5][0];
  }

  lemma HeaderNotBlank(line: Line)
    requires IsArgsHeader(line)
    ensures !IsBlankOrComment(line)
  {
    HeaderStartsWithA(line);
    NotBlankAfterIndent(line, 0);
  }

  lemma SectionEndNotBlank(line: Line)
    requires IsSectionEnd(line)
    ensures !IsBlankOrComment(line)
  {
    NotBlankAfterIndent(line, 0);
  }

  /** An item-start line is not skipped, is not a header and does not end the
      section, since it starts with whitespace followed by a dash. */
  lemma ItemStartClassified(line: Line)
    requires IsItemStart(line)
    ensures !IsBlankOrComment(line) && !IsArgsHeader(line) && !IsSectionEnd(line)
  {
    var a := Span(line, IsSpace);
    assert AllSpace(line[..a]);
    NotBlankAfterIndent(line, a);
    assert IsSpace(line[0]);
    assert !IsLower(line[0]);
    assert line[0] != 'a';
    if IsArgsHeader(line) {
      HeaderStartsWithA(line);
    }
  }

  /** A line inside a declaration sets at most one field of the open declaration. */
  lemma InItemStep(r: ArgsReader, line: Line)
    requires r.inArgs && !r.ended && r.current.Some? && InItem(line)
    ensures ArgsStep(r, line) == r.(current := Some(ApplyField(r.current.value, LineField(line))))
  {
  }

  /** A line inside the section but before any declaration changes nothing. */
  lemma PadStep(r: ArgsReader, line: Line)
    requires r.inArgs && !r.ended && r.current.None? && InItem(line)
    ensures ArgsStep(r, line) == r
  {
  }

  lemma {:induction false} PadRun(r: ArgsReader, lines: seq<Line>)
    requires r.inArgs && !r.ended && r.current.None?
    requires forall i | 0 <= i < |lines| :: InItem(lines[i])
    ensures ArgsRun(r, lines) == r
    decreases |lines|
  {
    if lines != [] {
      PadStep(r, lines[0]);
      PadRun(r, lines[1..]);
    }
  }

  lemma {:induction false} InItemRun(r: ArgsReader, lines: seq<Line>)
    requires r.inArgs && !r.ended && r.current.Some?
    requires forall i | 0 <= i < |lines| :: InItem(lines[i])
    ensures ArgsRun(r, lines) == r.(current := Some(FoldFields(r.current.value, Fields(lines))))
    decreases |lines|
  {
    if lines != [] {
      InItemStep(r, lines[0]);
      var r1 := ArgsStep(r, lines[0]);
      InItemRun(r1, lines[1..]);
    }
  }

  /** Reading a block flushes the pending declaration and leaves the block's own
      declaration pending. */
  lemma BlockRun(r: ArgsReader, b: seq<Line>)
    requires r.inArgs && !r.ended && IsBlock(b)
    ensures ArgsRun(r, b) == r.(args := Flush(r), current := Some(BlockArg(b)))
  {
    ItemStartClassified(b[0]);
    var r1 := ArgsStep(r, b[0]);
    assert r1 == r.(args := Flush(r), current := Some(ApplyField(Fresh, ItemField(b[0]))));
    InItemRun(r1, b[1..]);
    assert BlockFields(b)[0] == ItemField(b[0]);
    assert BlockFields(b)[1..] == Fields(b[1..]);
  }

  lemma {:induction false} BlocksRun(r: ArgsReader, bs: seq<seq<Line>>)
    requires r.inArgs && !r.ended
    requires forall i | 0 <= i < |bs| :: IsBlock(bs[i])
    ensures ArgsRun(r, Flatten(bs)).inArgs && !ArgsRun(r, Flatten(bs)).ended
    ensures Flush(ArgsRun(r, Flatten(bs))) == Flush(r) + Named(BlockArgs(bs))
    decreases |bs|
  {
    if bs == [] {
      assert Flush(r) + [] == Flush(r);
    } else {
      var b, rest := bs[0], bs[1..];
      assert IsBlock(b);
      assert Flatten(bs) == b + Flatten(rest);
      ArgsRunAppend(r, b, Flatten(rest));
      BlockRun(r, b);
      var r1 := r.(args := Flush(r), current := Some(BlockArg(b)));
      BlocksRun(r1, rest);
      FlushAfterBlock(r, BlockArg(b), BlockArgs(rest));
    }
  }

  lemma FlushAfterBlock(r: ArgsReader, x: Arg, later: seq<Arg>)
    ensures Flush(r.(args := Flush(r), current := Some(x))) + Named(later)
      == Flush(r) + Named([x] + later)
  {
    assert ([x] + later)[1..] == later;
    if x.name != "" {
      assert Named([x] + later) == [x] + Named(later);
      assert Flush(r) + [x] + Named(later) == Flush(r) + ([x] + Named(later));
    } else {
      assert Named([x] + later) == Named(later);
    }
  }

  /** The reader against a two-phase reading: skip to the header, cut the section into
      declaration blocks, build each block's declaration from its fields and keep the
      named ones in order. Whether the section is closed by a column-0 key or by the
      end of the input, the results agree. */
  lemma SectionOfBlocks(pre: seq<Line>, header: Line, pad: seq<Line>, bs: seq<seq<Line>>, tail: seq<Line>)
    requires forall i | 0 <= i < |pre| :: !IsArgsHeader(pre[i])
    requires IsArgsHeader(header)
    requires forall i | 0 <= i < |pad| :: InItem(pad[i])
    requires forall i | 0 <= i < |bs| :: IsBlock(bs[i])
    requires tail == [] || (IsSectionEnd(tail[0]) && !IsArgsHeader(tail[0]))
    ensures ParseArgsLines(pre + [header] + pad + Flatten(bs) + tail) == Named(BlockArgs(bs))
  {
    var body := pad + (Flatten(bs) + tail);
    Assoc3(pre + [header] + pad, Flatten(bs), tail);
    Assoc3(pre + [header], pad, Flatten(bs) + tail);
    Assoc3(pre, [header], body);
    BeforeHeaderIgnored(pre, [header] + body);
    HeaderRun(header, body);
    SectionBody(pad, bs, tail);
  }

  /** The part of the section after the header. */
  lemma SectionBody(pad: seq<Line>, bs: seq<seq<Line>>, tail: seq<Line>)
    requires forall i | 0 <= i < |pad| :: InItem(pad[i])
    requires forall i | 0 <= i < |bs| :: IsBlock(bs[i])
    requires tail == [] || (IsSectionEnd(tail[0]) && !IsArgsHeader(tail[0]))
    ensures Finish(ArgsRun(ArgsReader(true, None, [], false), pad + (Flatten(bs) + tail))) == Named(BlockArgs(bs))
  {
    var r0 := ArgsReader(true, None, [], false);
    ArgsRunAppend(r0, pad, Flatten(bs) + tail);
    PadRun(r0, pad);
    ArgsRunAppend(r0, Flatten(bs), tail);
    BlocksRun(r0, bs);
    TailFinish(ArgsRun(r0, Flatten(bs)), tail);
    assert Flush(r0) + Named(BlockArgs(bs)) == Named(BlockArgs(bs));
  }

  /** The header opens the section. */
  lemma HeaderRun(header: Line, rest: seq<Line>)
    requires IsArgsHeader(header)
    ensures ArgsRun(ArgsStart, [header] + rest) == ArgsRun(ArgsReader(true, None, [], false), rest)
  {
    HeaderNotBlank(header);
    assert ([header] + rest)[0] == header;
    assert ([header] + rest)[1..] == rest;
  }

  /** A section closed by a column-0 key, or by the end of the input, returns what
      was collected together with the pending declaration when it is named. */
  lemma TailFinish(r: ArgsReader, tail: seq<Line>)
    requires r.inArgs && !r.ended
    requires tail == [] || (IsSectionEnd(tail[0]) && !IsArgsHeader(tail[0]))
    ensures Finish(ArgsRun(r, tail)) == Flush(r)
  {
    if tail != [] {
      SectionEndNotBlank(tail[0]);
      var r1 := ArgsStep(r, tail[0]);
      assert r1 == r.(args := Flush(r), ended := true);
      EndedStays(r1, tail[1..]);
    }
  }
}
