/**
 * The workflow catalog: `parseSimpleYaml`, which keeps the top-level `key: value`
 * lines of a workflow file and nothing else, and `getWorkflowCatalog`, which lists
 * every workflow directory with its id, its display name and its description.
 *
 * The directory listing is an input: `None` when the workflows directory does not
 * exist, otherwise its entries in the order the listing gives them, each with its
 * name, whether it is a directory and the content of its `workflow.yaml` when that
 * file exists.
 */
module Catalog {
  import opened Wrappers
  import opened Text

  /** What `parseSimpleYaml` returns: keys to trimmed values. */
  type Fields = map<string, string>

  /** Neither starts nor ends with whitespace. */
  predicate Trimmed(v: string) {
    v == "" || (!IsSpace(v[0]) && !IsSpace(v[|v| - 1]))
  }

  /** `^(\w+):\s*["']?([^"'\n]+)["']?\s*$` with the captured value trimmed. */
  function CatalogLine(line: string): (r: Option<(string, string)>)
    ensures r.Some? ==> IsWord(r.value.0) && exists rest :: line == r.value.0 + ":" + rest
    ensures r.Some? ==> Trimmed(r.value.1)
    ensures r.Some? ==> exists w, q1, v, q2, w2 :: LineParts(line, r.value.0, r.value.1, w, q1, v, q2, w2)
  {
    match KeyColon(line)
    case None => None
    case Some((key, rest)) =>
      match QuotedTail(rest, true)
      case None => None
      case Some(value) =>
        LineShape(line, key, rest, value);
        Some((key, Trim(value)))
  }

  /** `line` is the key, a colon, and the non-empty quote-free group `v` with its
      padding, and `value` is `v` trimmed: the shape `CatalogLineComplete` starts from. */
  predicate LineParts(line: string, k: string, value: string, w: string, q1: string, v: string, q2: string, w2: string) {
    && IsWord(k) && NoQuotes(v) && |v| > 0 && Padding(w, q1, q2, w2)
    && line == k + ":" + w + q1 + v + q2 + w2 && value == Trim(v)
  }

  lemma LineShape(line: string, key: string, rest: string, value: string)
    requires IsWord(key) && line == key + ":" + rest && QuotedTail(rest, true) == Some(value)
    ensures exists w, q1, v, q2, w2 :: LineParts(line, key, Trim(value), w, q1, v, q2, w2)
  {
    var w, q1, q2, w2 :| TailParts(rest, w, q1, value, q2, w2);
    LineWitness(line, key, rest, w, q1, value, q2, w2);
  }

  lemma LineWitness(line: string, key: string, rest: string, w: string, q1: string, v: string, q2: string, w2: string)
    requires IsWord(key) && NoQuotes(v) && |v| > 0
    requires line == key + ":" + rest && TailParts(rest, w, q1, v, q2, w2)
    ensures LineParts(line, key, Trim(v), w, q1, v, q2, w2)
  {
    var p := key + ":";
    Assoc3(p, w + q1 + v + q2, w2);
    Assoc3(p, w + q1 + v, q2);
    Assoc3(p, w + q1, v);
    Assoc3(p, w, q1);
  }

  /** What one line contributes: blank lines and comments are skipped before the
      pattern is tried. */
  function LineEntry(line: string): (e: Option<(string, string)>)
    ensures IsBlankOrComment(line) ==> e.None?
    ensures !IsBlankOrComment(line) ==> e == CatalogLine(line)
    ensures e.Some? ==> IsWord(e.value.0) && Trimmed(e.value.1)
  {
    if IsBlankOrComment(line) then None else CatalogLine(line)
  }

  /** What each line contributes, in order. */
  function LineEntries(lines: seq<string>): (es: seq<Option<(string, string)>>)
    ensures |es| == |lines| && forall i | 0 <= i < |lines| :: es[i] == LineEntry(lines[i])
  {
    seq(|lines|, i requires 0 <= i < |lines| => LineEntry(lines[i]))
  }

  lemma LineEntriesAppend(a: seq<string>, b: seq<string>)
    ensures LineEntries(a + b) == LineEntries(a) + LineEntries(b)
  {
    assert forall i | 0 <= i < |a| :: (a + b)[i] == a[i];
    assert forall i | |a| <= i < |a| + |b| :: (a + b)[i] == b[i - |a|];
  }

  /** The entry records a value for `key`. */
  predicate Defines(e: Option<(string, string)>, key: string) {
    e.Some? && e.value.0 == key
  }

  /** One iteration of the loop over the lines: a later value overwrites. */
  function Record(fields: Fields, e: Option<(string, string)>): Fields {
    match e
    case None => fields
    case Some((k, v)) => fields[k := v]
  }

  function ReadFields(fields: Fields, es: seq<Option<(string, string)>>): Fields
    decreases |es|
  {
    if es == [] then fields else ReadFields(Record(fields, es[0]), es[1..])
  }

  /** Every key is a run of word characters and every value is trimmed. */
  predicate WellFormed(fields: Fields) {
    forall k | k in fields :: IsWord(k) && Trimmed(fields[k])
  }

  /** An entry of a line of the pattern's shape. */
  predicate EntryOk(e: Option<(string, string)>) {
    e.Some? ==> IsWord(e.value.0) && Trimmed(e.value.1)
  }

  lemma {:induction false} ReadFieldsWellFormed(fields: Fields, es: seq<Option<(string, string)>>)
    requires WellFormed(fields)
    requires forall i | 0 <= i < |es| :: EntryOk(es[i])
    ensures WellFormed(ReadFields(fields, es))
    decreases |es|
  {
    if es != [] {
      assert EntryOk(es[0]);
      if es[0].Some? {
        InsertWellFormed(fields, es[0].value.0, es[0].value.1);
      }
      assert forall i | 0 <= i < |es[1..]| :: es[1..][i] == es[i + 1];
      ReadFieldsWellFormed(Record(fields, es[0]), es[1..]);
    }
  }

  lemma InsertWellFormed(fields: Fields, k: string, v: string)
    requires WellFormed(fields) && IsWord(k) && Trimmed(v)
    ensures WellFormed(fields[k := v])
  {
  }

  /** `parseSimpleYaml(content)`. */
  function ParseSimpleYaml(content: string): (fields: Fields)
    ensures WellFormed(fields)
  {
    var es := LineEntries(Split(content));
    assert forall i | 0 <= i < |es| :: EntryOk(es[i]);
    ReadFieldsWellFormed(map[], es);
    ReadFields(map[], es)
  }

  // ---------------------------------------------------------------------------
  // The fold against a reference: the last defining line wins
  // ---------------------------------------------------------------------------

  lemma {:induction false} ReadFieldsAppend(fields: Fields, a: seq<Option<(string, string)>>, b: seq<Option<(string, string)>>)
    ensures ReadFields(fields, a + b) == ReadFields(ReadFields(fields, a), b)
    decreases |a|
  {
    if a != [] {
      assert (a + b)[0] == a[0];
      assert (a + b)[1..] == a[1..] + b;
      ReadFieldsAppend(Record(fields, a[0]), a[1..], b);
    } else {
      assert a + b == b;
    }
  }

  /** Entries that do not define `key` leave its value, or its absence, alone. */
  lemma {:induction false} ReadFieldsUntouched(fields: Fields, es: seq<Option<(string, string)>>, key: string)
    requires forall j | 0 <= j < |es| :: !Defines(es[j], key)
    ensures key in ReadFields(fields, es) <==> key in fields
    ensures key in fields ==> ReadFields(fields, es)[key] == fields[key]
    decreases |es|
  {
    if es != [] {
      assert !Defines(es[0], key);
      assert forall j | 0 <= j < |es[1..]| :: es[1..][j] == es[j + 1];
      ReadFieldsUntouched(Record(fields, es[0]), es[1..], key);
    }
  }

  /** Entry `i` is the last one that defines `key`. */
  predicate LastDefinition(es: seq<Option<(string, string)>>, key: string, i: int) {
    0 <= i < |es| && Defines(es[i], key) && forall j | i < j < |es| :: !Defines(es[j], key)
  }

  lemma {:induction false} ReadFieldsLast(fields: Fields, es: seq<Option<(string, string)>>, key: string, i: int)
    requires LastDefinition(es, key, i)
    ensures key in ReadFields(fields, es)
    ensures ReadFields(fields, es)[key] == es[i].value.1
    decreases |es|
  {
    assert forall j | 0 <= j < |es[1..]| :: es[1..][j] == es[j + 1];
    if i == 0 {
      ReadFieldsUntouched(Record(fields, es[0]), es[1..], key);
    } else {
      ReadFieldsLast(Record(fields, es[0]), es[1..], key, i - 1);
    }
  }

  /** Some entry defines `key`. */
  predicate DefinedIn(es: seq<Option<(string, string)>>, key: string) {
    exists i | 0 <= i < |es| :: Defines(es[i], key)
  }

  lemma ReadFieldsDefined(es: seq<Option<(string, string)>>, key: string)
    ensures key in ReadFields(map[], es) <==> DefinedIn(es, key)
  {
    if i :| 0 <= i < |es| && Defines(es[i], key) {
      var last := LastIndex(es, key, i);
      ReadFieldsLast(map[], es, key, last);
    } else {
      ReadFieldsUntouched(map[], es, key);
    }
  }

  /** A key is present exactly when some line defines it. */
  lemma ParsedKeyDefined(content: string, key: string)
    ensures key in ParseSimpleYaml(content) <==> DefinedIn(LineEntries(Split(content)), key)
  {
    ReadFieldsDefined(LineEntries(Split(content)), key);
  }

  /** The value of a key comes from the last line that defines it. */
  lemma ParsedValueLast(content: string, key: string, i: int)
    requires LastDefinition(LineEntries(Split(content)), key, i)
    ensures key in ParseSimpleYaml(content)
    ensures ParseSimpleYaml(content)[key] == LineEntry(Split(content)[i]).value.1
  {
    ReadFieldsLast(map[], LineEntries(Split(content)), key, i);
  }

  /** The last defining entry at or after `i`. */
  lemma {:induction false} LastIndex(es: seq<Option<(string, string)>>, key: string, i: int) returns (last: int)
    requires 0 <= i < |es| && Defines(es[i], key)
    ensures i <= last && LastDefinition(es, key, last)
    decreases |es| - i
  {
    if j :| i < j < |es| && Defines(es[j], key) {
      last := LastIndex(es, key, j);
    } else {
      last := i;
    }
  }

  // ---------------------------------------------------------------------------
  // Which lines count
  // ---------------------------------------------------------------------------

  /** Every line of the pattern's shape is matched: the key, then after optional
      whitespace and an optional quote a non-empty quote-free value, an optional
      quote and trailing whitespace. The recorded value is the trimmed value. */
  lemma CatalogLineComplete(k: string, w: string, q1: string, v: string, q2: string, w2: string)
    requires IsWord(k) && AllSpace(w) && OptQuote(q1) && NoQuotes(v) && |v| > 0 && OptQuote(q2) && AllSpace(w2)
    ensures CatalogLine(k + ":" + w + q1 + v + q2 + w2) == Some((k, Trim(v)))
  {
    var rest := w + q1 + v + q2 + w2;
    assert k + ":" + w + q1 + v + q2 + w2 == k + ":" + rest;
    KeyColonOf(k, rest);
    QuotedTailComplete(w, q1, v, q2, w2, true);
    var value := QuotedTail(rest, true).value;
    assert CatalogLine(k + ":" + rest) == Some((k, Trim(value)));
  }

  /** A line that starts with whitespace never counts: list items and nested fields
      are not top-level keys. */
  lemma IndentedLineIgnored(line: string)
    requires |line| > 0 && IsSpace(line[0])
    ensures LineEntry(line).None?
  {
    assert !IsWordChar(line[0]);
    assert Span(line, IsWordChar) == 0;
  }

  /** An indented line can be dropped without changing the result. */
  lemma IndentedLineSkipped(fields: Fields, a: seq<string>, line: string, b: seq<string>)
    requires |line| > 0 && IsSpace(line[0])
    ensures ReadFields(fields, LineEntries(a + [line] + b)) == ReadFields(fields, LineEntries(a + b))
  {
    IndentedLineIgnored(line);
    LineEntriesAppend(a + [line], b);
    LineEntriesAppend(a, [line]);
    LineEntriesAppend(a, b);
    var ea, eb := LineEntries(a), LineEntries(b);
    assert LineEntries([line]) == [None];
    ReadFieldsAppend(fields, ea + [None], eb);
    ReadFieldsAppend(fields, ea, [None]);
    ReadFieldsAppend(fields, ea, eb);
  }

  /** A key with nothing after its colon records nothing, since the value group needs
      at least one character: `steps:` introducing a list is not a field. */
  lemma EmptyValueIgnored(k: string)
    requires IsWord(k)
    ensures CatalogLine(k + ":") == None
  {
    assert k + ":" == k + ":" + "";
    KeyColonOf(k, "");
  }

  /** A key followed by whitespace only does record a field, with the empty value:
      the value group takes one of the whitespace characters. */
  lemma SpaceOnlyValueRecordsEmpty(k: string, w: string)
    requires IsWord(k) && AllSpace(w) && |w| > 0
    ensures CatalogLine(k + ":" + w) == Some((k, ""))
  {
    KeyColonOf(k, w);
    SpanConcat(w, "", IsSpace);
    assert w + "" == w;
    var value := QuotedTail(w, true).value;
    assert value == [w[|w| - 1]];
    TrimEmpty(value);
  }

  /** A quote inside the value, followed by more than whitespace, makes the whole
      line fail: such a field is dropped, not cut at the quote. */
  lemma InteriorQuoteIgnored(k: string, w: string, q1: string, v: string, q: char, u: string)
    requires IsWord(k) && AllSpace(w) && OptQuote(q1) && NoQuotes(v) && IsQuote(q) && !AllSpace(u)
    requires q1 == "" ==> |v| > 0 && !IsSpace(v[0])
    ensures CatalogLine(k + ":" + w + q1 + v + [q] + u) == None
  {
    var rest := w + q1 + v + [q] + u;
    assert k + ":" + w + q1 + v + [q] + u == k + ":" + rest;
    KeyColonOf(k, rest);
    InteriorQuoteRejected(w, q1, v, q, u, true);
  }

  // ---------------------------------------------------------------------------
  // The catalog
  // ---------------------------------------------------------------------------

  /** An entry of the workflows directory. */
  datatype DirEntry = DirEntry(name: string, isDirectory: bool, workflowYaml: Option<string>)

  /** What the catalog says about one workflow. */
  datatype CatalogEntry = CatalogEntry(id: string, name: string, description: string)

  /** A directory with a `workflow.yaml` is listed; anything else is skipped. */
  predicate Listed(e: DirEntry) {
    e.isDirectory && e.workflowYaml.Some?
  }

  /** `data.name || entry.name` and `data.description || ""`: an empty value is
      falsy and falls back like a missing one. */
  function Entry(e: DirEntry): (c: CatalogEntry)
    requires Listed(e)
    ensures c.id == e.name
    ensures var data := ParseSimpleYaml(e.workflowYaml.value);
      && ("name" in data && data["name"] != "" ==> c.name == data["name"])
      && (!("name" in data && data["name"] != "") ==> c.name == e.name)
      && ("description" in data ==> c.description == data["description"])
      && ("description" !in data ==> c.description == "")
  {
    var data := ParseSimpleYaml(e.workflowYaml.value);
    CatalogEntry(
      id := e.name,
      name := if "name" in data && data["name"] != "" then data["name"] else e.name,
      description := if "description" in data then data["description"] else "")
  }

  function Entries(es: seq<DirEntry>): (cs: seq<CatalogEntry>)
    ensures |cs| <= |es|
    ensures forall c | c in cs :: exists e | e in es :: Listed(e) && c == Entry(e)
  {
    if es == [] then []
    else
      var rest := Entries(es[1..]);
      assert forall e | e in es[1..] :: e in es;
      if Listed(es[0]) then [Entry(es[0])] + rest else rest
  }

  /** `getWorkflowCatalog(baseDir)`: nothing when the directory is missing. */
  function Catalog(listing: Option<seq<DirEntry>>): (cs: seq<CatalogEntry>)
    ensures listing.None? ==> cs == []
    ensures listing.Some? ==> |cs| <= |listing.value|
    ensures listing.Some? ==> forall c | c in cs :: exists e | e in listing.value :: Listed(e) && c == Entry(e)
  {
    match listing
    case None => []
    case Some(es) => Entries(es)
  }

  // ---------------------------------------------------------------------------
  // Catalog properties
  // ---------------------------------------------------------------------------

  /** The catalog of a listing split in two is the catalog of the first part followed
      by that of the second: entries keep the listing's order. */
  lemma {:induction false} EntriesAppend(a: seq<DirEntry>, b: seq<DirEntry>)
    ensures Entries(a + b) == Entries(a) + Entries(b)
    decreases |a|
  {
    if a == [] {
      assert a + b == b;
    } else {
      assert (a + b)[0] == a[0];
      assert (a + b)[1..] == a[1..] + b;
      EntriesAppend(a[1..], b);
    }
  }

  /** One entry contributes its catalog entry exactly when it is listed. */
  lemma EntriesSingle(e: DirEntry)
    ensures Listed(e) ==> Entries([e]) == [Entry(e)]
    ensures !Listed(e) ==> Entries([e]) == []
  {
    assert [e][1..] == [];
  }

  /** Every listed entry of the directory appears in the catalog. */
  lemma {:induction false} ListedAppears(es: seq<DirEntry>, i: int)
    requires 0 <= i < |es| && Listed(es[i])
    ensures Entry(es[i]) in Entries(es)
    decreases |es|
  {
    EntriesCons(es);
    if i > 0 {
      assert es[1..][i - 1] == es[i];
      ListedAppears(es[1..], i - 1);
    }
  }

  lemma EntriesCons(es: seq<DirEntry>)
    requires es != []
    ensures Entries(es) == (if Listed(es[0]) then [Entry(es[0])] else []) + Entries(es[1..])
  {
  }

  /** The number of listed entries. */
  function CountListed(es: seq<DirEntry>): nat {
    if es == [] then 0 else (if Listed(es[0]) then 1 else 0) + CountListed(es[1..])
  }

  /** One catalog entry per listed directory entry. */
  lemma {:induction false} EntriesCount(es: seq<DirEntry>)
    ensures |Entries(es)| == CountListed(es)
    decreases |es|
  {
    if es != [] {
      EntriesCount(es[1..]);
    }
  }

  /** The entries of a listed workflow's file. */
  function FileEntries(e: DirEntry): seq<Option<(string, string)>>
    requires Listed(e)
  {
    LineEntries(Split(e.workflowYaml.value))
  }

  /** A workflow whose file defines a non-empty `name` is shown under that name, and
      one whose file defines no `name`, or an empty one, under its directory name. */
  lemma EntryName(e: DirEntry, i: int)
    requires Listed(e)
    requires LastDefinition(FileEntries(e), "name", i)
    ensures var v := FileEntries(e)[i].value.1;
      Entry(e).name == if v != "" then v else e.name
  {
    ParsedValueLast(e.workflowYaml.value, "name", i);
  }

  lemma EntryNameMissing(e: DirEntry)
    requires Listed(e)
    requires !DefinedIn(FileEntries(e), "name")
    ensures Entry(e).name == e.name
  {
    ParsedKeyDefined(e.workflowYaml.value, "name");
  }

  /** The description is the last `description` line's value, or empty. */
  lemma EntryDescription(e: DirEntry, i: int)
    requires Listed(e)
    requires LastDefinition(FileEntries(e), "description", i)
    ensures Entry(e).description == FileEntries(e)[i].value.1
  {
    ParsedValueLast(e.workflowYaml.value, "description", i);
  }

  lemma EntryDescriptionMissing(e: DirEntry)
    requires Listed(e)
    requires !DefinedIn(FileEntries(e), "description")
    ensures Entry(e).description == ""
  {
    ParsedKeyDefined(e.workflowYaml.value, "description");
  }
}
