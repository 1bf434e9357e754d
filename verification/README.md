# Progressive workflow: readers, substitution and step selection

This project models the pure core of the progressive-workflow scripts. A workflow is
a directory with a `workflow.yaml` that names a sequence of steps, and each step
names a prompt file. The scripts hand out the steps one at a time. The core has five
parts:

- **The workflow reader** (`parseWorkflowYaml` / `parseSimpleYaml` in the
  `get_next_prompt` scripts). It reads a narrow subset of YAML in one forward pass
  over the lines. The result holds top-level string scalars and sequences of flat
  objects whose fields are strings or booleans. Module `WorkflowYaml`.
- **Placeholder substitution** (`substituteVariables`). It is a single left-to-right
  scan that replaces `{{name}}` tokens by their bindings and keeps unbound tokens
  verbatim. Module `Substitution`, with concrete inputs in `SubstitutionExamples`.
- **Step selection** (`getPrompt` without its file reads). It fails for a missing
  workflow, no steps, an index out of range, a step without a string `prompt` or a
  missing prompt file. Otherwise it returns the step record. Module `Steps`, with
  `Numerals` for how JavaScript writes an integer into a template string.
- **The argument-section reader** (`parseArgsFromYaml`). It is a separate state
  machine that reads the `args:` list of argument declarations. Module `Args`.
- **The catalog** (`parseSimpleYaml` and `getWorkflowCatalog` in the catalog
  scripts). It keeps top-level `key: value` lines and lists every workflow directory
  with its id, name and description. Module `Catalog`.

Module `Text` holds what these parts share:

- the JavaScript character classes `\s` and `\w`;
- `trim`, `split("\n")` and the quote strip `replace(/^["']|["']$/g, "")`;
- the blank-or-comment test;
- closed forms of the regular expressions the readers use.

Each regular expression is written as a function on characters. How far its
agreement with the pattern is proved depends on the pattern:

- The workflow reader's top-level pattern, the `key:` prefix, the `\s*(.*)$` tail,
  the quoted-value tail and the catalog's line pattern are covered in both
  directions. The function's contract describes the shape of every match, and a
  `...Complete` or `...Of` lemma shows that every text of that shape is matched.
- The workflow reader's item-start and continuation patterns are the top-level
  pattern after an indentation, or after an indentation, a dash and whitespace. The
  contracts of `MatchItemStart` and `MatchContinuation` give that shape. The
  `...LineClassified` lemmas show that every such line is read that way.
- The argument reader's two field patterns, `ItemField` and `NestedField`, have only
  the shape direction. Their contracts say a match is the field pattern after that
  prefix.

Several copies of each algorithm exist in the repository, and they are the same code
at different line numbers:

- The workflow reader, substitution and `getPrompt` appear in
  `plugins/progressive-workflow/skills/progressive-workflow/scripts/get_next_prompt.js`
  (lines 12-113) and in `scripts/get_next_prompt.ts` (lines 31-154).
- The argument reader appears in
  `plugins/progressive-workflow/skills/progressive-workflow/scripts/get_workflow_args.js`
  (lines 12-71), in `src/get_workflow_args.ts` (lines 21-80) and in
  `scripts/get_workflow_args.ts` (lines 23-82).
- The catalog appears in `packages/progressive-workflow/src/get_workflow_catalog.ts`
  (lines 20-68) and in `scripts/get_workflow_catalog.ts` (lines 24-72).

Each algorithm is modelled once.

The file system is an input:

- the workflow file is `Option<string>`, with `None` when it does not exist;
- prompt files are a map from the path a step names to the file's content;
- the directory listing is `Option<seq<DirEntry>>`, with `None` when the base
  directory does not exist.

Substitution is single-pass, so it is not idempotent even when no value contains a
token. `SubstitutionExamples.NotIdempotent` proves it: `{{{{X}}}}` with `X` bound to `A` and `A` bound to `B` gives `{{A}}`, and
a second pass gives `B`.

Two more behaviours of the code are kept as written:

- Items read before any key with an empty value open a sequence under the empty key.
  A sequence under the empty key is never stored, so a top-level line does not close
  it. The next item-start line appends to it, so these items end up at the front of
  the next sequence that is stored.
- In the catalog reader, `key:` followed by whitespace only records the empty string,
  because the `+` group can take one whitespace character. `key:` with nothing after
  the colon records nothing.

## Model

| member | source | states |
|---|---|---|
| Text.Split | scripts/get_next_prompt.ts:33 | `split("\n")` gives one more line than the text has newlines |
| Text.SplitJoin | plugins/progressive-workflow/skills/progressive-workflow/scripts/get_next_prompt.js:14 | splitting the newline join of newline-free lines gives those lines back |
| Text.JoinSplit | plugins/progressive-workflow/skills/progressive-workflow/scripts/get_next_prompt.js:14 | joining the split lines with newlines gives the original text back |
| Text.Trim | plugins/progressive-workflow/skills/progressive-workflow/scripts/get_next_prompt.js:21 | `trim` returns a slice of the text with only whitespace cut off either end, and the slice neither starts nor ends with whitespace |
| Text.TrimSplit | plugins/progressive-workflow/skills/progressive-workflow/scripts/get_next_prompt.js:36 | whitespace, then a core that neither starts nor ends with whitespace, then whitespace, trims to exactly that core |
| Text.TrimPadded | plugins/progressive-workflow/skills/progressive-workflow/scripts/get_next_prompt.js:36 | whitespace added at either end does not change the trimmed text |
| Text.TrimEmpty | plugins/progressive-workflow/skills/progressive-workflow/scripts/get_next_prompt.js:35 | a value trims to nothing exactly when it is all whitespace, which decides whether a top-level line stores a scalar |
| Text.StripQuotes | scripts/get_next_prompt.ts:58 | at most one leading quote and at most one trailing quote are dropped, independently of each other, and nothing else changes |
| Text.NotBlankAfterIndent | scripts/get_next_prompt.ts:42 | a line whose first character after its indentation is neither whitespace nor `#` is not skipped as blank or comment |
| Text.KeyColon | plugins/progressive-workflow/skills/progressive-workflow/scripts/get_next_prompt.js:23 | `^(\w+):` matches exactly when a non-empty word run is followed by a colon, and the line is the key, the colon and the rest |
| Text.KeyColonOf | plugins/progressive-workflow/skills/progressive-workflow/scripts/get_next_prompt.js:23 | a word-character key followed by a colon is always split at that colon |
| Text.DotRest | plugins/progressive-workflow/skills/progressive-workflow/scripts/get_next_prompt.js:23 | `\s*(.*)$` fails exactly when a line terminator follows non-whitespace; otherwise the value is the rest after the leading whitespace and holds no line terminator |
| Text.DotRestOf | plugins/progressive-workflow/skills/progressive-workflow/scripts/get_next_prompt.js:23 | whitespace followed by a terminator-free text that does not start with whitespace yields that text |
| Text.QuotedTail | plugins/progressive-workflow/skills/progressive-workflow/scripts/get_workflow_args.js:40 | a match of `\s*["']?([^"'\n]*)["']?\s*$` is whitespace, an optional quote, the captured value, an optional quote and whitespace; the value holds no quote, and with the `+` group it is non-empty |
| Text.QuotedTailComplete | plugins/progressive-workflow/skills/progressive-workflow/scripts/get_workflow_args.js:54 | every tail of the shape whitespace, optional quote, quote-free text, optional quote, whitespace is matched, and the capture trims to the quote-free text trimmed |
| Text.InteriorQuoteRejected | plugins/progressive-workflow/skills/progressive-workflow/scripts/get_workflow_args.js:54 | a quote inside the value that is followed by more than whitespace makes the tail pattern fail |
| WorkflowYaml.MatchTopLevel | plugins/progressive-workflow/skills/progressive-workflow/scripts/get_next_prompt.js:23 | a matched top-level line is a word key, a colon, whitespace and a value without line terminators that does not start with whitespace |
| WorkflowYaml.MatchTopLevelComplete | scripts/get_next_prompt.ts:44 | every line of that shape is matched, with that key and that value |
| WorkflowYaml.TopLevelLineClassified | plugins/progressive-workflow/skills/progressive-workflow/scripts/get_next_prompt.js:21-24 | a column-0 `key:` line of the top-level shape is taken as a top-level line with that key and value, before the other patterns are tried |
| WorkflowYaml.MatchItemStart | plugins/progressive-workflow/skills/progressive-workflow/scripts/get_next_prompt.js:43 | a matched item-start line is an indentation, a dash and whitespace, followed by a text the top-level pattern matches with the same key and value |
| WorkflowYaml.MatchContinuation | plugins/progressive-workflow/skills/progressive-workflow/scripts/get_next_prompt.js:55 | a matched continuation line is an indentation followed by a text the top-level pattern matches with the same key and value |
| WorkflowYaml.ItemStartLineClassified | scripts/get_next_prompt.ts:65-66 | an indented `- key: value` line is taken as an item start with that key and value |
| WorkflowYaml.ContinuationLineClassified | scripts/get_next_prompt.ts:78-79 | an indented `key: value` line without a dash is taken as a continuation line with that key and value |
| WorkflowYaml.Coerce | plugins/progressive-workflow/skills/progressive-workflow/scripts/get_next_prompt.js:58-62 | a field becomes a boolean exactly for the texts `true` and `false`, true only for `true`, and stays the text otherwise |
| WorkflowYaml.ParseWorkflowYaml | plugins/progressive-workflow/skills/progressive-workflow/scripts/get_next_prompt.js:12-73 | every sequence in the result has at least one item, and every item has at least one field |
| WorkflowYaml.RunValid | scripts/get_next_prompt.ts:41-86 | the loop keeps its invariant: an open sequence has a pending item with a field, a closed one has no leftovers, and every stored sequence is well shaped |
| WorkflowYaml.CommitValid | plugins/progressive-workflow/skills/progressive-workflow/scripts/get_next_prompt.js:25-33 | pushing the pending item and storing the open sequence keeps every stored sequence non-empty with non-empty items |
| WorkflowYaml.RunAppend | plugins/progressive-workflow/skills/progressive-workflow/scripts/get_next_prompt.js:20-65 | reading `a + b` is reading `a`, then reading `b` from the state `a` left |
| WorkflowYaml.SkippedLineIrrelevant | plugins/progressive-workflow/skills/progressive-workflow/scripts/get_next_prompt.js:21-22 | deleting a blank or comment line anywhere does not change the result |
| WorkflowYaml.TopLevelClosesSequence | plugins/progressive-workflow/skills/progressive-workflow/scripts/get_next_prompt.js:25-33 | a top-level line stores a sequence open under a non-empty key under that key, with the pending item pushed when it has a field, unless the line overwrites that key with a scalar; the pending item and list are reset, and no sequence stays open |
| WorkflowYaml.TopLevelKeepsOthers | scripts/get_next_prompt.ts:44-61 | a top-level line changes no stored key other than its own and the key of the sequence it closes |
| WorkflowYaml.TopLevelStoresSequence | scripts/get_next_prompt.ts:45-52 | in a reachable state, closing an open sequence stores every item read for it, the pending one last |
| WorkflowYaml.TopLevelScalarStored | plugins/progressive-workflow/skills/progressive-workflow/scripts/get_next_prompt.js:34-37 | a line `key: value` with a non-empty value stores the quote-stripped, trimmed value as a string under that key, overwriting any earlier value |
| WorkflowYaml.InlineKeyNotCurrent | scripts/get_next_prompt.ts:57-61 | a top-level key with a non-empty inline value never becomes the current key, so no sequence is stored under it through that line |
| WorkflowYaml.ItemStartPushes | plugins/progressive-workflow/skills/progressive-workflow/scripts/get_next_prompt.js:43-53 | an item-start line appends the pending item behind the earlier ones, opens an item whose one field is a string, and opens the sequence under the current key |
| WorkflowYaml.ContinuationSetsField | scripts/get_next_prompt.ts:78-85 | inside a sequence a continuation line sets one field of the pending item, coerced to a boolean exactly for `true`/`false`, and leaves the other fields and the rest of the state alone |
| WorkflowYaml.ContinuationOutsideIgnored | plugins/progressive-workflow/skills/progressive-workflow/scripts/get_next_prompt.js:55-56 | outside a sequence an indented `key: value` line can be deleted without changing the result |
| WorkflowYaml.LeadingItemCarried | scripts/get_next_prompt.ts:46-74 | an item read before any key with an empty value is not closed by a top-level line and becomes the first item of the next sequence |
| WorkflowYaml.EndCommitsPending | plugins/progressive-workflow/skills/progressive-workflow/scripts/get_next_prompt.js:66-71 | at the end of input an open sequence is stored under its key with the pending item last |
| WorkflowYaml.SequencesOnlyUnderEmptyKeys | scripts/get_next_prompt.ts:56-74 | every key that holds a sequence was declared by some top-level line with an empty value |
| WorkflowYaml.NoEmptyKeyOnlyScalars | scripts/get_next_prompt.ts:44-93 | without a top-level key with an empty value, the result holds only string scalars |
| Substitution.TokenAt | plugins/progressive-workflow/skills/progressive-workflow/scripts/get_next_prompt.js:78 | a recognised token is `{{`, a non-empty word run and `}}` at the front of the text |
| Substitution.TokenAtToken | plugins/progressive-workflow/skills/progressive-workflow/scripts/get_next_prompt.js:78 | a text that starts with a token is recognised as starting with exactly that token |
| Substitution.SubstituteToken | plugins/progressive-workflow/skills/progressive-workflow/scripts/get_next_prompt.js:78-80 | a token is replaced by its binding, or kept with its braces when unbound, and the scan resumes after the token without rescanning the replacement |
| Substitution.SubstitutePlain | scripts/get_next_prompt.ts:101-105 | text without a `{` is copied unchanged in front of the rest's substitution |
| Substitution.SubstituteNoTokens | scripts/get_next_prompt.ts:101-105 | text with no token anywhere is returned unchanged, whatever the variables |
| Substitution.SubstituteSelfBound | scripts/get_next_prompt.ts:101-105 | when every name is bound to its own token, substitution is the identity |
| Substitution.SubstituteEmptyMap | scripts/get_next_prompt.ts:101-105 | the empty map changes nothing |
| SubstitutionExamples.WrappedToken | plugins/progressive-workflow/skills/progressive-workflow/scripts/get_next_prompt.js:77-81 | in `{{{{n}}}}` the outer braces are copied and the inner token is replaced |
| SubstitutionExamples.NotIdempotent | plugins/progressive-workflow/skills/progressive-workflow/scripts/get_next_prompt.js:77-81 | a second pass can change the result even when no value holds a token: `{{{{x}}}}` becomes `{{a}}` and then `b` |
| SubstitutionExamples.TwoTokens | packages/progressive-workflow/tests/workflow.test.ts:71-74 | two tokens around brace-free text are both resolved and the text between them is kept |
| Numerals.IntToStringRoundTrip | plugins/progressive-workflow/skills/progressive-workflow/scripts/get_next_prompt.js:98 | reading back the decimal text of an integer gives that integer |
| Numerals.IntToStringInjective | plugins/progressive-workflow/skills/progressive-workflow/scripts/get_next_prompt.js:109 | different integers are written differently |
| Steps.StepName | plugins/progressive-workflow/skills/progressive-workflow/scripts/get_next_prompt.js:109 | the step name is the step's truthy `name` field, and otherwise `step_` followed by the index; it is always truthy |
| Steps.StepsOf | plugins/progressive-workflow/skills/progressive-workflow/scripts/get_next_prompt.js:92 | a missing `steps` gives no steps, a sequence gives its items, and a string gives one field-less step per character |
| Steps.SelectStep | plugins/progressive-workflow/skills/progressive-workflow/scripts/get_next_prompt.js:93-113 | no steps fails first, the range error holds exactly when the index is outside the list, success holds exactly when the step names an existing prompt file, and a success reports the index, the count, `is_last` exactly at the final index, the substituted prompt and the step name |
| Steps.GetPrompt | scripts/get_next_prompt.ts:118-154 | a missing workflow file fails with "workflow not found"; a parsed file without `steps` fails with "no steps", a `steps` string never yields a prompt, and a `steps` sequence never gives "no steps"; a success comes from a `steps` sequence of the parsed file, at an index inside it, with the step count, `is_last` at the final index and the substituted content of the prompt file that step names |
| Steps.NoStepsBeforeRange | scripts/get_next_prompt.ts:127-135 | with zero steps every index, valid-looking or not, gives the no-steps error |
| Steps.MissingStepsKey | plugins/progressive-workflow/skills/progressive-workflow/scripts/get_next_prompt.js:92-95 | a workflow without `steps` gives the no-steps error |
| Steps.ScalarStepsNeverSucceed | plugins/progressive-workflow/skills/progressive-workflow/scripts/get_next_prompt.js:100-101 | a `steps` key holding a string never yields a prompt |
| Steps.ParsedSequenceNotEmpty | plugins/progressive-workflow/skills/progressive-workflow/scripts/get_next_prompt.js:93-95 | a `steps` sequence read from a file never gives the no-steps error |
| Steps.OneLastStep | scripts/get_next_prompt.ts:152 | at most one index of a workflow is reported as the last |
| Steps.DefaultNamesDistinct | scripts/get_next_prompt.ts:149 | default names of different indices differ |
| Steps.OutOfRangeMessageInjective | plugins/progressive-workflow/skills/progressive-workflow/scripts/get_next_prompt.js:98 | the out-of-range message determines the index and the number of steps |
| Args.KeyField | src/get_workflow_args.ts:52 | a matched field has a non-empty key and a value without quotes |
| Args.ItemField | plugins/progressive-workflow/skills/progressive-workflow/scripts/get_workflow_args.js:40 | a matched item-start field is an indentation, a dash and whitespace, followed by a text the field pattern matches with the same key and value |
| Args.NestedField | plugins/progressive-workflow/skills/progressive-workflow/scripts/get_workflow_args.js:54 | a matched nested field is an indentation followed by a text the field pattern matches with the same key and value |
| Args.ParseArgsFromYaml | plugins/progressive-workflow/skills/progressive-workflow/scripts/get_workflow_args.js:12-71 | every returned declaration has a non-empty name |
| Args.ArgsRunNamed | scripts/get_workflow_args.ts:42-78 | from any state with named declarations, the loop and the final push keep every declaration named |
| Args.ArgsRunAppend | src/get_workflow_args.ts:29-72 | reading `a + b` is reading `a`, then reading `b` from the state `a` left |
| Args.EndedStays | plugins/progressive-workflow/skills/progressive-workflow/scripts/get_workflow_args.js:30-31 | once the section has ended, later lines change nothing |
| Args.AfterEndIgnored | plugins/progressive-workflow/skills/progressive-workflow/scripts/get_workflow_args.js:27-32 | lines after the end of the section are ignored |
| Args.BeforeHeaderIgnored | plugins/progressive-workflow/skills/progressive-workflow/scripts/get_workflow_args.js:22-34 | all lines before the first `args:` header are ignored |
| Args.NoHeaderNoArgs | scripts/get_workflow_args.ts:35-47 | without an `args:` header the result is empty |
| Args.ItemStartClassified | src/get_workflow_args.ts:33-48 | an item-start line is not skipped, is not a header and does not end the section |
| Args.PadRun | src/get_workflow_args.ts:63 | lines inside the section before the first declaration change nothing |
| Args.InItemRun | src/get_workflow_args.ts:63-71 | field lines of an open declaration apply their fields in order to it |
| Args.BlockRun | src/get_workflow_args.ts:48-59 | a declaration block pushes the pending declaration if it is named and leaves its own declaration pending |
| Args.TailFinish | scripts/get_workflow_args.ts:41-79 | whether the section ends at a column-0 lower-case key or at the end of input, the pending named declaration is pushed exactly once |
| Args.SectionOfBlocks | plugins/progressive-workflow/skills/progressive-workflow/scripts/get_workflow_args.js:12-71 | the reader equals a two-phase reading: skip to the header, cut the section into declaration blocks, build each block's declaration from its fields, and keep the named ones in order |
| Args.ResultBounded | src/get_workflow_args.ts:48-77 | the result has at most as many declarations as there are item-start lines |
| Args.FoldAbsent | src/get_workflow_args.ts:50 | a field that never occurs keeps its default: no name, no description, `required` false |
| Args.FoldLastName | src/get_workflow_args.ts:55-67 | the name is the trimmed value of the last `name` field: a later field overwrites an earlier one |
| Args.FoldLastDescription | src/get_workflow_args.ts:56-68 | the description is the trimmed value of the last `description` field |
| Args.FoldLastRequired | scripts/get_workflow_args.ts:57-71 | `required` is true exactly when the last `required` field trims to `true` |
| Catalog.CatalogLine | packages/progressive-workflow/src/get_workflow_catalog.ts:28-31 | a recorded line is a word key, a colon, whitespace, an optional quote, a non-empty quote-free value, an optional quote and whitespace, and what is recorded is that value trimmed |
| Catalog.LineEntry | scripts/get_workflow_catalog.ts:29-35 | blank and comment lines record nothing; any other line records exactly what the line pattern matches, a word key and a trimmed value |
| Catalog.ParseSimpleYaml | packages/progressive-workflow/src/get_workflow_catalog.ts:20-36 | every key of the result is a word run and every value is trimmed |
| Catalog.ReadFieldsWellFormed | packages/progressive-workflow/src/get_workflow_catalog.ts:24-33 | the loop keeps the result's keys word runs and its values trimmed |
| Catalog.ReadFieldsAppend | scripts/get_workflow_catalog.ts:28-37 | reading `a + b` is reading `a`, then reading `b` from what `a` gave |
| Catalog.ReadFieldsUntouched | scripts/get_workflow_catalog.ts:35 | lines that do not define a key leave its presence and value alone |
| Catalog.ReadFieldsLast | scripts/get_workflow_catalog.ts:35 | after the loop a key holds the value of its last defining line |
| Catalog.ParsedKeyDefined | packages/progressive-workflow/src/get_workflow_catalog.ts:24-33 | a key is in the result exactly when some line defines it |
| Catalog.ParsedValueLast | packages/progressive-workflow/src/get_workflow_catalog.ts:31 | a key's value is the value of the last line that defines it |
| Catalog.CatalogLineComplete | packages/progressive-workflow/src/get_workflow_catalog.ts:28 | every line of the shape key, colon, whitespace, optional quote, non-empty quote-free value, optional quote, whitespace is recorded with the trimmed value |
| Catalog.IndentedLineIgnored | scripts/get_workflow_catalog.ts:32 | a line that starts with whitespace records nothing |
| Catalog.IndentedLineSkipped | packages/progressive-workflow/src/get_workflow_catalog.ts:27-28 | an indented line can be deleted without changing the result |
| Catalog.EmptyValueIgnored | packages/progressive-workflow/src/get_workflow_catalog.ts:28 | a key with nothing after its colon, such as `steps:`, records nothing |
| Catalog.SpaceOnlyValueRecordsEmpty | packages/progressive-workflow/src/get_workflow_catalog.ts:28 | a key followed by whitespace only records the empty string |
| Catalog.InteriorQuoteIgnored | packages/progressive-workflow/src/get_workflow_catalog.ts:28 | a value with an interior quote followed by more text makes the whole line record nothing |
| Catalog.Entry | packages/progressive-workflow/src/get_workflow_catalog.ts:57-61 | the id is the directory name; the name is the parsed `name` when that is non-empty, and the directory name otherwise; the description is the parsed `description` when there is one, and empty otherwise |
| Catalog.Entries | scripts/get_workflow_catalog.ts:51-65 | the catalog is no longer than the listing, and each of its entries comes from a listed directory |
| Catalog.Catalog | packages/progressive-workflow/src/get_workflow_catalog.ts:38-68 | a missing base directory gives the empty catalog; otherwise every entry comes from a listed directory |
| Catalog.EntriesAppend | packages/progressive-workflow/src/get_workflow_catalog.ts:47-65 | the catalog of a listing split in two is the catalog of the first part followed by that of the second, so the listing's order is kept |
| Catalog.EntriesSingle | scripts/get_workflow_catalog.ts:52-55 | one directory entry contributes its catalog entry exactly when it is a directory with a `workflow.yaml` |
| Catalog.ListedAppears | packages/progressive-workflow/src/get_workflow_catalog.ts:47-61 | every directory with a `workflow.yaml` appears in the catalog |
| Catalog.EntriesCount | scripts/get_workflow_catalog.ts:51-69 | the catalog has exactly one entry per listed directory |
| Catalog.EntryName | packages/progressive-workflow/src/get_workflow_catalog.ts:59 | the name is the value of the file's last `name` line when that value is non-empty, and the directory name otherwise |
| Catalog.EntryNameMissing | scripts/get_workflow_catalog.ts:63 | a file without a `name` line is shown under its directory name |
| Catalog.EntryDescription | packages/progressive-workflow/src/get_workflow_catalog.ts:60 | the description is the value of the file's last `description` line |
| Catalog.EntryDescriptionMissing | scripts/get_workflow_catalog.ts:64 | a file without a `description` line has the empty description |

## Left out

- File reads, existence checks and directory listing (`existsSync`, `readFileSync`,
  `readdirSync`, `isDirectory`). They are inputs of the model: the workflow text as
  an `Option`, the prompt files as a map, the listing as an `Option` of entries.
- `path.join` and `path.resolve`. A step's `prompt` string is the key of the prompt
  map, and the not-found message carries that string rather than the joined path.
  The error `path.join` throws for a step without a string `prompt` is
  `PromptPathInvalid`, and its message text is not modelled.
- The command-line `main` functions: argument handling, `parseInt` of the index
  (including a `NaN` index that slips past the range check), `JSON.parse` of the
  variables, JSON printing and `process.exit`. They are I/O glue around the core.
- `packages/progressive-workflow/src/config.ts` and the `DEFAULT_WORKFLOWS_DIR`
  constants. They are file-existence and environment glue.
- The `try`/`catch` in `getWorkflowCatalog` that prints a warning when a read fails.
  Reads do not fail in the model.
- Names inherited from the JavaScript object prototype, such as `{{constructor}}` or
  a `__proto__` key. Variables and results are maps, so only keys set explicitly are
  present.
- The number text JavaScript writes for integers at or above 10^21, where it
  switches to exponent notation. `Numerals.IntToString` writes every integer in plain
  decimal.
- Args.ResultBounded: counts every item-start line of the input rather than only
  those inside the section, because the count before the header and after the end
  only adds slack to a bound.
- Steps.StepsOf: a `steps` string counts one step per Unicode character, while
  JavaScript's `length` and indexing count UTF-16 code units. For a character
  outside the Basic Multilingual Plane the source sees two steps where the model
  sees one, so an index the source sends to `path.join` is out of range here.
- Catalog.Entries: states only that the catalog is no longer than the listing; the
  exact count is `Catalog.EntriesCount`.
