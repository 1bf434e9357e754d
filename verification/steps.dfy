/**
 * The step accessor `getPrompt` without its file reads: the workflow text, when the
 * workflow exists, is an input, and the prompt files are a lookup from the path a
 * step names (relative to the workflow directory) to the file's content.
 *
 * The accessor reads the workflow, takes its `steps` (or nothing), refuses an empty
 * step list before it looks at the index, refuses an index outside the list, loads
 * the prompt file the selected step names, substitutes the variables into it and
 * returns the step's position, its name, the prompt, the number of steps and whether
 * the step is the last one.
 */
module Steps {
  import opened Wrappers
  import opened Numerals
  import opened WorkflowYaml
  import opened Substitution

  /** The record `getPrompt` returns. The name is whatever the step's `name` field
      holds when that is truthy: a string, or `true` for `name: true`. */
  datatype PromptResult = PromptResult(
    stepIndex: int,
    stepName: Field,
    prompt: string,
    totalSteps: int,
    isLast: bool)

  /** The errors `getPrompt` throws. `PromptPathInvalid` is the error `path.join`
      raises when the selected step has no string `prompt` field. */
  datatype PromptError =
    | WorkflowNotFound(workflowId: string)
    | NoSteps(workflowId: string)
    | StepIndexOutOfRange(stepIndex: int, totalSteps: int)
    | PromptPathInvalid
    | PromptFileNotFound(path: string)

  /** The message of a thrown error; the one `path.join` raises is not the accessor's
      own text. */
  function Message(e: PromptError): (m: string)
    requires !e.PromptPathInvalid?
  {
    match e
    case WorkflowNotFound(id) => "Workflow not found: " + id
    case NoSteps(id) => "Workflow '" + id + "' has no steps"
    case StepIndexOutOfRange(i, n) => "Step index " + IntToString(i) + " out of range (0-" + IntToString(n - 1) + ")"
    case PromptFileNotFound(path) => "Prompt file not found: " + path
  }

  /** JavaScript truthiness of a field value. */
  predicate Truthy(f: Field) {
    match f
    case Str(s) => s != ""
    case Bool(b) => b
  }

  /** `step.name || \`step_${i}\``. */
  function StepName(step: Item, i: int): (name: Field)
    ensures Truthy(name)
    ensures "name" in step && Truthy(step["name"]) ==> name == step["name"]
    ensures !("name" in step && Truthy(step["name"])) ==> name == Str("step_" + IntToString(i))
  {
    if "name" in step && Truthy(step["name"]) then step["name"] else Str("step_" + IntToString(i))
  }

  /** The path a step names, when its `prompt` field is a string. */
  function PromptPath(step: Item): Option<string> {
    if "prompt" in step && step["prompt"].Str? then Some(step["prompt"].text) else None
  }

  /** `workflow.steps || []` seen as a list of steps. A string is indexed by
      character, and a character has neither a `name` nor a `prompt`, so a non-empty
      string counts as that many steps without fields; the empty string is falsy. */
  function StepsOf(doc: Document): (steps: seq<Item>)
    ensures "steps" !in doc ==> steps == []
    ensures "steps" in doc && doc["steps"].Items? ==> steps == doc["steps"].items
    ensures "steps" in doc && doc["steps"].Scalar? ==>
      |steps| == |doc["steps"].text| && forall i | 0 <= i < |steps| :: steps[i] == map[]
  {
    if "steps" !in doc then []
    else
      match doc["steps"]
      case Items(items) => items
      case Scalar(text) => seq(|text|, _ => map[])
  }

  /** Everything `getPrompt` does after reading the workflow. */
  function SelectStep(workflowId: string, steps: seq<Item>, i: int, vars: Vars, prompts: map<string, string>)
    : (r: Result<PromptResult, PromptError>)
    ensures |steps| == 0 ==> r == Failure(NoSteps(workflowId))
    ensures |steps| > 0 ==> (r == Failure(StepIndexOutOfRange(i, |steps|)) <==> i < 0 || i >= |steps|)
    ensures r.Success? <==>
      0 <= i < |steps| && PromptPath(steps[i]).Some? && PromptPath(steps[i]).value in prompts
    ensures r.Success? ==>
      && r.value.stepIndex == i
      && r.value.totalSteps == |steps| >= 1
      && (r.value.isLast <==> i == |steps| - 1)
      && r.value.prompt == Substitute(prompts[PromptPath(steps[i]).value], vars)
      && r.value.stepName == StepName(steps[i], i)
    ensures 0 <= i < |steps| && PromptPath(steps[i]).None? ==> r == Failure(PromptPathInvalid)
    ensures 0 <= i < |steps| && PromptPath(steps[i]).Some? && PromptPath(steps[i]).value !in prompts ==>
      r == Failure(PromptFileNotFound(PromptPath(steps[i]).value))
  {
    if |steps| == 0 then Failure(NoSteps(workflowId))
    else if i < 0 || i >= |steps| then Failure(StepIndexOutOfRange(i, |steps|))
    else
      var step := steps[i];
      match PromptPath(step)
      case None => Failure(PromptPathInvalid)
      case Some(path) =>
        if path !in prompts then Failure(PromptFileNotFound(path))
        else
          Success(PromptResult(
            stepIndex := i,
            stepName := StepName(step, i),
            prompt := Substitute(prompts[path], vars),
            totalSteps := |steps|,
            isLast := i == |steps| - 1))
  }

  /** `getPrompt(workflowId, i, vars)`: `workflowYaml` is the content of the
      workflow's `workflow.yaml`, or `None` when the file does not exist. A prompt is
      produced only from a `steps` sequence the reader found in the file, at an index
      inside it; a file without `steps` has no steps, and a `steps` string never
      yields a prompt. */
  function GetPrompt(workflowId: string, workflowYaml: Option<string>, i: int, vars: Vars, prompts: map<string, string>)
    : (r: Result<PromptResult, PromptError>)
    ensures workflowYaml.None? ==> r == Failure(WorkflowNotFound(workflowId))
    ensures workflowYaml.Some? ==>
      var doc := ParseWorkflowYaml(workflowYaml.value);
      && ("steps" !in doc ==> r == Failure(NoSteps(workflowId)))
      && ("steps" in doc && doc["steps"].Scalar? ==> r.Failure?)
      && ("steps" in doc && doc["steps"].Items? ==> r != Failure(NoSteps(workflowId)))
    ensures r.Success? ==>
      && workflowYaml.Some?
      && var doc := ParseWorkflowYaml(workflowYaml.value);
      && "steps" in doc && doc["steps"].Items?
      && var steps := doc["steps"].items;
      && r.value.stepIndex == i && 0 <= i < |steps|
      && r.value.totalSteps == |steps|
      && (r.value.isLast <==> i == |steps| - 1)
      && PromptPath(steps[i]).Some? && PromptPath(steps[i]).value in prompts
      && r.value.prompt == Substitute(prompts[PromptPath(steps[i]).value], vars)
  {
    match workflowYaml
    case None => Failure(WorkflowNotFound(workflowId))
    case Some(content) =>
      var doc := ParseWorkflowYaml(content);
      var steps := StepsOf(doc);
      assert "steps" in doc && doc["steps"].Scalar? ==> forall j | 0 <= j < |steps| :: PromptPath(steps[j]).None?;
      SelectStep(workflowId, steps, i, vars, prompts)
  }

  // ---------------------------------------------------------------------------
  // Properties
  // ---------------------------------------------------------------------------

  /** With zero steps every index, even a valid-looking one, gives the no-steps
      error: the emptiness check comes first. */
  lemma NoStepsBeforeRange(workflowId: string, i: int, vars: Vars, prompts: map<string, string>)
    ensures SelectStep(workflowId, [], i, vars, prompts) == Failure(NoSteps(workflowId))
  {
  }

  /** A workflow without a `steps` key has no steps. */
  lemma MissingStepsKey(workflowId: string, content: string, i: int, vars: Vars, prompts: map<string, string>)
    requires "steps" !in ParseWorkflowYaml(content)
    ensures GetPrompt(workflowId, Some(content), i, vars, prompts) == Failure(NoSteps(workflowId))
  {
  }

  /** A `steps` key with a string value never yields a prompt. */
  lemma ScalarStepsNeverSucceed(workflowId: string, content: string, i: int, vars: Vars, prompts: map<string, string>)
    requires "steps" in ParseWorkflowYaml(content) && ParseWorkflowYaml(content)["steps"].Scalar?
    ensures GetPrompt(workflowId, Some(content), i, vars, prompts).Failure?
  {
    var steps := StepsOf(ParseWorkflowYaml(content));
    if 0 <= i < |steps| {
      assert PromptPath(steps[i]).None?;
    }
  }

  /** When the reader returns a sequence under `steps`, the accessor never reports
      an empty workflow. */
  lemma ParsedSequenceNotEmpty(workflowId: string, content: string, i: int, vars: Vars, prompts: map<string, string>)
    requires "steps" in ParseWorkflowYaml(content) && ParseWorkflowYaml(content)["steps"].Items?
    ensures GetPrompt(workflowId, Some(content), i, vars, prompts) != Failure(NoSteps(workflowId))
  {
    var doc := ParseWorkflowYaml(content);
    assert WellShaped(doc);
    assert |StepsOf(doc)| > 0;
  }

  /** At most one index of a workflow is the last: walking the indices from 0, the
      accessor reports `is_last` only at the final step. */
  lemma OneLastStep(workflowId: string, steps: seq<Item>, i: int, j: int, vars: Vars, prompts: map<string, string>)
    requires SelectStep(workflowId, steps, i, vars, prompts).Success?
    requires SelectStep(workflowId, steps, j, vars, prompts).Success?
    requires SelectStep(workflowId, steps, i, vars, prompts).value.isLast
    requires SelectStep(workflowId, steps, j, vars, prompts).value.isLast
    ensures i == j
  {
  }

  /** The default name of a step is `step_` followed by its index, and differs for
      different indices. */
  lemma DefaultNamesDistinct(i: int, j: int)
    requires i != j
    ensures Str("step_" + IntToString(i)) != Str("step_" + IntToString(j))
  {
    if "step_" + IntToString(i) == "step_" + IntToString(j) {
      assert IntToString(i) == ("step_" + IntToString(i))[5..];
      assert IntToString(j) == ("step_" + IntToString(j))[5..];
      IntToStringInjective(i, j);
    }
  }

  /** Two texts that each begin with a run free of `c`, followed by `c`, agree on
      that run when they are equal. */
  lemma SameRunBefore(a1: string, r1: string, a2: string, r2: string, c: char)
    requires a1 + r1 == a2 + r2
    requires c !in a1 && c !in a2
    requires |r1| > 0 && r1[0] == c && |r2| > 0 && r2[0] == c
    ensures a1 == a2 && r1 == r2
  {
    var s := a1 + r1;
    assert s == a2 + r2;
    assert forall k | 0 <= k < |a1| :: s[k] == a1[k] && a1[k] in a1;
    assert forall k | 0 <= k < |a2| :: s[k] == a2[k] && a2[k] in a2;
    assert s[|a1|] == c && s[|a2|] == c;
    assert |a1| == |a2|;
    assert a1 == s[..|a1|] == a2;
  }

  lemma NoSpaceInNumber(n: int)
    ensures ' ' !in IntToString(n) && ')' !in IntToString(n)
  {
    var s := IntToString(n);
    forall k | 0 <= k < |s| ensures s[k] != ' ' && s[k] != ')' {
      if n < 0 && k > 0 { assert s[1..][k - 1] == s[k]; }
    }
  }

  /** A text made of a prefix, a number, a separator starting with a space, a second
      number and a closing parenthesis determines both numbers. */
  lemma TwoNumbersDetermined(p: string, q: string, a1: string, b1: string, a2: string, b2: string)
    requires p + a1 + q + b1 + ")" == p + a2 + q + b2 + ")"
    requires |q| > 0 && q[0] == ' '
    requires ' ' !in a1 && ' ' !in a2 && ')' !in b1 && ')' !in b2
    ensures a1 == a2 && b1 == b2
  {
    var t1, t2 := q + b1 + ")", q + b2 + ")";
    assert p + a1 + q + b1 + ")" == p + (a1 + t1);
    assert p + a2 + q + b2 + ")" == p + (a2 + t2);
    assert a1 + t1 == (p + (a1 + t1))[|p|..];
    assert a2 + t2 == (p + (a2 + t2))[|p|..];
    SameRunBefore(a1, t1, a2, t2, ' ');
    assert t1[|q|..] == b1 + ")";
    assert t2[|q|..] == b2 + ")";
    SameRunBefore(b1, ")", b2, ")", ')');
  }

  /** The out-of-range message identifies the index and the number of steps: equal
      messages come from the same index and the same step count. */
  lemma OutOfRangeMessageInjective(i: int, n: int, j: int, m: int)
    requires Message(StepIndexOutOfRange(i, n)) == Message(StepIndexOutOfRange(j, m))
    ensures i == j && n == m
  {
    NoSpaceInNumber(i);
    NoSpaceInNumber(j);
    NoSpaceInNumber(n - 1);
    NoSpaceInNumber(m - 1);
    TwoNumbersDetermined("Step index ", " out of range (0-", IntToString(i), IntToString(n - 1), IntToString(j), IntToString(m - 1));
    IntToStringInjective(i, j);
    IntToStringInjective(n - 1, m - 1);
  }
}
