/**
  The scenario interpreter: a cursor walks the top-level nodes of the script in order,
  dispatches on the node's type, records the id of the last node that ran, and stops at
  the first `end`.

  The classifier is a foreign call; its reply to the `if` node at top-level position `i`
  is `replies(i)`. Each position is dispatched at most once per run, so one reply per
  position describes every possible run.
*/
module Runner {
  import opened Wrappers
  import opened Strings
  import opened Nodes

  /**
    One node of the parsed script. Absent fields carry the defaults the interpreter reads
    them with (`""` for `id`, `text` and `tool`, `[]` for the children); a node whose
    `type` is missing or is none of `text`, `tool`, `if`, `end` is `Other`.
  */
  datatype Node =
    | Text(id: string, text: string)
    | Tool(id: string, tool: string)
    | If(id: string, condition: string, children: seq<Node>, elseChildren: seq<Node>)
    | End(id: string)
    | Other(id: string)

  /** The loaded scenario document; `code` is `None` when the key is absent. */
  datatype Document = Document(code: Option<seq<Node>>)

  /** `scenario_data.get("code", [])`. */
  function CodeOf(doc: Document): seq<Node> {
    doc.code.GetOr([])
  }

  // ---------------------------------------------------------------------------
  // The run as a function of the script and the replies
  // ---------------------------------------------------------------------------

  /** The executor's state together with `last_step`. */
  datatype RunState = RunState(results: ToolResults, context: seq<string>, lastStep: string)

  /** A fresh executor and an empty `last_step`. */
  const Initial := RunState(map[], [], "")

  /**
    A `text` node, at the top level or as a child of the chosen branch: its substituted text is
    appended and it overwrites `last_step`. Any other child of a branch is skipped.
  */
  function RunChild(st: RunState, child: Node): RunState {
    match child
    case Text(id, text) => st.(context := st.context + [Substitute(text, st.results)], lastStep := id)
    case _ => st
  }

  /** The children of the chosen branch, in order, one level deep. */
  function RunBranch(st: RunState, children: seq<Node>): RunState
    decreases |children|
  {
    if children == [] then st else RunBranch(RunChild(st, children[0]), children[1..])
  }

  /** One top-level node, given the classifier's reply in case it is an `if`. */
  function Dispatch(st: RunState, node: Node, reply: string): RunState {
    match node
    case Text(_, _) => RunChild(st, node)
    case Tool(id, tool) => st.(results := InvokeTool(st.results, tool), lastStep := id)
    case If(id, _, children, elseChildren) =>
      RunBranch(st.(lastStep := id), if ConditionMet(reply) then children else elseChildren)
    case End(id) => st.(lastStep := id)
    case Other(_) => st
  }

  /** The loop from cursor `i` on: dispatch, stop after an `end`, move to `i + 1` otherwise. */
  function RunFrom(code: seq<Node>, i: nat, st: RunState, replies: nat -> string): RunState
    requires i <= |code|
    decreases |code| - i
  {
    if i == |code| then st
    else
      var next := Dispatch(st, code[i], replies(i));
      if code[i].End? then next else RunFrom(code, i + 1, next, replies)
  }

  /** `run`: the newline-joined context and `last_step`. */
  function Interpret(doc: Document, replies: nat -> string): (string, string) {
    var st := RunFrom(CodeOf(doc), 0, Initial, replies);
    (Join(st.context, "\n"), st.lastStep)
  }

  // ---------------------------------------------------------------------------
  // Properties of the run
  // ---------------------------------------------------------------------------

  /** A script without `code`, or with an empty one, produces no text and no last step. */
  lemma EmptyScript(doc: Document, replies: nat -> string)
    requires doc.code.None? || doc.code == Some([])
    ensures Interpret(doc, replies) == ("", "")
  {
  }

  /** The `text` fields of a script made of `text` nodes only. */
  function Texts(code: seq<Node>): seq<string>
    requires forall j :: 0 <= j < |code| ==> code[j].Text?
  {
    seq(|code|, j requires 0 <= j < |code| => code[j].text)
  }

  /** From cursor `i`, a script of `text` nodes appends their texts unchanged (no tool has run) and ends on the last id. */
  lemma {:induction false} TextRunFrom(code: seq<Node>, i: nat, context: seq<string>, lastStep: string, replies: nat -> string)
    requires i <= |code|
    requires forall j :: 0 <= j < |code| ==> code[j].Text?
    ensures RunFrom(code, i, RunState(map[], context, lastStep), replies)
         == RunState(map[], context + Texts(code)[i..], if i == |code| then lastStep else code[|code| - 1].id)
    decreases |code| - i
  {
    if i < |code| {
      var st, text := RunState(map[], context, lastStep), code[i].text;
      var next := RunState(map[], context + [text], code[i].id);
      assert code[i] == Text(code[i].id, text);
      assert Dispatch(st, code[i], replies(i)) == next by {
        TextWithoutTools(st, code[i].id, text, replies(i));
      }
      RunFromNext(code, i, st, replies);
      TextRunFrom(code, i + 1, context + [text], code[i].id, replies);
      assert context + [text] + Texts(code)[i + 1..] == context + Texts(code)[i..] by {
        assert Texts(code)[i..] == [text] + Texts(code)[i + 1..];
      }
    }
  }

  /** A script of `text` nodes only yields the newline-join of their texts in order, and the last node's id. */
  lemma TextOnlyScript(code: seq<Node>, replies: nat -> string)
    requires forall j :: 0 <= j < |code| ==> code[j].Text?
    ensures Interpret(Document(Some(code)), replies) == (Join(Texts(code), "\n"), if code == [] then "" else code[|code| - 1].id)
  {
    TextRunFrom(code, 0, [], "", replies);
    assert CodeOf(Document(Some(code))) == code;
    assert [] + Texts(code)[0..] == Texts(code);
  }

  /** The run from a cursor at or before an `end` at `k` never looks past `k`. */
  lemma {:induction false} RunFromStopsAtEnd(code: seq<Node>, i: nat, k: nat, st: RunState, replies: nat -> string)
    requires i <= k < |code| && code[k].End?
    ensures RunFrom(code, i, st, replies) == RunFrom(code[..k + 1], i, st, replies)
    decreases k - i
  {
    var prefix := code[..k + 1];
    assert prefix[i] == code[i];
    if !code[i].End? {
      RunFromStopsAtEnd(code, i + 1, k, Dispatch(st, code[i], replies(i)), replies);
    }
  }

  /** No node after an `end` is dispatched: cutting the script just after it changes nothing. */
  lemma NothingAfterEnd(code: seq<Node>, k: nat, replies: nat -> string)
    requires k < |code| && code[k].End?
    ensures Interpret(Document(Some(code)), replies) == Interpret(Document(Some(code[..k + 1])), replies)
  {
    RunFromStopsAtEnd(code, 0, k, Initial, replies);
  }

  /** A run reaching the first `end` at `k` finishes with that node's id as its last step. */
  lemma {:induction false} RunFromEndsOnEnd(code: seq<Node>, i: nat, k: nat, st: RunState, replies: nat -> string)
    requires i <= k < |code| && code[k].End?
    requires forall j :: i <= j < k ==> !code[j].End?
    ensures RunFrom(code, i, st, replies).lastStep == code[k].id
    decreases k - i
  {
    if i < k {
      RunFromNext(code, i, st, replies);
      RunFromEndsOnEnd(code, i + 1, k, Dispatch(st, code[i], replies(i)), replies);
    } else {
      assert code[i] == End(code[i].id);
      assert RunFrom(code, i, st, replies) == Dispatch(st, code[i], replies(i)) == st.(lastStep := code[i].id);
    }
  }

  /** The first `end` of a script sets the last step of the whole run. */
  lemma FirstEndIsLastStep(code: seq<Node>, k: nat, replies: nat -> string)
    requires k < |code| && code[k].End?
    requires forall j :: 0 <= j < k ==> !code[j].End?
    ensures Interpret(Document(Some(code)), replies).1 == code[k].id
  {
    RunFromEndsOnEnd(code, 0, k, Initial, replies);
  }

  /** The `text` children of a branch, in order. */
  function TextChildren(children: seq<Node>): (r: seq<Node>)
    ensures |r| <= |children|
    ensures forall j :: 0 <= j < |r| ==> r[j].Text? && r[j] in children
    decreases |children|
  {
    if children == [] then []
    else (if children[0].Text? then [children[0]] else []) + TextChildren(children[1..])
  }

  /** The substituted texts of `text` nodes. */
  function SubstitutedTexts(nodes: seq<Node>, results: ToolResults): (r: seq<string>)
    requires forall j :: 0 <= j < |nodes| ==> nodes[j].Text?
    ensures |r| == |nodes|
    decreases |nodes|
  {
    if nodes == [] then [] else [Substitute(nodes[0].text, results)] + SubstitutedTexts(nodes[1..], results)
  }

  /**
    A branch runs exactly its `text` children, in order: it appends their substituted texts,
    leaves the tool results alone, and ends on the id of its last `text` child, if any.
    Children of every other kind change nothing.
  */
  lemma {:induction false} BranchRunsTextChildren(st: RunState, children: seq<Node>)
    ensures BranchEffect(st, children, RunBranch(st, children))
    decreases |children|
  {
    if children != [] {
      var next := RunChild(st, children[0]);
      assert RunBranch(st, children) == RunBranch(next, children[1..]);
      BranchRunsTextChildren(next, children[1..]);
      if children[0].Text? {
        BranchTextStep(st, children, RunBranch(next, children[1..]));
      } else {
        assert TextChildren(children) == TextChildren(children[1..]);
      }
    }
  }

  /**
    What a branch does to the state `st`: it leaves the tool results alone, appends the substituted
    texts of its `text` children in order, and ends on the id of its last `text` child, if any.
  */
  predicate BranchEffect(st: RunState, children: seq<Node>, r: RunState) {
    var texts := TextChildren(children);
    && r.results == st.results
    && r.context == st.context + SubstitutedTexts(texts, st.results)
    && r.lastStep == (if texts == [] then st.lastStep else Last(texts).id)
  }

  /** The last element of a non-empty sequence. */
  function Last<T>(s: seq<T>): T
    requires s != []
  {
    s[|s| - 1]
  }

  /** The induction step of `BranchRunsTextChildren` when the first child is a `text` node. */
  lemma BranchTextStep(st: RunState, children: seq<Node>, r: RunState)
    requires children != [] && children[0].Text?
    requires BranchEffect(RunChild(st, children[0]), children[1..], r)
    ensures BranchEffect(st, children, r)
  {
    var first, rest := children[0], TextChildren(children[1..]);
    var text := Substitute(first.text, st.results);
    var next := RunChild(st, first);
    assert next == st.(context := st.context + [text], lastStep := first.id);
    var texts := TextChildren(children);
    assert texts == [first] + rest;
    assert SubstitutedTexts(texts, st.results) == [text] + SubstitutedTexts(rest, st.results);
    assert r.context == st.context + ([text] + SubstitutedTexts(rest, st.results));
    assert Last(texts) == if rest == [] then first else Last(rest);
  }

  /**
    An `if` node sets the last step to its own id, then runs the `text` children of
    `children` when the condition holds and of `elseChildren` otherwise.
  */
  lemma IfRunsChosenBranch(st: RunState, id: string, condition: string, children: seq<Node>, elseChildren: seq<Node>, reply: string)
    ensures BranchEffect(st.(lastStep := id), if ConditionMet(reply) then children else elseChildren,
                         Dispatch(st, If(id, condition, children, elseChildren), reply))
  {
    BranchRunsTextChildren(st.(lastStep := id), if ConditionMet(reply) then children else elseChildren);
  }

  /** A node of unknown type is skipped: the run goes on from the next node with the same state. */
  lemma OtherSkipped(code: seq<Node>, i: nat, st: RunState, replies: nat -> string)
    requires i < |code| && code[i].Other?
    ensures RunFrom(code, i, st, replies) == RunFrom(code, i + 1, st, replies)
  {
  }

  /** A `tool` node naming an unknown tool appends nothing and stores nothing; only the last step moves. */
  lemma UnknownToolNode(st: RunState, id: string, tool: string, reply: string)
    requires tool != "get_user_data"
    ensures Dispatch(st, Tool(id, tool), reply) == st.(lastStep := id)
  {
  }

  /** Only the replies to `if` nodes matter: runs whose replies agree there have the same result. */
  lemma {:induction false} OnlyIfRepliesMatter(code: seq<Node>, i: nat, st: RunState, r1: nat -> string, r2: nat -> string)
    requires i <= |code|
    requires forall j :: i <= j < |code| && code[j].If? ==> r1(j) == r2(j)
    ensures RunFrom(code, i, st, r1) == RunFrom(code, i, st, r2)
    decreases |code| - i
  {
    if i < |code| {
      assert Dispatch(st, code[i], r1(i)) == Dispatch(st, code[i], r2(i));
      if !code[i].End? {
        OnlyIfRepliesMatter(code, i + 1, Dispatch(st, code[i], r1(i)), r1, r2);
      }
    }
  }

  /** A greeting, a two-way branch and an `end`. */
  function BranchScript(greeting: string, thenText: string, elseText: string): seq<Node> {
    [ Text("greet", greeting),
      If("check", "user is angry", [Text("sorry", thenText)], [Text("fine", elseText)]),
      End("done") ]
  }

  /**
    Such a script emits the greeting, then the text of the branch the reply selects (no tool has
    run, so both come out verbatim), and ends on the `end` node's id.
  */
  lemma BranchScriptRun(greeting: string, thenText: string, elseText: string, replies: nat -> string)
    ensures Interpret(Document(Some(BranchScript(greeting, thenText, elseText))), replies)
         == (greeting + "\n" + (if ConditionMet(replies(1)) then thenText else elseText), "done")
  {
    var code := BranchScript(greeting, thenText, elseText);
    var branch := if ConditionMet(replies(1)) then Text("sorry", thenText) else Text("fine", elseText);
    var s1 := RunState(map[], [greeting], "greet");
    var s2 := RunState(map[], [greeting, branch.text], branch.id);
    assert RunFrom(code, 0, Initial, replies) == RunFrom(code, 1, s1, replies) by {
      assert code[0] == Text("greet", greeting);
      TextWithoutTools(Initial, "greet", greeting, replies(0));
      assert Initial.(context := Initial.context + [greeting], lastStep := "greet") == s1;
      RunFromNext(code, 0, Initial, replies);
    }
    assert RunFrom(code, 1, s1, replies) == RunFrom(code, 2, s2, replies) by {
      BranchOfScript(greeting, thenText, elseText, replies(1));
      RunFromNext(code, 1, s1, replies);
    }
    assert RunFrom(code, 2, s2, replies) == s2.(lastStep := "done");
    assert CodeOf(Document(Some(code))) == code;
    assert Join(s2.context, "\n") == greeting + "\n" + branch.text;
  }

  /** The `if` node of `BranchScript` after the greeting: the chosen text is appended verbatim. */
  lemma BranchOfScript(greeting: string, thenText: string, elseText: string, reply: string)
    ensures var branch := if ConditionMet(reply) then Text("sorry", thenText) else Text("fine", elseText);
      Dispatch(RunState(map[], [greeting], "greet"), BranchScript(greeting, thenText, elseText)[1], reply)
      == RunState(map[], [greeting, branch.text], branch.id)
  {
    var s1 := RunState(map[], [greeting], "greet");
    var branch := if ConditionMet(reply) then Text("sorry", thenText) else Text("fine", elseText);
    IfRunsChosenBranch(s1, "check", "user is angry", [Text("sorry", thenText)], [Text("fine", elseText)], reply);
    assert TextChildren([branch]) == [branch];
    SubstituteWithoutResults(branch.text);
  }

  /** Before any tool has run, a `text` node appends its text verbatim. */
  lemma TextWithoutTools(st: RunState, id: string, text: string, reply: string)
    requires st.results == map[]
    ensures Dispatch(st, Text(id, text), reply) == st.(context := st.context + [text], lastStep := id)
  {
    SubstituteWithoutResults(text);
  }

  /** One turn of the loop: a node other than `end` hands its new state to the next position. */
  lemma RunFromNext(code: seq<Node>, i: nat, st: RunState, replies: nat -> string)
    requires i < |code| && !code[i].End?
    ensures RunFrom(code, i, st, replies) == RunFrom(code, i + 1, Dispatch(st, code[i], replies(i)), replies)
  {
  }

  /** With an affirmative reply the first branch is emitted, and the trailing `end` still sets the last step. */
  lemma BranchScriptAffirmative(greeting: string, thenText: string, elseText: string, replies: nat -> string)
    requires replies(1) == "да"
    ensures Interpret(Document(Some(BranchScript(greeting, thenText, elseText))), replies) == (greeting + "\n" + thenText, "done")
  {
    BranchScriptRun(greeting, thenText, elseText, replies);
    AffirmativeMet();
  }

  /** With a negative reply the other branch is emitted. */
  lemma BranchScriptNegative(greeting: string, thenText: string, elseText: string, replies: nat -> string)
    requires replies(1) == "нет"
    ensures Interpret(Document(Some(BranchScript(greeting, thenText, elseText))), replies) == (greeting + "\n" + elseText, "done")
  {
    BranchScriptRun(greeting, thenText, elseText, replies);
    NegativeNotMet();
  }

  /**
    A `tool` node that runs `get_user_data`, then a `text` node holding one of its placeholders
    between texts without placeholders: the placeholder comes out as that field of the tool's
    result (`""` for a field it lacks), the text around it verbatim, and the last step is the
    text node's id.
  */
  lemma ToolThenPlaceholder(before: string, field: string, after: string, replies: nat -> string)
    requires IsName(field) && !HasPlaceholder(before) && !HasPlaceholder(after)
    ensures var p := Placeholder("get_user_data", field);
      Interpret(Document(Some([Tool("load", "get_user_data"), Text("hello", before + Token(p) + after)])), replies)
      == (before + FieldValue(Tools.GetUserData(), field) + after, "hello")
  {
    var p := Placeholder("get_user_data", field);
    var text := before + Token(p) + after;
    var code := [Tool("load", "get_user_data"), Text("hello", text)];
    var results := map["get_user_data" := Tools.GetUserData()];
    var out := before + FieldValue(Tools.GetUserData(), field) + after;
    assert IsName("get_user_data");
    SubstituteInText(before, p, after, results);
    var s1 := RunState(results, [], "load");
    assert Dispatch(Initial, code[0], replies(0)) == s1;
    assert RunFrom(code, 0, Initial, replies) == RunFrom(code, 1, s1, replies);
    var s2 := RunState(results, [out], "hello");
    assert Dispatch(s1, code[1], replies(1)) == s2;
    assert RunFrom(code, 1, s1, replies) == s2;
    assert CodeOf(Document(Some(code))) == code;
  }

  /** A greeting by name: `Здравствуйте, {=@get_user_data.name=}!` after `get_user_data` greets the stub's user. */
  lemma UserNameGreeting(replies: nat -> string)
    ensures Interpret(Document(Some([Tool("load", "get_user_data"), Text("hello", "Здравствуйте, " + "{=@get_user_data.name=}" + "!")])), replies)
         == ("Здравствуйте, " + "Антон" + "!", "hello")
  {
    var p := Placeholder("get_user_data", "name");
    assert Token(p) == "{=@get_user_data.name=}";
    assert IsName("name");
    NoBraceNoPlaceholder("Здравствуйте, ");
    NoBraceNoPlaceholder("!");
    ToolThenPlaceholder("Здравствуйте, ", "name", "!", replies);
  }

  // ---------------------------------------------------------------------------
  // The interpreter
  // ---------------------------------------------------------------------------

  /** `ScenarioRunner`: holds the scenario document loaded at construction. */
  class ScenarioRunner {
    const scenarioData: Document

    /** The document is the one `load_scenario` produced. */
    constructor (data: Document)
      ensures scenarioData == data
    {
      scenarioData := data;
    }

    /**
      `run`. The result is determined by the script and the classifier's replies alone;
      the user's message reaches the run only through those replies. `visited` lists the
      top-level positions dispatched: 0, 1, 2, ... in order, each once, stopping right
      after the first `end`.
    */
    method Run(userMessage: string, replies: nat -> string) returns (context: string, lastStep: string, ghost visited: seq<int>)
      ensures (context, lastStep) == Interpret(scenarioData, replies)
      ensures |visited| <= |CodeOf(scenarioData)|
      ensures forall k :: 0 <= k < |visited| ==> visited[k] == k
      ensures forall k :: 0 <= k < |visited| - 1 ==> !CodeOf(scenarioData)[k].End?
      ensures |visited| < |CodeOf(scenarioData)| ==> |visited| > 0 && CodeOf(scenarioData)[|visited| - 1].End?
    {
      var executor := new NodeExecutor();
      var code := CodeOf(scenarioData);
      lastStep := "";
      ghost var final := RunFrom(code, 0, Initial, replies);
      visited := [];
      var i := 0;
      while i < |code|
        invariant 0 <= i <= |code|
        invariant RunFrom(code, i, RunState(executor.toolResults, executor.scenarioContext, lastStep), replies) == final
        invariant |visited| == i && forall k :: 0 <= k < i ==> visited[k] == k
        invariant forall k :: 0 <= k < i ==> !code[k].End?
      {
        var node := code[i];
        ghost var before := RunState(executor.toolResults, executor.scenarioContext, lastStep);
        visited := visited + [i];
        match node {
          case Text(id, text) =>
            executor.ExecuteText(text);
            lastStep := id;
          case Tool(id, tool) =>
            executor.ExecuteTool(tool);
            lastStep := id;
          case If(id, _, children, elseChildren) =>
            var conditionMet := executor.ExecuteIf(replies(i));
            lastStep := id;
            var chosen := if conditionMet then children else elseChildren;
            lastStep := RunChildren(executor, chosen, lastStep);
          case End(id) =>
            executor.ExecuteEnd();
            lastStep := id;
            assert RunState(executor.toolResults, executor.scenarioContext, lastStep) == final;
            break;
          case Other(_) =>
        }
        assert RunState(executor.toolResults, executor.scenarioContext, lastStep) == Dispatch(before, node, replies(i));
        RunFromNext(code, i, before, replies);
        i := i + 1;
      }
      context := executor.GetContext();
    }

    /**
      The loop over the children of the chosen branch (the same for both branches): only a
      `text` child runs, and it overwrites `last_step`.
    */
    method RunChildren(executor: NodeExecutor, children: seq<Node>, lastStep: string) returns (newLastStep: string)
      modifies executor
      ensures RunState(executor.toolResults, executor.scenarioContext, newLastStep)
           == RunBranch(RunState(old(executor.toolResults), old(executor.scenarioContext), lastStep), children)
    {
      newLastStep := lastStep;
      ghost var start := RunState(executor.toolResults, executor.scenarioContext, lastStep);
      for k := 0 to |children|
        invariant RunBranch(start, children)
               == RunBranch(RunState(executor.toolResults, executor.scenarioContext, newLastStep), children[k..])
      {
        assert children[k..][1..] == children[k + 1..];
        var child := children[k];
        if child.Text? {
          executor.ExecuteText(child.text);
          newLastStep := child.id;
        }
      }
      assert children[|children|..] == [];
    }
  }
}
