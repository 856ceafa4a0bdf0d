# Scenario engine and conversation memory of OnlineShopRAG, in Dafny

OnlineShopRAG is a retrieval-augmented shop assistant. Before the assistant answers, a
scripted scenario runs over the user's message. The script is a JSON document whose `code`
is a list of nodes:

- `text` nodes emit a fragment. A fragment may contain placeholders `{=@TOOL.FIELD=}`,
  which are filled from tool results.
- `tool` nodes run a tool. The only tool is the stub `get_user_data`.
- `if` nodes ask a classifier a yes/no question. They then run the `text` children of the
  chosen branch.
- `end` nodes stop the run.

The run returns the newline-joined fragments and the id of the last node that ran. Next to
the scenario engine sits the conversation memory. It keeps one message log per conversation
id, and it renders the most recent messages as the history block of the prompt.

This project models that core and proves what it promises:

- `Strings`: the Python string built-ins the core relies on. These are `join`, `split` on
  one character, `replace`, `strip`, `lower` and `startswith`, together with their algebra
  (round trips, left-to-right replacement).
- `Tools`: the user-data stub.
- `Nodes`: the `NodeExecutor` class (tool results and emitted fragments as fields). It also
  holds the placeholder pattern and its `re.findall` scan as functions, the substitution
  loop as a method proved against them, and the parse of the classifier's reply.
- `Runner`: the parsed script as a datatype and the `ScenarioRunner` class. The run is a
  `while` loop over the top-level nodes. It is proved equal to `Runner.Interpret`, a
  function of the script and the classifier's replies. `Interpret` carries the properties
  of a run: nothing after an `end` matters, the first `end` is the last step, branches run
  only their `text` children, and only the replies to `if` nodes matter.
- `Memory`: the `ConversationMemory` class, with one `seq` of messages per id in a `map`
  field. Its methods are proved against value-level functions (get-or-create, append,
  last-`n` slice, rendering). The rendering carries the empty-history sentinel and the
  line-by-line content of the history block.

The classifier is a language-model call and cannot be modelled. `Runner.ScenarioRunner.Run`
therefore takes its replies as a parameter: `replies(i)` is the reply to the `if` node at
top-level position `i`. Each position is dispatched at most once per run, so this describes
every possible run. The user's message reaches the run only through those replies.

## Model

| member | source | states |
|---|---|---|
| `Strings.StartsWith` | src/scenario/nodes.py:59 | Defines `s.startswith(prefix)`: the prefix is no longer than `s` and equals its first characters. |
| `Strings.Join` | src/scenario/nodes.py:94 | Defines `sep.join(parts)`: `""` for no parts, else the parts with `sep` between neighbours. |
| `Strings.Split` | src/scenario/nodes.py:94 | Defines `s.split(c)` for one character, the inverse used to state what a join contains. It always gives at least one piece. |
| `Strings.Replace` | src/scenario/nodes.py:83 | Defines `s.replace(a, b)`: scanning left to right, each occurrence that does not overlap an earlier replaced one becomes `b`. |
| `Strings.SplitOn` | src/scenario/nodes.py:83 | Defines `s.split(sep)` for a non-empty separator. It always gives at least one piece. |
| `Strings.IsSpace` | src/scenario/nodes.py:58 | Defines the characters `str.isspace` accepts, which `strip` removes. |
| `Strings.Strip` | src/scenario/nodes.py:58 | Defines `s.strip()` as `rstrip` after `lstrip`. |
| `Strings.LowerChar` | src/scenario/nodes.py:58 | Defines `str.lower` on one character for ASCII, Latin-1 and basic Cyrillic. |
| `Strings.Lower` | src/scenario/nodes.py:58 | `s.lower()` has the length of `s` and lowers each character with `LowerChar`. |
| `Strings.IsWordChar` | src/scenario/nodes.py:77 | Defines the `\w` class of the placeholder pattern. |
| `Strings.JoinAppend` | src/scenario/nodes.py:94 | Joining one more fragment appends the separator and that fragment, so `"\n".join` keeps the fragments in order. |
| `Strings.SplitJoin` | src/scenario/nodes.py:94 | When no part contains the one-character separator, splitting the join at that character gives back exactly the parts. |
| `Strings.SplitJoinWhenFree` | src/scenario/nodes.py:94 | The same round trip, stated as an implication without a precondition. |
| `Strings.JoinSplitOn` | src/scenario/nodes.py:83 | Rejoining the pieces of a text split at a pattern gives back the text. |
| `Strings.SplitOnPiecesFree` | src/scenario/nodes.py:83 | No piece of that split contains the pattern. |
| `Strings.SplitOnHeadIsPrefix` | src/scenario/nodes.py:83 | The first piece of the split is a prefix of the text. |
| `Strings.ReplaceIsJoinOfSplit` | src/scenario/nodes.py:83 | `str.replace` replaces every non-overlapping occurrence, scanning left to right. It equals the pieces of the split rejoined with the replacement. |
| `Strings.ReplaceAbsent` | src/scenario/nodes.py:83 | Replacing a pattern that does not occur leaves the text unchanged. |
| `Strings.ReplaceBySelf` | src/scenario/nodes.py:83 | Replacing a pattern by itself leaves the text unchanged. |
| `Strings.ReplaceConcat` | src/scenario/nodes.py:83 | When no occurrence of the pattern straddles the end of `a`, replacing in `a + b` is replacing in `a`, then in `b`. |
| `Strings.TrimLeft` | src/scenario/nodes.py:58 | The result is a suffix of the input that does not start with whitespace. Every character removed is whitespace. |
| `Strings.TrimRight` | src/scenario/nodes.py:58 | The result is a prefix of the input that does not end with whitespace. Every character removed is whitespace. |
| `Strings.TrimLeftSpaces` | src/scenario/nodes.py:58 | Any whitespace put in front of a string is removed by the left trim. |
| `Strings.JoinFirstChar` | src/core/memory.py:96 | A join whose first part begins with `c` begins with `c`. |
| `Tools.GetUserData` | src/scenario/tools.py:4-11 | The stub returns exactly the fields `name` = `Антон` and `age` = `25`. |
| `Nodes.Token` | src/scenario/nodes.py:83 | The text `{=@tool.field=}` that `replace` looks for. It is six characters longer than the two names together. |
| `Nodes.WordRun` | src/scenario/nodes.py:77 | The greedy `\w+` run at `i` consists of word characters only and is followed by a non-word character or the end. |
| `Nodes.WordRunExact` | src/scenario/nodes.py:77 | A run of word characters followed by a non-word character is exactly the greedy run. |
| `Nodes.MatchAt` | src/scenario/nodes.py:77-78 | A match at `i` is a well-formed placeholder whose token occurs at `i`. |
| `Nodes.MatchAtComplete` | src/scenario/nodes.py:77-78 | An occurrence of any well-formed token at `i` is matched there, with exactly that token's groups. |
| `Nodes.FindAll` | src/scenario/nodes.py:78 | Defines `re.findall` of the pattern: after a match the scan goes on at the end of the match, otherwise at the next index. |
| `Nodes.FindAllSound` | src/scenario/nodes.py:78 | Every placeholder the scan returns is well-formed and occurs in the text. |
| `Nodes.FindAllOnMatch` | src/scenario/nodes.py:78 | A match at the scan position is returned first, and the scan resumes after it. |
| `Nodes.FindAllOnMiss` | src/scenario/nodes.py:78 | Without a match at the scan position, the scan moves on by one index. |
| `Nodes.ScanStep` | src/scenario/nodes.py:78 | One step of the scan returns at most one match, occurring at the scan position, and resumes after it. |
| `Nodes.FindAllSkip` | src/scenario/nodes.py:78 | A stretch of indices without a match adds nothing to the scan. |
| `Nodes.TokensApart` | src/scenario/nodes.py:77-78 | Tokens never overlap: a token occurring after the start of another token starts after its end. |
| `Nodes.SameStartSamePlaceholder` | src/scenario/nodes.py:77-78 | Two well-formed tokens occurring at the same index belong to the same placeholder. |
| `Nodes.FindAllComplete` | src/scenario/nodes.py:78 | Every well-formed placeholder occurring at or after the scan position is among the matches the scan returns. |
| `Nodes.FindAllEmptyIff` | src/scenario/nodes.py:78 | The scan finds nothing if and only if no placeholder of the pattern occurs in the text. |
| `Nodes.FieldValue` | src/scenario/nodes.py:82 | Defines `fields.get(name, "")`. |
| `Nodes.ApplyOne` | src/scenario/nodes.py:81-83 | Defines one turn of the loop: a match whose tool has a result is replaced everywhere by the field's value; any other match changes nothing. |
| `Nodes.ApplyAll` | src/scenario/nodes.py:80-83 | Defines the loop: one turn per match, in order, each on the text the turns before it produced. |
| `Nodes.Substitute` | src/scenario/nodes.py:77-85 | Defines `_substitute_variables`: the matches are found in the original text, then the loop runs over them. |
| `Nodes.ApplyOneReplacesEverywhere` | src/scenario/nodes.py:80-83 | For a tool with a result, one pass splits the text at every occurrence of the token and rejoins it with the field's value. The pieces contain no token and rejoin to the text. |
| `Nodes.ApplyAllAbsentTools` | src/scenario/nodes.py:80-81 | Passes for tools without a result leave the text unchanged. |
| `Nodes.SubstituteWithoutPlaceholders` | src/scenario/nodes.py:67-85 | A text in which no placeholder occurs is returned unchanged. |
| `Nodes.SubstituteAbsentTools` | src/scenario/nodes.py:80-85 | A text whose every placeholder names a tool without a result is returned unchanged. |
| `Nodes.SubstituteWithoutResults` | src/scenario/nodes.py:80-85 | Before any tool has run, substitution is the identity. |
| `Nodes.SubstituteToken` | src/scenario/nodes.py:80-85 | A text that is one placeholder becomes the field's value (`""` when the field is missing) if its tool has a result, and stays as it is otherwise. |
| `Nodes.ReplaceAroundToken` | src/scenario/nodes.py:83 | Replacing the token of `q` in `a + token(p) + b` replaces in `a` and in `b` on their own. The token of `p` becomes the replacement when `p` is `q`, and stays otherwise. |
| `Nodes.PassKeepsToken` | src/scenario/nodes.py:80-83 | A turn for another placeholder keeps an occurrence of this placeholder's token. |
| `Nodes.ApplyAllKeepsAbsent` | src/scenario/nodes.py:80-83 | The whole loop keeps the token of a placeholder whose tool has no result. |
| `Nodes.AbsentToolTokenSurvives` | src/scenario/nodes.py:80-85 | In any text, a placeholder whose tool has no result is still there after substitution, whatever else the text holds. |
| `Nodes.FindAllOnlyToken` | src/scenario/nodes.py:77-78 | A token between texts without placeholders is the only match. |
| `Nodes.ReplaceTokenInText` | src/scenario/nodes.py:83 | Replacing a token that occurs once replaces exactly that occurrence and keeps the text around it. |
| `Nodes.SubstituteInText` | src/scenario/nodes.py:77-85 | A placeholder between texts without placeholders becomes the field's value (`""` if the field is missing) when its tool has a result, and stays otherwise. The text around it is kept. |
| `Nodes.NoBraceNoPlaceholder` | src/scenario/nodes.py:77 | A text without `{` holds no placeholder. |
| `Nodes.InvokeTool` | src/scenario/nodes.py:39-42 | `get_user_data` stores the stub's result under its own name and adds no other key. Other entries keep their values. Any other tool name changes nothing. |
| `Nodes.ConditionMet` | src/scenario/nodes.py:58-59 | Defines the parse of the reply: the stripped, lower-cased reply starts with `да`. |
| `Nodes.LowerAffirmativeLetters` | src/scenario/nodes.py:58 | Only `Д`/`д` lower to `д` and only `А`/`а` lower to `а`. None of them is whitespace. |
| `Nodes.ConditionMetIff` | src/scenario/nodes.py:58-59 | The condition holds if and only if, after leading whitespace, the reply begins with a character lowering to `д` and then one lowering to `а`. Trailing whitespace never matters. |
| `Nodes.ConditionMetLetters` | src/scenario/nodes.py:58-59 | The "only if" direction of `ConditionMetIff`. |
| `Nodes.LettersConditionMet` | src/scenario/nodes.py:58-59 | The "if" direction of `ConditionMetIff`. |
| `Nodes.LeadingWhitespaceIgnored` | src/scenario/nodes.py:58-59 | Whitespace before the reply does not change the outcome. |
| `Nodes.AffirmativeMet` | src/scenario/nodes.py:58-59 | The reply `да` meets the condition. |
| `Nodes.AffirmativeSentenceMet` | src/scenario/nodes.py:58-59 | The reply `да, это так` meets the condition. |
| `Nodes.NegativeNotMet` | src/scenario/nodes.py:58-59 | The reply `нет` does not meet the condition. |
| `Nodes.EmptyNotMet` | src/scenario/nodes.py:58-59 | An empty reply does not meet the condition. |
| `Nodes.NodeExecutor.constructor` | src/scenario/nodes.py:12-17 | A run starts with no tool results and no fragments. |
| `Nodes.NodeExecutor.ExecuteText` | src/scenario/nodes.py:20-30 | Appends exactly the substituted text and leaves the tool results untouched. |
| `Nodes.NodeExecutor.ExecuteTool` | src/scenario/nodes.py:32-42 | The tool results become `InvokeTool` of the old ones. The fragments are unchanged. |
| `Nodes.NodeExecutor.ExecuteIf` | src/scenario/nodes.py:44-59 | Returns `ConditionMet` of the classifier's reply. |
| `Nodes.NodeExecutor.ExecuteEnd` | src/scenario/nodes.py:61-65 | Does nothing: it changes no field. |
| `Nodes.NodeExecutor.SubstituteVariables` | src/scenario/nodes.py:67-85 | The loop over the matches computes `Substitute` of the text under the current tool results. |
| `Nodes.NodeExecutor.GetContext` | src/scenario/nodes.py:87-94 | No fragments give `""`. Splitting the context at newlines gives back the fragments in order when none contains a newline. |
| `Runner.CodeOf` | src/scenario/runner.py:48 | Defines `scenario_data.get("code", [])`. |
| `Runner.RunChild` | src/scenario/runner.py:60-62 | Defines the step of a `text` node, at the top level or in a branch: its substituted text is appended and it becomes the last step. Another child of a branch is skipped. |
| `Runner.RunBranch` | src/scenario/runner.py:75-90 | Defines the loop over the chosen branch: one step per child, in order. |
| `Runner.Dispatch` | src/scenario/runner.py:55-96 | Defines one turn of the loop by node type: `text`, `tool`, `if` with its chosen branch, `end`, and no step for any other type. |
| `Runner.RunFrom` | src/scenario/runner.py:53-98 | Defines the loop from a cursor: dispatch, stop after an `end`, go on at the next position otherwise. |
| `Runner.Interpret` | src/scenario/runner.py:47-102 | Defines `run`: the loop from a fresh executor and an empty last step, then the newline-joined context and the last step. |
| `Runner.EmptyScript` | src/scenario/runner.py:48-102 | A script without `code`, or with an empty one, returns `("", "")`. |
| `Runner.TextRunFrom` | src/scenario/runner.py:53-63 | From cursor `i`, a script of `text` nodes appends their texts verbatim, because no tool has run. The last step is the last node's id. |
| `Runner.TextOnlyScript` | src/scenario/runner.py:53-102 | A script of `text` nodes returns their texts joined by newlines, and the last node's id. |
| `Runner.RunFromStopsAtEnd` | src/scenario/runner.py:92-96 | A run from a cursor at or before an `end` gives the same result on the script cut just after that `end`. |
| `Runner.NothingAfterEnd` | src/scenario/runner.py:92-96 | Nodes after an `end` never affect the result. |
| `Runner.RunFromEndsOnEnd` | src/scenario/runner.py:92-96 | A run that reaches the first `end` finishes with that node's id as its last step. |
| `Runner.FirstEndIsLastStep` | src/scenario/runner.py:92-96 | The first `end` of a script sets the returned last step. |
| `Runner.TextChildren` | src/scenario/runner.py:80-90 | The filter keeps only `text` children, all taken from the branch. |
| `Runner.BranchRunsTextChildren` | src/scenario/runner.py:80-90 | A branch leaves the tool results alone and appends the substituted texts of its `text` children in order. It ends on the id of its last `text` child, or keeps the last step when it has none. |
| `Runner.BranchTextStep` | src/scenario/runner.py:80-84 | A `text` child at the head of a branch contributes its substituted text first and may set the last step. |
| `Runner.IfRunsChosenBranch` | src/scenario/runner.py:70-90 | An `if` node sets the last step to its own id. It then runs the `text` children of `children` when the condition holds, and of `else_children` otherwise. |
| `Runner.OtherSkipped` | src/scenario/runner.py:60-98 | A node of no known type is skipped: the run goes on from the next node with the same state. |
| `Runner.UnknownToolNode` | src/scenario/runner.py:65-67 | A `tool` node for an unknown tool stores nothing and appends nothing. Only the last step moves. |
| `Runner.TextWithoutTools` | src/scenario/runner.py:60-62 | Before any tool has run, a `text` node appends its text verbatim and becomes the last step. |
| `Runner.RunFromNext` | src/scenario/runner.py:98 | A node other than `end` hands its new state to the next position. |
| `Runner.OnlyIfRepliesMatter` | src/scenario/runner.py:70-73 | Two runs whose classifier replies agree at the `if` positions give the same result. |
| `Runner.BranchOfScript` | src/scenario/runner.py:70-90 | In the greeting-branch-end script, the `if` node appends the chosen branch's text verbatim and ends on that child's id. |
| `Runner.BranchScriptRun` | src/scenario/runner.py:53-102 | A greeting, a two-way branch and an `end` produce the greeting, a newline and the chosen text. The last step is the `end` node's id. |
| `Runner.BranchScriptAffirmative` | src/scenario/runner.py:76-82 | With the reply `да` the first branch's text follows the greeting. |
| `Runner.BranchScriptNegative` | src/scenario/runner.py:83-90 | With the reply `нет` the other branch's text follows the greeting. |
| `Runner.ToolThenPlaceholder` | src/scenario/runner.py:60-68 | After a `tool` node runs `get_user_data`, a text holding one of its placeholders between texts without placeholders comes out with that field of the stub (`""` if missing) in its place. |
| `Runner.UserNameGreeting` | src/scenario/runner.py:60-68 | `Здравствуйте, {=@get_user_data.name=}!` after `get_user_data` yields `Здравствуйте, Антон!`. |
| `Runner.ScenarioRunner.constructor` | src/scenario/runner.py:23-24 | The runner holds the loaded document. |
| `Runner.ScenarioRunner.Run` | src/scenario/runner.py:35-102 | The loop returns exactly `Interpret` of the document and the replies. It dispatches positions 0, 1, 2, … in order, each once, and stops right after the first `end`, or at the end of the script when there is none. |
| `Runner.ScenarioRunner.RunChildren` | src/scenario/runner.py:76-90 | The loop over the chosen branch leaves the executor and the last step as `RunBranch` says. |
| `Memory.LogOf` | src/core/memory.py:28-34 | Defines the log of an id: its stored messages, or an empty log when none is stored yet. |
| `Memory.Ensured` | src/core/memory.py:28-34 | `get_memory` adds only the requested id. Existing logs keep their contents, and a new id gets an empty log. |
| `Memory.ToMessage` | src/core/memory.py:46-49 | Role `user` makes a human message and every other role an AI message. The content is kept. |
| `Memory.Appended` | src/core/memory.py:45-49 | `add_message` puts exactly one message at the end of that id's log. Every other log is unchanged. |
| `Memory.IsFirst` | src/core/memory.py:108 | Defines `is_first_message`: the id has no entry, or its log is empty. |
| `Memory.SliceStart` | src/core/memory.py:92 | The start index of `messages[-n:]` lies within the log. |
| `Memory.Recent` | src/core/memory.py:92 | `messages[-n:]` is a suffix of the log. It has length `min(n, len)` for positive `n` and is the whole log for `n == 0`. For negative `n` the first `-n` messages are dropped. |
| `Memory.RoleLabel` | src/core/memory.py:93 | Defines the label: `Пользователь` for a human message, `Агент` otherwise. |
| `Memory.RenderLine` | src/core/memory.py:94 | Defines a line of the history block: the label, `": "`, the content. |
| `Memory.RenderLines` | src/core/memory.py:92-94 | One line per rendered message. |
| `Memory.RenderLineShape` | src/core/memory.py:93-94 | A line is the speaker's label (`Пользователь` for human messages, `Агент` otherwise), then `": "`, then the content. |
| `Memory.FormatLog` | src/core/memory.py:87-96 | Defines `format_history` on a log: the sentinel when the log is empty, else the newline-joined lines of the recent messages. |
| `Memory.FormatSentinelIffEmpty` | src/core/memory.py:87-96 | `Истории диалога нет.` is returned if and only if the log is empty, whatever the limit. |
| `Memory.LinesNewlineFree` | src/core/memory.py:93-94 | No line contains a newline when no message does. |
| `Memory.FormatLinesRoundTrip` | src/core/memory.py:91-96 | When no message contains a newline, splitting the history block at newlines gives exactly one line per recent message, oldest first. |
| `Memory.FormatRendersLastN` | src/core/memory.py:92-96 | A positive limit renders the last `n` messages, or all of them when there are fewer. |
| `Memory.FormatZeroRendersAll` | src/core/memory.py:92-96 | A limit of zero renders the whole log. |
| `Memory.FormatSingleMessage` | src/core/memory.py:91-96 | A one-message log renders as that message's single line. |
| `Memory.AddedIsNotFirst` | src/core/memory.py:108 | After a message is added to an id, `is_first_message` on that id is false. |
| `Memory.AppendedInOrder` | src/core/memory.py:45-49 | Two messages added in turn end the log in that order. |
| `Memory.EnsuredIdempotent` | src/core/memory.py:28-34 | `get_memory` twice has the effect of `get_memory` once. |
| `Memory.EnsuredKeepsFirst` | src/core/memory.py:108 | Creating an empty log never changes whether an id is at its first message. |
| `Memory.ConversationMemory.constructor` | src/core/memory.py:11-16 | The store starts empty. |
| `Memory.ConversationMemory.GetMemory` | src/core/memory.py:18-34 | The store becomes `Ensured` of the old one, and the returned log is the id's existing log or a new empty one. |
| `Memory.ConversationMemory.AddMessage` | src/core/memory.py:36-49 | The store becomes `Appended` of the old one with the message built from the role. |
| `Memory.ConversationMemory.GetHistory` | src/core/memory.py:51-62 | Returns the id's messages in insertion order, creating an empty log if needed. |
| `Memory.ConversationMemory.FormatHistory` | src/core/memory.py:77-96 | The loop builds `FormatLog` of the id's log under the store's limit. Only `get_memory`'s entry is created. |
| `Memory.ConversationMemory.IsFirstMessage` | src/core/memory.py:98-108 | The result is `IsFirst` of the store. The store is left exactly as it was, because the `or` short-circuits on an absent id. |

## Left out

- `load_scenario` and the choice of the scenario path are left out. They read a JSON file and can raise `FileNotFoundError`. The constructor takes the parsed document instead, with each node's fields already read with their defaults.
- Node fields of a type other than string or list are left out. A node whose `type` is missing or unknown is `Other`.
- The classifier call in `execute_if` is left out: the prompt, the model and its `invoke`. The reply is a parameter, so `user_message` has no other effect on a run, exactly as in the source.
- Logging (`logger.info`) is left out. It has no effect on results.
- `Nodes.NodeExecutor.ExecuteEnd` has no contract, because the source's `execute_end` does nothing.
- `str(value)` is left out. Tool fields are modelled as strings, which is all the stub returns.
- `Strings.IsWordChar` approximates `\w` by ASCII letters, digits and `_`, the Latin-1 letters and digits, and the Cyrillic blocks. Letters of other scripts are not word characters here.
- `Strings.LowerChar` lowers ASCII, Latin-1 and basic Cyrillic only. Characters whose lower case in Python is another script's letter or several characters (such as `İ`) are their own lower case here.
- `re.findall` is modelled for this one pattern only, not for regular expressions in general.
- The summary buffer of `ConversationMemory` is left out: `get_summary`, the summarising model and the token limit (`max_history_messages * 50`). Each memory is its list of messages.
- `Memory.ConversationMemory.GetHistory` and `Memory.ConversationMemory.GetMemory` return the log as a value. In the source `get_history` returns the live message list and `get_memory` the live buffer object, and `add_message` changes the log through that object. A caller holding either could change the log; that aliasing is left out.
- The module-level `conversation_memory` instance is left out.
- `max_history_messages` comes from the settings in the source. Here it is a constant of the store, given to its constructor, which uses `Memory.DefaultMaxHistoryMessages` (20) when none is given.
- The rest of the repository is not part of this model: the RAG pipeline, the agent orchestration, the HTTP and UI entry points, the settings and logging setup.
