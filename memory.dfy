/**
  Conversation memory: one append-only message log per conversation id, created on first use,
  and the rendering of the most recent part of a log into the prompt's history block.

  The summary-buffer object of the source is abstracted as its list of messages; the
  summarising LLM and its token pruning are not part of this model.
*/
module Memory {
  import opened Strings

  /** The default of the `max_history_messages` setting. */
  const DefaultMaxHistoryMessages: int := 20

  /** What `format_history` returns for an empty log. */
  const NoHistory := "Истории диалога нет."

  /** The two message classes a log holds: `add_user_message` and `add_ai_message`. */
  datatype MessageKind = Human | AI

  datatype Message = Message(kind: MessageKind, content: string)

  type Log = seq<Message>

  type Memories = map<string, Log>

  // ---------------------------------------------------------------------------
  // The store as values
  // ---------------------------------------------------------------------------

  /** The log of `id`, empty when there is none yet. */
  function LogOf(m: Memories, id: string): Log {
    if id in m then m[id] else []
  }

  /** `get_memory`'s effect: an empty log is created for an absent id; nothing else changes. */
  function Ensured(m: Memories, id: string): (r: Memories)
    ensures r.Keys == m.Keys + {id}
    ensures forall k :: k in m ==> r[k] == m[k]
    ensures r[id] == LogOf(m, id)
  {
    if id in m then m else m[id := []]
  }

  /** Role `"user"` makes a human message; every other role makes an AI message. */
  function ToMessage(role: string, content: string): (msg: Message)
    ensures msg.content == content
    ensures msg.kind == Human <==> role == "user"
  {
    Message(if role == "user" then Human else AI, content)
  }

  /** `add_message`'s effect: exactly one message at the end of `id`'s log; other logs unchanged. */
  function Appended(m: Memories, id: string, msg: Message): (r: Memories)
    ensures r.Keys == m.Keys + {id}
    ensures r[id] == LogOf(m, id) + [msg]
    ensures forall k :: k in m && k != id ==> r[k] == m[k]
  {
    var e := Ensured(m, id);
    e[id := e[id] + [msg]]
  }

  /** `is_first_message`: the id has no log, or its log is empty. */
  predicate IsFirst(m: Memories, id: string) {
    id !in m || |m[id]| == 0
  }

  // ---------------------------------------------------------------------------
  // Rendering
  // ---------------------------------------------------------------------------

  /**
    The start index of Python's `messages[-n:]` on a list of `len` elements. Note that
    `-0` is `0`, so `n == 0` keeps the whole list, and a negative `n` drops the first `-n`.
  */
  function SliceStart(len: nat, n: int): (k: nat)
    ensures k <= len
  {
    if n > 0 then (if n >= len then 0 else len - n)
    else if -n >= len then len
    else -n
  }

  /** `messages[-n:]`. */
  function Recent(log: Log, n: int): (r: Log)
    ensures |r| <= |log| && r == log[|log| - |r|..]
    ensures n > 0 ==> |r| == if n < |log| then n else |log|
    ensures n == 0 ==> r == log
    ensures n < 0 ==> |r| == if -n < |log| then |log| + n else 0
  {
    log[SliceStart(|log|, n)..]
  }

  /** The label of a message's speaker. */
  function RoleLabel(kind: MessageKind): string {
    if kind == Human then "Пользователь" else "Агент"
  }

  /** One line of the history block. */
  function RenderLine(msg: Message): string {
    RoleLabel(msg.kind) + ": " + msg.content
  }

  /** The lines of a log, one per message, in order. */
  function RenderLines(log: Log): (r: seq<string>)
    ensures |r| == |log|
  {
    seq(|log|, i requires 0 <= i < |log| => RenderLine(log[i]))
  }

  /** `format_history` on a log: the sentinel when empty, else the newline-joined lines of the last `n` messages. */
  function FormatLog(log: Log, n: int): string {
    if log == [] then NoHistory else Join(RenderLines(Recent(log, n)), "\n")
  }

  // ---------------------------------------------------------------------------
  // Properties
  // ---------------------------------------------------------------------------

  /** A rendered line starts with its speaker's label, then `": "`, then the content. */
  lemma RenderLineShape(msg: Message)
    ensures var line, tag := RenderLine(msg), RoleLabel(msg.kind);
      && StartsWith(line, tag + ": ")
      && line[|tag| + 2..] == msg.content
      && (msg.kind == Human <==> line[0] == 'П')
  {
  }

  /** The sentinel is returned exactly for an empty log, whatever the limit. */
  lemma FormatSentinelIffEmpty(log: Log, n: int)
    ensures FormatLog(log, n) == NoHistory <==> log == []
  {
    if log != [] {
      var lines := RenderLines(Recent(log, n));
      if lines != [] {
        assert lines[0] == RenderLine(Recent(log, n)[0]);
        JoinFirstChar(lines, "\n");
        assert FormatLog(log, n)[0] != NoHistory[0];
      } else {
        assert FormatLog(log, n) == "";
      }
    }
  }

  /** No line contains a newline when no content does. */
  lemma LinesNewlineFree(log: Log)
    requires forall i :: 0 <= i < |log| ==> '\n' !in log[i].content
    ensures forall i :: 0 <= i < |RenderLines(log)| ==> '\n' !in RenderLines(log)[i]
  {
    forall i | 0 <= i < |log|
      ensures '\n' !in RenderLines(log)[i]
    {
      var msg := log[i];
      assert RenderLines(log)[i] == RoleLabel(msg.kind) + ": " + msg.content;
      assert '\n' !in RoleLabel(msg.kind) + ": ";
    }
  }

  /**
    When no message contains a newline, splitting the history block at newlines gives back
    one line per recent message, in order: the block is exactly those lines and nothing else.
  */
  lemma FormatLinesRoundTrip(log: Log, n: int)
    requires Recent(log, n) != []
    requires forall i :: 0 <= i < |log| ==> '\n' !in log[i].content
    ensures Split(FormatLog(log, n), '\n') == RenderLines(Recent(log, n))
  {
    var recent := Recent(log, n);
    assert forall i :: 0 <= i < |recent| ==> recent[i] == log[|log| - |recent| + i];
    LinesNewlineFree(recent);
    SplitJoinWhenFree(RenderLines(recent), '\n');
  }

  /** A positive limit renders the last `n` messages, or all of them when there are fewer. */
  lemma FormatRendersLastN(log: Log, n: int)
    requires log != [] && n > 0
    ensures var k := if n < |log| then n else |log|;
      FormatLog(log, n) == Join(RenderLines(log[|log| - k..]), "\n")
  {
  }

  /** A limit of zero renders the whole log (`messages[-0:]` is the whole list). */
  lemma FormatZeroRendersAll(log: Log)
    requires log != []
    ensures FormatLog(log, 0) == Join(RenderLines(log), "\n")
  {
  }

  /** A one-message conversation renders as that message's line. */
  lemma FormatSingleMessage(msg: Message, n: int)
    requires n >= 0
    ensures FormatLog([msg], n) == RenderLine(msg)
  {
    assert Recent([msg], n) == [msg];
  }

  /** Once a message is added, the conversation is no longer at its first message. */
  lemma AddedIsNotFirst(m: Memories, id: string, msg: Message)
    ensures !IsFirst(Appended(m, id, msg), id)
  {
  }

  /** Two messages added in turn end the log in that order. */
  lemma AppendedInOrder(m: Memories, id: string, a: Message, b: Message)
    ensures LogOf(Appended(Appended(m, id, a), id, b), id) == LogOf(m, id) + [a, b]
  {
    assert LogOf(m, id) + [a] + [b] == LogOf(m, id) + [a, b];
  }

  /** `get_memory` twice is `get_memory` once. */
  lemma EnsuredIdempotent(m: Memories, id: string)
    ensures Ensured(Ensured(m, id), id) == Ensured(m, id)
  {
  }

  /** Creating an empty log does not change whether an id is at its first message. */
  lemma EnsuredKeepsFirst(m: Memories, id: string, other: string)
    ensures IsFirst(Ensured(m, id), other) == IsFirst(m, other)
  {
  }

  // ---------------------------------------------------------------------------
  // The store
  // ---------------------------------------------------------------------------

  /** The per-conversation store; `maxHistoryMessages` is the setting `format_history` reads. */
  class ConversationMemory {
    var memories: Memories
    const maxHistoryMessages: int

    /** An empty store reading the given setting, 20 when none is given. */
    constructor (maxHistoryMessages: int := DefaultMaxHistoryMessages)
      ensures memories == map[]
      ensures this.maxHistoryMessages == maxHistoryMessages
    {
      memories := map[];
      this.maxHistoryMessages := maxHistoryMessages;
    }

    /** `get_memory`: the log of `id`, created empty when absent. */
    method GetMemory(id: string) returns (log: Log)
      modifies this
      ensures memories == Ensured(old(memories), id)
      ensures log == LogOf(old(memories), id)
    {
      if id !in memories {
        memories := memories[id := []];
      }
      log := memories[id];
    }

    /** `add_message`: append one message, human for role `"user"` and AI otherwise. */
    method AddMessage(id: string, role: string, content: string)
      modifies this
      ensures memories == Appended(old(memories), id, ToMessage(role, content))
    {
      var log := GetMemory(id);
      if role == "user" {
        memories := memories[id := log + [Message(Human, content)]];
      } else {
        memories := memories[id := log + [Message(AI, content)]];
      }
    }

    /** `get_history`: the messages of `id`, in the order they were added. */
    method GetHistory(id: string) returns (messages: Log)
      modifies this
      ensures memories == Ensured(old(memories), id)
      ensures messages == LogOf(old(memories), id)
    {
      messages := GetMemory(id);
    }

    /** `format_history`: the history block of `id` under the store's limit. */
    method FormatHistory(id: string) returns (s: string)
      modifies this
      ensures memories == Ensured(old(memories), id)
      ensures s == FormatLog(LogOf(old(memories), id), maxHistoryMessages)
    {
      var messages := GetHistory(id);
      if messages == [] {
        return NoHistory;
      }
      var recent := messages[SliceStart(|messages|, maxHistoryMessages)..];
      var parts: seq<string> := [];
      for i := 0 to |recent|
        invariant |parts| == i
        invariant forall j :: 0 <= j < i ==> parts[j] == RenderLine(recent[j])
      {
        var role := if recent[i].kind == Human then "Пользователь" else "Агент";
        parts := parts + [role + ": " + recent[i].content];
      }
      assert parts == RenderLines(recent);
      s := Join(parts, "\n");
    }

    /** `is_first_message`: the `or` short-circuits, so an absent id gets no entry. */
    method IsFirstMessage(id: string) returns (first: bool)
      modifies this
      ensures memories == old(memories)
      ensures first == IsFirst(old(memories), id)
    {
      if id !in memories {
        return true;
      }
      var history := GetHistory(id);
      first := |history| == 0;
    }
  }
}
