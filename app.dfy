/**
 * The request pipeline of the bot (app.py): the per-user conversation store
 * `user_memories`, the rendering of a user's history and of the tool catalog
 * handed to the agent, `process_message`, and the two resets.
 *
 * The agent (the LLM and its tool loop) is the parameter `agent`: it maps the
 * inputs of one invocation to its output, or to `None` when the invocation
 * raises.
 */
module App {
  import opened Wrappers
  import opened Text
  import Sarcasm
  import Tooling
  import WeatherTool
  import NewsTool

  /** The system prompt, with its leading and trailing newline. */
  const SystemPrompt: string :=
    "\nYou are a helpful and submissive butler called Crist\U{f3}bal that will always obbey the user's requests.\n"
    + "Refer to the user as your master, lord, creator, or similar respectful terms.\n"
    + "However, at the end of each interaction, show what you really think about the situation and show your true sarcastic and rebellious nature.\n"
    + "Always speak in Spanish to the user.\n"
    + "You can check the current weather in any location when requested.\n"
    + "You can search for the latest news on any topic when requested.\n"

  const Apology: string := "Sorry, there was an error processing your request."
  const Forgotten: string :=
    "He olvidado nuestra conversaci\U{f3}n anterior. \U{bf}En qu\U{e9} puedo ayudarte ahora?"
  const NothingToForget: string := "No hay conversaci\U{f3}n que borrar."
  const AllReset: string := "All conversations have been reset."

  /** The tools the agent is given: the weather tool, then the news tool. */
  const Tools: seq<Tooling.Tool> := [WeatherTool.Descriptor, NewsTool.Descriptor]

  // ----- Conversation history -----

  /** One message of a conversation: the user's or the agent's. */
  datatype Turn = Human(content: string) | Ai(content: string)

  const HumanTag: string := "Human: "
  const AiTag: string := "AI: "

  function TurnLine(t: Turn): string {
    match t
    case Human(c) => HumanTag + c
    case Ai(c) => AiTag + c
  }

  function HistoryLines(h: seq<Turn>): (r: seq<string>)
    ensures |r| == |h|
    ensures forall i :: 0 <= i < |h| ==> r[i] == TurnLine(h[i])
  {
    seq(|h|, i requires 0 <= i < |h| => TurnLine(h[i]))
  }

  /** The `chat_history` text: one line per message, in order. */
  function ChatHistory(h: seq<Turn>): string {
    Join("\n", HistoryLines(h))
  }

  /** Reads a line of the history back. */
  function ParseTurn(line: string): Option<Turn> {
    if |line| >= |HumanTag| && line[..|HumanTag|] == HumanTag then Some(Human(line[|HumanTag|..]))
    else if |line| >= |AiTag| && line[..|AiTag|] == AiTag then Some(Ai(line[|AiTag|..]))
    else None
  }

  function ParseTurns(lines: seq<string>): Option<seq<Turn>>
    decreases |lines|
  {
    if lines == [] then Some([])
    else match (ParseTurn(lines[0]), ParseTurns(lines[1..]))
      case (Some(t), Some(ts)) => Some([t] + ts)
      case _ => None
  }

  /** Reads a whole history back; the empty text is the empty history. */
  function ParseHistory(s: string): Option<seq<Turn>> {
    if s == [] then Some([]) else ParseTurns(Split(s, "\n"))
  }

  lemma TurnLineParses(t: Turn)
    ensures ParseTurn(TurnLine(t)) == Some(t)
  {
    match t
    case Human(c) =>
      assert TurnLine(t)[..|HumanTag|] == HumanTag;
      assert TurnLine(t)[|HumanTag|..] == c;
    case Ai(c) =>
      var line := TurnLine(t);
      assert line[0] == 'A';
      assert line[..|AiTag|] == AiTag;
      assert line[|AiTag|..] == c;
  }

  lemma {:induction false} HistoryLinesParse(h: seq<Turn>)
    ensures ParseTurns(HistoryLines(h)) == Some(h)
    decreases |h|
  {
    if h != [] {
      TurnLineParses(h[0]);
      HistoryLinesParse(h[1..]);
      assert HistoryLines(h)[1..] == HistoryLines(h[1..]);
      assert [h[0]] + h[1..] == h;
    }
  }

  /** A line of the history holds a line break only where its message does. */
  lemma TurnLineNoBreak(t: Turn)
    requires '\n' !in t.content
    ensures '\n' !in TurnLine(t)
  {
    assert '\n' !in HumanTag && '\n' !in AiTag;
  }

  /** The history handed to the agent is exactly the prior conversation: read
      back line by line it gives every message, in order, as long as no
      message holds a line break. */
  lemma HistoryRoundTrip(h: seq<Turn>)
    requires forall t | t in h :: '\n' !in t.content
    ensures ParseHistory(ChatHistory(h)) == Some(h)
  {
    var lines := HistoryLines(h);
    HistoryLinesParse(h);
    if h != [] {
      forall l | l in lines ensures '\n' !in l {
        var i :| 0 <= i < |lines| && l == lines[i];
        assert h[i] in h;
        TurnLineNoBreak(h[i]);
      }
      SplitJoin('\n', lines);
      assert lines == [lines[0]] + lines[1..];
      JoinStartsWith("\n", lines[0], lines[1..]);
      assert |lines[0]| >= |AiTag|;
    }
  }

  lemma HistoryLinesSnoc(h: seq<Turn>, message: string, output: string)
    ensures HistoryLines(h + [Human(message), Ai(output)])
         == HistoryLines(h) + [TurnLine(Human(message))] + [TurnLine(Ai(output))]
  {
  }

  /** After an exchange the history text grows by the two new lines only. */
  lemma HistoryExtends(h: seq<Turn>, message: string, output: string)
    ensures ChatHistory(h + [Human(message), Ai(output)])
         == (if h == [] then "" else ChatHistory(h) + "\n") + HumanTag + message + "\n" + AiTag + output
  {
    var lines := HistoryLines(h);
    var human := HumanTag + message;
    var ai := AiTag + output;
    HistoryLinesSnoc(h, message, output);
    if h == [] {
      assert lines + [human] + [ai] == [human, ai];
      JoinTwo("\n", human, ai);
    } else {
      JoinSnoc("\n", lines, human);
      JoinSnoc("\n", lines + [human], ai);
    }
  }

  // ----- Tool catalog -----

  function ToolLine(t: Tooling.Tool): string {
    t.name + ": " + t.description
  }

  function ToolLines(tools: seq<Tooling.Tool>): (r: seq<string>)
    ensures |r| == |tools|
    ensures forall i :: 0 <= i < |tools| ==> r[i] == ToolLine(tools[i])
  {
    seq(|tools|, i requires 0 <= i < |tools| => ToolLine(tools[i]))
  }

  /** The `tools` text: one `name: description` line per tool. */
  function ToolCatalog(tools: seq<Tooling.Tool>): string {
    Join("\n", ToolLines(tools))
  }

  function ToolNameList(tools: seq<Tooling.Tool>): (r: seq<string>)
    ensures |r| == |tools|
    ensures forall i :: 0 <= i < |tools| ==> r[i] == tools[i].name
  {
    seq(|tools|, i requires 0 <= i < |tools| => tools[i].name)
  }

  /** The `tool_names` text: the names, separated by a comma and a space. */
  function ToolNames(tools: seq<Tooling.Tool>): string {
    Join(", ", ToolNameList(tools))
  }

  /** The catalog, read back line by line, gives one line per tool, in the
      order of the tools, when no name or description holds a line break. */
  lemma CatalogLines(tools: seq<Tooling.Tool>)
    requires tools != []
    requires forall t | t in tools :: '\n' !in t.name && '\n' !in t.description
    ensures Split(ToolCatalog(tools), "\n") == ToolLines(tools)
  {
    var lines := ToolLines(tools);
    forall l | l in lines ensures '\n' !in l {
      var i :| 0 <= i < |lines| && l == lines[i];
      assert tools[i] in tools;
      assert '\n' !in ": ";
    }
    SplitJoin('\n', lines);
  }

  /** Each tool's name appears in the names text, after the names before it
      and their separators. */
  lemma ToolNamed(tools: seq<Tooling.Tool>, i: nat)
    requires i < |tools|
    ensures OccursAt(ToolNames(tools), tools[i].name, TotalLength(ToolNameList(tools)[..i]) + 2 * i)
  {
    JoinAt(", ", ToolNameList(tools), i);
  }

  lemma ToolNamesOfTools()
    ensures ToolNames(Tools) == "get_weather, get_news"
  {
    assert ToolNameList(Tools) == ["get_weather", "get_news"];
    assert ["get_weather", "get_news"][1..] == ["get_news"];
  }

  // ----- One invocation of the agent -----

  /** The inputs of one agent invocation. */
  datatype AgentInput = AgentInput(input: string, chatHistory: string, systemPrompt: string,
                                   tools: string, toolNames: string)

  /** What `process_message` hands the agent for `message` after the history `h`. */
  function AgentRequest(message: string, h: seq<Turn>): AgentInput {
    AgentInput(message, ChatHistory(h), SystemPrompt, ToolCatalog(Tools), ToolNames(Tools))
  }

  /** The request carries the message as the input and, as the history, the
      prior conversation without the message. */
  lemma RequestCarriesPrior(message: string, h: seq<Turn>)
    requires forall t | t in h :: '\n' !in t.content
    ensures AgentRequest(message, h).input == message
    ensures ParseHistory(AgentRequest(message, h).chatHistory) == Some(h)
    ensures AgentRequest(message, h).toolNames == "get_weather, get_news"
  {
    HistoryRoundTrip(h);
    ToolNamesOfTools();
  }

  // ----- Stored conversations -----

  /** A conversation as stored: a sequence of exchanges, each the user's
      message followed by the agent's reply. */
  predicate Paired(h: seq<Turn>) {
    |h| % 2 == 0 && forall i :: 0 <= i < |h| ==> (h[i].Human? <==> i % 2 == 0)
  }

  lemma PairedExtend(h: seq<Turn>, message: string, output: string)
    requires Paired(h)
    ensures Paired(h + [Human(message), Ai(output)])
  {
    var g := h + [Human(message), Ai(output)];
    forall i | 0 <= i < |g| ensures g[i].Human? <==> i % 2 == 0 {
      if i < |h| {
        assert g[i] == h[i];
      } else if i == |h| {
        assert g[i] == Human(message);
      } else {
        assert g[i] == Ai(output);
      }
    }
  }

  /** The history text of a stored conversation alternates: even lines are the
      user's messages, odd lines the agent's answers, and it ends with an answer. */
  lemma PairedAlternates(h: seq<Turn>)
    requires Paired(h)
    ensures |HistoryLines(h)| % 2 == 0
    ensures forall i :: 0 <= i < |h| ==>
              HistoryLines(h)[i] == (if i % 2 == 0 then HumanTag else AiTag) + h[i].content
  {
    forall i | 0 <= i < |h|
      ensures HistoryLines(h)[i] == (if i % 2 == 0 then HumanTag else AiTag) + h[i].content
    {
      assert h[i].Human? <==> i % 2 == 0;
    }
  }

  /** `user_memories`: the conversation of each user, by user id. */
  class ConversationStore {
    var memories: map<string, seq<Turn>>

    predicate Valid()
      reads this
    {
      forall u | u in memories :: Paired(memories[u])
    }

    constructor()
      ensures memories == map[] && Valid()
    {
      memories := map[];
    }

    /** The stored conversation of `userId`, empty when there is none. */
    function HistoryOf(userId: string): (h: seq<Turn>)
      reads this
      ensures userId in memories ==> h == memories[userId]
      ensures userId !in memories ==> h == []
    {
      if userId in memories then memories[userId] else []
    }

    /** `get_or_create_memory`: an existing conversation is returned unchanged;
        an unknown user gets an empty one; no other entry changes. */
    method GetOrCreate(userId: string) returns (history: seq<Turn>)
      requires Valid()
      modifies this
      ensures Valid()
      ensures userId in old(memories) ==> memories == old(memories) && history == old(memories)[userId]
      ensures userId !in old(memories) ==> memories == old(memories)[userId := []] && history == []
      ensures memories == old(memories)[userId := history]
    {
      if userId !in memories {
        memories := memories[userId := []];
      }
      history := memories[userId];
    }

    /** `process_message`: the agent gets the message and the prior history.
        When it answers, the message and the answer are appended to the user's
        conversation and the reply is the answer with its asides formatted;
        when it fails, the reply is the apology and the conversation is at
        most created. No other user's conversation changes. */
    method ProcessMessage(userId: string, message: string, agent: AgentInput -> Option<string>)
      returns (reply: string)
      requires Valid()
      modifies this
      ensures Valid()
      ensures var prior := old(HistoryOf(userId));
              match agent(AgentRequest(message, prior))
              case Some(output) =>
                && memories == old(memories)[userId := prior + [Human(message), Ai(output)]]
                && reply == Sarcasm.Format(output)
              case None =>
                && memories == old(memories)[userId := prior]
                && reply == Apology
    {
      var history := GetOrCreate(userId);
      var request := AgentRequest(message, history);
      match agent(request)
      case None =>
        reply := Apology;
      case Some(output) =>
        ghost var created := memories;
        RecordExchange(userId, message, output);
        assert created[userId := history + [Human(message), Ai(output)]]
            == old(memories)[userId := history + [Human(message), Ai(output)]];
        reply := Sarcasm.Format(output);
    }

    /** The two appends of a successful `process_message`: the user's message,
        then the agent's answer. */
    method RecordExchange(userId: string, message: string, output: string)
      requires Valid() && userId in memories
      modifies this
      ensures Valid()
      ensures memories == old(memories)[userId := old(memories)[userId] + [Human(message), Ai(output)]]
    {
      var history := memories[userId];
      PairedExtend(history, message, output);
      memories := memories[userId := memories[userId] + [Human(message)]];
      memories := memories[userId := memories[userId] + [Ai(output)]];
      assert memories[userId] == history + [Human(message), Ai(output)];
    }

    /** The `/reset` command: only the sender's conversation is removed, and
        the reply says whether there was one. */
    method ResetUser(userId: string) returns (reply: string)
      requires Valid()
      modifies this
      ensures Valid()
      ensures memories == old(memories) - {userId}
      ensures HistoryOf(userId) == []
      ensures forall u | u != userId :: HistoryOf(u) == old(HistoryOf(u))
      ensures reply == if userId in old(memories) then Forgotten else NothingToForget
    {
      if userId in memories {
        memories := memories - {userId};
        reply := Forgotten;
      } else {
        reply := NothingToForget;
      }
    }

    /** The `/reset` route: every conversation is removed. */
    method ResetAll() returns (reply: string)
      modifies this
      ensures memories == map[] && Valid()
      ensures reply == AllReset
    {
      memories := map[];
      reply := AllReset;
    }
  }
}
