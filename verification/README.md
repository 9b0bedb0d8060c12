# 3D AI agent office: a verified model of its core

The server of this project runs a meeting room in which a CEO talks to AI agents. This Dafny
project models the deterministic parts of it, together with the word wrapper of the browser's
speech bubble:

- **Message store** (`crud.dfy`, records in `models.dfy`). `Crud.Store` is a class holding the
  stored rooms and the append-only message log as two sequences. It has the three queries
  (`meeting_rooms`, `get_meeting_room_by_id`, `messages`) and the two inserts
  (`create_meeting_room`, `create_message`). `messages(room)` keeps the room's messages and
  orders them by timestamp.
- **Agents** (`agent.dfy`). There are two agents, the assistant "Amy" ("CEO Assistant") and the
  engineering manager "Michael" ("Engineering Manager"). Each has a system prompt and an
  optional handle on the store. `post_message` refuses to post when there is no handle.
  Otherwise it appends one message stamped with the agent's name and role.
- **Router** (`agent_manager.dfy`). `analyze_message_for_agent` builds a prompt that lists every
  agent. It takes the language model's reply and returns the first agent whose role is exactly
  that reply (with the `responsibility` field the agents lack in the source; see Findings). Any other reply is an "Invalid role" error. The language model is the parameter
  `respond`.
- **Calendar tool** (`ms_graph_tool.dfy`). The function-call schema the tool advertises embeds
  today's date, which is a parameter. `run` returns the canned week schedule.
- **Speech bubble** (`dialogue.dfy`, with the JavaScript `split` and `trim` in `jsstring.dfy`).
  `wrapText` splits the message on spaces and lays the words out greedily, then trims the
  result.
  - `Dialogue.WrapText` is the imperative loop. It is proved equal to `WrapSpec`, which is
    defined by the break flags `Breaks`, the rendering `Render` and `Trim`.
  - The lemmas say:
    - which words get a line break;
    - that deleting the breaks gives back the message, for a message without line breaks;
    - that there is at most one break per word, for a message without line breaks;
    - how long lines can be, for a message without line breaks;
    - that over-long words are never cut.

`strings.dfy` holds character counting and deletion, and `wrappers.dfy` holds `Option` and
`Result`.

## Model

| member | source | states |
|---|---|---|
| Crud.FilterRoom | server/src/db/crud.py:27 | the filtered log holds exactly the messages whose room id is the requested one: every one of them, each as often as in the log, and nothing from another room |
| Crud.FilterRoomAppend | server/src/db/crud.py:19-27 | appending a message extends its own room's filtered log by it and leaves every other room's log as it was |
| Crud.AppendListings | server/src/db/crud.py:19-27 | a new message joins its own room's listing (as one more element of the multiset) and every other room's listing stays equal |
| Crud.InsertByTimestamp | server/src/db/crud.py:27 | inserting into a timestamp-ordered list keeps it ordered and adds exactly that message |
| Crud.SortByTimestamp | server/src/db/crud.py:27 | `order_by(timestamp)`: the result is in non-decreasing timestamp order and is a permutation of its input |
| Crud.FirstRoomWithId | server/src/db/crud.py:10 | a stored room with that id; none exactly when no stored room carries it |
| Crud.FirstRoomUnique | server/src/db/models.py:5 | with ids a primary key, the lookup by a stored room's id finds that very room |
| Crud.Store.MeetingRooms | server/src/db/crud.py:6-7 | every stored room is listed, and the by-id query finds each listed room |
| Crud.Store.GetMeetingRoomById | server/src/db/crud.py:9-10 | returns a room with the requested id when one is stored, and nothing exactly when none is |
| Crud.Store.CreateMeetingRoom | server/src/db/crud.py:12-17 | a new id adds exactly that one room and returns it; the room starts with no messages unless the log already names it; a taken id is refused with nothing changed |
| Crud.Store.CreateMessage | server/src/db/crud.py:19-24 | appends exactly one message with the given user name, text, role and room, the next id and the timestamp `now`, and returns it; rooms and earlier messages are unchanged; only that room's listing gains the message |
| Crud.Store.Messages | server/src/db/crud.py:26-27 | lists exactly the room's messages (every one, nothing from another room) in non-decreasing timestamp order |
| Agents.NameOf | server/src/agents/agent.py:35-46 | each agent has a non-empty name ("Amy", "Michael") |
| Agents.RoleOf | server/src/agents/agent.py:36-47 | each agent has a non-empty role ("CEO Assistant", "Engineering Manager") |
| Agents.RolesIdentifyAgents | server/src/agents/agent.py:36-47 | two agents have the same role exactly when they are the same kind of agent |
| Agents.NamesIdentifyAgents | server/src/agents/agent.py:35-46 | two agents have the same name exactly when they are the same kind of agent |
| Agents.SystemMessageOf | server/src/agents/agent.py:38-53 | each agent's system prompt contains that agent's name |
| Agents.Agent.constructor | server/src/agents/agent.py:6-8 | an agent keeps the store handle it is given (none by default) and its responsibility |
| Agents.Agent.Name | server/src/agents/agent.py:10-12 | an agent's name is non-empty and names no other kind of agent |
| Agents.Agent.Role | server/src/agents/agent.py:14-16 | an agent's role is non-empty and is held by no other kind of agent |
| Agents.Agent.SystemMessage | server/src/agents/agent.py:18-20 | the system prompt of an agent object mentions its own name |
| Agents.Agent.PostMessage | server/src/agents/agent.py:22-31 | without a handle it fails with "Database session is not available for this agent." and stores nothing; with one it appends exactly one message carrying the agent's name and role, the text and the room (room 1 by default), and returns it; the message then appears in that room's listing |
| AgentManager.EntryAt | server/src/agents/agent_manager.py:14 | each agent's entry appears whole at its own offset in the option list, and the next entry starts just after it and its separator |
| AgentManager.RoutingPrompt | server/src/agents/agent_manager.py:15-19 | the prompt starts with the question and embeds the CEO's message |
| AgentManager.PromptListsAgents | server/src/agents/agent_manager.py:14-19 | every agent's name, role and responsibility appear in the prompt at that agent's offset |
| AgentManager.PromptEntriesInOrder | server/src/agents/agent_manager.py:14-19 | the entries follow the order of the agent list and do not overlap, so there is one entry per agent |
| AgentManager.IndexOfRole | server/src/agents/agent_manager.py:22 | `filter(...)[0]`: the position of an agent with the role, with no earlier agent holding it |
| AgentManager.AnalyzeMessageForAgent | server/src/agents/agent_manager.py:13-24 | succeeds exactly when the reply equals some agent's role; the agent returned is then in the list, holds that role, and is the first to hold it; otherwise the error is "Invalid role" carrying the reply |
| AgentManager.NoAgentsNoRoute | server/src/agents/agent_manager.py:13-24 | with no agents the call fails whatever the reply |
| AgentManager.ExactMatchOnly | server/src/agents/agent_manager.py:21 | matching is exact: the reply "CEO Assistant." fails with "Invalid role" |
| AgentManager.Route | server/src/agents/agent_manager.py:21-24 | a reply selects an agent exactly when it equals some agent's role; the agent selected is the first in the list holding that role; otherwise the error is "Invalid role" carrying the reply |
| AgentManager.AnalyzeAsWritten | server/src/agents/agent_manager.py:13-24 | as written, any non-empty agent list fails on the missing `responsibility` attribute before the model is asked; only an empty list reaches the model, and then every reply is an invalid role |
| AgentManager.RouteBetweenTwoAgents | server/src/agents/agent_manager.py:20-24 | for the assistant and the manager, the reply "CEO Assistant" selects the assistant, and "Marketing Manager" fails |
| AgentManager.AsWrittenNeverRoutes | server/src/agents/agent_manager.py:14 | as written the router never returns an agent: any non-empty list fails on the missing `responsibility` attribute |
| MsGraphTool.FormatDate | server/src/tools/microsoft/ms_graph_tool.py:14 | `%Y-%m-%d`: ten characters, dashes at positions 4 and 7, digits elsewhere |
| MsGraphTool.FormatDateRoundTrip | server/src/tools/microsoft/ms_graph_tool.py:14 | reading the formatted date back gives the date, so the text identifies the date |
| MsGraphTool.Description | server/src/tools/microsoft/ms_graph_tool.py:19 | the description contains today's formatted date |
| MsGraphTool.SchemaType | server/src/tools/microsoft/ms_graph_tool.py:15-16 | the schema has type "function" |
| MsGraphTool.SchemaName | server/src/tools/microsoft/ms_graph_tool.py:17-18 | the function carries the given name |
| MsGraphTool.SchemaDescription | server/src/tools/microsoft/ms_graph_tool.py:17-19 | the function carries the given description |
| MsGraphTool.SchemaPropertyPath | server/src/tools/microsoft/ms_graph_tool.py:17-22 | a path through the function's parameters and their properties continues inside the properties object |
| MsGraphTool.SchemaParametersType | server/src/tools/microsoft/ms_graph_tool.py:20-21 | the parameters are of type "object" |
| MsGraphTool.SchemaParametersProperties | server/src/tools/microsoft/ms_graph_tool.py:20-31 | the parameters declare the properties object with `start_time` and `end_time` |
| MsGraphTool.SchemaParametersRequired | server/src/tools/microsoft/ms_graph_tool.py:20-32 | the parameters require exactly `start_time` and `end_time`, in that order |
| MsGraphTool.PropertiesTypes | server/src/tools/microsoft/ms_graph_tool.py:22-31 | both `start_time` and `end_time` are strings |
| MsGraphTool.SchemaPropertyTypes | server/src/tools/microsoft/ms_graph_tool.py:20-31 | inside the schema, both declared properties are of type "string" |
| MsGraphTool.MicrosoftGraphTool.Name | server/src/tools/microsoft/ms_graph_tool.py:6 | the tool is named "microsoft_graph" |
| MsGraphTool.MicrosoftGraphTool.OpenAiSchema | server/src/tools/microsoft/ms_graph_tool.py:12-36 | type "function"; the function name is the tool's name "microsoft_graph"; the description embeds today's date; the parameters are an object whose only properties are the strings `start_time` and `end_time`, and both are required |
| MsGraphTool.MicrosoftGraphTool.Run | server/src/tools/microsoft/ms_graph_tool.py:38-39 | the answer begins "From <start> to <end> - " and continues with the fixed schedule |
| MsGraphTool.RunIgnoresGraph | server/src/tools/microsoft/ms_graph_tool.py:38-39 | the answer depends on the two times only, never on the calendar client |
| JsString.Split | react/src/components/Dialogue.jsx:12 | `split(' ')` yields at least one piece, and no piece contains a space |
| JsString.SplitCount | react/src/components/Dialogue.jsx:12 | there is one more piece than there are spaces |
| JsString.JoinSplit | react/src/components/Dialogue.jsx:12 | joining the pieces with spaces gives back the message |
| JsString.SplitJoin | react/src/components/Dialogue.jsx:12 | splitting space-free words joined by spaces gives back the words |
| JsString.SplitAppendPlain | react/src/components/Dialogue.jsx:12 | appending text without the separator extends only the last piece |
| JsString.SplitAppendSeparator | react/src/components/Dialogue.jsx:12 | appending a separator and more text appends that text's pieces after the existing ones |
| JsString.SplitKeepsEmptyPieces | react/src/components/Dialogue.jsx:12 | consecutive spaces produce an empty word, which is kept |
| JsString.Trim | react/src/components/Dialogue.jsx:25 | `trim()`: the result neither starts nor ends with whitespace; it sits in the input between two all-whitespace stretches; it is empty exactly when the input is all whitespace |
| Dialogue.WrapText | react/src/components/Dialogue.jsx:11-26 | the loop computes `WrapSpec`: the greedy rendering of the split words, trimmed; the result has no whitespace at either end |
| Dialogue.WrappedMessage | react/src/components/Dialogue.jsx:29-30 | the bubble shows its message wrapped at 30 characters |
| Dialogue.BreaksGreedy | react/src/components/Dialogue.jsx:17-20 | a line break precedes a word exactly when the current line, trailing spaces included, plus the word is longer than the limit |
| Dialogue.GreedyUnique | react/src/components/Dialogue.jsx:17-20 | any layout obeying that rule is the one the loop produces |
| Dialogue.BreaksPrefix | react/src/components/Dialogue.jsx:16-21 | the breaker never looks ahead: the flags chosen for the first words do not depend on the words after them |
| Dialogue.FlagAt | react/src/components/Dialogue.jsx:17 | a word's flag is decided by the line built from the words before it plus that word |
| Dialogue.RenderKeepsWords | react/src/components/Dialogue.jsx:16-24 | for words without line breaks, deleting the line breaks from the text before trimming gives each word followed by one space, in order |
| Dialogue.WrapKeepsText | react/src/components/Dialogue.jsx:12-24 | for a message without line breaks, deleting the inserted breaks gives the message plus one trailing space: no word is dropped, cut or moved |
| Dialogue.NewlinesPerWord | react/src/components/Dialogue.jsx:16-19 | for words without line breaks, the text before trimming has exactly one line break per flagged word, so at most one per word |
| Dialogue.LinesBounded | react/src/components/Dialogue.jsx:17-21 | for words without line breaks, the last line is the line under construction, and every line with two or more words is at most the limit plus one characters long, its trailing space included |
| Dialogue.WrapLinesBounded | react/src/components/Dialogue.jsx:12-24 | for a message without line breaks, every line of the split message with two or more words fits in the limit plus one |
| Dialogue.LongWordBreaks | react/src/components/Dialogue.jsx:17-21 | a word longer than the limit has a line break before it, and so does the word after it |
| Dialogue.LongWordAlone | react/src/components/Dialogue.jsx:17-21 | such a word appears whole, between a line break and its trailing space: it is never cut |
| Dialogue.BrokenWordWhole | react/src/components/Dialogue.jsx:17-21 | a word with a line break in front of it appears whole right after the break, followed by its space |

## Left out

- The database itself is not modelled: SQL, sessions, `commit` and `refresh`. The store is two sequences in memory. `datetime.now()` becomes the caller's `now`, a natural number.
- Crud.Store.Messages: messages with equal timestamps come out in insertion order here. The contract promises only the timestamp order and the permutation, because SQL does not fix the order of ties.
- Message ids are assumed to run 1, 2, 3, … in insertion order, as an auto-increment key does when nothing is deleted.
- `create_meeting_room` with a taken id: the database refuses the insert on its primary key (server/src/db/models.py:5) and raises. The model returns `DuplicateRoomId` and leaves the store unchanged.
- The room's `messages` relationship (server/src/db/models.py:6, 15) is not stored. It is the filtered log, which is what `Messages` computes.
- The foreign key from a message to its room is not enforced, as in SQLite by default. A message may name a room that does not exist.
- Python exceptions (`ValueError`, `AttributeError`) are modelled as `Failure` values.
- Agents: the abstract base class becomes the two-valued `AgentKind`. The test `not self.db_session` becomes a null check, because a session object is always truthy.
- AgentManager.RoutingPrompt: Python's `repr` of the option list is modelled as single-quoted strings without escaping. Names and roles are fixed constants without quotes, but the free-text `responsibility` is not: one holding an apostrophe ("the CEO's calendar") is printed by Python in double quotes, and one holding a backslash, a line break or another control character is printed with escapes.
- Dialogue.RenderKeepsWords, Dialogue.WrapKeepsText, Dialogue.NewlinesPerWord, Dialogue.LinesBounded, Dialogue.WrapLinesBounded: proved only for a message whose words hold no line break, as the one message wrapped in the interface (react/src/components/AvatarBase.jsx:158) is; `wrapText` itself accepts any text, a line break already inside a word is not counted by these bounds, and deleting the breaks would remove it too.
- AgentManager.RoutingPrompt: the prompt is the template with its four-space margin removed. That is what `dedent` does when the message holds no line break. A message containing a line break changes the common margin, which the model does not follow.
- The call to the language model (server/src/llm/openai_client.py) is the parameter `respond`. The conversation history it appends to is not modelled.
- MsGraphTool.FormatDate: years below 1000 are zero-padded to four digits here. The C library's `strftime("%Y")` may print them unpadded.
- The calendar client (server/src/tools/microsoft/graph.py), `BaseTool.parse_function_args`, the web routes (server/src/main.py), configuration, audio and the 3D rendering are not part of this model.
- Dialogue: string lengths are counted in code points. JavaScript's `length` counts UTF-16 code units, so characters outside the Basic Multilingual Plane count twice in the browser.
- The message record follows server/src/db/models.py. It has no recipient role, and no code in the repository lists the messages between two roles or runs a tool-call loop, so neither is modelled.

## Findings

| source | as written | input that shows it | evidently intended | confidence | as-written member | corrected member |
|---|---|---|---|---|---|---|
| server/src/agents/agent_manager.py:14 | the option list reads `agent.responsibility`, which neither agent class defines (server/src/agents/agent.py:34-53) | any non-empty agent list, e.g. `[AssistantAgent()]`: an attribute error is raised before the language model is asked, so no agent is ever selected | every agent carries a responsibility text that is shown in the options, and a reply naming a role selects that agent | high; not executed | AgentManager.AsWrittenNeverRoutes | AgentManager.AnalyzeMessageForAgent |
