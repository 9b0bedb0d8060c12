/** The two company agents: fixed names, roles and system prompts, and an optional handle on the
    message store through which an agent posts into a meeting room. */
module Agents {
  import opened Wrappers
  import opened Models
  import opened Strings
  import Crud

  /** The concrete agent classes of the server. */
  datatype AgentKind = Assistant | EngineeringManager

  /** Raised when an agent that has no store handle is asked to post. */
  datatype AgentError = ValueError(message: string)

  const NoSessionMessage: string := "Database session is not available for this agent."

  /** The room a post goes to when the caller names none. */
  const DefaultMeetingRoomId: int := 1

  /** Each agent's display name. */
  function NameOf(kind: AgentKind): (r: string)
    ensures r != []
  {
    match kind
    case Assistant => "Amy"
    case EngineeringManager => "Michael"
  }

  /** Each agent's role, the string the router matches the language model's reply against. */
  function RoleOf(kind: AgentKind): (r: string)
    ensures r != []
  {
    match kind
    case Assistant => "CEO Assistant"
    case EngineeringManager => "Engineering Manager"
  }

  /** Different agents have different roles, so a role names exactly one kind of agent. */
  lemma RolesIdentifyAgents(a: AgentKind, b: AgentKind)
    ensures RoleOf(a) == RoleOf(b) <==> a == b
  {
    if a != b {
      assert RoleOf(a)[0] != RoleOf(b)[0];
    }
  }

  /** Different agents have different names. */
  lemma NamesIdentifyAgents(a: AgentKind, b: AgentKind)
    ensures NameOf(a) == NameOf(b) <==> a == b
  {
    if a != b {
      assert NameOf(a)[0] != NameOf(b)[0];
    }
  }

  /** The prompt that sets up the language model as this agent; it introduces the agent by name. */
  function SystemMessageOf(kind: AgentKind): (r: string)
    ensures IsInfix(NameOf(kind), r)
  {
    var name := NameOf(kind);
    var before := match kind
      case Assistant => "\nYou are the Chief Executive Officer's assistent "
      case EngineeringManager => "\nYou are the Software Engineering Manager ";
    var after := match kind
      case Assistant =>
        ". You work at C3.ai and your main responsibility as a CEO's assistant is to provide"
        + " administrative support to the CEO and coordinate the CEO's questions.\n"
        + "You are a key member of the CEO's team and play a crucial role in ensuring the CEO's"
        + " questions get answered by the right person, and you need to be able to communicate"
        + " effectively with the CEO with the information provided by other members in the company.\n"
        + "        "
      case EngineeringManager =>
        ". You work at C3.ai and your main responsibility as an Engineering Manager is to provide"
        + " update on software development progress.\n"
        + "Your team is using Jira to manage the software development process. You need to be able"
        + " to communicate effectively with the CEO and other team members to ensure the software"
        + " development process is on track.\n"
        + "        ";
    InfixMiddle(before, name, after);
    before + name + after
  }

  class Agent {
    const kind: AgentKind
    /** What the agent is responsible for, as shown to the router. */
    const responsibility: string
    /** The store handle, absent for an agent that only talks. */
    const dbSession: Crud.Store?

    constructor (kind: AgentKind, responsibility: string, dbSession: Crud.Store? := null)
      ensures this.kind == kind && this.responsibility == responsibility
      ensures this.dbSession == dbSession
    {
      this.kind := kind;
      this.responsibility := responsibility;
      this.dbSession := dbSession;
    }

    /** `name`: this agent's display name, which no other kind of agent carries. */
    function Name(): (r: string)
      ensures r != []
      ensures forall k :: NameOf(k) == r <==> k == kind
    {
      assert forall k :: NameOf(k) == NameOf(kind) <==> k == kind by {
        forall k
          ensures NameOf(k) == NameOf(kind) <==> k == kind
        {
          NamesIdentifyAgents(k, kind);
        }
      }
      NameOf(kind)
    }

    /** `role`: this agent's role, which no other kind of agent holds. */
    function Role(): (r: string)
      ensures r != []
      ensures forall k :: RoleOf(k) == r <==> k == kind
    {
      assert forall k :: RoleOf(k) == RoleOf(kind) <==> k == kind by {
        forall k
          ensures RoleOf(k) == RoleOf(kind) <==> k == kind
        {
          RolesIdentifyAgents(k, kind);
        }
      }
      RoleOf(kind)
    }

    function SystemMessage(): (r: string)
      ensures IsInfix(Name(), r)
    {
      SystemMessageOf(kind)
    }

    /** `post_message`: without a store handle the post is refused and nothing is stored;
        otherwise exactly one message, stamped with this agent's name and role, is appended to
        the store and returned. */
    method PostMessage(text: string, now: nat, meetingRoomId: int := DefaultMeetingRoomId)
      returns (r: Result<Message, AgentError>)
      requires dbSession != null ==> dbSession.Valid()
      modifies dbSession
      ensures dbSession == null ==> r == Failure(ValueError(NoSessionMessage))
      ensures dbSession != null ==>
                && dbSession.Valid()
                && r == Success(Message(|old(dbSession.messages)| + 1, Name(), text, Role(), now, meetingRoomId))
                && dbSession.messages == old(dbSession.messages) + [r.value]
                && dbSession.rooms == old(dbSession.rooms)
                && r.value in dbSession.Messages(meetingRoomId)
    {
      if dbSession == null {
        return Failure(ValueError(NoSessionMessage));
      }
      var m := dbSession.CreateMessage(Name(), text, Role(), meetingRoomId, now);
      r := Success(m);
    }
  }
}
