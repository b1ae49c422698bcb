/** Gateway events, reduced to the fields the journal reads. */
module GatewayEvents {
  import opened Sequences

  datatype Action = Action(actionId: string, threadId: Option<string>, turnId: Option<string>)

  datatype Event =
    | TurnStarted(threadId: Option<string>, turnId: string)
    | TurnQueued(threadId: Option<string>, turnId: string)
    | TurnCompleted(threadId: Option<string>, turnId: string, turnThreadId: Option<string>,
                    committedThreadIds: seq<Option<string>>)
    | EntryChanged(threadId: Option<string>, hasAgentBlock: bool)
    | EntryBlockTextDelta(threadId: Option<string>)
    | ActivityChanged(threadId: Option<string>)
    | TitleChanged(threadId: Option<string>)
    | ActionRequested(action: Action)
    | ActionUpdated(action: Action)
    | ActionResolved(actionId: string)
    | ActionCancelled(actionId: string)
    | Warning

  /** `value || null`: the empty string counts as absent. */
  function Truthy(value: Option<string>): Option<string> {
    if value == Some("") then None else value
  }

  function OrElse(a: Option<string>, b: Option<string>): Option<string> {
    if a.Some? then a else b
  }

  /** The first present thread id among committed transcript entries. */
  function FirstThreadId(ids: seq<Option<string>>): Option<string> {
    if ids == [] then None
    else if Truthy(ids[0]).Some? then ids[0]
    else FirstThreadId(ids[1..])
  }

  /** `gatewayEventThreadId`: the thread an event names by itself. */
  function NamedThreadId(e: Event): Option<string> {
    match e
    case TurnCompleted(threadId, _, turnThreadId, committed) =>
      OrElse(Truthy(threadId), OrElse(Truthy(turnThreadId), FirstThreadId(committed)))
    case ActionRequested(action) => Truthy(action.threadId)
    case ActionUpdated(action) => Truthy(action.threadId)
    case ActionResolved(_) => None
    case ActionCancelled(_) => None
    case Warning => None
    case _ => Truthy(e.threadId)
  }

  /** The action an event is about, if it is an action event. */
  function ActionIdOf(e: Event): Option<string> {
    match e
    case ActionRequested(action) => Some(action.actionId)
    case ActionUpdated(action) => Some(action.actionId)
    case ActionResolved(actionId) => Some(actionId)
    case ActionCancelled(actionId) => Some(actionId)
    case _ => None
  }

  predicate OpensAction(e: Event) {
    e.ActionRequested? || e.ActionUpdated?
  }

  predicate ClosesAction(e: Event) {
    e.ActionResolved? || e.ActionCancelled?
  }

  predicate IsTeamLifecycle(e: Event) {
    match e
    case TurnStarted(_, _) => true
    case TurnCompleted(_, _, _, _) => true
    case ActivityChanged(_) => true
    case EntryChanged(_, hasAgentBlock) => hasAgentBlock
    case _ => false
  }

  predicate IsTurnLifecycle(e: Event) {
    e.TurnStarted? || e.TurnQueued? || e.TurnCompleted?
  }
}
