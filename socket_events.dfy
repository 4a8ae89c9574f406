/**
 * The events clients submit to a room: one variant per event type, with the
 * payload fields of that type. `Unknown` stands for a type string that is none
 * of the nine; the server only logs a warning for it. Decoding a request
 * never yields `Unknown` with one of the nine type names, which `WellFormed`
 * states.
 */
module SocketEvents {
  import opened Wrappers
  import opened Types

  datatype Event =
    | UserJoined(id: string, name: string, isSpectator: bool)
    | UserLeft(id: string)
    | VoteCast(userId: string, vote: string, confidence: Option<Confidence>)
    | VotesRevealed(revealed: bool)
    | NewRound
    | TimerStarted(duration: nat)
    | TimerStopped
    | NameChanged(userId: string, name: string)
    | StoryUpdated(story: string)
    | Unknown(eventType: string)

  /** The type strings of the nine event variants. */
  const KnownTypes: set<string> := {
    "user-joined", "user-left", "vote-cast", "votes-revealed", "new-round",
    "timer-started", "timer-stopped", "name-changed", "story-updated"}

  /** An event as decoded from a request: `Unknown` only for a type that is not one of the nine. */
  predicate WellFormed(e: Event) {
    e.Unknown? ==> e.eventType !in KnownTypes
  }

  /** The `type` field the event was sent with. */
  function TypeName(e: Event): (t: string)
    ensures WellFormed(e) ==> (t in KnownTypes <==> !e.Unknown?)
  {
    match e
    case UserJoined(_, _, _) => "user-joined"
    case UserLeft(_) => "user-left"
    case VoteCast(_, _, _) => "vote-cast"
    case VotesRevealed(_) => "votes-revealed"
    case NewRound => "new-round"
    case TimerStarted(_) => "timer-started"
    case TimerStopped => "timer-stopped"
    case NameChanged(_, _) => "name-changed"
    case StoryUpdated(_) => "story-updated"
    case Unknown(t) => t
  }
}
