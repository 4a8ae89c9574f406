/**
 * The room server: a process-wide table from room id to room state, read by
 * GET and changed by POST, which applies one event to the room.
 */
module Route {
  import opened Wrappers
  import opened Types
  import opened SocketEvents

  /** The answer of a handler: the room, or a 400 response with its message. */
  datatype Response = Ok(room: RoomState) | BadRequest(error: string)

  const RoomIdRequired := "Room ID required"
  const RoomIdAndEventRequired := "Room ID and event required"

  /** The room a client sees for an id that has never been posted to. */
  const DefaultRoom := RoomState([], false, false, None)

  /** A query or body field counts as missing when it is absent or empty. */
  predicate Missing(field: Option<string>) {
    field.None? || field.value == ""
  }

  function LookupOrDefault(rooms: map<string, RoomState>, roomId: string): RoomState {
    if roomId in rooms then rooms[roomId] else DefaultRoom
  }

  predicate HasParticipant(ps: seq<Participant>, id: string) {
    exists i :: 0 <= i < |ps| && ps[i].id == id
  }

  /** Every participant id occurs once. */
  predicate UniqueIds(ps: seq<Participant>) {
    forall i, j :: 0 <= i < j < |ps| ==> ps[i].id != ps[j].id
  }

  /** The participants whose id differs from `id`, in their original order. */
  function WithoutParticipant(ps: seq<Participant>, id: string): (r: seq<Participant>)
    ensures !HasParticipant(r, id)
    ensures forall p :: p in r <==> p in ps && p.id != id
    ensures |r| <= |ps|
  {
    if |ps| == 0 then []
    else
      var rest := WithoutParticipant(ps[1..], id);
      assert forall p :: p in ps <==> p == ps[0] || p in ps[1..];
      if ps[0].id == id then rest else [ps[0]] + rest
  }

  /** Removing by id keeps order: it distributes over concatenation. */
  lemma {:induction false} WithoutParticipantConcat(ps: seq<Participant>, qs: seq<Participant>, id: string)
    ensures WithoutParticipant(ps + qs, id) == WithoutParticipant(ps, id) + WithoutParticipant(qs, id)
  {
    if |ps| > 0 {
      var head := if ps[0].id == id then [] else [ps[0]];
      var left, right := WithoutParticipant(ps[1..], id), WithoutParticipant(qs, id);
      assert (ps + qs)[0] == ps[0];
      assert (ps + qs)[1..] == ps[1..] + qs;
      assert WithoutParticipant(ps + qs, id) == head + WithoutParticipant(ps[1..] + qs, id);
      WithoutParticipantConcat(ps[1..], qs, id);
      assert WithoutParticipant(ps, id) == head + left;
      assert head + (left + right) == (head + left) + right;
    } else {
      assert ps + qs == qs;
    }
  }

  /** Removing an id nobody has changes nothing. */
  lemma {:induction false} WithoutAbsentParticipant(ps: seq<Participant>, id: string)
    requires !HasParticipant(ps, id)
    ensures WithoutParticipant(ps, id) == ps
  {
    if |ps| > 0 {
      assert !HasParticipant(ps[1..], id) by {
        forall i | 0 <= i < |ps[1..]| ensures ps[1..][i].id != id {
          assert ps[1..][i] == ps[i + 1];
        }
      }
      WithoutAbsentParticipant(ps[1..], id);
      assert ps == [ps[0]] + ps[1..];
    }
  }

  lemma {:induction false} WithoutParticipantKeepsUniqueIds(ps: seq<Participant>, id: string)
    requires UniqueIds(ps)
    ensures UniqueIds(WithoutParticipant(ps, id))
  {
    if |ps| > 0 {
      WithoutParticipantKeepsUniqueIds(ps[1..], id);
      var rest := WithoutParticipant(ps[1..], id);
      if ps[0].id != id {
        forall p | p in rest ensures p.id != ps[0].id {
          var k :| 0 <= k < |ps[1..]| && ps[1..][k] == p;
          assert ps[k + 1] == p;
        }
      }
    }
  }

  /** The participants with the vote and confidence of `userId` replaced. */
  function CastVote(ps: seq<Participant>, userId: string, vote: string, confidence: Option<Confidence>): (r: seq<Participant>)
    ensures |r| == |ps|
    ensures forall i :: 0 <= i < |ps| ==>
      r[i] == if ps[i].id == userId then ps[i].(vote := Some(vote), confidence := confidence) else ps[i]
  {
    if |ps| == 0 then []
    else
      var p := if ps[0].id == userId then ps[0].(vote := Some(vote), confidence := confidence) else ps[0];
      [p] + CastVote(ps[1..], userId, vote, confidence)
  }

  /** The participants with the name of `userId` replaced. */
  function Rename(ps: seq<Participant>, userId: string, name: string): (r: seq<Participant>)
    ensures |r| == |ps|
    ensures forall i :: 0 <= i < |ps| ==> r[i] == if ps[i].id == userId then ps[i].(name := name) else ps[i]
  {
    if |ps| == 0 then []
    else
      var p := if ps[0].id == userId then ps[0].(name := name) else ps[0];
      [p] + Rename(ps[1..], userId, name)
  }

  /** Every participant with vote and confidence cleared. */
  function ClearVotes(ps: seq<Participant>): (r: seq<Participant>)
    ensures |r| == |ps|
    ensures forall i :: 0 <= i < |ps| ==> r[i] == ps[i].(vote := None, confidence := None)
  {
    if |ps| == 0 then [] else [ps[0].(vote := None, confidence := None)] + ClearVotes(ps[1..])
  }

  /** The state a room reaches when one event is applied to it. */
  function Apply(room: RoomState, event: Event): RoomState {
    match event
    case UserJoined(id, name, isSpectator) =>
      if HasParticipant(room.participants, id) then room
      else room.(participants := room.participants + [Participant(id, name, None, None, isSpectator)])
    case UserLeft(id) => room.(participants := WithoutParticipant(room.participants, id))
    case VoteCast(userId, vote, confidence) => room.(participants := CastVote(room.participants, userId, vote, confidence))
    case VotesRevealed(revealed) => room.(votesRevealed := revealed, timerActive := false)
    case NewRound => room.(participants := ClearVotes(room.participants), votesRevealed := false)
    case TimerStarted(_) => room.(timerActive := true)
    case TimerStopped => room.(timerActive := false)
    case NameChanged(userId, name) => room.(participants := Rename(room.participants, userId, name))
    case StoryUpdated(story) => room.(currentStory := Some(story))
    case Unknown(_) => room
  }

  /** The state a room reaches after a sequence of events, applied in order. */
  function ApplyAll(room: RoomState, events: seq<Event>): RoomState
    decreases |events|
  {
    if |events| == 0 then room else ApplyAll(Apply(room, events[0]), events[1..])
  }

  /**
   * Joining appends the newcomer at the end, with no vote yet, unless a
   * participant already has that id, in which case nothing changes.
   */
  lemma JoinAddsOnlyNewIds(room: RoomState, id: string, name: string, isSpectator: bool)
    ensures var next := Apply(room, UserJoined(id, name, isSpectator));
      && (HasParticipant(room.participants, id) ==> next == room)
      && (!HasParticipant(room.participants, id) ==>
            next == room.(participants := room.participants + [Participant(id, name, None, None, isSpectator)]))
  {
  }

  /** Joining twice with the same id is the same as joining once. */
  lemma RejoinIsNoOp(room: RoomState, id: string, name: string, isSpectator: bool, name': string, isSpectator': bool)
    ensures var once := Apply(room, UserJoined(id, name, isSpectator));
      Apply(once, UserJoined(id, name', isSpectator')) == once
  {
    var once := Apply(room, UserJoined(id, name, isSpectator));
    assert HasParticipant(once.participants, id) by {
      if !HasParticipant(room.participants, id) {
        assert once.participants[|once.participants| - 1].id == id;
      }
    }
  }

  /**
   * Leaving removes every participant with that id and keeps the others; no
   * other field changes. The participants left are the filtered list, whose
   * order `WithoutParticipantConcat` fixes.
   */
  lemma LeaveRemovesEveryMatch(room: RoomState, id: string)
    ensures var next := Apply(room, UserLeft(id));
      && next.participants == WithoutParticipant(room.participants, id)
      && !HasParticipant(next.participants, id)
      && (forall p :: p in next.participants <==> p in room.participants && p.id != id)
      && next.votesRevealed == room.votesRevealed && next.timerActive == room.timerActive
      && next.currentStory == room.currentStory
      && (!HasParticipant(room.participants, id) ==> next == room)
  {
    if !HasParticipant(room.participants, id) {
      WithoutAbsentParticipant(room.participants, id);
    }
  }

  /**
   * A vote replaces the vote and confidence of the participants with the
   * voter's id and nothing else: the list keeps its length, order and every
   * other participant, and the room flags and story are untouched.
   */
  lemma VoteTouchesOnlyVoter(room: RoomState, userId: string, vote: string, confidence: Option<Confidence>)
    ensures var next := Apply(room, VoteCast(userId, vote, confidence));
      && |next.participants| == |room.participants|
      && (forall i :: 0 <= i < |room.participants| ==>
            var p, q := room.participants[i], next.participants[i];
            q.id == p.id && q.name == p.name && q.isSpectator == p.isSpectator
            && (p.id == userId ==> q.vote == Some(vote) && q.confidence == confidence)
            && (p.id != userId ==> q == p))
      && next.votesRevealed == room.votesRevealed && next.timerActive == room.timerActive
      && next.currentStory == room.currentStory
  {
  }

  /** A rename changes the name of the participants with that id and nothing else. */
  lemma RenameTouchesOnlyNamed(room: RoomState, userId: string, name: string)
    ensures var next := Apply(room, NameChanged(userId, name));
      && |next.participants| == |room.participants|
      && (forall i :: 0 <= i < |room.participants| ==>
            var p, q := room.participants[i], next.participants[i];
            q.id == p.id && q.vote == p.vote && q.confidence == p.confidence && q.isSpectator == p.isSpectator
            && (p.id == userId ==> q.name == name)
            && (p.id != userId ==> q == p))
      && next.votesRevealed == room.votesRevealed && next.timerActive == room.timerActive
      && next.currentStory == room.currentStory
  {
  }

  /** A vote or rename for an id nobody has leaves the room as it was. */
  lemma UnknownUserIsNoOp(room: RoomState, userId: string, vote: string, confidence: Option<Confidence>, name: string)
    requires !HasParticipant(room.participants, userId)
    ensures Apply(room, VoteCast(userId, vote, confidence)) == room
    ensures Apply(room, NameChanged(userId, name)) == room
  {
    var ps := room.participants;
    assert CastVote(ps, userId, vote, confidence) == ps;
    assert Rename(ps, userId, name) == ps;
  }

  /**
   * Revealing sets the revealed flag to the payload and always stops the
   * timer; starting and stopping the timer set only the timer flag.
   */
  lemma FlagEvents(room: RoomState, revealed: bool, duration: nat)
    ensures Apply(room, VotesRevealed(revealed)) == room.(votesRevealed := revealed, timerActive := false)
    ensures Apply(room, TimerStarted(duration)) == room.(timerActive := true)
    ensures Apply(room, TimerStopped) == room.(timerActive := false)
  {
  }

  /**
   * A new round clears every vote and confidence and hides the votes, keeping
   * ids, names, spectator flags, order, the timer flag and the story.
   */
  lemma NewRoundClearsVotes(room: RoomState)
    ensures var next := Apply(room, NewRound);
      && !next.votesRevealed
      && |next.participants| == |room.participants|
      && (forall i :: 0 <= i < |room.participants| ==>
            var p, q := room.participants[i], next.participants[i];
            q.vote.None? && q.confidence.None? && q.id == p.id && q.name == p.name && q.isSpectator == p.isSpectator)
      && next.timerActive == room.timerActive && next.currentStory == room.currentStory
  {
  }

  /** A story update sets only the story; an unknown event changes nothing. */
  lemma StoryAndUnknownEvents(room: RoomState, story: string, eventType: string)
    ensures Apply(room, StoryUpdated(story)) == room.(currentStory := Some(story))
    ensures Apply(room, Unknown(eventType)) == room
  {
  }

  /** No event can give two participants the same id. */
  lemma ApplyKeepsUniqueIds(room: RoomState, event: Event)
    requires UniqueIds(room.participants)
    ensures UniqueIds(Apply(room, event).participants)
  {
    var ps := room.participants;
    match event
    case UserLeft(id) => WithoutParticipantKeepsUniqueIds(ps, id);
    case UserJoined(id, name, isSpectator) =>
      if !HasParticipant(ps, id) {
        var next := Apply(room, event).participants;
        forall i, j | 0 <= i < j < |next| ensures next[i].id != next[j].id {
          if j == |ps| {
            assert next[i] == ps[i];
          } else {
            assert next[i] == ps[i] && next[j] == ps[j];
          }
        }
      }
    case _ =>
  }

  /** Starting from a fresh room, participant ids stay unique over any sequence of events. */
  lemma {:induction false} UniqueIdsOverAnyEvents(room: RoomState, events: seq<Event>)
    requires UniqueIds(room.participants)
    ensures UniqueIds(ApplyAll(room, events).participants)
    decreases |events|
  {
    if |events| > 0 {
      ApplyKeepsUniqueIds(room, events[0]);
      UniqueIdsOverAnyEvents(Apply(room, events[0]), events[1..]);
    }
  }

  /**
   * The process-wide room table. GET reads it; POST applies one event to the
   * room it names (a default room when the id is new) and stores the result.
   */
  class RoomStore {
    var rooms: map<string, RoomState>

    constructor ()
      ensures rooms == map[]
    {
      rooms := map[];
    }

    /**
     * GET: a missing or empty id is a bad request; otherwise the stored room,
     * or the default room for an unseen id. The table is not changed, so an
     * unseen room is not added by reading it.
     */
    method Get(roomId: Option<string>) returns (response: Response)
      ensures Missing(roomId) ==> response == BadRequest(RoomIdRequired)
      ensures !Missing(roomId) && roomId.value in rooms ==> response == Ok(rooms[roomId.value])
      ensures !Missing(roomId) && roomId.value !in rooms ==>
        response == Ok(DefaultRoom) && response.room.participants == []
        && !response.room.votesRevealed && !response.room.timerActive
    {
      if Missing(roomId) {
        return BadRequest(RoomIdRequired);
      }
      response := Ok(LookupOrDefault(rooms, roomId.value));
    }

    /**
     * POST: a missing id or event is a bad request and changes nothing.
     * Otherwise the event is applied to the room and the result is stored
     * under that id; every other room stays as it was. An unknown event type
     * yields a warning and stores the room unchanged.
     */
    method Post(roomId: Option<string>, event: Option<Event>) returns (response: Response, warning: Option<string>)
      modifies this
      ensures Missing(roomId) || event.None? ==>
        response == BadRequest(RoomIdAndEventRequired) && rooms == old(rooms) && warning == None
      ensures !Missing(roomId) && event.Some? ==>
        var next := Apply(LookupOrDefault(old(rooms), roomId.value), event.value);
        && response == Ok(next)
        && rooms == old(rooms)[roomId.value := next]
        && (forall id :: id in old(rooms) && id != roomId.value ==> id in rooms && rooms[id] == old(rooms)[id])
        && (warning.Some? <==> event.value.Unknown?)
    {
      warning := None;
      if Missing(roomId) || event.None? {
        return BadRequest(RoomIdAndEventRequired), None;
      }
      var id := roomId.value;
      var room := LookupOrDefault(rooms, id);
      match event.value {
        case UserJoined(pid, name, isSpectator) =>
          if !HasParticipant(room.participants, pid) {
            room := room.(participants := room.participants + [Participant(pid, name, None, None, isSpectator)]);
          }
        case UserLeft(pid) =>
          room := room.(participants := WithoutParticipant(room.participants, pid));
        case VoteCast(userId, vote, confidence) =>
          room := room.(participants := CastVote(room.participants, userId, vote, confidence));
        case VotesRevealed(revealed) =>
          room := room.(votesRevealed := revealed);
          room := room.(timerActive := false);
        case NewRound =>
          room := room.(participants := ClearVotes(room.participants));
          room := room.(votesRevealed := false);
        case TimerStarted(_) =>
          room := room.(timerActive := true);
        case TimerStopped =>
          room := room.(timerActive := false);
        case NameChanged(userId, name) =>
          room := room.(participants := Rename(room.participants, userId, name));
        case StoryUpdated(story) =>
          room := room.(currentStory := Some(story));
        case Unknown(eventType) =>
          warning := Some("[v0] Unknown event type: " + eventType);
      }
      rooms := rooms[id := room];
      response := Ok(room);
    }
  }
}
