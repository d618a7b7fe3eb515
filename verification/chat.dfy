/**
 * The client chat state: the `Chat` component's message list and input box
 * together with the room-switch effect of `MainApp`. The socket is an
 * append-only log of the events the client emits; events arriving from the
 * server are method calls.
 */
module Chat {
  import opened Text
  import opened Records
  import opened Games

  /** An event the client emits on the socket. */
  datatype Event =
    | JoinRoom(room: Option<string>)
    | LeaveRoom(room: Option<string>)
    | ChatMessage(msg: Message)

  /**
   * The rooms the emitted `join_room` and `leave_room` requests leave the
   * connection in: each join adds its room, each leave removes it.
   */
  function RoomsHeld(log: seq<Event>): set<Option<string>>
  {
    if log == [] then {}
    else
      Step(RoomsHeld(log[..|log| - 1]), log[|log| - 1])
  }

  /** The effect of one event on the rooms held. */
  function Step(held: set<Option<string>>, e: Event): set<Option<string>>
  {
    match e
    case JoinRoom(room) => held + {room}
    case LeaveRoom(room) => held - {room}
    case ChatMessage(_) => held
  }

  lemma RoomsHeldAppend(log: seq<Event>, e: Event)
    ensures RoomsHeld(log + [e]) == Step(RoomsHeld(log), e)
  {
    assert (log + [e])[..|log|] == log;
  }

  /** The `!room` test of the room effect: undefined and "" are both falsy. */
  predicate IsTruthy(room: Option<string>) {
    room.Some? && room.value != ""
  }

  /** Whether a selection change from room `from` to room `to` fires the `Chat` effect. */
  predicate Resets(from: Option<string>, to: Option<string>) {
    to != from && IsTruthy(to)
  }

  /**
   * The events one selection change emits: `leave_room` for the old room,
   * then `join_room` for the new one (from the `Chat` effect when it fires,
   * and from the `MainApp` effect).
   */
  function SwitchEvents(from: Option<string>, to: Option<string>): (r: seq<Event>)
    ensures |r| == (if Resets(from, to) then 3 else 2)
    ensures r[0] == LeaveRoom(from)
    ensures forall k | 0 < k < |r| :: r[k] == JoinRoom(to)
  {
    [LeaveRoom(from)] + (if Resets(from, to) then [JoinRoom(to)] else []) + [JoinRoom(to)]
  }

  /**
   * After a selection change, the emitted requests leave the connection in
   * exactly the new room, when they left it in exactly the old one before.
   */
  lemma SwitchSettles(log: seq<Event>, from: Option<string>, to: Option<string>)
    requires RoomsHeld(log) == {from}
    ensures RoomsHeld(log + SwitchEvents(from, to)) == {to}
  {
    var l1 := log + [LeaveRoom(from)];
    RoomsHeldAppend(log, LeaveRoom(from));
    assert RoomsHeld(l1) == {};
    var l2 := if Resets(from, to) then l1 + [JoinRoom(to)] else l1;
    if Resets(from, to) { RoomsHeldAppend(l1, JoinRoom(to)); }
    assert RoomsHeld(l2) <= {to};
    RoomsHeldAppend(l2, JoinRoom(to));
    assert log + SwitchEvents(from, to) == l2 + [JoinRoom(to)];
  }

  /** The events of successive selection changes through the rooms of `path`. */
  function SwitchPath(from: Option<string>, path: seq<Option<string>>): seq<Event>
    decreases |path|
  {
    if path == [] then [] else SwitchEvents(from, path[0]) + SwitchPath(path[0], path[1..])
  }

  /**
   * Rapid successive switches settle in the last room selected: the emitted
   * requests leave the connection in it and in no room passed through on the way.
   */
  lemma {:induction false} RapidSwitchesSettle(log: seq<Event>, from: Option<string>, path: seq<Option<string>>)
    requires RoomsHeld(log) == {from} && path != []
    ensures RoomsHeld(log + SwitchPath(from, path)) == {path[|path| - 1]}
    decreases |path|
  {
    var rest := SwitchPath(path[0], path[1..]);
    var next := log + SwitchEvents(from, path[0]);
    SwitchSettles(log, from, path[0]);
    assert SwitchPath(from, path) == SwitchEvents(from, path[0]) + rest;
    assert log + SwitchPath(from, path) == next + rest;
    if |path| > 1 {
      RapidSwitchesSettle(next, path[0], path[1..]);
      assert path[1..][|path[1..]| - 1] == path[|path| - 1];
    } else {
      assert rest == [];
      assert next + rest == next;
    }
  }

  /** Every `chat_message` in the log went to a room the connection held when it was emitted. */
  ghost predicate SentToHeldRoom(log: seq<Event>) {
    forall k | 0 <= k < |log| && log[k].ChatMessage? :: log[k].msg.room in RoomsHeld(log[..k])
  }

  /** Every `chat_message` in the log carries a non-empty, trimmed text. */
  ghost predicate SentAreTrimmed(log: seq<Event>) {
    forall k | 0 <= k < |log| && log[k].ChatMessage? ::
      log[k].msg.text != "" && Trim(log[k].msg.text) == log[k].msg.text
  }

  /** `m.author?.id === (user?.id || "anon")`: the message is drawn as the viewer's own. */
  predicate IsOwn(m: Message, user: Option<User>) {
    m.author.id == OrElse(UserId(user), ANON_ID)
  }

  /** A message `send` builds is drawn on the sender's side of the chat. */
  lemma SentMessageIsOwn(id: string, createdAt: string, room: Option<string>, text: string, user: Option<User>)
    requires NewMessage(id, createdAt, room, text, user).Some?
    ensures IsOwn(NewMessage(id, createdAt, room, text, user).value, user)
  {
  }

  /**
   * One client's chat: the selected game (which decides the room), the
   * displayed messages, the input box and the events emitted so far.
   */
  class ChatSession {
    var selected: Option<Game>
    var messages: seq<Message>
    var text: string
    var log: seq<Event>

    /** The room the chat is in: the selected game's `_id`, or the global room. */
    function Room(): Option<string>
      reads this
    {
      RoomFor(selected)
    }

    /**
     * The emitted join/leave requests leave the connection in exactly the
     * current room, every message sent went to the room so held at the time,
     * and no blank or untrimmed text was sent.
     */
    ghost predicate Valid()
      reads this
    {
      RoomsHeld(log) == {Room()} && SentToHeldRoom(log) && SentAreTrimmed(log)
    }

    /** A connected client with no game selected: it has joined the global room. */
    constructor ()
      ensures Valid()
      ensures selected == None && Room() == Some(GLOBAL_ROOM)
      ensures messages == [] && text == "" && log == [JoinRoom(Some(GLOBAL_ROOM))]
    {
      selected := None;
      messages := [];
      text := "";
      log := [JoinRoom(Some(GLOBAL_ROOM))];
      RoomsHeldAppend([], JoinRoom(Some(GLOBAL_ROOM)));
      assert [JoinRoom(Some(GLOBAL_ROOM))] == [] + [JoinRoom(Some(GLOBAL_ROOM))];
    }

    /** Appends events that carry no message to the log: the per-message facts still hold. */
    static lemma ExtendWithoutMessages(log: seq<Event>, es: seq<Event>)
      requires SentToHeldRoom(log) && SentAreTrimmed(log)
      requires forall k | 0 <= k < |es| :: !es[k].ChatMessage?
      ensures SentToHeldRoom(log + es) && SentAreTrimmed(log + es)
    {
      forall k | 0 <= k < |log| ensures (log + es)[..k] == log[..k] { }
    }

    /** Appends one event to the log, keeping the per-message facts of the earlier events. */
    method Emit(e: Event)
      requires SentToHeldRoom(log) && SentAreTrimmed(log)
      requires e.ChatMessage? ==> e.msg.room in RoomsHeld(log) && e.msg.text != "" && Trim(e.msg.text) == e.msg.text
      modifies this`log
      ensures log == old(log) + [e]
      ensures SentToHeldRoom(log) && SentAreTrimmed(log)
    {
      ghost var before := log;
      log := log + [e];
      forall k | 0 <= k < |before| ensures log[..k] == before[..k] && log[k] == before[k] { }
      assert log[..|before|] == before;
    }

    /**
     * A new selection. When it differs from the current one, the previous
     * room is left and the new one joined (the `MainApp` effect); when the
     * room itself changed to a truthy value, the `Chat` effect also clears
     * the list and joins the new room. The input box is kept.
     */
    method Select(g: Option<Game>)
      requires Valid()
      modifies this
      ensures Valid()
      ensures selected == g && text == old(text)
      ensures RoomsHeld(log) == {RoomFor(g)}
      ensures g == old(selected) ==> messages == old(messages) && log == old(log)
      ensures g != old(selected) ==>
        && log == old(log) + SwitchEvents(old(Room()), Room())
        && messages == (if Resets(old(Room()), Room()) then [] else old(messages))
    {
      if g != selected {
        var from, to := Room(), RoomFor(g);
        var events := SwitchEvents(from, to);
        ExtendWithoutMessages(log, events);
        SwitchSettles(log, from, to);
        log := log + events;
        selected := g;
        if Resets(from, to) {
          messages := [];
        }
      }
    }

    /** Typing in the input box replaces its text. */
    method Type(t: string)
      requires Valid()
      modifies this`text
      ensures Valid()
      ensures text == t
    {
      text := t;
    }

    /** `load_messages`: the room's history replaces the list. */
    method OnLoadMessages(history: seq<Message>)
      requires Valid()
      modifies this`messages
      ensures Valid()
      ensures messages == history
    {
      messages := history;
    }

    /**
     * `chat_message` from the server: appended at the end whatever its room,
     * and even when a message with the same id is already listed.
     */
    method OnChatMessage(m: Message)
      requires Valid()
      modifies this`messages
      ensures Valid()
      ensures messages == old(messages) + [m]
      ensures |messages| == |old(messages)| + 1 && messages[|messages| - 1] == m
    {
      messages := messages + [m];
    }

    /**
     * `send`: a blank input does nothing. Otherwise the payload built from the
     * trimmed input, for the current room, is emitted as one `chat_message`,
     * appended to the list, and the input box is cleared.
     */
    method Send(id: string, createdAt: string, user: Option<User>)
      requires Valid()
      modifies this
      ensures Valid()
      ensures selected == old(selected)
      ensures AllSpace(old(text)) ==>
        messages == old(messages) && log == old(log) && text == old(text)
      ensures !AllSpace(old(text)) ==>
        var p := NewMessage(id, createdAt, old(Room()), old(text), user).value;
        && log == old(log) + [ChatMessage(p)]
        && messages == old(messages) + [p]
        && text == ""
        && p.room == Room() && p.text == Trim(old(text)) && IsOwn(p, user)
    {
      var payload := NewMessage(id, createdAt, Room(), text, user);
      if payload.Some? {
        var p := payload.value;
        RoomsHeldAppend(log, ChatMessage(p));
        Emit(ChatMessage(p));
        messages := messages + [p];
        text := "";
      }
    }
  }
}
