/** The day-19 websocket service: a ping gate driven by "serve"/"ping" text
    frames, and chat rooms that relay `{user, message}` to every listener of a
    room while counting approximate deliveries. One sequential state holds the
    gate flag, the delivery counter and the room registry; each room's watch
    channel is a latest-value cell. */
module Relay {
  import opened Wrappers
  import opened Ints
  import Decimal
  import Text

  /** A websocket frame as the socket delivers it. */
  datatype Frame = Text(text: string) | Binary | Ping | Pong | Close

  /** One item of the gate socket's receive stream. */
  datatype Received = Got(frame: Frame) | RecvError

  /** `ControlFlow` of a frame handler, plus the panic of an `unwrap`, which
      ends the handler's task. */
  datatype Flow = Continue | Break | Panicked

  // ---------------------------------------------------------------- gate

  datatype GateResult = GateResult(started: bool, flow: Flow, reply: Option<string>)

  /** `handle_message`: the effect of one frame on the gate flag, whether the
      session goes on, and the reply sent, if any. */
  function GateStep(started: bool, frame: Frame): (r: GateResult)
    ensures r.started == (started || frame == Text("serve"))
    ensures r.reply.Some? <==> started && frame == Text("ping")
    ensures r.reply.Some? ==> r.reply.value == "pong"
    ensures r.flow == (if frame == Close then Break else Continue)
  {
    match frame
    case Text(t) =>
      if t == "serve" then GateResult(true, Continue, None)
      else if t == "ping" then
        if started then GateResult(started, Continue, Some("pong"))
        else GateResult(started, Continue, None)
      else GateResult(started, Continue, None)
    case Binary => GateResult(started, Continue, None)
    case Ping => GateResult(started, Continue, None)
    case Pong => GateResult(started, Continue, None)
    case Close => GateResult(started, Break, None)
  }

  /** "serve" twice is "serve" once. */
  lemma ServeIdempotent(started: bool)
    ensures GateStep(GateStep(started, Text("serve")).started, Text("serve"))
         == GateStep(started, Text("serve"))
  {
  }

  datatype GateRun = GateRun(started: bool, replies: seq<string>, handled: nat)

  /** `handle_socket`: frames are handled in order until a Close frame, a
      receive error or the end of the stream. `handled` counts the frames
      taken from the stream; `replies` are the frames sent, in order. */
  function RunGate(started: bool, incoming: seq<Received>): (r: GateRun)
    ensures r.handled <= |incoming|
    ensures started ==> r.started
    decreases |incoming|
  {
    if incoming == [] then GateRun(started, [], 0)
    else match incoming[0]
      case RecvError => GateRun(started, [], 0)
      case Got(f) =>
        var step := GateStep(started, f);
        var sent := if step.reply.Some? then [step.reply.value] else [];
        if step.flow == Break then GateRun(step.started, sent, 1)
        else
          var rest := RunGate(step.started, incoming[1..]);
          GateRun(rest.started, sent + rest.replies, rest.handled + 1)
  }

  /** One turn of the gate's receive loop: with `replies` sent so far and
      `items` still to come, handling the first item as `handle_message`
      did sends `sent` and leaves the rest to the following turns. */
  lemma RunGateStep(whole: GateRun, replies: seq<string>, started: bool, items: seq<Received>,
                    after: bool, flow: Flow, reply: Option<string>)
    requires items != [] && items[0].Got?
    requires GateResult(after, flow, reply) == GateStep(started, items[0].frame)
    requires whole.started == RunGate(started, items).started
    requires whole.replies == replies + RunGate(started, items).replies
    ensures var sent := if reply.Some? then [reply.value] else [];
            && (flow == Break ==> whole.started == after && whole.replies == replies + sent)
            && (flow != Break ==> whole.started == RunGate(after, items[1..]).started
                                  && whole.replies == (replies + sent) + RunGate(after, items[1..]).replies)
  {
    var sent := if reply.Some? then [reply.value] else [];
    if flow == Break {
      assert RunGate(started, items).replies == sent;
    } else {
      var tail := RunGate(after, items[1..]).replies;
      assert RunGate(started, items).replies == sent + tail;
      assert replies + (sent + tail) == (replies + sent) + tail;
    }
  }

  predicate IsServe(item: Received) { item == Got(Text("serve")) }
  predicate IsPingText(item: Received) { item == Got(Text("ping")) }

  function CountPings(items: seq<Received>): nat {
    if items == [] then 0
    else (if IsPingText(items[0]) then 1 else 0) + CountPings(items[1..])
  }

  function Pongs(n: nat): (r: seq<string>)
    ensures |r| == n && forall k :: 0 <= k < n ==> r[k] == "pong"
  {
    if n == 0 then [] else Pongs(n - 1) + ["pong"]
  }

  /** Before any "serve", no ping is ever answered and the gate stays shut. */
  lemma {:induction false} NoServeNoPong(incoming: seq<Received>)
    requires forall k :: 0 <= k < |incoming| ==> !IsServe(incoming[k])
    ensures RunGate(false, incoming).replies == []
    ensures !RunGate(false, incoming).started
  {
    if incoming != [] && incoming[0].Got? && incoming[0].frame != Close {
      NoServeNoPong(incoming[1..]);
    }
  }

  /** Once the gate is open, every "ping" handled is answered by exactly one
      "pong", and nothing else is ever sent. */
  lemma {:induction false} OpenGateAnswersEveryPing(incoming: seq<Received>)
    ensures RunGate(true, incoming).started
    ensures RunGate(true, incoming).replies
         == Pongs(CountPings(incoming[..RunGate(true, incoming).handled]))
  {
    var r := RunGate(true, incoming);
    if incoming == [] || incoming[0].RecvError? {
      assert incoming[..r.handled] == [];
    } else {
      var f := incoming[0].frame;
      var sent := if IsPingText(incoming[0]) then ["pong"] else [];
      if f == Close {
        assert incoming[..1] == [incoming[0]];
        assert CountPings(incoming[..1]) == 0;
      } else {
        var rest := RunGate(true, incoming[1..]);
        OpenGateAnswersEveryPing(incoming[1..]);
        var pre := incoming[..r.handled];
        assert pre[1..] == incoming[1..][..rest.handled];
        assert CountPings(pre) == |sent| + CountPings(incoming[1..][..rest.handled]);
        PongsAppend(|sent|, CountPings(incoming[1..][..rest.handled]));
      }
    }
  }

  lemma PongsAppend(a: nat, b: nat)
    requires a <= 1
    ensures Pongs(a + b) == Pongs(a) + Pongs(b)
  {
    var l, r := Pongs(a + b), Pongs(a) + Pongs(b);
    assert |l| == |r|;
    forall k | 0 <= k < |l| ensures l[k] == r[k] { }
  }

  // ---------------------------------------------------------- chat rooms

  /** The value held by a room's watch channel: the initial text "{}", or the
      `{user, message}` object of the last accepted chat message. */
  datatype Broadcast = Initial | Chat(user: string, message: string)

  /** A room's `watch` channel as a latest-value cell: the current value, a
      version bumped by every successful send, and the number of live
      receivers (`receiver_count`). */
  datatype RoomCell = RoomCell(value: Broadcast, version: nat, receivers: nat)

  /** A fresh channel: `watch::channel(Message::Text("{}"))`. Its only
      receiver is dropped at once, so it starts with none. */
  const NewRoom: RoomCell := RoomCell(Initial, 0, 0)

  /** The room-creating part of `room`: a channel is inserted only for an id
      that has none; an existing room is never replaced. */
  function CreateRoom(rooms: map<usize, RoomCell>, id: usize): (r: map<usize, RoomCell>)
    ensures r.Keys == rooms.Keys + {id}
    ensures r[id] == (if id in rooms then rooms[id] else NewRoom)
    ensures forall k :: k in rooms ==> r[k] == rooms[k]
  {
    if id in rooms then rooms else rooms[id := NewRoom]
  }

  /** What `rx.changed()` followed by `rx.borrow()` yields for a receiver
      that last saw version `seen`: nothing while no send happened since, and
      otherwise only the latest value, never a backlog. */
  function Observe(cell: RoomCell, seen: nat): (r: Option<Broadcast>)
    ensures r.Some? <==> cell.version != seen
    ensures r.Some? ==> r.value == cell.value
  {
    if cell.version != seen then Some(cell.value) else None
  }

  /** A JSON value, as far as the relay looks at it. */
  datatype JsonValue = JString(s: string) | JOther

  /** An inbound chat text after `serde_json::from_str::<Value>`. A JSON value
      that is not an object answers every key lookup with nothing, which
      `Fields(map[])` represents. */
  datatype ChatPayload = Unparsable | Fields(fields: map<string, JsonValue>)

  datatype ChatFrame = ChatText(payload: ChatPayload) | ChatClose | ChatOther

  /** One item of a chat socket's receive stream. */
  datatype Inbound = In(frame: ChatFrame) | InError

  const MAX_MESSAGE_BYTES: nat := 128

  /** The text frame has a string under "message"; otherwise one of the
      `unwrap`s panics. */
  predicate HasMessage(frame: ChatFrame) {
    frame.ChatText? && frame.payload.Fields?
    && "message" in frame.payload.fields && frame.payload.fields["message"].JString?
  }

  /** A message the relay re-publishes: no "user" key (that marks a relayed
      message) and at most 128 bytes of UTF-8. */
  predicate Publishable(frame: ChatFrame) {
    HasMessage(frame) && "user" !in frame.payload.fields
    && Text.Utf8Len(frame.payload.fields["message"].s) <= MAX_MESSAGE_BYTES
  }

  datatype ChatResult = ChatResult(count: u64, rooms: map<usize, RoomCell>, flow: Flow)

  /** `process_chat_message` for a session in room `id` under the name `user`. */
  function ChatStep(count: u64, rooms: map<usize, RoomCell>, id: usize, user: string, frame: ChatFrame)
    : (r: ChatResult)
    requires id in rooms
    ensures r.flow == Panicked <==> frame.ChatText? && !HasMessage(frame)
    ensures r.flow == Break <==> frame == ChatClose || (Publishable(frame) && rooms[id].receivers == 0)
    ensures Publishable(frame) && rooms[id].receivers > 0 ==>
      && r.rooms == rooms[id := RoomCell(Chat(user, frame.payload.fields["message"].s),
                                         rooms[id].version + 1, rooms[id].receivers)]
      && r.count == WrapU64(count + rooms[id].receivers)
    ensures !(Publishable(frame) && rooms[id].receivers > 0) ==> r.rooms == rooms && r.count == count
  {
    match frame
    case ChatClose => ChatResult(count, rooms, Break)
    case ChatOther => ChatResult(count, rooms, Continue)
    case ChatText(payload) =>
      if !HasMessage(frame) then ChatResult(count, rooms, Panicked)
      else
        var message := payload.fields["message"].s;
        if "user" in payload.fields then ChatResult(count, rooms, Continue)
        else if Text.Utf8Len(message) > MAX_MESSAGE_BYTES then ChatResult(count, rooms, Continue)
        else
          var cell := rooms[id];
          if cell.receivers == 0 then ChatResult(count, rooms, Break)
          else
            var published := RoomCell(Chat(user, message), cell.version + 1, cell.receivers);
            ChatResult(WrapU64(count + cell.receivers), rooms[id := published], Continue)
  }

  /** Publishing in one room changes no other room: a listener elsewhere
      observes nothing new. */
  lemma RoomIsolation(count: u64, rooms: map<usize, RoomCell>, id: usize, user: string,
                      frame: ChatFrame, other: usize, seen: nat)
    requires id in rooms && other in rooms && other != id
    ensures other in ChatStep(count, rooms, id, user, frame).rooms
    ensures Observe(ChatStep(count, rooms, id, user, frame).rooms[other], seen) == Observe(rooms[other], seen)
  {
  }

  /** After a publish, every listener of the room, the sender included, sees
      exactly the new `{user, message}`, whatever it saw before. */
  lemma FanOut(count: u64, rooms: map<usize, RoomCell>, id: usize, user: string,
               frame: ChatFrame, seen: nat)
    requires id in rooms && Publishable(frame) && rooms[id].receivers > 0
    requires seen <= rooms[id].version
    ensures Observe(ChatStep(count, rooms, id, user, frame).rooms[id], seen)
         == Some(Chat(user, frame.payload.fields["message"].s))
  {
  }

  /** Two publishes before a listener looks: it sees only the second. */
  lemma Coalescing(count: u64, rooms: map<usize, RoomCell>, id: usize,
                   user1: string, frame1: ChatFrame, user2: string, frame2: ChatFrame)
    requires id in rooms && rooms[id].receivers > 0
    requires Publishable(frame1) && Publishable(frame2)
    ensures var r1 := ChatStep(count, rooms, id, user1, frame1);
            var r2 := ChatStep(r1.count, r1.rooms, id, user2, frame2);
            Observe(r2.rooms[id], rooms[id].version)
              == Some(Chat(user2, frame2.payload.fields["message"].s))
  {
  }

  datatype ChatRun = ChatRun(count: u64, rooms: map<usize, RoomCell>, handled: nat)

  /** The receive task of `handle_chat_socket`: frames are processed in order
      while `process_chat_message` says to continue; a receive error, a
      Break, a panic or the end of the stream ends it. */
  function RunChat(count: u64, rooms: map<usize, RoomCell>, id: usize, user: string, incoming: seq<Inbound>)
    : (r: ChatRun)
    requires id in rooms
    ensures r.handled <= |incoming|
    ensures r.rooms.Keys == rooms.Keys
    decreases |incoming|
  {
    if incoming == [] || incoming[0].InError? then ChatRun(count, rooms, 0)
    else
      var step := ChatStep(count, rooms, id, user, incoming[0].frame);
      if step.flow != Continue then ChatRun(step.count, step.rooms, 1)
      else
        var rest := RunChat(step.count, step.rooms, id, user, incoming[1..]);
        ChatRun(rest.count, rest.rooms, rest.handled + 1)
  }

  predicate IsPublishable(item: Inbound) { item.In? && Publishable(item.frame) }

  function CountPublishable(items: seq<Inbound>): nat {
    if items == [] then 0
    else (if IsPublishable(items[0]) then 1 else 0) + CountPublishable(items[1..])
  }

  /** The deliveries the first `h` frames account for: `n` for every frame
      that publishes. */
  function Deliveries(n: nat, items: seq<Inbound>, h: nat): nat
    requires h <= |items|
  {
    if h == 0 then 0
    else (if IsPublishable(items[0]) then n else 0) + Deliveries(n, items[1..], h - 1)
  }

  /** `n` deliveries per published message among the first `h` frames. */
  lemma {:induction false} DeliveriesCount(n: nat, items: seq<Inbound>, h: nat)
    requires h <= |items|
    ensures Deliveries(n, items, h) == n * CountPublishable(items[..h])
  {
    if h > 0 {
      DeliveriesCount(n, items[1..], h - 1);
      assert items[..h][1..] == items[1..][..h - 1];
      Distribute(n, if IsPublishable(items[0]) then 1 else 0, CountPublishable(items[1..][..h - 1]));
    } else {
      assert items[..h] == [];
    }
  }

  /** Delivery counting over a session: with `k` receivers in the room, the
      counter grows by `k` for every message published, and by nothing
      else. */
  lemma RunChatCount(count: u64, rooms: map<usize, RoomCell>, id: usize, user: string, incoming: seq<Inbound>)
    requires id in rooms && rooms[id].receivers > 0
    ensures var r := RunChat(count, rooms, id, user, incoming);
            r.count == WrapU64(count + rooms[id].receivers * CountPublishable(incoming[..r.handled]))
  {
    var r := RunChat(count, rooms, id, user, incoming);
    RunChatCounter(count, rooms, id, user, incoming);
    CounterAfterSum(count, rooms[id].receivers, incoming, r.handled);
    DeliveriesCount(rooms[id].receivers, incoming, r.handled);
  }

  /** The counter after the first `h` frames of a session in a room with
      `n` receivers: each frame that publishes adds `n`, wrapping. */
  function CounterAfter(count: u64, n: nat, items: seq<Inbound>, h: nat): u64
    requires h <= |items|
    decreases h
  {
    if h == 0 then count
    else CounterAfter(WrapU64(count + (if IsPublishable(items[0]) then n else 0)), n, items[1..], h - 1)
  }

  lemma CounterAfterCons(count: u64, n: nat, items: seq<Inbound>, h: nat)
    requires h < |items|
    ensures CounterAfter(count, n, items, h + 1)
         == CounterAfter(WrapU64(count + (if IsPublishable(items[0]) then n else 0)), n, items[1..], h)
  {
  }

  /** The counter after one more frame, once the first frame's own
      contribution is known. */
  lemma CounterAfterStep(count: u64, n: nat, items: seq<Inbound>, stepCount: u64, h: nat,
                         restCount: u64, total: u64, handled: nat)
    requires h < |items|
    requires stepCount == WrapU64(count + (if IsPublishable(items[0]) then n else 0))
    requires restCount == CounterAfter(stepCount, n, items[1..], h)
    requires total == restCount && handled == h + 1
    ensures total == CounterAfter(count, n, items, handled)
  {
    CounterAfterCons(count, n, items, h);
  }

  /** The counter after `h` frames is the start value plus all their
      deliveries, wrapped once. */
  lemma {:induction false} CounterAfterSum(count: u64, n: nat, items: seq<Inbound>, h: nat)
    requires h <= |items|
    ensures CounterAfter(count, n, items, h) == WrapU64(count + Deliveries(n, items, h))
    decreases h
  {
    if h > 0 {
      var here := if IsPublishable(items[0]) then n else 0;
      CounterAfterSum(WrapU64(count + here), n, items[1..], h - 1);
      AddAfterWrap(count, here, Deliveries(n, items[1..], h - 1), Deliveries(n, items, h),
                   WrapU64(count + here), CounterAfter(count, n, items, h));
    }
  }

  /** A session's counter is the counter after the frames it handled. */
  lemma {:induction false} RunChatCounter(count: u64, rooms: map<usize, RoomCell>, id: usize, user: string,
                                          incoming: seq<Inbound>)
    requires id in rooms && rooms[id].receivers > 0
    ensures var r := RunChat(count, rooms, id, user, incoming);
            r.count == CounterAfter(count, rooms[id].receivers, incoming, r.handled)
    decreases |incoming|
  {
    var r := RunChat(count, rooms, id, user, incoming);
    var n := rooms[id].receivers;
    if incoming != [] && incoming[0].In? {
      var stepCount, stepRooms, goesOn := ChatTurn(count, rooms, id, user, incoming);
      if !goesOn {
        CounterAfterCons(count, n, incoming, 0);
      } else {
        var rest := RunChat(stepCount, stepRooms, id, user, incoming[1..]);
        RunChatCounter(stepCount, stepRooms, id, user, incoming[1..]);
        CounterAfterStep(count, n, incoming, stepCount, rest.handled, rest.count, r.count, r.handled);
      }
    } else {
      assert r.count == count && r.handled == 0;
    }
  }

  /** The first frame of a session, handled: the counter and registry it
      leaves, and whether the session goes on to the next frame. */
  lemma ChatTurn(count: u64, rooms: map<usize, RoomCell>, id: usize, user: string, incoming: seq<Inbound>)
    returns (stepCount: u64, stepRooms: map<usize, RoomCell>, goesOn: bool)
    requires id in rooms && rooms[id].receivers > 0 && incoming != [] && incoming[0].In?
    ensures stepCount == WrapU64(count + (if IsPublishable(incoming[0]) then rooms[id].receivers else 0))
    ensures id in stepRooms && stepRooms[id].receivers == rooms[id].receivers
    ensures var r := RunChat(count, rooms, id, user, incoming);
            !goesOn ==> r.count == stepCount && r.handled == 1
    ensures var r := RunChat(count, rooms, id, user, incoming);
            var rest := RunChat(stepCount, stepRooms, id, user, incoming[1..]);
            goesOn ==> r.count == rest.count && r.handled == rest.handled + 1
  {
    var step := ChatStep(count, rooms, id, user, incoming[0].frame);
    StepCount(count, rooms, id, user, incoming[0]);
    RunChatUnfold(count, rooms, id, user, incoming);
    stepCount, stepRooms, goesOn := step.count, step.rooms, step.flow == Continue;
  }

  /** Over a session, no other room changes and the room's receivers stay
      as they were. */
  lemma {:induction false} RunChatRooms(count: u64, rooms: map<usize, RoomCell>, id: usize, user: string,
                                        incoming: seq<Inbound>)
    requires id in rooms && rooms[id].receivers > 0
    ensures var r := RunChat(count, rooms, id, user, incoming);
            && r.rooms[id].receivers == rooms[id].receivers
            && forall k :: k in rooms && k != id ==> r.rooms[k] == rooms[k]
    decreases |incoming|
  {
    if incoming != [] && incoming[0].In? {
      var step := ChatStep(count, rooms, id, user, incoming[0].frame);
      StepCount(count, rooms, id, user, incoming[0]);
      RunChatUnfold(count, rooms, id, user, incoming);
      if step.flow == Continue {
        RunChatRooms(step.count, step.rooms, id, user, incoming[1..]);
      }
    }
  }

  /** The first frame of a session, handled. */
  lemma RunChatUnfold(count: u64, rooms: map<usize, RoomCell>, id: usize, user: string, incoming: seq<Inbound>)
    requires id in rooms && incoming != [] && incoming[0].In?
    ensures var step := ChatStep(count, rooms, id, user, incoming[0].frame);
            var r := RunChat(count, rooms, id, user, incoming);
            && (step.flow != Continue ==> r == ChatRun(step.count, step.rooms, 1))
            && (step.flow == Continue ==>
                  var rest := RunChat(step.count, step.rooms, id, user, incoming[1..]);
                  r == ChatRun(rest.count, rest.rooms, rest.handled + 1))
  {
  }

  /** One frame of the session, as far as the counter and the rooms go. */
  lemma StepCount(count: u64, rooms: map<usize, RoomCell>, id: usize, user: string, item: Inbound)
    requires id in rooms && rooms[id].receivers > 0 && item.In?
    ensures var step := ChatStep(count, rooms, id, user, item.frame);
            && step.count == WrapU64(count + (if IsPublishable(item) then rooms[id].receivers else 0))
            && step.rooms[id].receivers == rooms[id].receivers
            && forall k :: k in rooms && k != id ==> step.rooms[k] == rooms[k]
  {
  }

  /** Adding `here` to a wrapping counter and then `later` is adding
      `total` once, when `total` is `here + later`. */
  lemma AddAfterWrap(count: int, here: int, later: int, total: int, mid: int, last: int)
    requires total == here + later
    requires mid == WrapU64(count + here) && last == WrapU64(mid + later)
    ensures last == WrapU64(count + total)
  {
    Wrap64Twice(count + here, later);
  }

  lemma MulNonNegative(a: nat, b: nat)
    ensures a * b >= 0
  {
  }

  lemma Distribute(n: int, a: int, b: int)
    ensures n * a + n * b == n * (a + b)
  {
  }

  lemma Wrap64Twice(a: int, b: int)
    ensures WrapU64(WrapU64(a) + b) == WrapU64(a + b)
  {
    var q := a / TWO_64;
    assert a == TWO_64 * q + WrapU64(a);
    ShiftMod64(WrapU64(a) + b, q);
  }

  /** From a freshly reset counter, `N` publishes into a room with `k`
      listeners leave the counter at `N * k` (while that fits in 64 bits). */
  lemma CounterAfterReset(rooms: map<usize, RoomCell>, id: usize, user: string, incoming: seq<Inbound>)
    requires id in rooms && rooms[id].receivers > 0
    ensures var r := RunChat(0, rooms, id, user, incoming);
            var n := rooms[id].receivers * CountPublishable(incoming[..r.handled]);
            n < TWO_64 ==> r.count == n
  {
    var r := RunChat(0, rooms, id, user, incoming);
    var n := rooms[id].receivers * CountPublishable(incoming[..r.handled]);
    RunChatCount(0, rooms, id, user, incoming);
    MulNonNegative(rooms[id].receivers, CountPublishable(incoming[..r.handled]));
    assert r.count == WrapU64(0 + n);
  }

  // ------------------------------------------------------- shared state

  /** The abstract value of the shared state. */
  datatype RelayState = RelayState(started: bool, count: u64, rooms: map<usize, RoomCell>)

  /** `SharedState`: the `game_started` flag, the `count` of deliveries and
      the `room_channel` registry, all shared by every handler. */
  class SharedState {
    var gameStarted: bool
    var count: u64
    var rooms: map<usize, RoomCell>

    function Model(): RelayState
      reads this
    {
      RelayState(gameStarted, count, rooms)
    }

    /** The state `get_routes` installs. */
    constructor ()
      ensures Model() == RelayState(false, 0, map[])
    {
      gameStarted, count, rooms := false, 0, map[];
    }

    /** `handle_message`. */
    method HandleMessage(frame: Frame) returns (flow: Flow, reply: Option<string>)
      modifies this`gameStarted
      ensures GateResult(gameStarted, flow, reply) == GateStep(old(gameStarted), frame)
    {
      match frame {
        case Text(t) =>
          flow, reply := Continue, None;
          if t == "serve" {
            gameStarted := true;
          } else if t == "ping" {
            if gameStarted {
              reply := Some("pong");
            }
          }
        case Close =>
          flow, reply := Break, None;
        case _ =>
          flow, reply := Continue, None;
      }
    }

    /** `handle_socket`: the receive loop of the gate. */
    method HandleSocket(incoming: seq<Received>) returns (replies: seq<string>)
      modifies this`gameStarted
      ensures gameStarted == RunGate(old(gameStarted), incoming).started
      ensures replies == RunGate(old(gameStarted), incoming).replies
    {
      ghost var whole := RunGate(gameStarted, incoming);
      replies := [];
      var i := 0;
      assert incoming[i..] == incoming;
      while i < |incoming|
        invariant 0 <= i <= |incoming|
        invariant whole.started == RunGate(gameStarted, incoming[i..]).started
        invariant whole.replies == replies + RunGate(gameStarted, incoming[i..]).replies
      {
        if incoming[i].RecvError? {
          assert RunGate(gameStarted, incoming[i..]) == GateRun(gameStarted, [], 0);
          assert replies + [] == replies;
          return;
        }
        ghost var before := gameStarted;
        var flow, reply := HandleMessage(incoming[i].frame);
        RunGateStep(whole, replies, before, incoming[i..], gameStarted, flow, reply);
        replies := replies + if reply.Some? then [reply.value] else [];
        if flow == Break {
          return;
        }
        assert incoming[i..][1..] == incoming[i + 1..];
        i := i + 1;
      }
      assert incoming[i..] == [];
      assert replies + [] == replies;
    }

    /** `reset`. */
    method Reset()
      modifies this`count
      ensures count == 0
    {
      count := 0;
    }

    /** `views`: the counter in decimal; it reads back as the counter. */
    method Views() returns (s: string)
      ensures Decimal.ParseU64(s) == Some(count as int)
      ensures s == Decimal.NatToString(count)
    {
      s := Decimal.NatToString(count);
      Decimal.ParseNatToString(count, TWO_64 - 1);
    }

    /** The room-creating part of `room`. */
    method Room(id: usize)
      modifies this`rooms
      ensures rooms == CreateRoom(old(rooms), id)
    {
      if id !in rooms {
        rooms := rooms[id := NewRoom];
      }
    }

    /** `subscribe()` in `handle_chat_socket`: one more live receiver, which
        counts the current value as seen. The room exists because `room`
        created it before the upgrade. */
    method Subscribe(id: usize) returns (seen: nat)
      requires id in rooms
      modifies this`rooms
      ensures rooms == old(rooms)[id := old(rooms)[id].(receivers := old(rooms)[id].receivers + 1)]
      ensures seen == rooms[id].version
    {
      var cell := rooms[id];
      rooms := rooms[id := cell.(receivers := cell.receivers + 1)];
      seen := cell.version;
    }

    /** The receiver is dropped when the session ends. */
    method Unsubscribe(id: usize)
      requires id in rooms && rooms[id].receivers > 0
      modifies this`rooms
      ensures rooms == old(rooms)[id := old(rooms)[id].(receivers := old(rooms)[id].receivers - 1)]
    {
      var cell := rooms[id];
      rooms := rooms[id := cell.(receivers := cell.receivers - 1)];
    }

    /** One turn of the send task: `rx.changed()` then `rx.borrow()`. */
    method Poll(id: usize, seen: nat) returns (value: Option<Broadcast>, seen': nat)
      requires id in rooms
      ensures value.Some? <==> rooms[id].version != seen
      ensures value.Some? ==> value.value == rooms[id].value
      ensures seen' == rooms[id].version
    {
      value := Observe(rooms[id], seen);
      seen' := rooms[id].version;
    }

    /** `process_chat_message`. */
    method ProcessChatMessage(id: usize, user: string, frame: ChatFrame) returns (flow: Flow)
      requires id in rooms
      modifies this`count, this`rooms
      ensures ChatResult(count, rooms, flow) == ChatStep(old(count), old(rooms), id, user, frame)
    {
      if frame.ChatClose? {
        return Break;
      }
      if frame.ChatOther? {
        return Continue;
      }
      if !HasMessage(frame) {
        return Panicked;
      }
      var fields := frame.payload.fields;
      var message := fields["message"].s;
      if "user" in fields {
        return Continue;
      }
      if Text.Utf8Len(message) > MAX_MESSAGE_BYTES {
        return Continue;
      }
      var cell := rooms[id];
      if cell.receivers == 0 {
        return Break;
      }
      rooms := rooms[id := RoomCell(Chat(user, message), cell.version + 1, cell.receivers)];
      count := WrapU64(count + cell.receivers);
      return Continue;
    }

    /** The receive task of `handle_chat_socket`. */
    method ReceiveLoop(id: usize, user: string, incoming: seq<Inbound>)
      requires id in rooms
      modifies this`count, this`rooms
      ensures var r := RunChat(old(count), old(rooms), id, user, incoming);
              count == r.count && rooms == r.rooms
    {
      var i := 0;
      while i < |incoming|
        invariant 0 <= i <= |incoming|
        invariant id in rooms
        invariant RunChat(old(count), old(rooms), id, user, incoming).count
               == RunChat(count, rooms, id, user, incoming[i..]).count
        invariant RunChat(old(count), old(rooms), id, user, incoming).rooms
               == RunChat(count, rooms, id, user, incoming[i..]).rooms
      {
        if incoming[i].InError? {
          return;
        }
        assert incoming[i..][0] == incoming[i] && incoming[i..][1..] == incoming[i + 1..];
        var flow := ProcessChatMessage(id, user, incoming[i].frame);
        i := i + 1;
        if flow != Continue {
          return;
        }
      }
    }

    /** A chat session: `room` creates the room if needed, the session
        subscribes, the receive task runs, and the subscription is released
        when the session ends. */
    method ChatSession(id: usize, user: string, incoming: seq<Inbound>)
      modifies this`count, this`rooms
      ensures id in rooms
      ensures Released(rooms, RunChat(old(count), Joined(old(rooms), id), id, user, incoming).rooms, id)
      ensures count == RunChat(old(count), Joined(old(rooms), id), id, user, incoming).count
    {
      Room(id);
      var seen := Subscribe(id);
      ghost var joined := rooms;
      ReceiveLoop(id, user, incoming);
      RunChatRooms(old(count), joined, id, user, incoming);
      Unsubscribe(id);
    }
  }

  /** The registry once `room` has run and the session has subscribed. */
  function Joined(rooms: map<usize, RoomCell>, id: usize): (r: map<usize, RoomCell>)
    ensures id in r && r[id].receivers > 0
  {
    var created := CreateRoom(rooms, id);
    created[id := created[id].(receivers := created[id].receivers + 1)]
  }

  /** `after` is `during` with the session's receiver released. */
  ghost predicate Released(after: map<usize, RoomCell>, during: map<usize, RoomCell>, id: usize) {
    && after.Keys == during.Keys
    && id in after
    && after[id].receivers + 1 == during[id].receivers
    && after[id] == during[id].(receivers := after[id].receivers)
    && forall k :: k in after && k != id ==> after[k] == during[k]
  }

  /** Within a session its own subscription keeps the room's receiver count
      positive, so a publish never fails: the session only ever breaks on a
      Close frame. */
  lemma SessionBreaksOnlyOnClose(count: u64, rooms: map<usize, RoomCell>, id: usize, user: string,
                                 frame: ChatFrame)
    requires id in rooms && rooms[id].receivers > 0
    ensures ChatStep(count, rooms, id, user, frame).flow == Break ==> frame == ChatClose
  {
  }
}
