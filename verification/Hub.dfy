/** The hub's objects: Join, Leave and the lock regions of Broadcast update rooms and clients in place, each as the state machine says. */
module Hub {
  import opened Basics
  import opened HubModel
  import MessageRate

  class Client {
    const actorId: Id
    const workspaceId: Id
    var done: bool
    var sendChan: seq<Message>
    /** What waits in sendChan, with the number of the broadcast each message came from. */
    ghost var queue: seq<Envelope>
    ghost var received: seq<Envelope>
    var msgCount: nat
    var windowStart: real

    constructor (actorId: Id, workspaceId: Id, now: real)
      ensures Valid() && View() == ClientState(actorId, workspaceId, false, [], [], 0, now)
    {
      this.actorId, this.workspaceId := actorId, workspaceId;
      done, sendChan, queue, received, msgCount, windowStart := false, [], [], [], 0, now;
    }

    ghost function View(): ClientState
      reads this
    {
      ClientState(actorId, workspaceId, done, queue, received, msgCount, windowStart)
    }

    /** The sender's window lets one more message through. */
    ghost predicate MayPass(now: real)
      reads this
    {
      MessageRate.Passes(MessageRate.Window(msgCount, windowStart), now)
    }

    ghost predicate Valid()
      reads this
    {
      |sendChan| == |queue| && forall i :: 0 <= i < |queue| ==> sendChan[i] == queue[i].msg
    }

    method Close()
      modifies this
      ensures View() == old(View()).(done := true) && (old(Valid()) ==> Valid())
    {
      done := true;
    }

    /** allow */
    method Allow(now: real) returns (ok: bool)
      modifies this
      ensures var before := MessageRate.Window(old(msgCount), old(windowStart));
              var after := MessageRate.Counted(before, now);
              View() == old(View()).(msgCount := after.count, windowStart := after.start) && ok == MessageRate.Passes(before, now)
      ensures old(Valid()) ==> Valid()
    {
      if now - windowStart > 1.0 {
        windowStart := now;
        msgCount := 0;
      }
      msgCount := msgCount + 1;
      ok := msgCount <= MAX_MESSAGES_PER_SECOND;
    }
  }

  class Room {
    const workspaceId: Id
    var clients: map<Id, Client>

    constructor (workspaceId: Id)
      ensures View() == RoomState(workspaceId, map[])
    {
      this.workspaceId := workspaceId;
      clients := map[];
    }

    ghost function View(): RoomState<Client>
      reads this
    {
      RoomState(workspaceId, clients)
    }
  }

  ghost predicate RoomsShown(rs: map<Room, RoomState<Client>>)
    reads rs.Keys
  {
    forall r :: r in rs ==> r.View() == rs[r]
  }

  ghost predicate ClientsShown(cs: map<Client, ClientState>)
    reads cs.Keys
  {
    forall c :: c in cs ==> c.View() == cs[c] && c.Valid()
  }

  /** Closing a client closes it in the model; no other object changes. */
  method CloseClient(c: Client, ghost cs: map<Client, ClientState>, ghost rs: map<Room, RoomState<Client>>)
    requires ClientsShown(cs) && c in cs && RoomsShown(rs)
    modifies c
    ensures ClientsShown(Closed(cs, c)) && RoomsShown(rs)
  {
    c.Close();
  }

  /** A new client, open and with an empty queue. */
  method NewClient(actorId: Id, workspaceId: Id, now: real, ghost cs: map<Client, ClientState>) returns (c: Client)
    requires ClientsShown(cs)
    ensures fresh(c) && c.View() == ClientState(actorId, workspaceId, false, [], [], 0, now)
    ensures ClientsShown(cs[c := ClientState(actorId, workspaceId, false, [], [], 0, now)])
  {
    c := new Client(actorId, workspaceId, now);
  }

  /** The clients after retiring one actor's client, if there is one. */
  ghost function Retired(cs: map<Client, ClientState>, clients: map<Id, Client>, actorId: Id): map<Client, ClientState> {
    if actorId in clients then Closed(cs, clients[actorId]) else cs
  }

  /** Retires the previous connection of the actor and makes a new one. */
  method Reconnect(clients: map<Id, Client>, actorId: Id, workspaceId: Id, now: real,
          ghost cs: map<Client, ClientState>, ghost rs: map<Room, RoomState<Client>>)
    returns (client: Client)
    requires ClientsShown(cs) && RoomsShown(rs) && (actorId in clients ==> clients[actorId] in cs)
    modifies cs.Keys
    ensures RoomsShown(rs)
    ensures fresh(client) && client.View() == ClientState(actorId, workspaceId, false, [], [], 0, now)
    ensures ClientsShown(Retired(cs, clients, actorId)[client := ClientState(actorId, workspaceId, false, [], [], 0, now)])
  {
    hide ClientsShown, Closed, RoomsShown;
    if actorId in clients {
      CloseClient(clients[actorId], cs, rs);
    }
    client := NewClient(actorId, workspaceId, now, Retired(cs, clients, actorId));
  }

  /** Replaces a room's members; no other object changes. */
  method SetMembers(r: Room, clients: map<Id, Client>, ghost rs: map<Room, RoomState<Client>>,
          ghost cs: map<Client, ClientState>)
    requires ClientsShown(cs) && forall x :: x in rs && x != r ==> x.View() == rs[x]
    modifies r
    ensures ClientsShown(cs) && r.View() == RoomState(r.workspaceId, clients)
    ensures RoomsShown(rs[r := RoomState(r.workspaceId, clients)])
  {
    r.clients := clients;
  }

  /** Takes an actor out of a room and closes its client; tells whether the room is now empty. */
  method RemoveMember(room: Room, actorId: Id, ghost rs: map<Room, RoomState<Client>>, ghost cs: map<Client, ClientState>)
    returns (empty: bool)
    requires RoomsShown(rs) && ClientsShown(cs) && room in rs && (actorId in rs[room].clients ==> rs[room].clients[actorId] in cs)
    modifies room, cs.Keys
    ensures empty == (|rs[room].clients - {actorId}| == 0)
    ensures RoomsShown(rs[room := RoomState(rs[room].workspace, rs[room].clients - {actorId})])
    ensures ClientsShown(Retired(cs, rs[room].clients, actorId))
  {
    hide ClientsShown, Closed, RoomsShown;
    ShownRoom(rs, room);
    AllButOne(rs, room);
    var clients := room.clients;
    SetMembers(room, clients - {actorId}, rs, cs);
    empty := |room.clients| == 0;
    if actorId in clients {
      CloseClient(clients[actorId], cs, rs[room := room.View()]);
    }
  }

  /** allow on a client of the model. */
  method AllowClient(c: Client, now: real, ghost cs: map<Client, ClientState>,
          ghost rs: map<Room, RoomState<Client>>) returns (ok: bool)
    requires ClientsShown(cs) && c in cs && RoomsShown(rs)
    modifies c
    ensures var (count, start, passes) := Window(cs[c].msgCount, cs[c].windowStart, now);
            ClientsShown(cs[c := cs[c].(msgCount := count, windowStart := start)]) && ok == passes
    ensures RoomsShown(rs)
  {
    ok := c.Allow(now);
  }

  /** The select on one recipient; choose decides when both the closed signal and a buffer slot are ready. */
  method Offer(c: Client, msg: Message, choose: bool, ghost cast: nat, ghost cs: map<Client, ClientState>,
               ghost rs: map<Room, RoomState<Client>>)
    requires ClientsShown(cs) && c in cs && RoomsShown(rs)
    modifies c
    ensures ClientsShown(if Delivers(cs[c], choose) then cs[c := cs[c].(queue := cs[c].queue + [Envelope(cast, msg)])] else cs)
    ensures RoomsShown(rs)
    ensures c.done == old(c.done)
    ensures !old(c.done) && |old(c.sendChan)| < SEND_BUFFER ==> c.sendChan == old(c.sendChan) + [msg]
    ensures |old(c.sendChan)| >= SEND_BUFFER ==> c.sendChan == old(c.sendChan)
    ensures c.sendChan == old(c.sendChan) || c.sendChan == old(c.sendChan) + [msg]
  {
    if c.done && !choose {
      return;
    }
    if |c.sendChan| < SEND_BUFFER {
      c.sendChan := c.sendChan + [msg];
      c.queue := c.queue + [Envelope(cast, msg)];
    }
  }

  /** The members other than the sender, in the order the map happens to yield them. */
  method Others(clients: map<Id, Client>, sender: Id) returns (recipients: seq<Client>)
    requires forall a :: a in clients ==> clients[a].actorId == a
    ensures IsRecipientOrder(recipients, clients, sender)
  {
    recipients := [];
    var left := clients.Keys;
    while left != {}
      invariant left <= clients.Keys
      invariant forall i, j :: 0 <= i < j < |recipients| ==> recipients[i] != recipients[j]
      invariant forall c :: c in recipients ==> c.actorId in clients && c.actorId !in left && c.actorId != sender && clients[c.actorId] == c
      invariant forall a :: a in clients && a != sender && a !in left ==> clients[a] in recipients
      decreases |left|
    {
      var a :| a in left;
      left := left - {a};
      if clients[a].actorId != sender {
        recipients := recipients + [clients[a]];
      }
    }
  }

  class Hub {
    var rooms: map<Id, Room>
    /** The state machine's view of the hub and of every object that was ever in it. */
    ghost var model: State<Room, Client>

    /** The objects are as the model says, and the model satisfies what every run keeps. */
    ghost predicate Valid()
      reads this, model.room.Keys, model.client.Keys
    {
      Inv(model) && model.lock.Free? && rooms == model.rooms && RoomsShown(model.room) && ClientsShown(model.client)
    }

    /** NewHub */
    constructor ()
      ensures Valid() && model == Initial()
    {
      rooms := map[];
      model := Initial();
      new;
      InitialInv<Room, Client>();
    }

    /** The room of a workspace, created if there is none. */
    method RoomFor(workspaceId: Id) returns (room: Room)
      requires Valid()
      modifies this`rooms
      ensures rooms == old(rooms)[workspaceId := room] && room.View() == RoomOf(model, workspaceId)
      ensures if workspaceId in old(rooms) then room == old(rooms)[workspaceId] && room in model.room else fresh(room)
    {
      hide Inv;
      if workspaceId in rooms {
        KnownRoom(model, workspaceId);
        room := rooms[workspaceId];
      } else {
        room := new Room(workspaceId);
        rooms := rooms[workspaceId := room];
      }
    }

    /** Join; None is the error for an empty id. */
    method Join(workspaceId: Id, actorId: Id, now: real) returns (joined: Option<Client>)
      requires Valid()
      modifies this, model.room.Keys, model.client.Keys
      ensures Valid()
      ensures workspaceId == "" || actorId == "" ==> joined.None? && model == old(model)
      ensures workspaceId != "" && actorId != "" ==>
                && joined.Some? && fresh(joined.value) && workspaceId in rooms
                && model == JoinStep(old(model), workspaceId, actorId, rooms[workspaceId], joined.value, now)
    {
      hide Inv, RoomsShown, ClientsShown, Closed, JoinStep, Retired;
      if workspaceId == "" || actorId == "" {
        return None;
      }
      var room := RoomFor(workspaceId);
      KnownClient(model, workspaceId, actorId);
      var client := Reconnect(room.clients, actorId, workspaceId, now, model.client, model.room);
      ghost var clients := Retired(model.client, room.clients, actorId)[client := client.View()];
      AllButOne(model.room, room);
      SetMembers(room, room.clients[actorId := client], model.room, clients);
      JoinKeepsInv(model, workspaceId, actorId, room, client, now);
      JoinIs(model, workspaceId, actorId, room, client, now);
      model := JoinStep(model, workspaceId, actorId, room, client, now);
      joined := Some(client);
    }

    /** Leave */
    method Leave(workspaceId: Id, actorId: Id)
      requires Valid()
      modifies this, model.room.Keys, model.client.Keys
      ensures Valid()
      ensures model == if workspaceId in old(rooms) then Left(old(model), workspaceId, actorId) else old(model)
    {
      hide Inv, RoomsShown, ClientsShown, Retired, Left;
      if workspaceId !in rooms {
        return;
      }
      ghost var after := Left(model, workspaceId, actorId);
      LeaveIs(model, workspaceId, actorId);
      var empty := RemoveMember(rooms[workspaceId], actorId, model.room, model.client);
      if empty {
        rooms := rooms - {workspaceId};
      }
      model := after;
    }

    /** The first lock region of Broadcast. */
    method Lookup(msg: Message, ghost cast: nat) returns (done: Option<Outcome>, room: Option<Room>)
      requires Valid() && cast !in model.casts
      modifies this`model
      ensures Valid() && model == LookupStep(old(model), cast, msg)
      ensures done.Some? ==> model.casts[cast].phase == Ended(done.value)
      ensures done.None? ==> model.casts[cast].phase == LookedUp && room == model.casts[cast].room && room.Some?
      ensures done == Some(TooLarge) <==> |msg.payload| > MAX_MESSAGE_SIZE
      ensures done == Some(Ok) <==> |msg.payload| <= MAX_MESSAGE_SIZE && msg.workspaceId !in rooms
      ensures done.Some? ==> done.value == TooLarge || done.value == Ok
      ensures done.None? ==> msg.workspaceId in rooms && room == Some(rooms[msg.workspaceId])
    {
      hide Inv, RoomsShown, ClientsShown;
      StepKeepsInv(model, Event.Lookup(cast, msg));
      model := LookupStep(model, cast, msg);
      if |msg.payload| > MAX_MESSAGE_SIZE {
        return Some(TooLarge), None;
      }
      if msg.workspaceId !in rooms {
        return Some(Ok), None;
      }
      return None, Some(rooms[msg.workspaceId]);
    }

    /** The second lock region: who sends, and who else is in the room. */
    method Snapshot(msg: Message, room: Room, ghost cast: nat) returns (sender: Option<Client>, recipients: seq<Client>)
      requires Valid() && cast in model.casts && model.casts[cast].msg == msg
      requires model.casts[cast].phase == LookedUp && model.casts[cast].room == Some(room)
      modifies this`model
      ensures Valid() && Enabled(old(model), Event.Snapshot(cast, recipients)) && model == SnapshotStep(old(model), cast, recipients)
      ensures sender.None? ==> model.casts[cast].phase == Ended(NotAuthorized)
      ensures sender.Some? ==> model.casts[cast].phase == Snapped && model.casts[cast].sender == sender
      ensures sender.Some? ==> model.casts[cast].recipients == recipients && model.casts[cast].next == 0
      ensures sender == if msg.actorId in room.clients then Some(room.clients[msg.actorId]) else None
      ensures IsRecipientOrder(recipients, room.clients, msg.actorId)
      ensures InHub(old(model), room) ==> AllOpen(old(model).client, recipients)
    {
      hide Inv, ClientsShown, IsRecipientOrder, AllOpen, InHub;
      CastRoom(model, cast);
      sender := if msg.actorId in room.clients then Some(room.clients[msg.actorId]) else None;
      MemberIds(model, room);
      recipients := Others(room.clients, msg.actorId);
      if InHub(model, room) {
        MembersOpen(model, room, recipients, msg.actorId);
      }
      StepKeepsInv(model, Event.Snapshot(cast, recipients));
      model := SnapshotStep(model, cast, recipients);
    }

    /** The sender's rate limit. */
    method Admit(sender: Client, now: real, ghost cast: nat) returns (ok: bool)
      requires Valid() && cast in model.casts && model.casts[cast].phase == Snapped && model.casts[cast].sender == Some(sender)
      modifies this`model, model.client.Keys
      ensures Valid() && Enabled(old(model), Event.Admit(cast, now)) && model == AdmitStep(old(model), cast, now)
      ensures model.casts[cast].phase == if ok then Sending else Ended(RateLimited)
      ensures ok == old(sender.MayPass(now)) && Handed(old(model).client, model.client, Envelope(cast, model.casts[cast].msg), [])
    {
      hide Inv, RoomsShown, ClientsShown, Window, Client.MayPass;
      CastSender(model, cast);
      WindowIs(model.client, sender, now);
      AdmitHands(model, cast, now);
      StepKeepsInv(model, Event.Admit(cast, now));
      ok := AllowClient(sender, now, model.client, model.room);
      model := AdmitStep(model, cast, now);
    }

    /** One turn of the sending loop. */
    method SendTo(who: Client, choose: bool, ghost cast: nat, msg: Message)
      requires Valid() && cast in model.casts && model.casts[cast].phase == Sending && model.casts[cast].msg == msg
      requires model.casts[cast].next < |model.casts[cast].recipients| && who == model.casts[cast].recipients[model.casts[cast].next]
      modifies this`model, model.client.Keys
      ensures Valid() && model == SendStep(old(model), cast, choose)
    {
      hide Inv, RoomsShown, ClientsShown, Delivers;
      CastRecipient(model, cast);
      StepKeepsInv(model, Event.Send(cast, choose));
      Offer(who, msg, choose, cast, model.client, model.room);
      model := SendStep(model, cast, choose);
    }

    /** The regions of Broadcast before the sending loop: an outcome, or the recipients. */
    method Begin(msg: Message, now: real, ghost cast: nat) returns (done: Option<Outcome>, recipients: seq<Client>,
            ghost events: seq<Event<Room, Client>>)
      requires Valid() && cast !in model.casts
      modifies this`model, model.client.Keys
      ensures Valid() && model == After(old(model), events) && forall e :: e in events ==> Advanced(e) == Some(cast)
      ensures done.Some? ==> cast in model.casts && model.casts[cast].phase == Ended(done.value)
      ensures done == Some(Ok) ==> msg.workspaceId !in rooms
      ensures done.None? ==>
                && Progress(model, cast, msg, recipients, 0) && AllOpen(old(model).client, recipients)
                && msg.workspaceId in rooms && IsRecipientOrder(recipients, rooms[msg.workspaceId].clients, msg.actorId)
      ensures Handed(old(model).client, model.client, Envelope(cast, msg), [])
      ensures old(OutcomeOf(rooms, msg, now)) == if done.Some? then done.value else Ok
    {
      hide Inv, RoomsShown, ClientsShown, After, SendStep, AdmitStep, LookupStep, SnapshotStep, IsRecipientOrder,
              Advanced, Enabled, Next, Handed, AllOpen, InHub, Client.MayPass;
      recipients := [];
      ghost var start := model;
      NoEvents(start);
      NoneHanded(start.client, Envelope(cast, msg));
      LookupIs(start, cast, msg);
      AfterPush(start, [], Event.Lookup(cast, msg));
      var over, room := Lookup(msg, cast);
      events := [] + [Event.Lookup(cast, msg)];
      if over.Some? {
        return over, [], events;
      }
      ghost var found := model;
      LookedUpRoom(found, rooms, msg.workspaceId);
      var sender: Option<Client>;
      sender, recipients := Snapshot(msg, room.value, cast);
      SnapshotIs(found, cast, recipients);
      AfterPush(start, events, Event.Snapshot(cast, recipients));
      events := events + [Event.Snapshot(cast, recipients)];
      if sender.None? {
        return Some(NotAuthorized), recipients, events;
      }
      ghost var snapped := model;
      var ok := Admit(sender.value, now, cast);
      AdmitIs(snapped, cast, now);
      AfterPush(start, events, Event.Admit(cast, now));
      events := events + [Event.Admit(cast, now)];
      done := if ok then None else Some(RateLimited);
    }

    /** Broadcast, when nothing comes between its regions: a run of its own steps, ending with what it returns. If that is
        Ok, every other member whose queue has room gets just this message, and nobody else gets anything. */
    method Broadcast(msg: Message, now: real, ghost cast: nat) returns (outcome: Outcome,
            ghost events: seq<Event<Room, Client>>)
      requires Valid() && cast !in model.casts
      modifies this`model, model.client.Keys
      ensures Valid() && model == After(old(model), events) && forall e :: e in events ==> Advanced(e) == Some(cast)
      ensures cast in model.casts && model.casts[cast].phase == Ended(outcome)
      ensures outcome == old(OutcomeOf(rooms, msg, now))
      ensures forall c :: c in old(model.client) ==>
                Gets(old(c.sendChan), c.sendChan, msg, outcome == Ok && IsOther(rooms, msg, c))
    {
      hide Inv, RoomsShown, ClientsShown, After, IsRecipientOrder, Advanced, Handed, IsOther, AllOpen, Progress, OutcomeOf;
      ghost var start := model;
      QueuesShown(model.client);
      var done, recipients;
      done, recipients, events := Begin(msg, now, cast);
      if done.Some? {
        QueuesShown(model.client);
        HandedChans(start.client, model.client, Envelope(cast, msg), []);
        OutsideNobody(rooms, msg);
        return done.value, events;
      }
      DistinctRecipients(recipients, rooms[msg.workspaceId].clients, msg.actorId);
      HandedKeys(start.client, model.client, Envelope(cast, msg), []);
      events := SendAll(start, events, recipients, msg, cast);
      QueuesShown(model.client);
      HandedChans(start.client, model.client, Envelope(cast, msg), recipients);
      OthersAre(rooms, msg, recipients);
      outcome := Ok;
    }

    /** The sending loop. */
    method SendAll(ghost start: State<Room, Client>, ghost before: seq<Event<Room, Client>>, recipients: seq<Client>,
            msg: Message, ghost cast: nat)
      returns (ghost events: seq<Event<Room, Client>>)
      requires Valid() && model == After(start, before) && forall e :: e in before ==> Advanced(e) == Some(cast)
      requires Progress(model, cast, msg, recipients, 0)
      requires Handed(start.client, model.client, Envelope(cast, msg), []) && AllOpen(start.client, recipients)
      requires forall i, j :: 0 <= i < j < |recipients| ==> recipients[i] != recipients[j]
      modifies this`model, model.client.Keys
      ensures Handed(start.client, model.client, Envelope(cast, msg), recipients)
      ensures Valid() && model == After(start, events) && forall e :: e in events ==> Advanced(e) == Some(cast)
      ensures cast in model.casts && model.casts[cast].phase == Ended(Ok)
    {
      hide Inv, RoomsShown, ClientsShown, After, SendStep, Advanced, Enabled, Next, Progress, Handed, AllOpen;
      events := before;
      assert recipients[..0] == [];
      for k := 0 to |recipients|
        invariant Valid() && model == After(start, events) && forall e :: e in events ==> Advanced(e) == Some(cast)
        invariant Progress(model, cast, msg, recipients, k) && model.client.Keys == old(model.client.Keys)
        invariant Handed(start.client, model.client, Envelope(cast, msg), recipients[..k])
      {
        var choose: bool := *;
        SendProgress(model, cast, msg, recipients, k, choose);
        SendHands(model, start.client, cast, msg, recipients, k, choose);
        AfterPush(start, events, Event.Send(cast, choose));
        SendTo(recipients[k], choose, cast, msg);
        events := events + [Event.Send(cast, choose)];
      }
      assert recipients[..|recipients|] == recipients;
      SendEnds(model, cast, msg, recipients);
      AfterPush(start, events, Event.Send(cast, true));
      StepKeepsInv(model, Event.Send(cast, true));
      model := SendStep(model, cast, true);
      events := events + [Event.Send(cast, true)];
    }
  }

  /** What Broadcast answers. */
  ghost function OutcomeOf(rooms: map<Id, Room>, msg: Message, now: real): Outcome
    reads rooms.Values, set r, a | r in rooms.Values && a in r.clients :: r.clients[a]
  {
    if |msg.payload| > MAX_MESSAGE_SIZE then TooLarge
    else if msg.workspaceId !in rooms then Ok
    else
      var clients := rooms[msg.workspaceId].clients;
      if msg.actorId !in clients then NotAuthorized
      else if clients[msg.actorId].MayPass(now) then Ok
      else RateLimited
  }

  /** c is a member of the room the message names, and not its sender. */
  ghost predicate IsOther(rooms: map<Id, Room>, msg: Message, c: Client)
    reads rooms.Values
  {
    msg.workspaceId in rooms
    && exists a :: a in rooms[msg.workspaceId].clients && a != msg.actorId && rooms[msg.workspaceId].clients[a] == c
  }

  /** A queue before and after: a message more if it is meant for it and there is room. */
  predicate Gets(before: seq<Message>, after: seq<Message>, msg: Message, meant: bool) {
    after == before + if meant && |before| < SEND_BUFFER then [msg] else []
  }

  lemma OutsideNobody(rooms: map<Id, Room>, msg: Message)
    ensures msg.workspaceId !in rooms ==> forall c :: !IsOther(rooms, msg, c)
  {
  }

  lemma NoneHanded(cs: map<Client, ClientState>, e: Envelope)
    ensures Handed(cs, cs, e, [])
  {
  }

  lemma DistinctRecipients(order: seq<Client>, clients: map<Id, Client>, sender: Id)
    requires IsRecipientOrder(order, clients, sender)
    ensures forall i, j :: 0 <= i < j < |order| ==> order[i] != order[j]
  {
  }

  lemma HandedKeys(before: map<Client, ClientState>, after: map<Client, ClientState>, e: Envelope, to: seq<Client>)
    requires Handed(before, after, e, to)
    ensures after.Keys == before.Keys
  {
  }

  lemma OthersAre(rooms: map<Id, Room>, msg: Message, recipients: seq<Client>)
    requires msg.workspaceId in rooms && IsRecipientOrder(recipients, rooms[msg.workspaceId].clients, msg.actorId)
    ensures forall c :: IsOther(rooms, msg, c) <==> c in recipients
  {
  }

  function Messages(queue: seq<Envelope>): (r: seq<Message>)
    ensures |r| == |queue| && forall i :: 0 <= i < |r| ==> r[i] == queue[i].msg
  {
    seq(|queue|, i requires 0 <= i < |queue| => queue[i].msg)
  }

  lemma QueuesShown(cs: map<Client, ClientState>)
    requires ClientsShown(cs)
    ensures forall c :: c in cs ==> c.sendChan == Messages(cs[c].queue)
  {
    forall c | c in cs
      ensures c.sendChan == Messages(cs[c].queue)
    {
      assert c.View() == cs[c] && c.Valid();
    }
  }

  ghost predicate AllOpen(cs: map<Client, ClientState>, clients: seq<Client>) {
    forall c :: c in clients ==> c in cs && !cs[c].done
  }

  /** Of the queues only those of the given clients have changed: each that had room holds one message more. */
  ghost predicate Handed(before: map<Client, ClientState>, after: map<Client, ClientState>, e: Envelope, to: seq<Client>) {
    && after.Keys == before.Keys
    && forall c :: c in before ==>
         && after[c].done == before[c].done
         && after[c].queue == before[c].queue + if c in to && |before[c].queue| < SEND_BUFFER then [e] else []
  }

  lemma HandedChans(before: map<Client, ClientState>, after: map<Client, ClientState>, e: Envelope, to: seq<Client>)
    requires Handed(before, after, e, to)
    ensures forall c :: c in before ==>
              c in after
              && Messages(after[c].queue) == Messages(before[c].queue)
                                             + if c in to && |Messages(before[c].queue)| < SEND_BUFFER then [e.msg] else []
  {
  }

  lemma AdmitHands(s: State<Room, Client>, cast: nat, now: real)
    requires cast in s.casts && s.casts[cast].sender.Some? && s.casts[cast].sender.value in s.client
    ensures Handed(s.client, AdmitStep(s, cast, now).client, Envelope(cast, s.casts[cast].msg), [])
  {
    hide Window;
  }

  lemma WindowIs(cs: map<Client, ClientState>, c: Client, now: real)
    requires ClientsShown(cs) && c in cs
    ensures Window(cs[c].msgCount, cs[c].windowStart, now).2 == c.MayPass(now)
  {
    assert c.View() == cs[c];
  }

  lemma SendHands(s: State<Room, Client>, before: map<Client, ClientState>, cast: nat, msg: Message, recipients: seq<Client>,
          k: nat, choose: bool)
    requires Progress(s, cast, msg, recipients, k) && k < |recipients|
    requires Handed(before, s.client, Envelope(cast, msg), recipients[..k]) && AllOpen(before, recipients)
    requires forall i, j :: 0 <= i < j < |recipients| ==> recipients[i] != recipients[j]
    ensures Handed(before, SendStep(s, cast, choose).client, Envelope(cast, msg), recipients[..k + 1])
  {
    var who := recipients[k];
    assert recipients[..k + 1] == recipients[..k] + [who];
    assert who !in recipients[..k] && who in recipients;
  }

  /** In a room of the hub the members are open. */
  lemma MembersOpen(s: State<Room, Client>, room: Room, recipients: seq<Client>, actorId: Id)
    requires Inv(s) && s.lock.Free? && InHub(s, room) && IsRecipientOrder(recipients, s.room[room].clients, actorId)
    ensures AllOpen(s.client, recipients)
  {
    forall c | c in recipients
      ensures c in s.client && !s.client[c].done
    {
      var a :| a in s.room[room].clients && s.room[room].clients[a] == c;
      assert Registered(s, c);
    }
  }

  lemma LookedUpRoom(s: State<Room, Client>, rooms: map<Id, Room>, workspaceId: Id)
    requires Inv(s) && s.rooms == rooms && workspaceId in rooms
    ensures InHub(s, rooms[workspaceId])
  {
  }

  /** The state after some steps; a step that cannot happen leaves the state alone. */
  ghost function After(s: State<Room, Client>, events: seq<Event<Room, Client>>): State<Room, Client> {
    if events == [] then s
    else
      var t, e := After(s, events[..|events| - 1]), events[|events| - 1];
      if Enabled(t, e) then Next(t, e) else t
  }

  /** The broadcast is sending, the first k recipients are behind it. */
  ghost predicate Progress(s: State<Room, Client>, cast: nat, msg: Message, recipients: seq<Client>, k: nat) {
    && cast in s.casts && s.casts[cast].phase == Sending && s.casts[cast].msg == msg
    && s.casts[cast].recipients == recipients && s.casts[cast].next == k
  }

  lemma NoEvents(s: State<Room, Client>)
    ensures After(s, []) == s
  {
  }

  lemma AfterPush(s: State<Room, Client>, events: seq<Event<Room, Client>>, e: Event<Room, Client>)
    requires Enabled(After(s, events), e)
    ensures After(s, events + [e]) == Next(After(s, events), e)
  {
    hide Enabled, Next;
    assert (events + [e])[..|events|] == events;
  }

  lemma LookupIs(s: State<Room, Client>, cast: nat, msg: Message)
    requires s.lock.Free? && cast !in s.casts
    ensures var e := Event<Room, Client>.Lookup(cast, msg);
            Enabled(s, e) && Next(s, e) == LookupStep(s, cast, msg) && Advanced(e) == Some(cast)
    ensures var t := LookupStep(s, cast, msg); cast in t.casts && t.casts[cast].msg == msg && t.client == s.client
  {
  }

  lemma SnapshotIs(s: State<Room, Client>, cast: nat, order: seq<Client>)
    requires Enabled(s, Event.Snapshot(cast, order))
    ensures var e := Event<Room, Client>.Snapshot(cast, order); Next(s, e) == SnapshotStep(s, cast, order) && Advanced(e) == Some(cast)
    ensures var t := SnapshotStep(s, cast, order); cast in t.casts && t.casts[cast].msg == s.casts[cast].msg && t.client == s.client
  {
    hide IsRecipientOrder;
  }

  lemma AdmitIs(s: State<Room, Client>, cast: nat, now: real)
    requires Enabled(s, Event.Admit(cast, now))
    ensures var e := Event<Room, Client>.Admit(cast, now); Next(s, e) == AdmitStep(s, cast, now) && Advanced(e) == Some(cast)
    ensures var t := AdmitStep(s, cast, now); cast in t.casts && t.client.Keys == s.client.Keys
                                              && t.casts[cast] == s.casts[cast].(phase := t.casts[cast].phase)
  {
    hide IsRecipientOrder, Window;
  }

  lemma SendProgress(s: State<Room, Client>, cast: nat, msg: Message, recipients: seq<Client>,
          k: nat, choose: bool)
    requires Progress(s, cast, msg, recipients, k) && k < |recipients|
    ensures var e, t := Event<Room, Client>.Send(cast, choose), SendStep(s, cast, choose);
            && Enabled(s, e) && Next(s, e) == t && Advanced(e) == Some(cast)
            && Progress(t, cast, msg, recipients, k + 1) && t.client.Keys == s.client.Keys
            && cast in s.casts && s.casts[cast].phase == Sending && s.casts[cast].msg == msg
            && s.casts[cast].recipients == recipients && s.casts[cast].next == k
  {
    hide Delivers;
  }

  lemma SendEnds(s: State<Room, Client>, cast: nat, msg: Message, recipients: seq<Client>)
    requires Progress(s, cast, msg, recipients, |recipients|)
    ensures var e, t := Event<Room, Client>.Send(cast, true), SendStep(s, cast, true);
            && Enabled(s, e) && Next(s, e) == t && Advanced(e) == Some(cast)
            && t == s.(casts := t.casts) && cast in t.casts && t.casts[cast].phase == Ended(Ok)
  {
  }

  lemma JoinIs(s: State<Room, Client>, w: Id, a: Id, r: Room, c: Client, now: real)
    requires w != "" && a != "" && (w in s.rooms ==> r == s.rooms[w])
    ensures var t := JoinStep(s, w, a, r, c, now); var before := RoomOf(s, w);
            && t.rooms == s.rooms[w := r] && t.lock == s.lock
            && t.room == s.room[r := RoomState(before.workspace, before.clients[a := c])]
            && t.client == Retired(s.client, before.clients, a)[c := ClientState(a, w, false, [], [], 0, now)]
  {
  }

  lemma CastRoom(s: State<Room, Client>, cast: nat)
    requires Inv(s) && cast in s.casts && s.casts[cast].room.Some?
    ensures s.casts[cast].room.value in s.room && (s.casts[cast].phase == LookedUp ==> s.casts[cast].next == 0)
  {
  }

  lemma CastSender(s: State<Room, Client>, cast: nat)
    requires Inv(s) && cast in s.casts && s.casts[cast].phase == Snapped
    ensures s.casts[cast].sender.Some? && s.casts[cast].sender.value in s.client
  {
  }

  lemma CastRecipient(s: State<Room, Client>, cast: nat)
    requires Inv(s) && cast in s.casts && s.casts[cast].next < |s.casts[cast].recipients|
    ensures s.casts[cast].recipients[s.casts[cast].next] in s.client
  {
    var b := s.casts[cast];
    assert CastSound(s, b) && b.recipients[b.next] in b.recipients;
  }

  /** The members of a room are listed under their own ids. */
  lemma MemberIds(s: State<Room, Client>, room: Room)
    requires Inv(s) && room in s.room && RoomsShown(s.room) && ClientsShown(s.client)
    ensures room.clients == s.room[room].clients && forall a :: a in room.clients ==> room.clients[a].actorId == a
  {
    assert room.View() == s.room[room];
    forall a | a in room.clients
      ensures room.clients[a].actorId == a
    {
      assert room.clients[a].View() == s.client[room.clients[a]];
    }
  }

  lemma ShownRoom(rs: map<Room, RoomState<Client>>, room: Room)
    requires RoomsShown(rs) && room in rs
    ensures room.View() == rs[room]
  {
  }

  lemma AllButOne(rs: map<Room, RoomState<Client>>, room: Room)
    requires RoomsShown(rs)
    ensures forall x :: x in rs && x != room ==> x.View() == rs[x]
  {
  }

  lemma KnownRoom(s: State<Room, Client>, workspaceId: Id)
    requires Inv(s) && workspaceId in s.rooms
    ensures s.rooms[workspaceId] in s.room && s.room[s.rooms[workspaceId]].workspace == workspaceId
  {
  }

  lemma KnownClient(s: State<Room, Client>, workspaceId: Id, actorId: Id)
    requires Inv(s)
    ensures actorId in RoomOf(s, workspaceId).clients ==> RoomOf(s, workspaceId).clients[actorId] in s.client
  {
  }

  lemma HubRoom(s: State<Room, Client>, workspaceId: Id)
    requires Inv(s) && workspaceId in s.rooms
    ensures s.rooms[workspaceId] in s.room && s.room[s.rooms[workspaceId]] == RoomOf(s, workspaceId)
  {
  }

  lemma LeaveIs(s: State<Room, Client>, w: Id, a: Id)
    requires Inv(s) && s.lock.Free? && w in s.rooms
    ensures s.rooms[w] in s.room && (a in s.room[s.rooms[w]].clients ==> s.room[s.rooms[w]].clients[a] in s.client)
    ensures var t, before := Left(s, w, a), s.room[s.rooms[w]]; var left := before.clients - {a};
            && Inv(t) && t.lock.Free? && t.rooms == (if |left| == 0 then s.rooms - {w} else s.rooms)
            && t.room == s.room[s.rooms[w] := RoomState(before.workspace, left)]
            && t.client == Retired(s.client, before.clients, a)
  {
    hide Inv, Closed;
    HubRoom(s, w);
    KnownClient(s, w, a);
    LeaveKeepsInv(s, w, a);
  }

  lemma LeaveKeepsInv(s: State<Room, Client>, w: Id, a: Id)
    requires Inv(s) && s.lock.Free? && w in s.rooms
    ensures Inv(Left(s, w, a))
  {
    hide Inv, CloseStep, UnlinkStep;
    UnlinkLocks(s, w, a);
    StepKeepsInv(s, Unlink(w, a));
    StepKeepsInv(UnlinkStep(s, w, a), Close);
  }

  lemma UnlinkLocks(s: State<Room, Client>, w: Id, a: Id)
    requires w in s.rooms
    ensures UnlinkStep(s, w, a).lock.Leaving?
  {
  }

  lemma JoinKeepsInv(s: State<Room, Client>, w: Id, a: Id, r: Room, c: Client, now: real)
    requires Inv(s) && s.lock.Free? && c !in s.client && w != "" && a != ""
    requires if w in s.rooms then r == s.rooms[w] else r !in s.room
    ensures Inv(JoinStep(s, w, a, r, c, now))
  {
    hide Inv, JoinStep;
    StepKeepsInv(s, Event.Join(w, a, r, c, now));
  }
}
