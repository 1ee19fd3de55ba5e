/** The collaboration hub as a state machine: every lock region of Join, Leave and Broadcast is one step,
    and steps of different goroutines interleave freely. */
module HubModel {
  import opened Basics

  type Id = string

  const MAX_MESSAGE_SIZE := 256 * 1024
  const MAX_MESSAGES_PER_SECOND := 30
  const SEND_BUFFER := 50

  datatype Message = Message(workspaceId: Id, actorId: Id, kind: string, payload: string)

  datatype RoomState<C> = RoomState(workspace: Id, clients: map<Id, C>)

  /** The number of the broadcast that carries the message, and the message. */
  datatype Envelope = Envelope(cast: nat, msg: Message)

  datatype ClientState = ClientState(actor: Id, workspace: Id, done: bool, queue: seq<Envelope>, received: seq<Envelope>,
                                     msgCount: nat, windowStart: real)

  datatype Phase = LookedUp | Snapped | Sending | Ended(outcome: Outcome)

  datatype Outcome = Ok | TooLarge | NotAuthorized | RateLimited

  /** One call of Broadcast, with what its local variables hold. */
  datatype Broadcast<R, C> = Broadcast(msg: Message, phase: Phase, room: Option<R>, sender: Option<C>, members: map<Id, C>,
                                       recipients: seq<C>, next: nat)

  /** The hub lock: free, or held by a Leave between unlinking the actor and closing its client. */
  datatype Lock<C> = Free | Leaving(workspace: Id, client: Option<C>, empty: bool)

  /** Rooms and clients that have left the maps stay known, since a broadcast may still hold them. */
  datatype State<R, C> = State(rooms: map<Id, R>, room: map<R, RoomState<C>>, client: map<C, ClientState>, lock: Lock<C>,
                               casts: map<nat, Broadcast<R, C>>, log: seq<(nat, C)>)

  datatype Event<R, C> =
    | Join(workspace: Id, actor: Id, newRoom: R, newClient: C, now: real)
    | Unlink(workspace: Id, actor: Id)
    | Close
    | Lookup(cast: nat, msg: Message)
    | Snapshot(cast: nat, order: seq<C>)
    | Admit(cast: nat, now: real)
    | Send(cast: nat, chooseSend: bool)
    | Receive(who: C)

  ghost function Initial<R, C>(): State<R, C> {
    State(map[], map[], map[], Free, map[], [])
  }

  // ---------- The steps ----------

  /** The room the hub has for a workspace, or an empty one. */
  ghost function RoomOf<R, C>(s: State<R, C>, workspace: Id): RoomState<C> {
    if workspace in s.rooms && s.rooms[workspace] in s.room then s.room[s.rooms[workspace]] else RoomState(workspace, map[])
  }

  ghost function Closed<C>(clients: map<C, ClientState>, c: C): map<C, ClientState> {
    if c in clients then clients[c := clients[c].(done := true)] else clients
  }

  /** Registers a new client, retiring the previous connection of the same actor. */
  ghost function JoinStep<R, C>(s: State<R, C>, workspace: Id, actor: Id, newRoom: R, newClient: C, now: real): State<R, C> {
    if workspace == "" || actor == "" then s
    else
      var r := if workspace in s.rooms then s.rooms[workspace] else newRoom;
      var before := RoomOf(s, workspace);
      var created := ClientState(actor, workspace, false, [], [], 0, now);
      var retired := if actor in before.clients then Closed(s.client, before.clients[actor]) else s.client;
      s.(rooms := s.rooms[workspace := r], room := s.room[r := before.(clients := before.clients[actor := newClient])],
         client := retired[newClient := created])
  }

  /** The first half of Leave, under both locks: the actor is no longer in its room. */
  ghost function UnlinkStep<R, C>(s: State<R, C>, workspace: Id, actor: Id): State<R, C> {
    if workspace !in s.rooms then s
    else
      var before := RoomOf(s, workspace);
      var left := before.clients - {actor};
      s.(room := s.room[s.rooms[workspace] := before.(clients := left)],
         lock := Leaving(workspace, if actor in before.clients then Some(before.clients[actor]) else None, left == map[]))
  }

  /** The second half of Leave, still under the hub lock: the client is closed, an empty room goes. */
  ghost function CloseStep<R, C>(s: State<R, C>): State<R, C>
    requires s.lock.Leaving?
  {
    var l := s.lock;
    s.(client := if l.client.Some? then Closed(s.client, l.client.value) else s.client,
       rooms := if l.empty then s.rooms - {l.workspace} else s.rooms,
       lock := Free)
  }

  ghost function LookupStep<R, C>(s: State<R, C>, cast: nat, msg: Message): State<R, C> {
    var phase :=
      if |msg.payload| > MAX_MESSAGE_SIZE then Ended(TooLarge)
      else if msg.workspaceId !in s.rooms then Ended(Ok)
      else LookedUp;
    var room := if phase == LookedUp then Some(s.rooms[msg.workspaceId]) else None;
    s.(casts := s.casts[cast := Broadcast(msg, phase, room, None, map[], [], 0)])
  }

  /** The other members of the room, each once, in whatever order the map yields them. */
  ghost predicate IsRecipientOrder<C>(order: seq<C>, clients: map<Id, C>, sender: Id) {
    && (forall i, j :: 0 <= i < j < |order| ==> order[i] != order[j])
    && (forall c :: c in order ==> exists a :: a in clients && a != sender && clients[a] == c)
    && (forall a :: a in clients && a != sender ==> clients[a] in order)
  }

  ghost function SnapshotStep<R, C>(s: State<R, C>, cast: nat, order: seq<C>): State<R, C>
    requires cast in s.casts && s.casts[cast].room.Some? && s.casts[cast].room.value in s.room
  {
    var b := s.casts[cast];
    var clients := s.room[b.room.value].clients;
    var b' := if b.msg.actorId in clients
              then b.(phase := Snapped, sender := Some(clients[b.msg.actorId]), members := clients, recipients := order)
              else b.(phase := Ended(NotAuthorized), members := clients);
    s.(casts := s.casts[cast := b'])
  }

  /** The sender's one-second window: the new count and start, and whether the message may go out. */
  function Window(count: nat, start: real, now: real): (r: (nat, real, bool)) {
    var (c, w) := if now - start > 1.0 then (0, now) else (count, start);
    (c + 1, w, c + 1 <= MAX_MESSAGES_PER_SECOND)
  }

  ghost function AdmitStep<R, C>(s: State<R, C>, cast: nat, now: real): State<R, C>
    requires cast in s.casts && s.casts[cast].sender.Some? && s.casts[cast].sender.value in s.client
  {
    var b := s.casts[cast];
    var c := s.client[b.sender.value];
    var (count, start, ok) := Window(c.msgCount, c.windowStart, now);
    s.(client := s.client[b.sender.value := c.(msgCount := count, windowStart := start)],
       casts := s.casts[cast := b.(phase := if ok then Sending else Ended(RateLimited))])
  }

  /** The select on one recipient: a closed client and a free buffer slot may both be ready, otherwise the choice is forced. */
  predicate Delivers(c: ClientState, chooseSend: bool) {
    |c.queue| < SEND_BUFFER && (c.done ==> chooseSend)
  }

  ghost function SendStep<R, C>(s: State<R, C>, cast: nat, chooseSend: bool): State<R, C>
    requires cast in s.casts
  {
    var b := s.casts[cast];
    if b.next >= |b.recipients| then s.(casts := s.casts[cast := b.(phase := Ended(Ok))])
    else
      var who := b.recipients[b.next];
      var t := s.(casts := s.casts[cast := b.(next := b.next + 1)]);
      if who in s.client && Delivers(s.client[who], chooseSend) then
        var c := s.client[who];
        t.(client := t.client[who := c.(queue := c.queue + [Envelope(cast, b.msg)])], log := t.log + [(cast, who)])
      else t
  }

  ghost function ReceiveStep<R, C>(s: State<R, C>, who: C): State<R, C>
    requires who in s.client
  {
    var c := s.client[who];
    if c.queue == [] then s
    else s.(client := s.client[who := c.(queue := c.queue[1..], received := c.received + [c.queue[0]])])
  }

  /** What must hold for a step to happen at all: locks free, new objects new, the broadcast at the right point. */
  ghost predicate Enabled<R, C>(s: State<R, C>, e: Event<R, C>) {
    match e
    case Join(w, _, newRoom, newClient, _) => s.lock.Free? && (w in s.rooms || newRoom !in s.room) && newClient !in s.client
    case Unlink(_, _) => s.lock.Free?
    case Close => s.lock.Leaving?
    case Lookup(cast, _) => s.lock.Free? && cast !in s.casts
    case Snapshot(cast, order) =>
      && cast in s.casts && s.casts[cast].phase == LookedUp && s.casts[cast].room.Some? && s.casts[cast].room.value in s.room
      && IsRecipientOrder(order, s.room[s.casts[cast].room.value].clients, s.casts[cast].msg.actorId)
    case Admit(cast, _) =>
      cast in s.casts && s.casts[cast].phase == Snapped && s.casts[cast].sender.Some? && s.casts[cast].sender.value in s.client
    case Send(cast, _) => cast in s.casts && s.casts[cast].phase == Sending
    case Receive(who) => who in s.client
  }

  // ---------- What every interleaving keeps ----------

  /** c is the client its hub room lists for its actor. */
  ghost predicate Registered<R, C>(s: State<R, C>, c: C) {
    && c in s.client
    && s.client[c].workspace in s.rooms && s.rooms[s.client[c].workspace] in s.room
    && var clients := s.room[s.rooms[s.client[c].workspace]].clients;
       s.client[c].actor in clients && clients[s.client[c].actor] == c
  }

  /** Every listed client belongs to its room under its own actor id. */
  ghost predicate Listed<R, C>(s: State<R, C>) {
    forall r, a :: r in s.room && a in s.room[r].clients ==>
      var c := s.room[r].clients[a];
      c in s.client && s.client[c].actor == a && s.client[c].workspace == s.room[r].workspace
  }

  /** Hub rooms belong to their workspace; every other room is empty. */
  ghost predicate RoomsKnown<R, C>(s: State<R, C>) {
    && (forall w :: w in s.rooms ==> s.rooms[w] in s.room && s.room[s.rooms[w]].workspace == w)
    && (forall r :: r in s.room && !InHub(s, r) ==> s.room[r].clients == map[])
  }

  /** r is the room the hub currently has for its workspace. */
  ghost predicate InHub<R, C>(s: State<R, C>, r: R) {
    r in s.room && s.room[r].workspace in s.rooms && s.rooms[s.room[r].workspace] == r
  }

  /** A client is open exactly while it is registered, or its Leave has not come round to closing it. */
  ghost predicate OpenIffRegistered<R, C>(s: State<R, C>) {
    forall c :: c in s.client ==> (!s.client[c].done <==> Registered(s, c) || (s.lock.Leaving? && s.lock.client == Some(c)))
  }

  /** Hub rooms have members, except the one a Leave has just emptied. */
  ghost predicate RoomsUsed<R, C>(s: State<R, C>) {
    forall w :: w in s.rooms && s.rooms[w] in s.room && s.room[s.rooms[w]].clients == map[] ==>
      s.lock.Leaving? && s.lock.workspace == w && s.lock.empty
  }

  /** What a Leave in progress is about to close and remove. */
  ghost predicate LeaveSound<R, C>(s: State<R, C>) {
    s.lock.Leaving? ==>
      && s.lock.workspace in s.rooms && s.rooms[s.lock.workspace] in s.room
      && (s.lock.empty <==> s.room[s.rooms[s.lock.workspace]].clients == map[])
      && (s.lock.client.Some? ==> s.lock.client.value in s.client && !Registered(s, s.lock.client.value))
  }

  /** The registration part of the invariant. */
  ghost predicate MembersSound<R, C>(s: State<R, C>) {
    Listed(s) && RoomsKnown(s) && OpenIffRegistered(s) && RoomsUsed(s) && LeaveSound(s)
  }

  /** A broadcast only ever addresses the other members of the sender's room, as they were at one moment. */
  ghost predicate CastSound<R, C>(s: State<R, C>, b: Broadcast<R, C>) {
    && (b.phase == LookedUp ==> b.room.Some? && b.recipients == [] && b.next == 0)
    && (b.room.Some? ==> b.room.value in s.room && s.room[b.room.value].workspace == b.msg.workspaceId)
    && (b.phase == Snapped || b.phase == Sending ==> b.sender.Some? && b.sender.value in s.client)
    && (forall a :: a in b.members ==>
          b.members[a] in s.client && s.client[b.members[a]].actor == a && s.client[b.members[a]].workspace == b.msg.workspaceId)
    && b.next <= |b.recipients|
    && (b.recipients != [] ==> b.msg.actorId in b.members && IsRecipientOrder(b.recipients, b.members, b.msg.actorId))
  }

  ghost predicate CastsSound<R, C>(s: State<R, C>) {
    forall n :: n in s.casts ==> CastSound(s, s.casts[n])
  }

  /** Every delivery was to a recipient already passed, and none happened twice. */
  ghost predicate LogSound<R, C>(s: State<R, C>) {
    && (forall i :: 0 <= i < |s.log| ==> s.log[i].0 in s.casts && s.casts[s.log[i].0].next <= |s.casts[s.log[i].0].recipients|
                                         && s.log[i].1 in s.casts[s.log[i].0].recipients[..s.casts[s.log[i].0].next])
    && (forall i, j :: 0 <= i < j < |s.log| ==> s.log[i] != s.log[j])
  }

  /** The messages delivered to one client, in order. */
  ghost function Deliveries<R, C>(log: seq<(nat, C)>, casts: map<nat, Broadcast<R, C>>, who: C): seq<Envelope>
    requires forall i :: 0 <= i < |log| ==> log[i].0 in casts
  {
    if log == [] then []
    else
      var last := log[|log| - 1];
      Deliveries(log[..|log| - 1], casts, who) + if last.1 == who then [Envelope(last.0, casts[last.0].msg)] else []
  }

  /** What a client has received and what still waits for it is exactly what was delivered, in order, and never too much waits. */
  ghost predicate QueuesSound<R, C>(s: State<R, C>)
    requires LogSound(s)
  {
    forall c :: c in s.client ==>
      && s.client[c].received + s.client[c].queue == Deliveries(s.log, s.casts, c)
      && |s.client[c].queue| <= SEND_BUFFER
  }

  ghost predicate Inv<R, C>(s: State<R, C>) {
    MembersSound(s) && CastsSound(s) && LogSound(s) && QueuesSound(s)
  }

  ghost function Next<R, C>(s: State<R, C>, e: Event<R, C>): State<R, C>
    requires Enabled(s, e)
  {
    match e
    case Join(w, a, r, c, now) => JoinStep(s, w, a, r, c, now)
    case Unlink(w, a) => UnlinkStep(s, w, a)
    case Close => CloseStep(s)
    case Lookup(n, msg) => LookupStep(s, n, msg)
    case Snapshot(n, order) => SnapshotStep(s, n, order)
    case Admit(n, now) => AdmitStep(s, n, now)
    case Send(n, choice) => SendStep(s, n, choice)
    case Receive(c) => ReceiveStep(s, c)
  }

  // ---------- Membership ----------

  lemma JoinListed<R, C>(s: State<R, C>, w: Id, a: Id, r: R, c: C, now: real)
    requires Listed(s) && RoomsKnown(s) && (w in s.rooms || r !in s.room) && c !in s.client
    ensures Listed(JoinStep(s, w, a, r, c, now))
  {
  }

  lemma JoinRooms<R, C>(s: State<R, C>, w: Id, a: Id, r: R, c: C, now: real)
    requires RoomsKnown(s) && (w in s.rooms || r !in s.room)
    ensures RoomsKnown(JoinStep(s, w, a, r, c, now))
  {
  }

  lemma JoinOpen<R, C>(s: State<R, C>, w: Id, a: Id, r: R, c: C, now: real)
    requires Listed(s) && RoomsKnown(s) && OpenIffRegistered(s) && s.lock.Free? && (w in s.rooms || r !in s.room) && c !in s.client
    ensures OpenIffRegistered(JoinStep(s, w, a, r, c, now))
  {
  }

  lemma JoinUsed<R, C>(s: State<R, C>, w: Id, a: Id, r: R, c: C, now: real)
    requires RoomsKnown(s) && RoomsUsed(s) && s.lock.Free? && (w in s.rooms || r !in s.room)
    ensures RoomsUsed(JoinStep(s, w, a, r, c, now)) && LeaveSound(JoinStep(s, w, a, r, c, now))
  {
  }

  lemma UnlinkListed<R, C>(s: State<R, C>, w: Id, a: Id)
    requires Listed(s) && RoomsKnown(s)
    ensures Listed(UnlinkStep(s, w, a))
  {
  }

  lemma UnlinkRooms<R, C>(s: State<R, C>, w: Id, a: Id)
    requires RoomsKnown(s)
    ensures RoomsKnown(UnlinkStep(s, w, a))
  {
  }

  lemma UnlinkOpen<R, C>(s: State<R, C>, w: Id, a: Id)
    requires Listed(s) && RoomsKnown(s) && OpenIffRegistered(s) && s.lock.Free?
    ensures OpenIffRegistered(UnlinkStep(s, w, a))
  {
  }

  lemma UnlinkUsed<R, C>(s: State<R, C>, w: Id, a: Id)
    requires Listed(s) && RoomsKnown(s) && RoomsUsed(s) && s.lock.Free?
    ensures RoomsUsed(UnlinkStep(s, w, a)) && LeaveSound(UnlinkStep(s, w, a))
  {
  }

  lemma CloseListed<R, C>(s: State<R, C>)
    requires Listed(s) && s.lock.Leaving?
    ensures Listed(CloseStep(s))
  {
  }

  lemma CloseRooms<R, C>(s: State<R, C>)
    requires RoomsKnown(s) && LeaveSound(s) && s.lock.Leaving?
    ensures RoomsKnown(CloseStep(s))
  {
  }

  lemma CloseOpen<R, C>(s: State<R, C>)
    requires RoomsKnown(s) && OpenIffRegistered(s) && LeaveSound(s) && s.lock.Leaving?
    ensures OpenIffRegistered(CloseStep(s))
  {
  }

  lemma CloseUsed<R, C>(s: State<R, C>)
    requires RoomsKnown(s) && RoomsUsed(s) && s.lock.Leaving?
    ensures RoomsUsed(CloseStep(s)) && LeaveSound(CloseStep(s))
  {
  }

  /** Two states that agree on rooms, locks and on who the clients are and whether they are open. */
  ghost predicate SameMembers<R, C>(s: State<R, C>, t: State<R, C>) {
    && t.rooms == s.rooms && t.room == s.room && t.lock == s.lock && t.client.Keys == s.client.Keys
    && forall c :: c in s.client ==>
         t.client[c].actor == s.client[c].actor && t.client[c].workspace == s.client[c].workspace && t.client[c].done == s.client[c].done
  }

  lemma SameMembersSound<R, C>(s: State<R, C>, t: State<R, C>)
    requires MembersSound(s) && SameMembers(s, t)
    ensures MembersSound(t)
  {
    assert forall c :: c in s.client ==> (Registered(s, c) <==> Registered(t, c));
    assert forall r :: InHub(s, r) <==> InHub(t, r);
  }

  /** Every step keeps the registration part of the invariant. */
  lemma StepKeepsMembers<R, C>(s: State<R, C>, e: Event<R, C>)
    requires MembersSound(s) && Enabled(s, e)
    ensures MembersSound(Next(s, e))
  {
    hide Listed, RoomsKnown, OpenIffRegistered, RoomsUsed, LeaveSound, JoinStep, UnlinkStep, CloseStep;
    match e
    case Join(w, a, r, c, now) =>
      JoinListed(s, w, a, r, c, now);
      JoinRooms(s, w, a, r, c, now);
      JoinOpen(s, w, a, r, c, now);
      JoinUsed(s, w, a, r, c, now);
    case Unlink(w, a) =>
      UnlinkListed(s, w, a);
      UnlinkRooms(s, w, a);
      UnlinkOpen(s, w, a);
      UnlinkUsed(s, w, a);
    case Close =>
      CloseListed(s);
      CloseRooms(s);
      CloseOpen(s);
      CloseUsed(s);
    case _ =>
      QuietStep(s, e);
      SameMembersSound(s, Next(s, e));
  }

  /** The steps of a broadcast and of a receiver change no membership. */
  lemma QuietStep<R, C>(s: State<R, C>, e: Event<R, C>)
    requires Enabled(s, e) && !e.Join? && !e.Unlink? && !e.Close?
    ensures SameMembers(s, Next(s, e))
  {
  }

  // ---------- Broadcasts ----------

  /** Rooms and clients never disappear, and never change workspace or actor. */
  ghost predicate Grows<R, C>(s: State<R, C>, t: State<R, C>) {
    && (forall r :: r in s.room ==> r in t.room && t.room[r].workspace == s.room[r].workspace)
    && (forall c :: c in s.client ==> c in t.client && t.client[c].actor == s.client[c].actor && t.client[c].workspace == s.client[c].workspace)
  }

  lemma StepGrows<R, C>(s: State<R, C>, e: Event<R, C>)
    requires RoomsKnown(s) && Enabled(s, e)
    ensures Grows(s, Next(s, e))
  {
    if !e.Join? && !e.Unlink? && !e.Close? {
      QuietStep(s, e);
    }
  }

  lemma CastStays<R, C>(s: State<R, C>, t: State<R, C>, b: Broadcast<R, C>)
    requires CastSound(s, b) && Grows(s, t)
    ensures CastSound(t, b)
  {
  }

  /** The one broadcast a step advances. */
  ghost function Advanced<R, C>(e: Event<R, C>): Option<nat> {
    match e
    case Lookup(n, _) => Some(n)
    case Snapshot(n, _) => Some(n)
    case Admit(n, _) => Some(n)
    case Send(n, _) => Some(n)
    case _ => None
  }

  lemma OtherCastsUntouched<R, C>(s: State<R, C>, e: Event<R, C>, n: nat)
    requires Enabled(s, e) && n in Next(s, e).casts && Advanced(e) != Some(n)
    ensures n in s.casts && Next(s, e).casts[n] == s.casts[n]
  {
  }

  lemma LookupSound<R, C>(s: State<R, C>, n: nat, msg: Message)
    requires RoomsKnown(s)
    ensures var t := LookupStep(s, n, msg); CastSound(t, t.casts[n])
  {
  }

  lemma SnapshotSound<R, C>(s: State<R, C>, n: nat, order: seq<C>)
    requires Listed(s) && CastsSound(s) && Enabled(s, Snapshot(n, order))
    ensures var t := SnapshotStep(s, n, order); CastSound(t, t.casts[n])
  {
    assert CastSound(s, s.casts[n]);
  }

  lemma AdmitSound<R, C>(s: State<R, C>, n: nat, now: real)
    requires RoomsKnown(s) && CastsSound(s) && Enabled(s, Admit(n, now))
    ensures var t := AdmitStep(s, n, now); CastSound(t, t.casts[n])
  {
    assert CastSound(s, s.casts[n]);
    StepGrows(s, Admit(n, now));
    hide IsRecipientOrder, RoomsKnown, Grows;
  }

  lemma SendSound<R, C>(s: State<R, C>, n: nat, choice: bool)
    requires RoomsKnown(s) && CastsSound(s) && Enabled(s, Send(n, choice))
    ensures var t := SendStep(s, n, choice); CastSound(t, t.casts[n])
  {
    var t := SendStep(s, n, choice);
    var b := s.casts[n];
    assert CastSound(s, b);
    StepGrows(s, Send(n, choice));
    CastStays(s, t, b);
    SendAdvances(s, n, choice);
    hide IsRecipientOrder, RoomsKnown, SendStep;
  }

  lemma SendAdvances<R, C>(s: State<R, C>, n: nat, choice: bool)
    requires n in s.casts && s.casts[n].phase == Sending
    ensures var t := SendStep(s, n, choice); var b := s.casts[n];
            n in t.casts && t.casts[n] == if b.next >= |b.recipients| then b.(phase := Ended(Ok)) else b.(next := b.next + 1)
  {
  }

  lemma AdvancedSound<R, C>(s: State<R, C>, e: Event<R, C>, n: nat)
    requires Listed(s) && RoomsKnown(s) && CastsSound(s) && Enabled(s, e) && Advanced(e) == Some(n)
    ensures n in Next(s, e).casts && CastSound(Next(s, e), Next(s, e).casts[n])
  {
    hide CastSound, CastsSound, Listed, RoomsKnown;
    match e
    case Lookup(_, msg) => LookupSound(s, n, msg);
    case Snapshot(_, order) => SnapshotSound(s, n, order);
    case Admit(_, now) => AdmitSound(s, n, now);
    case Send(_, choice) => SendSound(s, n, choice); SendAdvances(s, n, choice);
  }

  lemma StepKeepsCasts<R, C>(s: State<R, C>, e: Event<R, C>)
    requires Listed(s) && RoomsKnown(s) && CastsSound(s) && Enabled(s, e)
    ensures CastsSound(Next(s, e))
  {
    var t := Next(s, e);
    StepGrows(s, e);
    forall n | n in t.casts
      ensures CastSound(t, t.casts[n])
    {
      if Advanced(e) == Some(n) {
        AdvancedSound(s, e, n);
      } else {
        OtherCastsUntouched(s, e, n);
        assert CastSound(s, s.casts[n]);
        hide CastSound, Next;
        CastStays(s, t, s.casts[n]);
      }
    }
  }

  // ---------- Deliveries ----------

  /** No step but Send adds to the log, and no message changes. */
  lemma LogUntouched<R, C>(s: State<R, C>, e: Event<R, C>)
    requires Enabled(s, e) && !e.Send?
    ensures Next(s, e).log == s.log
    ensures forall n :: n in s.casts ==> n in Next(s, e).casts && Next(s, e).casts[n].msg == s.casts[n].msg
    ensures forall n :: n in s.casts && !(e.Snapshot? && e.cast == n) ==>
              Next(s, e).casts[n].recipients == s.casts[n].recipients && Next(s, e).casts[n].next == s.casts[n].next
  {
  }

  /** One log entry: its broadcast is known and has passed this recipient. */
  ghost predicate EntrySound<R, C>(casts: map<nat, Broadcast<R, C>>, entry: (nat, C)) {
    && entry.0 in casts && casts[entry.0].next <= |casts[entry.0].recipients|
    && entry.1 in casts[entry.0].recipients[..casts[entry.0].next]
  }

  lemma EntryStays<R, C>(s: State<R, C>, e: Event<R, C>, entry: (nat, C))
    requires CastsSound(s) && Enabled(s, e) && EntrySound(s.casts, entry)
    ensures EntrySound(Next(s, e).casts, entry)
  {
    var n := entry.0;
    assert CastSound(s, s.casts[n]);
    hide CastsSound, SendStep, IsRecipientOrder;
    if e.Send? {
      if e.cast == n {
        var b := s.casts[n];
        SendAdvances(s, n, e.chooseSend);
        assert b.next < |b.recipients| ==> b.recipients[..b.next + 1] == b.recipients[..b.next] + [b.recipients[b.next]];
      } else {
        SendElsewhere(s, e.cast, e.chooseSend, n);
      }
    } else {
      LogUntouched(s, e);
    }
  }

  lemma SendElsewhere<R, C>(s: State<R, C>, n: nat, choice: bool, m: nat)
    requires n in s.casts && m in s.casts && m != n
    ensures m in SendStep(s, n, choice).casts && SendStep(s, n, choice).casts[m] == s.casts[m]
  {
  }

  lemma StepKeepsLog<R, C>(s: State<R, C>, e: Event<R, C>)
    requires CastsSound(s) && LogSound(s) && Enabled(s, e)
    ensures LogSound(Next(s, e))
  {
    var t := Next(s, e);
    forall i | 0 <= i < |s.log|
      ensures EntrySound(t.casts, s.log[i])
    {
      assert EntrySound(s.casts, s.log[i]);
      EntryStays(s, e, s.log[i]);
    }
    if e.Send? {
      SendLog(s, e.cast, e.chooseSend);
    } else {
      LogUntouched(s, e);
    }
    assert forall i :: 0 <= i < |t.log| ==> EntrySound(t.casts, t.log[i]);
  }

  /** What a send adds: nothing, or one entry that was not there. */
  lemma SendLog<R, C>(s: State<R, C>, n: nat, choice: bool)
    requires CastsSound(s) && LogSound(s) && n in s.casts && s.casts[n].phase == Sending
    ensures var t := SendStep(s, n, choice); var b := s.casts[n];
            && (t.log == s.log || (b.next < |b.recipients| && t.log == s.log + [(n, b.recipients[b.next])]
                                   && EntrySound(t.casts, (n, b.recipients[b.next]))))
            && forall i, j :: 0 <= i < j < |t.log| ==> t.log[i] != t.log[j]
  {
    hide Delivers, CastsSound;
    var b := s.casts[n];
    SendAdvances(s, n, choice);
    if b.next < |b.recipients| {
      NotYetLogged(s, n);
      assert b.recipients[..b.next + 1] == b.recipients[..b.next] + [b.recipients[b.next]];
    }
  }

  lemma NotYetLogged<R, C>(s: State<R, C>, n: nat)
    requires CastsSound(s) && LogSound(s) && n in s.casts && s.casts[n].next < |s.casts[n].recipients|
    ensures forall i :: 0 <= i < |s.log| ==> s.log[i] != (n, s.casts[n].recipients[s.casts[n].next])
  {
    var b := s.casts[n];
    assert CastSound(s, b);
    var who := b.recipients[b.next];
    forall i | 0 <= i < |s.log|
      ensures s.log[i] != (n, who)
    {
      assert EntrySound(s.casts, s.log[i]);
      assert who !in b.recipients[..b.next];
    }
  }

  // ---------- Queues ----------

  lemma {:induction false} DeliveriesSame<R, C>(log: seq<(nat, C)>, casts: map<nat, Broadcast<R, C>>,
          casts': map<nat, Broadcast<R, C>>, who: C)
    requires forall i :: 0 <= i < |log| ==> log[i].0 in casts && log[i].0 in casts' && casts'[log[i].0].msg == casts[log[i].0].msg
    ensures Deliveries(log, casts', who) == Deliveries(log, casts, who)
  {
    if log != [] {
      DeliveriesSame(log[..|log| - 1], casts, casts', who);
    }
  }

  lemma {:induction false} NoDeliveries<R, C>(log: seq<(nat, C)>, casts: map<nat, Broadcast<R, C>>, who: C)
    requires forall i :: 0 <= i < |log| ==> log[i].0 in casts && log[i].1 != who
    ensures Deliveries(log, casts, who) == []
  {
    if log != [] {
      NoDeliveries(log[..|log| - 1], casts, who);
    }
  }

  /** Deliveries go to known clients only. */
  lemma DeliveredAreKnown<R, C>(s: State<R, C>, c: C)
    requires CastsSound(s) && LogSound(s) && c !in s.client
    ensures Deliveries(s.log, s.casts, c) == []
  {
    forall i | 0 <= i < |s.log|
      ensures s.log[i].1 != c
    {
      var b := s.casts[s.log[i].0];
      assert CastSound(s, b) && s.log[i].1 in b.recipients;
    }
    NoDeliveries(s.log, s.casts, c);
  }

  /** The queues of all clients but one are as before, and nothing new was delivered to them. */
  ghost predicate QueueSame(c: ClientState, d: ClientState) {
    c.queue == d.queue && c.received == d.received
  }

  lemma QueuesMove<R, C>(s: State<R, C>, e: Event<R, C>, c: C)
    requires Enabled(s, e) && c in Next(s, e).client && !e.Send?
    ensures var t := Next(s, e);
            if c !in s.client then e.Join? && t.client[c].queue == [] && t.client[c].received == []
            else
              && t.client[c].received + t.client[c].queue == s.client[c].received + s.client[c].queue
              && |t.client[c].queue| <= |s.client[c].queue|
  {
    if e.Receive? && e.who == c && c in s.client && s.client[c].queue != [] {
      var q := s.client[c].queue;
      assert s.client[c].received + [q[0]] + q[1..] == s.client[c].received + q;
    }
  }

  lemma SendQueues<R, C>(s: State<R, C>, n: nat, choice: bool, c: C)
    requires n in s.casts && c in SendStep(s, n, choice).client
    ensures c in s.client
    ensures var t := SendStep(s, n, choice); var b := s.casts[n];
            if t.log == s.log then QueueSame(t.client[c], s.client[c])
            else
              && b.next < |b.recipients| && t.log == s.log + [(n, b.recipients[b.next])]
              && t.client[c].received == s.client[c].received
              && t.client[c].queue == s.client[c].queue + (if c == b.recipients[b.next] then [Envelope(n, b.msg)] else [])
              && (c == b.recipients[b.next] ==> |s.client[c].queue| < SEND_BUFFER)
  {
  }

  lemma StepKeepsQueues<R, C>(s: State<R, C>, e: Event<R, C>)
    requires CastsSound(s) && LogSound(s) && QueuesSound(s) && Enabled(s, e) && LogSound(Next(s, e))
    ensures QueuesSound(Next(s, e))
  {
    hide CastsSound, Next, Deliveries;
    var t := Next(s, e);
    forall c | c in t.client
      ensures t.client[c].received + t.client[c].queue == Deliveries(t.log, t.casts, c) && |t.client[c].queue| <= SEND_BUFFER
    {
      StepKeepsQueue(s, e, c);
    }
  }

  lemma StepKeepsQueue<R, C>(s: State<R, C>, e: Event<R, C>, c: C)
    requires CastsSound(s) && LogSound(s) && QueuesSound(s) && Enabled(s, e) && LogSound(Next(s, e)) && c in Next(s, e).client
    ensures var t := Next(s, e);
            t.client[c].received + t.client[c].queue == Deliveries(t.log, t.casts, c) && |t.client[c].queue| <= SEND_BUFFER
  {
    hide CastsSound, CastSound;
    var t := Next(s, e);
    if e.Send? {
      SendKeepsQueue(s, e.cast, e.chooseSend, c);
    } else {
      LogUntouched(s, e);
      QueuesMove(s, e, c);
      hide Next;
      DeliveriesSame(s.log, s.casts, t.casts, c);
      if c !in s.client {
        DeliveredAreKnown(s, c);
      }
    }
  }

  lemma SendMessages<R, C>(s: State<R, C>, n: nat, choice: bool)
    requires n in s.casts
    ensures var t := SendStep(s, n, choice); forall m :: m in s.casts ==> m in t.casts && t.casts[m].msg == s.casts[m].msg
  {
  }

  lemma LoggedCasts<R, C>(s: State<R, C>)
    requires LogSound(s)
    ensures forall i :: 0 <= i < |s.log| ==> s.log[i].0 in s.casts
  {
  }

  lemma SendKeepsQueue<R, C>(s: State<R, C>, n: nat, choice: bool, c: C)
    requires LogSound(s) && QueuesSound(s) && n in s.casts && LogSound(SendStep(s, n, choice)) && c in SendStep(s, n, choice).client
    ensures var t := SendStep(s, n, choice);
            t.client[c].received + t.client[c].queue == Deliveries(t.log, t.casts, c) && |t.client[c].queue| <= SEND_BUFFER
  {
    var t, b := SendStep(s, n, choice), s.casts[n];
    hide SendStep, Deliveries, QueuesSound, LogSound;
    SendQueues(s, n, choice, c);
    QueueIs(s, c);
    SendMessages(s, n, choice);
    LoggedCasts(s);
    DeliveriesSame(s.log, s.casts, t.casts, c);
    if t.log != s.log {
      QueueGrows(s, t.casts, (n, b.recipients[b.next]), c);
    }
  }

  lemma QueueGrows<R, C>(s: State<R, C>, casts: map<nat, Broadcast<R, C>>, entry: (nat, C), c: C)
    requires c in s.client && entry.0 in casts && forall i :: 0 <= i < |s.log| ==> s.log[i].0 in casts
    requires s.client[c].received + s.client[c].queue == Deliveries(s.log, casts, c)
    ensures var more := if c == entry.1 then [Envelope(entry.0, casts[entry.0].msg)] else [];
            s.client[c].received + (s.client[c].queue + more) == Deliveries(s.log + [entry], casts, c)
  {
    hide Deliveries;
    DeliveriesPush(s.log, casts, entry, c);
  }

  lemma QueueIs<R, C>(s: State<R, C>, c: C)
    requires LogSound(s) && QueuesSound(s) && c in s.client
    ensures forall i :: 0 <= i < |s.log| ==> s.log[i].0 in s.casts
    ensures s.client[c].received + s.client[c].queue == Deliveries(s.log, s.casts, c) && |s.client[c].queue| <= SEND_BUFFER
  {
    hide Deliveries;
  }

  lemma DeliveriesPush<R, C>(log: seq<(nat, C)>, casts: map<nat, Broadcast<R, C>>, entry: (nat, C), who: C)
    requires entry.0 in casts && forall i :: 0 <= i < |log| ==> log[i].0 in casts
    ensures Deliveries(log + [entry], casts, who)
            == Deliveries(log, casts, who) + if entry.1 == who then [Envelope(entry.0, casts[entry.0].msg)] else []
  {
    assert (log + [entry])[..|log|] == log;
  }

  // ---------- Every run ----------

  lemma StepKeepsInv<R, C>(s: State<R, C>, e: Event<R, C>)
    requires Inv(s) && Enabled(s, e)
    ensures Inv(Next(s, e))
  {
    StepKeepsMembers(s, e);
    StepKeepsCasts(s, e);
    StepKeepsLog(s, e);
    StepKeepsQueues(s, e);
  }

  /** A run: any interleaving of enabled steps from the empty hub. */
  ghost predicate IsRun<R, C>(states: seq<State<R, C>>, events: seq<Event<R, C>>) {
    && |states| == |events| + 1 && states[0] == Initial()
    && forall i :: 0 <= i < |events| ==> Enabled(states[i], events[i]) && states[i + 1] == Next(states[i], events[i])
  }

  lemma InitialInv<R, C>()
    ensures Inv(Initial<R, C>())
  {
  }

  lemma {:induction false} RunInv<R, C>(states: seq<State<R, C>>, events: seq<Event<R, C>>, i: nat)
    requires IsRun(states, events) && i < |states|
    ensures Inv(states[i])
    decreases i
  {
    hide Inv, Enabled, Next;
    if i == 0 {
      InitialInv<R, C>();
    } else {
      RunInv(states, events, i - 1);
      StepKeepsInv(states[i - 1], events[i - 1]);
    }
  }

  /** In every interleaving a client is open exactly while it is the one registered under its workspace and actor;
      only a Leave that has unlinked it may still be about to close it. */
  lemma OpenExactlyWhileRegistered<R, C>(states: seq<State<R, C>>, events: seq<Event<R, C>>, i: nat, c: C)
    requires IsRun(states, events) && i < |states| && c in states[i].client
    ensures var s := states[i];
            && (Registered(s, c) ==> !s.client[c].done)
            && (!s.client[c].done && s.lock.Free? ==> Registered(s, c))
            && (!s.client[c].done && !Registered(s, c) ==> s.lock.Leaving? && s.lock.client == Some(c))
  {
    RunInv(states, events, i);
  }

  lemma RemovedStays<R, C>(s: State<R, C>, e: Event<R, C>, r: R)
    requires Enabled(s, e) && r in s.room && !InHub(s, r) && RoomsKnown(s)
    ensures r in Next(s, e).room && !InHub(Next(s, e), r)
  {
    if !e.Join? && !e.Unlink? && !e.Close? {
      QuietStep(s, e);
    }
  }

  lemma RunRooms<R, C>(states: seq<State<R, C>>, events: seq<Event<R, C>>, i: nat)
    requires IsRun(states, events) && i < |states|
    ensures RoomsKnown(states[i])
  {
    RunInv(states, events, i);
  }

  lemma EmptyOutside<R, C>(s: State<R, C>, r: R)
    requires RoomsKnown(s) && r in s.room && !InHub(s, r)
    ensures s.room[r].clients == map[]
  {
  }

  /** A room once removed from the hub stays removed and empty for ever. */
  lemma {:induction false} RemovedRoomsStayEmpty<R, C>(states: seq<State<R, C>>, events: seq<Event<R, C>>, i: nat, j: nat, r: R)
    requires IsRun(states, events) && i <= j < |states| && r in states[i].room && !InHub(states[i], r)
    ensures r in states[j].room && !InHub(states[j], r) && states[j].room[r].clients == map[]
    decreases j
  {
    hide RoomsKnown, InHub, Enabled, Next;
    RunRooms(states, events, j);
    if i < j {
      RemovedRoomsStayEmpty(states, events, i, j - 1, r);
      RunRooms(states, events, j - 1);
      RemovedStays(states[j - 1], events[j - 1], r);
    }
    EmptyOutside(states[j], r);
  }

  /** Only the snapshot step of a broadcast sets its members, from the room it has looked up. */
  lemma MembersMove<R, C>(s: State<R, C>, e: Event<R, C>, n: nat)
    requires Enabled(s, e) && n in Next(s, e).casts && Next(s, e).casts[n].members != map[]
    ensures n in s.casts && Next(s, e).casts[n].msg == s.casts[n].msg
    ensures || Next(s, e).casts[n].members == s.casts[n].members
            || (s.casts[n].room.Some? && s.casts[n].room.value in s.room
                && Next(s, e).casts[n].members == s.room[s.casts[n].room.value].clients)
  {
    hide IsRecipientOrder, Window, Delivers;
  }

  /** The members of a broadcast are the clients the hub's room of its workspace had in some earlier state of the run. */
  lemma {:induction false} MembersWereThere<R, C>(states: seq<State<R, C>>, events: seq<Event<R, C>>, i: nat, n: nat)
    requires IsRun(states, events) && i < |states| && n in states[i].casts && states[i].casts[n].members != map[]
    ensures exists j :: 0 <= j < i && ListsAt(states[j], states[i].casts[n].msg.workspaceId, states[i].casts[n].members)
    decreases i
  {
    hide Next, Enabled, ListsAt;
    if i == 0 {
      NothingCast(states, events);
    } else {
      var s := states[i - 1];
      assert Enabled(s, events[i - 1]) && states[i] == Next(s, events[i - 1]);
      MembersMove(s, events[i - 1], n);
      if states[i].casts[n].members == s.casts[n].members {
        MembersWereThere(states, events, i - 1, n);
      } else {
        RunInv(states, events, i - 1);
        SnapshotRoom(s, n);
        assert ListsAt(states[i - 1], states[i].casts[n].msg.workspaceId, states[i].casts[n].members);
      }
    }
  }

  lemma NothingCast<R, C>(states: seq<State<R, C>>, events: seq<Event<R, C>>)
    requires IsRun(states, events)
    ensures states[0].casts == map[]
  {
  }

  /** The hub has a room for the workspace, with these clients. */
  ghost predicate ListsAt<R, C>(s: State<R, C>, workspace: Id, clients: map<Id, C>) {
    workspace in s.rooms && s.rooms[workspace] in s.room && s.room[s.rooms[workspace]].clients == clients
  }

  /** A looked-up room that has clients is still the hub's room of the message's workspace. */
  lemma SnapshotRoom<R, C>(s: State<R, C>, n: nat)
    requires Inv(s) && n in s.casts && s.casts[n].room.Some? && s.casts[n].room.value in s.room
    requires s.room[s.casts[n].room.value].clients != map[]
    ensures ListsAt(s, s.casts[n].msg.workspaceId, s.room[s.casts[n].room.value].clients)
  {
    assert CastSound(s, s.casts[n]);
    assert InHub(s, s.casts[n].room.value);
  }

  /** Every message delivered went to a member of the sender's own room other than the sender, as the room was at
      one moment with the sender in it, and to each at most once. */
  lemma DeliveriesStayInRoom<R, C>(states: seq<State<R, C>>, events: seq<Event<R, C>>, i: nat, k: nat)
    requires IsRun(states, events) && i < |states| && k < |states[i].log|
    ensures var s := states[i]; var (n, who) := s.log[k];
            && n in s.casts && who in s.client
            && s.client[who].workspace == s.casts[n].msg.workspaceId
            && s.client[who].actor != s.casts[n].msg.actorId
            && s.casts[n].msg.actorId in s.casts[n].members
            && (exists j :: 0 <= j < i && ListsAt(states[j], s.casts[n].msg.workspaceId, s.casts[n].members))
            && (exists a :: a in s.casts[n].members && s.casts[n].members[a] == who)
            && (forall l :: 0 <= l < |s.log| && l != k ==> s.log[l] != s.log[k])
  {
    RunInv(states, events, i);
    var s := states[i];
    var b := s.casts[s.log[k].0];
    assert CastSound(s, b) && s.log[k].1 in b.recipients;
    MembersWereThere(states, events, i, s.log[k].0);
    forall l | 0 <= l < |s.log| && l != k
      ensures s.log[l] != s.log[k]
    {
      if l < k {
        assert s.log[l] != s.log[k];
      } else {
        assert s.log[k] != s.log[l];
      }
    }
  }

  // ---------- What joining and leaving do ----------

  /** d is the connection of this actor in this workspace. */
  ghost predicate IsConnection<R, C>(s: State<R, C>, d: C, workspace: Id, actor: Id) {
    Registered(s, d) && s.client[d].workspace == workspace && s.client[d].actor == actor
  }

  /** What becomes of client d when the actor's connection ends: that one is closed, any other stays as it was. */
  ghost predicate Ends<R, C>(s: State<R, C>, t: State<R, C>, w: Id, a: Id, d: C)
    requires d in s.client && d in t.client
  {
    && (Registered(t, d) <==> Registered(s, d) && !IsConnection(s, d, w, a))
    && t.client[d] == if IsConnection(s, d, w, a) then s.client[d].(done := true) else s.client[d]
  }

  lemma JoinNew<R, C>(s: State<R, C>, w: Id, a: Id, r: R, c: C, now: real)
    requires RoomsKnown(s) && (w in s.rooms || r !in s.room) && w != "" && a != ""
    ensures var t := JoinStep(s, w, a, r, c, now);
            IsConnection(t, c, w, a) && !t.client[c].done && t.client[c].queue == [] == t.client[c].received
  {
  }

  lemma JoinEnds<R, C>(s: State<R, C>, w: Id, a: Id, r: R, c: C, now: real, d: C)
    requires Listed(s) && RoomsKnown(s) && (w in s.rooms || r !in s.room) && c !in s.client && w != "" && a != "" && d in s.client
    ensures d in JoinStep(s, w, a, r, c, now).client && Ends(s, JoinStep(s, w, a, r, c, now), w, a, d)
  {
  }

  /** A join registers the new client, open and with nothing waiting, in place of the actor's previous one, which is
      closed; every other client stays as it was. */
  lemma JoinRegisters<R, C>(s: State<R, C>, w: Id, a: Id, r: R, c: C, now: real)
    requires Inv(s) && s.lock.Free? && (w in s.rooms || r !in s.room) && c !in s.client && w != "" && a != ""
    ensures var t := JoinStep(s, w, a, r, c, now);
            && IsConnection(t, c, w, a) && !t.client[c].done && t.client[c].queue == [] == t.client[c].received
            && forall d :: d in s.client ==> d in t.client && Ends(s, t, w, a, d)
  {
    hide CastsSound, LogSound, QueuesSound, OpenIffRegistered, RoomsUsed, LeaveSound, JoinStep, Ends, IsConnection, Listed, RoomsKnown;
    JoinNew(s, w, a, r, c, now);
    forall d | d in s.client
      ensures d in JoinStep(s, w, a, r, c, now).client && Ends(s, JoinStep(s, w, a, r, c, now), w, a, d)
    {
      JoinEnds(s, w, a, r, c, now, d);
    }
  }

  /** Both halves of Leave, one after the other. */
  ghost function Left<R, C>(s: State<R, C>, w: Id, a: Id): State<R, C>
    requires w in s.rooms
  {
    CloseStep(UnlinkStep(s, w, a))
  }

  lemma LeaveShape<R, C>(s: State<R, C>, w: Id, a: Id)
    requires Listed(s) && RoomsKnown(s) && w in s.rooms
    ensures var t, before := Left(s, w, a), RoomOf(s, w);
            && t.lock.Free? && before == s.room[s.rooms[w]]
            && t.room == s.room[s.rooms[w] := before.(clients := before.clients - {a})]
            && t.rooms == (if before.clients - {a} == map[] then s.rooms - {w} else s.rooms)
            && t.client == if a in before.clients then Closed(s.client, before.clients[a]) else s.client
  {
  }

  lemma LeaveEnds<R, C>(s: State<R, C>, w: Id, a: Id, d: C)
    requires Listed(s) && RoomsKnown(s) && w in s.rooms && d in s.client
    ensures d in Left(s, w, a).client && Ends(s, Left(s, w, a), w, a, d)
  {
    hide Left;
    LeaveShape(s, w, a);
    var b, before := s.client[d].actor, RoomOf(s, w).clients;
    assert b in before && b != a ==> b in before - {a};
  }

  /** Both halves of a leave: the actor's client is closed and no longer registered, every other client stays as it was,
      and the hub keeps the room exactly if somebody is left in it. */
  lemma LeaveRemoves<R, C>(s: State<R, C>, w: Id, a: Id)
    requires Inv(s) && s.lock.Free? && w in s.rooms
    ensures var t := Left(s, w, a);
            && t.lock.Free? && (forall d :: d in s.client ==> d in t.client && Ends(s, t, w, a, d))
            && (w in t.rooms <==> RoomOf(s, w).clients.Keys - {a} != {})
            && (forall v :: v != w ==> (v in t.rooms <==> v in s.rooms))
  {
    hide CastsSound, LogSound, QueuesSound, OpenIffRegistered, RoomsUsed, LeaveSound, Left, Ends, Listed, RoomsKnown;
    LeaveShape(s, w, a);
    forall d | d in s.client
      ensures d in Left(s, w, a).client && Ends(s, Left(s, w, a), w, a, d)
    {
      LeaveEnds(s, w, a, d);
    }
    var left := RoomOf(s, w).clients - {a};
    assert left.Keys == RoomOf(s, w).clients.Keys - {a};
    assert left == map[] <==> left.Keys == {};
  }

  // ---------- Every member is served ----------

  /** Once its members are known a broadcast has them all as recipients, and one that ended well has passed them all. */
  ghost predicate Addressed<R, C>(b: Broadcast<R, C>) {
    && (b.phase == LookedUp ==> b.members == map[] && b.next == 0)
    && (b.phase == Snapped || b.phase == Sending ==> IsRecipientOrder(b.recipients, b.members, b.msg.actorId) && b.next <= |b.recipients|)
    && (b.phase == Ended(Ok) ==>
          b.members == map[] || (IsRecipientOrder(b.recipients, b.members, b.msg.actorId) && b.next == |b.recipients|))
  }

  ghost predicate AllAddressed<R, C>(s: State<R, C>) {
    forall n :: n in s.casts ==> Addressed(s.casts[n])
  }

  lemma StepKeepsAddressed<R, C>(s: State<R, C>, e: Event<R, C>)
    requires AllAddressed(s) && Enabled(s, e)
    ensures AllAddressed(Next(s, e))
  {
    hide IsRecipientOrder, Window, Delivers;
  }

  lemma {:induction false} RunAddressed<R, C>(states: seq<State<R, C>>, events: seq<Event<R, C>>, i: nat)
    requires IsRun(states, events) && i < |states|
    ensures AllAddressed(states[i])
    decreases i
  {
    hide Enabled, Next, AllAddressed;
    if i == 0 {
      NothingCast(states, events);
      NothingAddressed(states[0]);
    } else {
      RunAddressed(states, events, i - 1);
      StepKeepsAddressed(states[i - 1], events[i - 1]);
    }
  }

  lemma NothingAddressed<R, C>(s: State<R, C>)
    requires s.casts == map[]
    ensures AllAddressed(s)
  {
  }

  /** It is who's turn in broadcast n, and it is closed or its buffer is full. */
  ghost predicate Missed<R, C>(s: State<R, C>, n: nat, who: C) {
    && n in s.casts && s.casts[n].phase == Sending && s.casts[n].next < |s.casts[n].recipients|
    && s.casts[n].recipients[s.casts[n].next] == who
    && who in s.client && (s.client[who].done || |s.client[who].queue| >= SEND_BUFFER)
  }

  /** Broadcast n was delivered to who, or could not be when its turn came. */
  ghost predicate Served<R, C>(states: seq<State<R, C>>, i: nat, n: nat, who: C)
    requires i < |states|
  {
    (n, who) in states[i].log || exists j :: 0 <= j < i && Missed(states[j], n, who)
  }

  /** What a step does to the recipients already passed. */
  lemma PassedMoves<R, C>(s: State<R, C>, e: Event<R, C>, n: nat, q: nat)
    requires CastsSound(s) && AllAddressed(s) && Enabled(s, e) && n in Next(s, e).casts
    requires q < Next(s, e).casts[n].next && q < |Next(s, e).casts[n].recipients|
    ensures forall k :: 0 <= k < |s.log| ==> s.log[k] in Next(s, e).log
    ensures n in s.casts && s.casts[n].recipients == Next(s, e).casts[n].recipients
    ensures var who := Next(s, e).casts[n].recipients[q];
            q < s.casts[n].next || (n, who) in Next(s, e).log || Missed(s, n, who)
  {
    hide IsRecipientOrder, Window, CastSound, Missed, AllAddressed, Next, Enabled;
    if e.Send? && e.cast == n {
      SendIs(s, e);
      SendPasses(s, n, e.chooseSend, q);
    } else {
      PassedStays(s, e, n);
      LogOnly(s, e);
    }
  }

  lemma SendIs<R, C>(s: State<R, C>, e: Event<R, C>)
    requires e.Send? && Enabled(s, e) && CastsSound(s)
    ensures e.cast in s.casts && s.casts[e.cast].phase == Sending && Next(s, e) == SendStep(s, e.cast, e.chooseSend)
    ensures CastSound(s, s.casts[e.cast])
  {
  }

  /** Only its own sending moves a broadcast on from one recipient to the next. */
  lemma PassedStays<R, C>(s: State<R, C>, e: Event<R, C>, n: nat)
    requires AllAddressed(s) && Enabled(s, e) && !(e.Send? && e.cast == n) && n in Next(s, e).casts && Next(s, e).casts[n].next > 0
    ensures n in s.casts && s.casts[n].recipients == Next(s, e).casts[n].recipients && s.casts[n].next == Next(s, e).casts[n].next
  {
    hide IsRecipientOrder, Window, Delivers;
  }

  lemma LogOnly<R, C>(s: State<R, C>, e: Event<R, C>)
    requires Enabled(s, e)
    ensures s.log <= Next(s, e).log
  {
    hide IsRecipientOrder, Window, Delivers;
  }

  lemma SendPasses<R, C>(s: State<R, C>, n: nat, choice: bool, q: nat)
    requires n in s.casts && s.casts[n].phase == Sending && CastSound(s, s.casts[n])
    requires q < SendStep(s, n, choice).casts[n].next && q < |s.casts[n].recipients|
    ensures s.casts[n].recipients == SendStep(s, n, choice).casts[n].recipients && s.log <= SendStep(s, n, choice).log
    ensures var who := s.casts[n].recipients[q];
            q < s.casts[n].next || (n, who) in SendStep(s, n, choice).log || Missed(s, n, who)
  {
    var b := s.casts[n];
    if b.next < |b.recipients| {
      var who := b.recipients[b.next];
      assert who in b.recipients;
      KnownRecipient(s, b, who);
      assert (s.log + [(n, who)])[|s.log|] == (n, who);
    }
  }

  lemma KnownRecipient<R, C>(s: State<R, C>, b: Broadcast<R, C>, who: C)
    requires CastSound(s, b) && who in b.recipients
    ensures who in s.client
  {
  }

  lemma {:induction false} PassedAreServed<R, C>(states: seq<State<R, C>>, events: seq<Event<R, C>>, i: nat, n: nat, q: nat)
    requires IsRun(states, events) && i < |states| && n in states[i].casts
    requires q < states[i].casts[n].next && q < |states[i].casts[n].recipients|
    ensures Served(states, i, n, states[i].casts[n].recipients[q])
    decreases i
  {
    hide Enabled, Next, Missed, AllAddressed, CastsSound;
    if i == 0 {
      NothingCast(states, events);
    } else {
      var s := states[i - 1];
      assert Enabled(s, events[i - 1]) && states[i] == Next(s, events[i - 1]);
      RunInv(states, events, i - 1);
      RunAddressed(states, events, i - 1);
      PassedMoves(s, events[i - 1], n, q);
      if q < s.casts[n].next {
        PassedAreServed(states, events, i - 1, n, q);
      }
    }
  }

  /** In every run, once a broadcast has ended well each member of its snapshot but the sender has been given the message,
      or was closed or had a full buffer when its turn came. */
  lemma EveryMemberServed<R, C>(states: seq<State<R, C>>, events: seq<Event<R, C>>, i: nat, n: nat, a: Id)
    requires IsRun(states, events) && i < |states| && n in states[i].casts && states[i].casts[n].phase == Ended(Ok)
    requires a in states[i].casts[n].members && a != states[i].casts[n].msg.actorId
    ensures Served(states, i, n, states[i].casts[n].members[a])
  {
    hide Enabled, Next, Served;
    RunAddressed(states, events, i);
    var b := states[i].casts[n];
    assert Addressed(b);
    var q :| 0 <= q < |b.recipients| && b.recipients[q] == b.members[a];
    PassedAreServed(states, events, i, n, q);
  }

  // ---------- What the outcomes mean ----------

  ghost predicate Reasoned<R, C>(b: Broadcast<R, C>) {
    && (b.phase == Ended(TooLarge) <==> |b.msg.payload| > MAX_MESSAGE_SIZE)
    && (b.phase == Snapped || b.phase == Sending || b.phase == Ended(RateLimited) ==> b.msg.actorId in b.members)
    && (b.phase == Ended(NotAuthorized) ==> b.room.Some? && b.msg.actorId !in b.members)
    && (b.phase == Ended(Ok) && b.room.Some? ==> b.msg.actorId in b.members)
    && (b.phase == LookedUp ==> b.room.Some?)
  }

  lemma StepReasoned<R, C>(s: State<R, C>, e: Event<R, C>, n: nat)
    requires Enabled(s, e) && n in Next(s, e).casts && (n in s.casts ==> Reasoned(s.casts[n]))
    ensures Reasoned(Next(s, e).casts[n])
  {
    hide IsRecipientOrder, Window, Delivers;
  }

  lemma StepNames<R, C>(s: State<R, C>, e: Event<R, C>, n: nat)
    requires Enabled(s, e) && n in Next(s, e).casts
    ensures n in s.casts ==> s.casts[n].room == Next(s, e).casts[n].room && s.casts[n].msg == Next(s, e).casts[n].msg
    ensures n !in s.casts ==>
              var b := Next(s, e).casts[n];
              e == Event.Lookup(n, b.msg) && (b.room.None? <==> |b.msg.payload| > MAX_MESSAGE_SIZE || b.msg.workspaceId !in s.rooms)
  {
    hide IsRecipientOrder, Window, Delivers;
  }

  /** Why a broadcast ended as it did: step j looked up its room. */
  lemma {:induction false} OutcomeMeans<R, C>(states: seq<State<R, C>>, events: seq<Event<R, C>>, i: nat, n: nat) returns (j: nat)
    requires IsRun(states, events) && i < |states| && n in states[i].casts
    ensures Reasoned(states[i].casts[n])
    ensures var b := states[i].casts[n];
            && j < i && events[j] == Event.Lookup(n, b.msg)
            && (b.room.None? <==> |b.msg.payload| > MAX_MESSAGE_SIZE || b.msg.workspaceId !in states[j].rooms)
            && (b.phase == Ended(TooLarge) <==> |b.msg.payload| > MAX_MESSAGE_SIZE)
            && (b.phase == Ended(NotAuthorized) ==> b.msg.workspaceId in states[j].rooms && b.msg.actorId !in b.members)
            && (b.phase == Ended(RateLimited) ==> b.msg.actorId in b.members)
            && (b.phase == Ended(Ok) ==> b.msg.workspaceId !in states[j].rooms || b.msg.actorId in b.members)
    decreases i
  {
    hide Enabled, Next;
    j := 0;
    if i == 0 {
      NothingCast(states, events);
    } else {
      var s := states[i - 1];
      assert Enabled(s, events[i - 1]) && states[i] == Next(s, events[i - 1]);
      j := i - 1;
      if n in s.casts {
        j := OutcomeMeans(states, events, i - 1, n);
      }
      StepReasoned(s, events[i - 1], n);
      StepNames(s, events[i - 1], n);
    }
  }
}
