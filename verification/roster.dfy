/** The roster allocation engine of the event page hook: the views of an
    event's participant list, the capacity check, and the join, remove and
    switch-role operations.

    Every operation is a pure function from the snapshot the hook holds
    (the participants ordered by `created_at`, the event or `None` while it
    has not loaded) to the outcome it reports and the roster the database
    holds afterwards. Writes go through the database by participant id, so
    deletion and updates are modelled "by id" over the whole list. The
    boolean `stored` says whether the operation's first write (insert,
    delete or update) succeeded. The snapshot is taken to be the
    database's current contents: writes by other clients between the fetch
    and the write are not modelled. */
module Roster {
  import opened Wrappers
  import opened Text
  import opened Types

  // ------------------------------------------------------------ selection

  /** The conditions the hook filters and searches the roster by. */
  datatype Selector =
    | ConfirmedAs(role: Role)
    | AnyWaiting
    | WaitingAs(role: Role)
    | HasRole(role: Role)
    | HasId(id: string)
    | IdOtherThan(id: string)
    | HasUser(userId: string)
    | NamedLike(name: string)

  predicate Selects(sel: Selector, p: Participant) {
    match sel
    case ConfirmedAs(role) => p.role == role && p.status == Confirmed
    case AnyWaiting => p.status == Waiting
    case WaitingAs(role) => p.role == role && p.status == Waiting
    case HasRole(role) => p.role == role
    case HasId(id) => p.id == id
    case IdOtherThan(id) => p.id != id
    case HasUser(userId) => p.userId == Some(userId)
    case NamedLike(name) => SameIgnoringCase(p.name, name)
  }

  /** `a` is `b` with some elements left out, order kept. */
  ghost predicate IsSubsequence(a: seq<Participant>, b: seq<Participant>)
    decreases |b|
  {
    && |a| <= |b|
    && (|a| == 0
        || (a[0] == b[0] && IsSubsequence(a[1..], b[1..]))
        || IsSubsequence(a, b[1..]))
  }

  /** `Array.prototype.filter`: the participants `sel` selects, in roster order. */
  function Select(s: seq<Participant>, sel: Selector): (r: seq<Participant>)
    ensures |r| <= |s|
    ensures forall p :: p in r <==> p in s && Selects(sel, p)
    ensures IsSubsequence(r, s)
  {
    if |s| == 0 then []
    else if Selects(sel, s[0]) then [s[0]] + Select(s[1..], sel)
    else Select(s[1..], sel)
  }

  /** The position of the first participant `sel` selects. */
  function First(s: seq<Participant>, sel: Selector): (r: Option<nat>)
    ensures r.Some? ==> r.value < |s| && Selects(sel, s[r.value])
    ensures r.Some? ==> forall i :: 0 <= i < r.value ==> !Selects(sel, s[i])
    ensures r.None? ==> forall i :: 0 <= i < |s| ==> !Selects(sel, s[i])
  {
    if |s| == 0 then None
    else if Selects(sel, s[0]) then Some(0)
    else match First(s[1..], sel)
      case Some(i) => Some(i + 1)
      case None => None
  }

  /** `Array.prototype.find`: the first participant `sel` selects. */
  function Find(s: seq<Participant>, sel: Selector): Option<Participant> {
    match First(s, sel)
    case Some(i) => Some(s[i])
    case None => None
  }

  lemma FindFinds(s: seq<Participant>, sel: Selector)
    ensures Find(s, sel).Some? <==> exists p :: p in s && Selects(sel, p)
    ensures Find(s, sel).Some? ==> Find(s, sel).value in s && Selects(sel, Find(s, sel).value)
  {
    if Find(s, sel).None? {
      forall p | p in s
        ensures !Selects(sel, p)
      {
        var i :| 0 <= i < |s| && s[i] == p;
      }
    }
  }

  lemma {:induction false} SelectKeepsAll(s: seq<Participant>, sel: Selector)
    requires forall p :: p in s ==> Selects(sel, p)
    ensures Select(s, sel) == s
  {
    if |s| > 0 {
      assert s[0] in s;
      SelectKeepsAll(s[1..], sel);
      assert [s[0]] + s[1..] == s;
    }
  }

  // ---------------------------------------------------------------- views

  function ConfirmedOf(roster: seq<Participant>, role: Role): seq<Participant> {
    Select(roster, ConfirmedAs(role))
  }

  /** `getConfirmedPlayers`: the confirmed players, in roster order. */
  function ConfirmedPlayers(roster: seq<Participant>): (r: seq<Participant>)
    ensures forall p :: p in r <==> p in roster && p.role == Player && p.status == Confirmed
  {
    ConfirmedOf(roster, Player)
  }

  /** `getConfirmedGoalkeepers`: the confirmed goalkeepers, in roster order. */
  function ConfirmedGoalkeepers(roster: seq<Participant>): (r: seq<Participant>)
    ensures forall p :: p in r <==> p in roster && p.role == Goalkeeper && p.status == Confirmed
  {
    ConfirmedOf(roster, Goalkeeper)
  }

  /** `getWaitingList`: every waiting participant, both roles mixed, in roster order. */
  function WaitingList(roster: seq<Participant>): (r: seq<Participant>)
    ensures forall p :: p in r <==> p in roster && p.status == Waiting
  {
    Select(roster, AnyWaiting)
  }

  function ConfirmedCount(roster: seq<Participant>, role: Role): nat {
    |ConfirmedOf(roster, role)|
  }

  // ------------------------------------------------------------- capacity

  /** `canJoinAsPlayer` / `canJoinAsGoalkeeper`: the event is loaded and the
      role's confirmed pool is below its limit. */
  function CanJoin(event: Option<Event>, roster: seq<Participant>, role: Role): (r: bool)
    ensures event.None? ==> !r
    ensures event.Some? && role == Player ==>
      (r <==> |ConfirmedPlayers(roster)| < event.value.playerLimit)
    ensures event.Some? && role == Goalkeeper ==>
      (r <==> |ConfirmedGoalkeepers(roster)| < event.value.goalkeeperLimit)
  {
    event.Some? && ConfirmedCount(roster, role) < Limit(event.value, role)
  }

  // --------------------------------------------------------------- writes

  /** `delete().eq('id', id)` */
  function DeleteById(s: seq<Participant>, id: string): seq<Participant> {
    Select(s, IdOtherThan(id))
  }

  /** `update({ status: 'CONFIRMED' }).eq('id', id)` */
  function PromoteById(s: seq<Participant>, id: string): (r: seq<Participant>)
    ensures |r| == |s|
    ensures forall i :: 0 <= i < |s| ==>
      r[i] == if s[i].id == id then s[i].(status := Confirmed) else s[i]
  {
    seq(|s|, i requires 0 <= i < |s| =>
      if s[i].id == id then s[i].(status := Confirmed) else s[i])
  }

  /** `update({ role, status }).eq('id', id)` */
  function MoveById(s: seq<Participant>, id: string, role: Role, status: Status): (r: seq<Participant>)
    ensures |r| == |s|
    ensures forall i :: 0 <= i < |s| ==>
      r[i] == if s[i].id == id then s[i].(role := role, status := status) else s[i]
  {
    seq(|s|, i requires 0 <= i < |s| =>
      if s[i].id == id then s[i].(role := role, status := status) else s[i])
  }

  // ----------------------------------------------------------- operations

  /** Why an operation reported failure (the hook shows each as a toast). */
  datatype RosterError =
    | NoEvent             // the event has not been loaded
    | BlankName           // the trimmed name is empty
    | AlreadyJoined       // the signed-in user already has a participant
    | NameTaken           // a participant already has this name, ignoring case
    | UnknownParticipant  // no participant has the given id
    | StoreFailed         // the database rejected the write

  /** What `addParticipant` and `switchRole` report: success with the status
      the participant was given, or failure. */
  datatype Outcome = Done(status: Status) | Failed(error: RosterError)

  /** An operation's report together with the roster it leaves behind. */
  datatype Applied<R> = Applied(result: R, roster: seq<Participant>)

  /** The user id a join records: an empty id is falsy and stored as null. */
  function EffectiveUser(userId: Option<string>): (u: Option<string>)
    ensures u.Some? <==> userId.Some? && userId.value != ""
    ensures u.Some? ==> u == userId
  {
    if userId.Some? && userId.value != "" then userId else None
  }

  /** Some participant's name equals `name` ignoring case. */
  ghost predicate NameAlreadyIn(roster: seq<Participant>, name: string) {
    exists p :: p in roster && SameIgnoringCase(p.name, name)
  }

  /** `addParticipant(name, role, userId)`. The new participant receives the
      id `newId` and the timestamp `createdAt` from the database; the insert
      succeeds when `stored` holds. The event's `isOpen` flag is not read. */
  function Join(event: Option<Event>, roster: seq<Participant>, name: string, role: Role,
                userId: Option<string>, newId: string, createdAt: int, stored: bool)
    : (r: Applied<Outcome>)
    ensures r.result.Failed? ==> r.roster == roster
    // the failures, in the order they are checked
    ensures event.None? ==> r.result == Failed(NoEvent)
    ensures event.Some? && IsBlank(name) ==> r.result == Failed(BlankName)
    ensures event.Some? && !IsBlank(name) && HasUserAlready(roster, EffectiveUser(userId))
            ==> r.result == Failed(AlreadyJoined)
    ensures event.Some? && !IsBlank(name) && !HasUserAlready(roster, EffectiveUser(userId))
            && NameAlreadyIn(roster, Trim(name))
            ==> r.result == Failed(NameTaken)
    ensures r.result.Done? <==>
            event.Some? && !IsBlank(name) && !HasUserAlready(roster, EffectiveUser(userId))
            && !NameAlreadyIn(roster, Trim(name)) && stored
    // a success appends exactly the newcomer
    ensures r.result.Done? ==>
            r.roster == roster + [Participant(newId, event.value.id, EffectiveUser(userId),
                                              Trim(name), role, r.result.status, createdAt)]
    ensures r.result.Done? ==>
            (r.result.status == Confirmed <==> ConfirmedCount(roster, role) < Limit(event.value, role))
  {
    if event.None? then Applied(Failed(NoEvent), roster)
    else if Trim(name) == "" then Applied(Failed(BlankName), roster)
    else
      Register(event.value, roster, Trim(name), role, EffectiveUser(userId), newId, createdAt, stored)
  }

  /** A participant of `roster` carries the user id `user`. */
  ghost predicate HasUserAlready(roster: seq<Participant>, user: Option<string>) {
    user.Some? && exists p :: p in roster && p.userId == user
  }

  /** `addParticipant` once the event is loaded and the trimmed name is not
      empty: the duplicate checks, then the insert. */
  function Register(e: Event, roster: seq<Participant>, trimmed: string, role: Role,
                    user: Option<string>, newId: string, createdAt: int, stored: bool)
    : (r: Applied<Outcome>)
    ensures r.result.Failed? ==> r.roster == roster
    ensures HasUserAlready(roster, user) ==> r.result == Failed(AlreadyJoined)
    ensures !HasUserAlready(roster, user) && NameAlreadyIn(roster, trimmed)
            ==> r.result == Failed(NameTaken)
    ensures r.result.Done? <==>
            !HasUserAlready(roster, user) && !NameAlreadyIn(roster, trimmed) && stored
    ensures r.result.Done? ==>
            r.roster == roster + [Participant(newId, e.id, user, trimmed, role, r.result.status, createdAt)]
    ensures r.result.Done? ==>
            (r.result.status == Confirmed <==> ConfirmedCount(roster, role) < Limit(e, role))
  {
    FindFinds(roster, NamedLike(trimmed));
    if user.Some? && Find(roster, HasUser(user.value)).Some? then
      FindFinds(roster, HasUser(user.value));
      Applied(Failed(AlreadyJoined), roster)
    else if Find(roster, NamedLike(trimmed)).Some? then
      Applied(Failed(NameTaken), roster)
    else
      assert !HasUserAlready(roster, user) by {
        if user.Some? { FindFinds(roster, HasUser(user.value)); }
      }
      Admit(e, roster, Participant(newId, e.id, user, trimmed, role, Waiting, createdAt), stored)
  }

  /** The insert at the end of `addParticipant`: the newcomer is confirmed
      when its role's pool has room, and waits otherwise. */
  function Admit(e: Event, roster: seq<Participant>, newcomer: Participant, stored: bool)
    : (r: Applied<Outcome>)
    ensures !stored ==> r == Applied(Failed(StoreFailed), roster)
    ensures stored ==> r.result.Done? && r.roster == roster + [newcomer.(status := r.result.status)]
    ensures stored ==>
      (r.result.status == Confirmed <==> ConfirmedCount(roster, newcomer.role) < Limit(e, newcomer.role))
  {
    var status := if CanJoin(Some(e), roster, newcomer.role) then Confirmed else Waiting;
    if !stored then Applied(Failed(StoreFailed), roster)
    else Applied(Done(status), roster + [newcomer.(status := status)])
  }

  /** `removeParticipant(participantId)`: delete the participant; if it was
      confirmed (and the event is loaded), confirm the first waiting
      participant of the same role. Capacity is not re-checked. */
  function Remove(event: Option<Event>, roster: seq<Participant>, participantId: string, stored: bool)
    : (r: Applied<bool>)
    ensures !stored ==> r == Applied(false, roster)
    ensures stored ==> r.result
    ensures stored ==> forall p :: p in r.roster ==> p.id != participantId
    ensures |r.roster| <= |roster|
    ensures (forall p :: p in roster ==> p.id != participantId) ==> r.roster == roster
  {
    var removed := Find(roster, HasId(participantId));
    if !stored then Applied(false, roster)
    else
      var rest := DeleteById(roster, participantId);
      DeletedStayDeleted(roster, participantId);
      if removed.Some? && removed.value.status == Confirmed && event.Some? then
        match Find(WaitingList(roster), HasRole(removed.value.role))
        case Some(w) => Applied(true, PromoteById(rest, w.id))
        case None => Applied(true, rest)
      else
        Applied(true, rest)
  }

  lemma DeletedStayDeleted(roster: seq<Participant>, id: string)
    ensures forall w :: forall p :: p in PromoteById(DeleteById(roster, id), w) ==> p.id != id
    ensures (forall p :: p in roster ==> p.id != id) ==>
      DeleteById(roster, id) == roster && Find(roster, HasId(id)).None?
  {
    var rest := DeleteById(roster, id);
    forall w, p | p in PromoteById(rest, w)
      ensures p.id != id
    {
      var r := PromoteById(rest, w);
      var i :| 0 <= i < |r| && r[i] == p;
      assert rest[i] in rest;
    }
    if forall p :: p in roster ==> p.id != id {
      DeleteAbsent(roster, id);
    }
  }

  lemma DeleteAbsent(roster: seq<Participant>, id: string)
    requires forall p :: p in roster ==> p.id != id
    ensures DeleteById(roster, id) == roster && Find(roster, HasId(id)).None?
  {
    SelectKeepsAll(roster, IdOtherThan(id));
    forall i | 0 <= i < |roster|
      ensures !Selects(HasId(id), roster[i])
    {
      assert roster[i] in roster;
    }
  }

  /** `switchRole(participantId, newRole)`: give the participant `newRole`
      with the status the new role's pool allows (counted on the snapshot
      before the update, the participant included); if it was confirmed,
      confirm the first waiting participant of its old role. */
  function SwitchRole(event: Option<Event>, roster: seq<Participant>, participantId: string,
                      newRole: Role, stored: bool)
    : (r: Applied<Outcome>)
    ensures r.result.Failed? ==> r.roster == roster
    ensures event.None? ==> r.result == Failed(NoEvent)
    ensures event.Some? && (forall p :: p in roster ==> p.id != participantId)
            ==> r.result == Failed(UnknownParticipant)
    ensures r.result.Done? <==>
            event.Some? && (exists p :: p in roster && p.id == participantId) && stored
    ensures r.result.Done? ==>
            && |r.roster| == |roster|
            && (r.result.status == Confirmed <==> ConfirmedCount(roster, newRole) < Limit(event.value, newRole))
  {
    if event.None? then Applied(Failed(NoEvent), roster)
    else match Find(roster, HasId(participantId))
      case None => Applied(Failed(UnknownParticipant), roster)
      case Some(p) =>
        var newStatus :=
          if ConfirmedCount(roster, newRole) >= Limit(event.value, newRole) then Waiting else Confirmed;
        if !stored then Applied(Failed(StoreFailed), roster)
        else
          var moved := MoveById(roster, participantId, newRole, newStatus);
          if p.status == Confirmed then
            match Find(WaitingList(roster), HasRole(p.role))
            case Some(w) => Applied(Done(newStatus), PromoteById(moved, w.id))
            case None => Applied(Done(newStatus), moved)
          else
            Applied(Done(newStatus), moved)
  }
}
