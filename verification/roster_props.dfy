/** Properties of the roster engine: where exactly remove and switch-role
    leave each participant, the capacity invariant the three operations
    keep, and the invariants of the list itself (unique ids, arrival
    order) that make "the first waiting participant" the longest-waiting
    one. */
module RosterProps {
  import opened Wrappers
  import opened Text
  import opened Types
  import opened Roster

  // ------------------------------------------------------------ invariants

  /** Participant ids are a primary key. */
  ghost predicate UniqueIds(s: seq<Participant>) {
    forall i, j :: 0 <= i < |s| && 0 <= j < |s| && i != j ==> s[i].id != s[j].id
  }

  /** The roster is ordered by `created_at`, as the hook loads it. */
  ghost predicate ByArrival(s: seq<Participant>) {
    forall i, j :: 0 <= i < j < |s| ==> s[i].createdAt <= s[j].createdAt
  }

  /** Neither confirmed pool holds more participants than its limit. */
  ghost predicate WithinCapacity(e: Event, s: seq<Participant>) {
    forall role: Role :: ConfirmedCount(s, role) <= Limit(e, role)
  }

  // --------------------------------------------- reference post-states

  /** `s` with the participant at position `j` (if any) confirmed. */
  function ConfirmAt(s: seq<Participant>, j: Option<nat>): seq<Participant> {
    if j.Some? && j.value < |s| then s[j.value := s[j.value].(status := Confirmed)] else s
  }

  /** `s` with its earliest waiting participant of `role` (if any) confirmed. */
  function PromoteFirst(s: seq<Participant>, role: Role): seq<Participant> {
    ConfirmAt(s, First(s, WaitingAs(role)))
  }

  /** The status a switch to `newRole` gives: confirmed when the new pool,
      counted before the switch (the participant included), has room. */
  function SwitchStatus(e: Event, s: seq<Participant>, newRole: Role): Status {
    if ConfirmedCount(s, newRole) < Limit(e, newRole) then Confirmed else Waiting
  }

  /** The roster after removing `s[k]`: if it was confirmed and the event is
      loaded, its role's earliest waiter is confirmed first; then position
      `k` is dropped. */
  function Removed(event: Option<Event>, s: seq<Participant>, k: nat): seq<Participant>
    requires k < |s|
  {
    var promoted := if s[k].status == Confirmed && event.Some? then PromoteFirst(s, s[k].role) else s;
    promoted[..k] + promoted[k + 1..]
  }

  /** The roster after switching `s[k]` to `newRole`: position `k` is
      rewritten in place; if it was confirmed, the earliest waiter of its old
      role, looked up before the switch, is confirmed. */
  function Switched(e: Event, s: seq<Participant>, k: nat, newRole: Role): seq<Participant>
    requires k < |s|
  {
    var moved := s[k := s[k].(role := newRole, status := SwitchStatus(e, s, newRole))];
    if s[k].status == Confirmed then ConfirmAt(moved, First(s, WaitingAs(s[k].role))) else moved
  }

  // ---------------------------------------------------------- counting

  /** 1 when `p` occupies a slot of `role`'s confirmed pool. */
  function Occupies(p: Participant, role: Role): nat {
    if Selects(ConfirmedAs(role), p) then 1 else 0
  }

  lemma {:induction false} SelectAppend(a: seq<Participant>, b: seq<Participant>, sel: Selector)
    ensures Select(a + b, sel) == Select(a, sel) + Select(b, sel)
  {
    if |a| == 0 {
      assert a + b == b;
    } else {
      assert (a + b)[1..] == a[1..] + b;
      SelectAppend(a[1..], b, sel);
    }
  }

  lemma CountAppendOne(s: seq<Participant>, p: Participant, role: Role)
    ensures ConfirmedCount(s + [p], role) == ConfirmedCount(s, role) + Occupies(p, role)
  {
    SelectAppend(s, [p], ConfirmedAs(role));
  }

  lemma CountSplit(s: seq<Participant>, k: nat, role: Role)
    requires k < |s|
    ensures ConfirmedCount(s, role)
         == ConfirmedCount(s[..k], role) + Occupies(s[k], role) + ConfirmedCount(s[k + 1..], role)
  {
    assert s == s[..k] + ([s[k]] + s[k + 1..]);
    SelectAppend(s[..k], [s[k]] + s[k + 1..], ConfirmedAs(role));
    SelectAppend([s[k]], s[k + 1..], ConfirmedAs(role));
  }

  lemma CountUpdate(s: seq<Participant>, k: nat, x: Participant, role: Role)
    requires k < |s|
    ensures ConfirmedCount(s[k := x], role) + Occupies(s[k], role)
         == ConfirmedCount(s, role) + Occupies(x, role)
  {
    CountSplit(s, k, role);
    CountSplit(s[k := x], k, role);
    assert s[k := x][..k] == s[..k];
    assert s[k := x][k + 1..] == s[k + 1..];
  }

  lemma CountDelete(s: seq<Participant>, k: nat, role: Role)
    requires k < |s|
    ensures ConfirmedCount(s[..k] + s[k + 1..], role) + Occupies(s[k], role) == ConfirmedCount(s, role)
  {
    CountSplit(s, k, role);
    SelectAppend(s[..k], s[k + 1..], ConfirmedAs(role));
  }

  // ---------------------------------------- writes by id, by position

  lemma {:induction false} FindAt(s: seq<Participant>, k: nat)
    requires UniqueIds(s) && k < |s|
    ensures First(s, HasId(s[k].id)) == Some(k)
    ensures Find(s, HasId(s[k].id)) == Some(s[k])
  {
    assert Selects(HasId(s[k].id), s[k]);
  }

  lemma UniqueTail(s: seq<Participant>)
    requires UniqueIds(s) && |s| > 0
    ensures UniqueIds(s[1..])
  {
    forall i, j | 0 <= i < |s[1..]| && 0 <= j < |s[1..]| && i != j
      ensures s[1..][i].id != s[1..][j].id
    {
      assert s[1..][i] == s[i + 1] && s[1..][j] == s[j + 1];
    }
  }

  lemma {:induction false} DeleteAt(s: seq<Participant>, k: nat)
    requires UniqueIds(s) && k < |s|
    ensures DeleteById(s, s[k].id) == s[..k] + s[k + 1..]
  {
    if k == 0 {
      DeleteHead(s);
    } else {
      var id := s[k].id;
      UniqueTail(s);
      DeleteAt(s[1..], k - 1);
      assert s[1..][k - 1] == s[k];
      assert s[0].id != id;
      assert DeleteById(s, id) == [s[0]] + DeleteById(s[1..], id);
      assert s[1..][..k - 1] + s[1..][k..] == s[1..k] + s[k + 1..];
      assert [s[0]] + (s[1..k] + s[k + 1..]) == s[..k] + s[k + 1..];
    }
  }

  /** Deleting the first participant's id removes just that participant. */
  lemma DeleteHead(s: seq<Participant>)
    requires UniqueIds(s) && 0 < |s|
    ensures DeleteById(s, s[0].id) == s[1..]
  {
    var id := s[0].id;
    forall p | p in s[1..]
      ensures Selects(IdOtherThan(id), p)
    {
      var i :| 0 <= i < |s[1..]| && s[1..][i] == p;
      assert s[i + 1] == p;
    }
    SelectKeepsAll(s[1..], IdOtherThan(id));
  }

  lemma FindCons(x: Participant, t: seq<Participant>, sel: Selector)
    ensures Find([x] + t, sel) == if Selects(sel, x) then Some(x) else Find(t, sel)
  {
    assert ([x] + t)[1..] == t;
  }

  lemma WaitingFind(s: seq<Participant>, role: Role)
    ensures Find(WaitingList(s), HasRole(role)) == Find(s, WaitingAs(role))
  {
    SelectWaitingFind(s, role);
  }

  lemma {:induction false} SelectWaitingFind(s: seq<Participant>, role: Role)
    ensures Find(Select(s, AnyWaiting), HasRole(role)) == Find(s, WaitingAs(role))
  {
    if |s| > 0 {
      var x, t := s[0], s[1..];
      assert s == [x] + t;
      SelectWaitingFind(t, role);
      FindCons(x, t, WaitingAs(role));
      if x.status == Waiting {
        FindCons(x, Select(t, AnyWaiting), HasRole(role));
      }
    }
  }

  lemma PromoteAt(s: seq<Participant>, j: nat)
    requires UniqueIds(s) && j < |s|
    ensures PromoteById(s, s[j].id) == ConfirmAt(s, Some(j))
  {
  }

  lemma MoveAt(s: seq<Participant>, k: nat, role: Role, status: Status)
    requires UniqueIds(s) && k < |s|
    ensures MoveById(s, s[k].id, role, status) == s[k := s[k].(role := role, status := status)]
  {
  }

  /** Confirming `s[j]` commutes with deleting `s[k]`. */
  lemma PromoteAfterDelete(s: seq<Participant>, k: nat, j: nat)
    requires UniqueIds(s) && k < |s| && j < |s| && j != k
    ensures var t := ConfirmAt(s, Some(j));
      PromoteById(s[..k] + s[k + 1..], s[j].id) == t[..k] + t[k + 1..]
  {
    var t := ConfirmAt(s, Some(j));
    var rest := s[..k] + s[k + 1..];
    var r := PromoteById(rest, s[j].id);
    assert |r| == |t[..k] + t[k + 1..]|;
    forall i | 0 <= i < |r|
      ensures r[i] == (t[..k] + t[k + 1..])[i]
    {
      if i < k {
        assert rest[i] == s[i];
      } else {
        assert rest[i] == s[i + 1];
      }
    }
  }

  // ------------------------------------------------ where participants end up

  /** Removing a participant deletes exactly it. If it was confirmed (and the
      event is loaded), exactly the earliest waiting participant of the same
      role becomes confirmed; nobody else changes, and nobody changes at all
      when it was waiting. */
  lemma RemoveSpec(event: Option<Event>, s: seq<Participant>, k: nat)
    requires UniqueIds(s) && k < |s|
    ensures var promoted := if s[k].status == Confirmed && event.Some? then PromoteFirst(s, s[k].role) else s;
      && promoted[k] == s[k]
      && Removed(event, s, k) == promoted[..k] + promoted[k + 1..]
    ensures Remove(event, s, s[k].id, true) == Applied(true, Removed(event, s, k))
  {
    var p := s[k];
    FindAt(s, k);
    DeleteAt(s, k);
    if p.status == Confirmed && event.Some? {
      WaitingFind(s, p.role);
      match First(s, WaitingAs(p.role))
      case Some(j) =>
        PromoteAfterDelete(s, k, j);
      case None =>
    }
  }

  /** Switching a participant's role rewrites that participant alone, with the
      status its new pool allows before the update; if it held a confirmed
      slot, the earliest waiting participant of its old role (on the snapshot
      before the switch) is confirmed as well. */
  lemma SwitchSpec(e: Event, s: seq<Participant>, k: nat, newRole: Role)
    requires UniqueIds(s) && k < |s|
    ensures var moved := s[k := s[k].(role := newRole, status := SwitchStatus(e, s, newRole))];
      Switched(e, s, k, newRole)
        == if s[k].status == Confirmed then ConfirmAt(moved, First(s, WaitingAs(s[k].role))) else moved
    ensures SwitchRole(Some(e), s, s[k].id, newRole, true)
         == Applied(Done(SwitchStatus(e, s, newRole)), Switched(e, s, k, newRole))
  {
    var p := s[k];
    var moved := s[k := p.(role := newRole, status := SwitchStatus(e, s, newRole))];
    FindAt(s, k);
    MoveAt(s, k, newRole, SwitchStatus(e, s, newRole));
    if p.status == Confirmed {
      WaitingFind(s, p.role);
      match First(s, WaitingAs(p.role))
      case Some(j) =>
        assert j != k;
        assert UniqueIds(moved);
        assert moved[j] == s[j];
        PromoteAt(moved, j);
      case None =>
    }
  }

  lemma {:induction false} FirstUnaffected(s: seq<Participant>, k: nat, q: Participant, sel: Selector)
    requires k < |s| && !Selects(sel, s[k]) && !Selects(sel, q)
    ensures First(s[k := q], sel) == First(s, sel)
  {
    var t := s[k := q];
    if k == 0 {
      assert t[1..] == s[1..];
      assert !Selects(sel, t[0]);
    } else {
      assert t[0] == s[0];
      if !Selects(sel, s[0]) {
        assert t[1..] == s[1..][k - 1 := q];
        FirstUnaffected(s[1..], k - 1, q, sel);
      }
    }
  }

  /** When a confirmed participant really changes role, the waiter promoted
      in its old role is also the earliest waiter of that role in the
      roster after the switch: the switch confirms `PromoteFirst` of the
      updated roster. */
  lemma SwitchPromotesFirstOfOldRole(s: seq<Participant>, k: nat, q: Participant)
    requires k < |s| && s[k].status == Confirmed && q.role != s[k].role
    ensures ConfirmAt(s[k := q], First(s, WaitingAs(s[k].role))) == PromoteFirst(s[k := q], s[k].role)
  {
    FirstUnaffected(s, k, q, WaitingAs(s[k].role));
  }

  // ------------------------------------------------------------- capacity

  /** A join confirms the newcomer only into a pool with room, so it never
      takes a pool beyond its limit. */
  lemma JoinKeepsCapacity(e: Event, s: seq<Participant>, name: string, role: Role,
                          userId: Option<string>, newId: string, createdAt: int, stored: bool)
    requires WithinCapacity(e, s)
    ensures WithinCapacity(e, Join(Some(e), s, name, role, userId, newId, createdAt, stored).roster)
  {
    var r := Join(Some(e), s, name, role, userId, newId, createdAt, stored);
    if r.result.Done? {
      var newcomer := r.roster[|s|];
      assert r.roster == s + [newcomer];
      forall role': Role
        ensures ConfirmedCount(r.roster, role') <= Limit(e, role')
      {
        CountAppendOne(s, newcomer, role');
      }
    }
  }

  /** Removing `s[k]` frees at most its slot and refills at most that
      one: no confirmed pool grows. */
  lemma RemovedNeverGrows(event: Option<Event>, s: seq<Participant>, k: nat, role: Role)
    requires k < |s|
    ensures ConfirmedCount(Removed(event, s, k), role) <= ConfirmedCount(s, role)
  {
    var p := s[k];
    var promoted := if p.status == Confirmed && event.Some? then PromoteFirst(s, p.role) else s;
    if p.status == Confirmed && event.Some? {
      match First(s, WaitingAs(p.role))
      case Some(j) =>
        CountUpdate(s, j, s[j].(status := Confirmed), role);
        if j == k {
          assert false;
        }
      case None =>
    }
    assert promoted[k] == p;
    CountDelete(promoted, k, role);
  }

  /** A removal never increases the confirmed count of either role. */
  lemma RemoveNeverGrowsPools(event: Option<Event>, s: seq<Participant>, participantId: string,
                              stored: bool, role: Role)
    requires UniqueIds(s)
    ensures ConfirmedCount(Remove(event, s, participantId, stored).roster, role) <= ConfirmedCount(s, role)
  {
    if stored && exists p :: p in s && p.id == participantId {
      var k :| 0 <= k < |s| && s[k].id == participantId;
      RemoveSpec(event, s, k);
      RemovedNeverGrows(event, s, k, role);
    }
  }

  lemma RemoveKeepsCapacity(event: Option<Event>, e: Event, s: seq<Participant>,
                            participantId: string, stored: bool)
    requires UniqueIds(s) && WithinCapacity(e, s)
    ensures WithinCapacity(e, Remove(event, s, participantId, stored).roster)
  {
    forall role: Role
      ensures ConfirmedCount(Remove(event, s, participantId, stored).roster, role) <= Limit(e, role)
    {
      RemoveNeverGrowsPools(event, s, participantId, stored, role);
    }
  }

  /** Switching `s[k]` confirms it only into a pool with room and refills
      its old pool at most by the slot it vacated, whether or not the role
      actually changes. */
  lemma SwitchedWithinLimit(e: Event, s: seq<Participant>, k: nat, newRole: Role, role: Role)
    requires k < |s| && WithinCapacity(e, s)
    ensures ConfirmedCount(Switched(e, s, k, newRole), role) <= Limit(e, role)
  {
    var p := s[k];
    var q := p.(role := newRole, status := SwitchStatus(e, s, newRole));
    var moved := s[k := q];
    assert ConfirmedCount(s, role) <= Limit(e, role);
    CountUpdate(s, k, q, role);
    if p.status == Confirmed {
      match First(s, WaitingAs(p.role))
      case Some(j) =>
        assert j != k;
        assert moved[j] == s[j];
        CountUpdate(moved, j, s[j].(status := Confirmed), role);
      case None =>
    }
  }

  lemma SwitchKeepsCapacity(e: Event, s: seq<Participant>, participantId: string,
                            newRole: Role, stored: bool)
    requires UniqueIds(s) && WithinCapacity(e, s)
    ensures WithinCapacity(e, SwitchRole(Some(e), s, participantId, newRole, stored).roster)
  {
    if stored && exists p :: p in s && p.id == participantId {
      var k :| 0 <= k < |s| && s[k].id == participantId;
      SwitchSpec(e, s, k, newRole);
      forall role: Role
        ensures ConfirmedCount(Switched(e, s, k, newRole), role) <= Limit(e, role)
      {
        SwitchedWithinLimit(e, s, k, newRole, role);
      }
    }
  }

  // ------------------------------------------------- list invariants

  /** Appending a participant with a fresh id and the latest timestamp
      keeps both list invariants. */
  lemma AppendKeepsInvariants(s: seq<Participant>, x: Participant)
    requires UniqueIds(s) && ByArrival(s)
    requires forall p :: p in s ==> p.id != x.id && p.createdAt <= x.createdAt
    ensures UniqueIds(s + [x]) && ByArrival(s + [x])
  {
    var t := s + [x];
    forall i | 0 <= i < |s|
      ensures t[i] == s[i] && s[i] in s
    {
    }
  }

  lemma JoinKeepsInvariants(event: Option<Event>, s: seq<Participant>, name: string, role: Role,
                            userId: Option<string>, newId: string, createdAt: int, stored: bool)
    requires UniqueIds(s) && ByArrival(s)
    requires forall p :: p in s ==> p.id != newId && p.createdAt <= createdAt
    ensures var after := Join(event, s, name, role, userId, newId, createdAt, stored).roster;
      UniqueIds(after) && ByArrival(after)
  {
    var r := Join(event, s, name, role, userId, newId, createdAt, stored);
    if r.result.Done? {
      AppendKeepsInvariants(s, r.roster[|s|]);
      assert r.roster == s + [r.roster[|s|]];
    }
  }

  /** `b` holds the same participants as `a` up to role and status. */
  ghost predicate SameKeys(a: seq<Participant>, b: seq<Participant>) {
    |a| == |b| && forall i :: 0 <= i < |a| ==> a[i].id == b[i].id && a[i].createdAt == b[i].createdAt
  }

  lemma SameKeysKeepInvariants(a: seq<Participant>, b: seq<Participant>)
    requires SameKeys(a, b) && UniqueIds(a) && ByArrival(a)
    ensures UniqueIds(b) && ByArrival(b)
  {
  }

  lemma ConfirmAtSameKeys(s: seq<Participant>, j: Option<nat>)
    ensures SameKeys(s, ConfirmAt(s, j))
  {
  }

  lemma DeleteKeepsInvariants(s: seq<Participant>, k: nat)
    requires k < |s| && UniqueIds(s) && ByArrival(s)
    ensures UniqueIds(s[..k] + s[k + 1..]) && ByArrival(s[..k] + s[k + 1..])
  {
    var t := s[..k] + s[k + 1..];
    assert forall i :: 0 <= i < |t| ==> t[i] == s[if i < k then i else i + 1];
  }

  lemma RemovedKeepsInvariants(event: Option<Event>, s: seq<Participant>, k: nat)
    requires k < |s| && UniqueIds(s) && ByArrival(s)
    ensures UniqueIds(Removed(event, s, k)) && ByArrival(Removed(event, s, k))
  {
    if s[k].status == Confirmed && event.Some? {
      ConfirmAtSameKeys(s, First(s, WaitingAs(s[k].role)));
      SameKeysKeepInvariants(s, PromoteFirst(s, s[k].role));
      DeleteKeepsInvariants(PromoteFirst(s, s[k].role), k);
    } else {
      DeleteKeepsInvariants(s, k);
    }
  }

  lemma RemoveKeepsInvariants(event: Option<Event>, s: seq<Participant>, participantId: string, stored: bool)
    requires UniqueIds(s) && ByArrival(s)
    ensures var after := Remove(event, s, participantId, stored).roster;
      UniqueIds(after) && ByArrival(after)
  {
    if stored && exists p :: p in s && p.id == participantId {
      var k :| 0 <= k < |s| && s[k].id == participantId;
      RemoveSpec(event, s, k);
      RemovedKeepsInvariants(event, s, k);
    }
  }

  lemma SwitchedSameKeys(e: Event, s: seq<Participant>, k: nat, newRole: Role)
    requires k < |s|
    ensures SameKeys(s, Switched(e, s, k, newRole))
  {
    var moved := s[k := s[k].(role := newRole, status := SwitchStatus(e, s, newRole))];
    assert SameKeys(s, moved);
    ConfirmAtSameKeys(moved, First(s, WaitingAs(s[k].role)));
  }

  lemma SwitchKeepsInvariants(event: Option<Event>, s: seq<Participant>, participantId: string,
                              newRole: Role, stored: bool)
    requires UniqueIds(s) && ByArrival(s)
    ensures var after := SwitchRole(event, s, participantId, newRole, stored).roster;
      UniqueIds(after) && ByArrival(after)
  {
    if event.Some? && stored && exists p :: p in s && p.id == participantId {
      var k :| 0 <= k < |s| && s[k].id == participantId;
      SwitchSpec(event.value, s, k, newRole);
      SwitchedSameKeys(event.value, s, k, newRole);
      SameKeysKeepInvariants(s, Switched(event.value, s, k, newRole));
    }
  }

  /** In a roster ordered by arrival, the waiter every promotion picks is
      one that has waited longest for that role. */
  lemma PromotionIsFifo(s: seq<Participant>, role: Role)
    requires ByArrival(s)
    ensures match First(s, WaitingAs(role))
      case Some(j) => forall i :: 0 <= i < |s| && Selects(WaitingAs(role), s[i]) ==> s[j].createdAt <= s[i].createdAt
      case None => forall p :: p in s ==> !Selects(WaitingAs(role), p)
  {
  }

  // ---------------------------------------------------------------- views

  /** The two confirmed views and the waiting view split the roster: every
      participant lies in exactly one of them. */
  lemma {:induction false} ViewsPartition(s: seq<Participant>)
    ensures |ConfirmedPlayers(s)| + |ConfirmedGoalkeepers(s)| + |WaitingList(s)| == |s|
    ensures forall p :: p in WaitingList(s) ==> p !in ConfirmedPlayers(s) && p !in ConfirmedGoalkeepers(s)
    ensures forall p :: p in ConfirmedPlayers(s) ==> p !in ConfirmedGoalkeepers(s)
  {
    if |s| > 0 {
      ViewsPartition(s[1..]);
    }
  }

  /** Under the capacity invariant, a pool refuses new confirmed members
      exactly when it is full. */
  lemma CannotJoinIffFull(e: Event, s: seq<Participant>, role: Role)
    requires WithinCapacity(e, s)
    ensures !CanJoin(Some(e), s, role) <==> ConfirmedCount(s, role) == Limit(e, role)
    ensures !CanJoin(None, s, role)
  {
  }

  /** Joining never consults whether the event is open. */
  lemma JoinIgnoresIsOpen(e: Event, open: bool, s: seq<Participant>, name: string, role: Role,
                          userId: Option<string>, newId: string, createdAt: int, stored: bool)
    ensures Join(Some(e.(isOpen := open)), s, name, role, userId, newId, createdAt, stored)
         == Join(Some(e), s, name, role, userId, newId, createdAt, stored)
  {
    if Trim(name) != "" {
      RegisterIgnoresIsOpen(e, open, s, Trim(name), role, EffectiveUser(userId), newId, createdAt, stored);
    }
  }

  lemma RegisterIgnoresIsOpen(e: Event, open: bool, s: seq<Participant>, trimmed: string, role: Role,
                              user: Option<string>, newId: string, createdAt: int, stored: bool)
    ensures Register(e.(isOpen := open), s, trimmed, role, user, newId, createdAt, stored)
         == Register(e, s, trimmed, role, user, newId, createdAt, stored)
  {
    var e' := e.(isOpen := open);
    assert e'.id == e.id && Limit(e', role) == Limit(e, role);
    var newcomer := Participant(newId, e.id, user, trimmed, role, Waiting, createdAt);
    assert Admit(e', s, newcomer, stored) == Admit(e, s, newcomer, stored);
  }
}
