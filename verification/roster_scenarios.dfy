/** Concrete runs of the roster engine on an event with one player slot
    and one goalkeeper slot. A joins and is confirmed, B and C wait in
    arrival order; when A leaves, B is promoted and C keeps waiting; C then
    moves to the empty goalkeeper pool and is confirmed there, and because C
    was waiting no player is promoted. */
module RosterScenarios {
  import opened Wrappers
  import opened Text
  import opened Types
  import opened Roster

  const Game := Event("game", "organizer", 1, 1, true)
  const A := Participant("a", "game", None, "A", Player, Confirmed, 1)
  const B := Participant("b", "game", None, "B", Player, Waiting, 2)
  const C := Participant("c", "game", None, "C", Player, Waiting, 3)

  /** The three names differ even ignoring case. */
  lemma NamesDiffer()
    ensures !SameIgnoringCase("A", "B") && !SameIgnoringCase("A", "C") && !SameIgnoringCase("B", "C")
  {
    assert Lower("A")[0] == 'a' && Lower("B")[0] == 'b' && Lower("C")[0] == 'c';
  }

  lemma FirstJoinIsConfirmed()
    ensures Join(Some(Game), [], "A", Player, None, "a", 1, true) == Applied(Done(Confirmed), [A])
  {
    assert Trim("A") == "A" by { TrimKeeps("A"); }
  }

  /** An anonymous join under a fresh, already trimmed name into a full
      pool succeeds and appends the newcomer to the waiting list. */
  lemma JoinFull(e: Event, s: seq<Participant>, name: string, role: Role, id: string, t: int)
    requires Trim(name) == name && !IsBlank(name) && !NameAlreadyIn(s, name)
    requires ConfirmedCount(s, role) >= Limit(e, role)
    ensures Join(Some(e), s, name, role, None, id, t, true)
         == Applied(Done(Waiting), s + [Participant(id, e.id, None, name, role, Waiting, t)])
  {
  }

  lemma SecondJoinWaits()
    ensures Join(Some(Game), [A], "B", Player, None, "b", 2, true) == Applied(Done(Waiting), [A, B])
  {
    SecondJoinChecks();
    JoinFull(Game, [A], "B", Player, "b", 2);
  }

  /** What `Join` consults when B arrives after A. */
  lemma SecondJoinChecks()
    ensures Trim("B") == "B" && !IsBlank("B")
    ensures !NameAlreadyIn([A], "B")
    ensures ConfirmedCount([A], Player) == 1 == Limit(Game, Player)
    ensures [A] + [Participant("b", Game.id, None, "B", Player, Waiting, 2)] == [A, B]
  {
    TrimKeeps("B");
    NamesDiffer();
    assert [A][1..] == [];
  }

  lemma ThirdJoinWaitsBehind()
    ensures Join(Some(Game), [A, B], "C", Player, None, "c", 3, true) == Applied(Done(Waiting), [A, B, C])
  {
    ThirdJoinChecks();
    JoinFull(Game, [A, B], "C", Player, "c", 3);
  }

  /** What `Join` consults when C arrives after A and B. */
  lemma ThirdJoinChecks()
    ensures Trim("C") == "C" && !IsBlank("C")
    ensures !NameAlreadyIn([A, B], "C")
    ensures ConfirmedCount([A, B], Player) == 1 == Limit(Game, Player)
    ensures [A, B] + [Participant("c", Game.id, None, "C", Player, Waiting, 3)] == [A, B, C]
  {
    TrimKeeps("C");
    NamesDiffer();
    assert [A, B][1..] == [B];
    assert Select([B], ConfirmedAs(Player)) == [];
    assert ConfirmedOf([A, B], Player) == [A];
  }

  /** Deleting A from [A, B, C] leaves the two waiters, in order. */
  lemma DeleteFirstOfThree()
    ensures DeleteById([A, B, C], "a") == [B, C]
    ensures WaitingList([A, B, C]) == [B, C]
  {
    assert [A, B, C][1..] == [B, C];
    assert [B, C][1..] == [C];
    assert Select([C], IdOtherThan("a")) == [C];
    assert Select([B, C], IdOtherThan("a")) == [B, C];
    assert Select([C], AnyWaiting) == [C];
    assert Select([B, C], AnyWaiting) == [B, C];
  }

  lemma LeavingPromotesFirstWaiter()
    ensures Remove(Some(Game), [A, B, C], "a", true) == Applied(true, [B.(status := Confirmed), C])
  {
    DeleteFirstOfThree();
    assert Find([A, B, C], HasId("a")) == Some(A);
    assert Find([B, C], HasRole(Player)) == Some(B);
  }

  lemma WaiterSwitchPromotesNobody()
    ensures SwitchRole(Some(Game), [B.(status := Confirmed), C], "c", Goalkeeper, true)
         == Applied(Done(Confirmed), [B.(status := Confirmed), C.(role := Goalkeeper, status := Confirmed)])
  {
    var b := B.(status := Confirmed);
    assert [b, C][1..] == [C];
    assert Select([C], ConfirmedAs(Goalkeeper)) == [];
    assert ConfirmedOf([b, C], Goalkeeper) == [];
  }

  /** Switching a participant to the role it already has is not a no-op:
      the only confirmed player of a one-slot pool counts itself, is moved
      to the waiting list, and the first waiting player takes its slot. */
  lemma SameRoleSwitchIsNotIdempotent()
    ensures SwitchRole(Some(Game), [A, B], "a", Player, true)
         == Applied(Done(Waiting), [A.(status := Waiting), B.(status := Confirmed)])
  {
    assert [A, B][1..] == [B];
    assert Select([B], ConfirmedAs(Player)) == [];
    assert ConfirmedOf([A, B], Player) == [A];
    assert Select([B], AnyWaiting) == [B];
    assert WaitingList([A, B]) == [B];
  }
}
