/** The per-participant card of the roster list: who may act on it, and
    the role its switch button asks for. */
module ParticipantCard {
  import opened Wrappers
  import opened Text
  import opened Types
  import Roster
  import RosterProps

  /** `isCurrentUser`: the name this browser joined under (if any) equals the
      participant's name, ignoring case. */
  function IsCurrentUser(currentName: Option<string>, p: Participant): (r: bool)
    ensures currentName.None? ==> !r
    ensures currentName.Some? ==>
      (r <==> |currentName.value| == |p.name|
              && forall i :: 0 <= i < |p.name| ==> LowerChar(currentName.value[i]) == LowerChar(p.name[i]))
  {
    if currentName.None? then false
    else
      var a, b := Lower(currentName.value), Lower(p.name);
      assert a == b <==> |a| == |b| && forall i :: 0 <= i < |a| ==> a[i] == b[i];
      SameIgnoringCase(currentName.value, p.name)
  }

  /** `canModify`: the organizer may act on every card, anyone else only on
      the card carrying their own name. */
  function CanModify(isOrganizer: bool, currentName: Option<string>, p: Participant): (r: bool)
    ensures isOrganizer ==> r
    ensures !isOrganizer ==> (r <==> currentName.Some? && Lower(currentName.value) == Lower(p.name))
    ensures currentName.None? ==> (r <==> isOrganizer)
  {
    isOrganizer || IsCurrentUser(currentName, p)
  }

  /** `newRole`: the role the switch button requests. */
  function OtherRole(role: Role): (r: Role)
    ensures r != role
  {
    if role == Player then Goalkeeper else Player
  }

  lemma OtherRoleInvolutive(role: Role)
    ensures OtherRole(OtherRole(role)) == role
  {
  }

  /** After a successful join under `name`, the trimmed name picks out the
      newcomer's card and no other: the duplicate-name check of the join is
      what makes "current user" unambiguous. */
  lemma NewcomerIsOnlyCurrentUser(e: Event, s: seq<Participant>, name: string, role: Role,
                                  userId: Option<string>, newId: string, createdAt: int)
    requires Roster.Join(Some(e), s, name, role, userId, newId, createdAt, true).result.Done?
    ensures var after := Roster.Join(Some(e), s, name, role, userId, newId, createdAt, true).roster;
      forall i :: 0 <= i < |after| ==> (IsCurrentUser(Some(Trim(name)), after[i]) <==> i == |s|)
  {
    var after := Roster.Join(Some(e), s, name, role, userId, newId, createdAt, true).roster;
    forall i | 0 <= i < |s|
      ensures !IsCurrentUser(Some(Trim(name)), after[i])
    {
      assert after[i] == s[i];
      assert s[i] in s;
    }
  }

  /** The card's switch button always succeeds for a listed participant
      and moves them to the other pool, in place. */
  lemma CardSwitchChangesPool(e: Event, s: seq<Participant>, k: nat)
    requires RosterProps.UniqueIds(s) && k < |s|
    ensures var r := Roster.SwitchRole(Some(e), s, s[k].id, OtherRole(s[k].role), true);
      && r.result.Done?
      && r.roster[k].role != s[k].role
      && r.roster[k].id == s[k].id
  {
    RosterProps.SwitchSpec(e, s, k, OtherRole(s[k].role));
  }
}
