# Game-day roster: a Dafny model

Game On ("bora jogar") is a small web app for organising pickup football games.
An organizer creates an event with a player limit and a goalkeeper limit.
People join under a name and a role (player or goalkeeper). Each joiner is
confirmed while their role's pool has room, and goes on a shared waiting list
once it is full. When a confirmed participant leaves or changes role, the
earliest waiter of the freed role is promoted.

This project models, as pure Dafny functions with proved contracts:

- the roster engine of the event hook:
  - the views: confirmed players, confirmed goalkeepers, the waiting list and `canJoin`;
  - joining (`addParticipant`), with its validation ladder;
  - leaving with promotion (`removeParticipant`);
  - role switching with promotion (`switchRole`);
- the CPF and phone input masks of the participant sign-up page, and the
  display formatters of the organizer's participant-details dialog;
- the translation of sign-in error messages;
- the participant card's permission rule (`canModify`) and its role toggle;
- the event form: adding and removing rules, validating the required fields,
  the stored event payload and the numbered rule rows;
- the server function that returns a participant's personal data to the event
  organizer, as its full ladder of checks and responses.

Each database write is modelled by its effect on the in-memory roster.
A boolean `stored` says whether the first write (insert, delete or update)
succeeded. The roster is a `seq<Participant>` in `created_at` order, as the
hook fetches it. Deletes and updates act on every row with the given id, as
the database does. `RosterProps` also defines reference post-states by position (`Removed`, `Switched`). `RemoveSpec` and `SwitchSpec` prove that the operations produce exactly these. They assume unique ids, because `id` is the table's primary key.

Main properties proved:

- With a single writer whose snapshot is current, no operation pushes a
  confirmed pool over its limit (`WithinCapacity` is preserved by join,
  remove and switch).
- Operations keep ids unique and the roster in arrival order.
- Promotion picks the earliest waiter of the freed role.
- The three views partition the roster.
- Both input masks keep exactly the first eleven digits typed, and are idempotent.
- The display formatters reproduce the input masks' layout for a full CPF and
  an 11-digit mobile number.
- Saving rules and loading them back returns the same list.
- Personal data reaches only the organizer of the participant's event.

Behaviours of the code worth knowing, stated as lemmas:

- `switchRole` does not require the new role to differ from the old one, and
  switching to the role already held is not a no-op.
  `RosterScenarios.SameRoleSwitchIsNotIdempotent` shows it. With a one-player
  limit, the confirmed player who "switches" to player counts themself in the
  full pool. They are moved to the waiting list, and the first waiter takes
  their place. The card's button always asks for the other role
  (`ParticipantCard.OtherRole`), so the app never issues such a call.
  The model keeps `SwitchRole` total and proves the capacity invariant for
  every new role.
- Joining never reads the event's `is_open` flag (`RosterProps.JoinIgnoresIsOpen`).
- For a 10-digit number, the sign-up mask and the details dialog disagree.
  The mask gives `(dd) ddddd-ddd` and the dialog gives `(dd) dddd-dddd`
  (`DisplayFormat.LandlineLayoutsDiffer`).

## Model

| member | source | states |
|---|---|---|
| Text.Digits | src/pages/ParticipantAuth.tsx:18 | stripping non-digits yields only digits and never lengthens the text |
| Text.Trim | src/hooks/useEvent.ts:102 | the trimmed text is empty exactly when the input is all white space; otherwise it starts and ends with a non-space; it is the stretch of the input that begins right after the leading white space, and everything after it is white space |
| Text.LeadingSpace | src/hooks/useEvent.ts:102 | the count of leading characters `trim` removes: all of them are white space, and the character after them is not |
| Text.TrailingSpace | src/hooks/useEvent.ts:102 | the count of trailing characters `trim` removes: all of them are white space, and the character before them is not |
| Text.Lower | src/hooks/useEvent.ts:119 | lower-casing keeps the length, maps each character to its lower-case form and leaves no upper-case ASCII letter |
| Roster.Select | src/hooks/useEvent.ts:80-87 | a view holds exactly the participants its selector accepts, as a subsequence of the roster (order kept) |
| Roster.ConfirmedPlayers | src/hooks/useEvent.ts:80-81 | the view holds exactly the roster's participants that are confirmed players |
| Roster.ConfirmedGoalkeepers | src/hooks/useEvent.ts:83-84 | the view holds exactly the roster's participants that are confirmed goalkeepers |
| Roster.WaitingList | src/hooks/useEvent.ts:86-87 | the view holds exactly the roster's waiting participants, of both roles |
| Roster.CanJoin | src/hooks/useEvent.ts:89-97 | nobody can join before the event loads; afterwards a player can exactly when fewer players are confirmed than the player limit, and a goalkeeper exactly when fewer goalkeepers are confirmed than the goalkeeper limit |
| Roster.First | src/hooks/useEvent.ts:181 | `find` returns the least index whose participant matches, and nothing earlier matches |
| Roster.FindFinds | src/hooks/useEvent.ts:110 | `find` returns a participant exactly when some participant matches, and the one it returns matches |
| Roster.Join | src/hooks/useEvent.ts:99-165 | failures come in the source's order (no event, blank name, user already joined, name taken ignoring case, write failed) and leave the roster unchanged; a success appends one participant with the trimmed name, confirmed exactly when the role's confirmed count is below its limit |
| Roster.Remove | src/hooks/useEvent.ts:167-198 | a failed delete changes nothing; a successful one leaves no participant with the id, never grows the roster, and an absent id changes nothing |
| Roster.DeletedStayDeleted | src/hooks/useEvent.ts:171-187 | promoting by id after the delete cannot bring the deleted id back |
| Roster.SwitchRole | src/hooks/useEvent.ts:200-244 | no event or an unknown id fails without change; success keeps the roster's length, and the new status is confirmed exactly when the new role's count, before the update, is below its limit |
| RosterProps.RemoveSpec | src/hooks/useEvent.ts:167-198 | removing participant k yields the reference roster `Removed`: the roster without position k, after the earliest waiter of k's role was confirmed when k was confirmed and the event is loaded; k itself is never the promoted one |
| RosterProps.SwitchSpec | src/hooks/useEvent.ts:200-244 | switching participant k succeeds with the status `SwitchStatus` (room in the new pool before the update) and yields the reference roster `Switched`: position k rewritten in place and, if k was confirmed, the earliest waiter of k's old role confirmed |
| RosterProps.SwitchPromotesFirstOfOldRole | src/hooks/useEvent.ts:222-231 | when the role changes, the waiter found on the pre-update list is also the first waiter of the old role after the update |
| RosterProps.PromotionIsFifo | src/hooks/useEvent.ts:180-181 | on a roster in arrival order, the promoted waiter arrived no later than any other waiter of that role |
| RosterProps.ViewsPartition | src/hooks/useEvent.ts:80-87 | confirmed players, confirmed goalkeepers and the waiting list together account for every participant exactly once |
| RosterProps.CannotJoinIffFull | src/hooks/useEvent.ts:89-97 | within capacity, a role is closed to confirmed joining exactly when its pool is at its limit; nothing can join before the event loads |
| RosterProps.JoinIgnoresIsOpen | src/hooks/useEvent.ts:99-132 | a join's outcome and resulting roster are the same whether the event is open or closed |
| RosterProps.JoinKeepsCapacity | src/hooks/useEvent.ts:126-132 | joining never takes a confirmed pool past its limit |
| RosterProps.RemovedNeverGrows | src/hooks/useEvent.ts:179-188 | on the reference roster, removing a participant never increases either confirmed count |
| RosterProps.RemoveNeverGrowsPools | src/hooks/useEvent.ts:178-189 | a removal never increases the confirmed count of either role |
| RosterProps.RemoveKeepsCapacity | src/hooks/useEvent.ts:178-189 | removal with promotion keeps both pools within their limits |
| RosterProps.SwitchedWithinLimit | src/hooks/useEvent.ts:207-231 | on the reference roster, a switch to either role keeps each pool within its limit |
| RosterProps.SwitchKeepsCapacity | src/hooks/useEvent.ts:206-231 | a role switch, to either role, keeps both pools within their limits |
| RosterProps.JoinKeepsInvariants | src/hooks/useEvent.ts:25-29 | with a fresh id and the latest timestamp, joining keeps ids unique and the roster in arrival order |
| RosterProps.RemoveKeepsInvariants | src/hooks/useEvent.ts:167-198 | removal keeps ids unique and the roster in arrival order |
| RosterProps.SwitchKeepsInvariants | src/hooks/useEvent.ts:200-244 | a role switch keeps ids unique and the roster in arrival order |
| RosterScenarios.FirstJoinIsConfirmed | src/hooks/useEvent.ts:126-132 | the first player of a one-player event is confirmed |
| RosterScenarios.SecondJoinWaits | src/hooks/useEvent.ts:126-132 | the second player of a one-player event waits |
| RosterScenarios.ThirdJoinWaitsBehind | src/hooks/useEvent.ts:126-132 | a third player waits behind the second |
| RosterScenarios.LeavingPromotesFirstWaiter | src/hooks/useEvent.ts:178-189 | when the confirmed player leaves, the earlier of two waiters is promoted and the later keeps waiting |
| RosterScenarios.WaiterSwitchPromotesNobody | src/hooks/useEvent.ts:222-231 | a waiting participant who switches role frees no place, so nobody is promoted |
| RosterScenarios.SameRoleSwitchIsNotIdempotent | src/hooks/useEvent.ts:206-231 | switching a confirmed player to player in a full pool demotes them and promotes the first waiter |
| InputMasks.FormatCpf | src/pages/ParticipantAuth.tsx:17-24 | the masked CPF carries exactly the first 11 digits typed, with '.' after the 3rd and 6th digit and '-' after the 9th when more digits follow; it is at most 14 long and exactly 14 once 11 digits are typed |
| InputMasks.FormatCpfIdempotent | src/pages/ParticipantAuth.tsx:17-24 | masking an already masked CPF changes nothing |
| InputMasks.FormatPhone | src/pages/ParticipantAuth.tsx:26-31 | the masked phone carries exactly the first 11 digits typed, with "(dd) " around the area code from the 3rd digit on and '-' after the 7th when more follow; it is at most 15 long |
| InputMasks.FormatPhoneIdempotent | src/pages/ParticipantAuth.tsx:26-31 | masking an already masked phone changes nothing |
| DisplayFormat.FormatCpf | src/components/ParticipantDetailsModal.tsx:25-28 | a stored CPF of other than 11 characters is shown as is; an 11-character one gains '.', '.', '-' at positions 3, 7, 11, and dropping them gives the stored value back |
| DisplayFormat.FormatPhone | src/components/ParticipantDetailsModal.tsx:30-40 | 11 digits show as "(dd) ddddd-dddd", 10 as "(dd) dddd-dddd", both with the same digits; any other count leaves the phone as stored |
| DisplayFormat.FormatPhoneIdempotent | src/components/ParticipantDetailsModal.tsx:30-40 | formatting a formatted phone changes nothing |
| DisplayFormat.StoredCpfShowsAsTyped | src/components/ParticipantDetailsModal.tsx:25-28 | a complete CPF, stored as its digits, is displayed exactly as the sign-up mask showed it |
| DisplayFormat.StoredPhoneShowsAsTyped | src/components/ParticipantDetailsModal.tsx:33-35 | an 11-digit phone, stored as its digits, is displayed exactly as the sign-up mask showed it |
| DisplayFormat.LandlineLayoutsDiffer | src/components/ParticipantDetailsModal.tsx:36-38 | for exactly 10 digits, the details dialog's layout differs from the sign-up mask's |
| SignInErrors.GetErrorMessage | src/shared/errors/sign-in.ts:1-21 | each of the five known messages gets its translation from the table, any other the generic fallback; the result is never empty |
| SignInErrors.TranslationsAreDistinct | src/shared/errors/sign-in.ts:2-19 | different known messages show different texts, none equal to the fallback |
| ParticipantCard.IsCurrentUser | src/components/ParticipantCard.tsx:23 | with no current name the card is never the user's; otherwise it is exactly when the two names have the same length and agree character by character once lower-cased |
| ParticipantCard.CanModify | src/components/ParticipantCard.tsx:23-24 | the organizer may always act; anyone else exactly when their name equals the participant's ignoring case; with no current name only the organizer may |
| ParticipantCard.OtherRole | src/components/ParticipantCard.tsx:26 | the toggle always yields a different role |
| ParticipantCard.OtherRoleInvolutive | src/components/ParticipantCard.tsx:26 | toggling twice gives the original role |
| ParticipantCard.NewcomerIsOnlyCurrentUser | src/hooks/useEvent.ts:117-124 | after a successful join, the trimmed name picks out the newcomer's card and no other |
| ParticipantCard.CardSwitchChangesPool | src/components/ParticipantCard.tsx:26 | a switch requested by the card succeeds for a listed participant and changes their role in place |
| EventForm.AddRule | src/pages/EventForm.tsx:90-95 | a blank box changes nothing; otherwise the trimmed text, non-empty and without surrounding space, is appended after the unchanged rules and the box is cleared |
| EventForm.AddRuleKeepsClean | src/pages/EventForm.tsx:90-95 | adding keeps every rule non-empty and trimmed |
| EventForm.RemoveRule | src/pages/EventForm.tsx:97-99 | the rule at an in-range index is dropped and the others keep their order; an out-of-range index changes nothing |
| EventForm.RemoveRuleKeepsClean | src/pages/EventForm.tsx:97-99 | removing keeps every rule non-empty and trimmed |
| EventForm.RowsFrom | src/pages/EventForm.tsx:157-161 | one row per rule, with the event id, the rule's text and consecutive order indexes |
| EventForm.RowsToInsert | src/pages/EventForm.tsx:156-161 | a row per rule numbered by position, and no rows without an event id |
| EventForm.RulesRoundTrip | src/pages/EventForm.tsx:73-80 | the rows written are already in order-index order, and reading their texts back gives the rules |
| EventForm.Clean | src/pages/EventForm.tsx:123 | a field that is all white space becomes null; any other becomes its trimmed text, non-empty and without surrounding space |
| EventForm.Submit | src/pages/EventForm.tsx:105-127 | submission is refused exactly when the name or location is blank or the date or time is empty; otherwise the stored name and location are the trimmed name and location, the map link is the trimmed link or null when blank, and date, time, limits and the open flag are stored as entered |
| EventForm.SubmitIdempotent | src/pages/EventForm.tsx:64-71 | loading a saved event into the form and saving again stores the same fields |
| ParticipantDetails.Handle | supabase/functions/get-participant-details/index.ts:8-163 | preflight gets an empty 200; a missing header or unknown token gets 401; a body that is not JSON gets 500 and a missing participant id 400; details are returned exactly when the caller organizes the participant's event and no profile read failed, with the profile's name, CPF, creation time and its possibly null cellphone passed through unchanged when a profile exists, and the bare name otherwise |
| ParticipantDetails.ForParticipant | supabase/functions/get-participant-details/index.ts:54-154 | a failed participant read gives 500, a missing participant 404, a failed or missing event 404, a caller other than the organizer 403, and a failed profile read for a participant with a user 500; details come back exactly when participant and event are found, the caller is the organizer and no needed read failed, and they carry the profile's fields (the cellphone as stored, possibly null) when the participant's user has a profile, the bare name otherwise |
| ParticipantDetails.CpfOnlyForOrganizer | supabase/functions/get-participant-details/index.ts:91-154 | a CPF is only ever returned to the organizer of the participant's event, and it is that participant's user's CPF |
| ParticipantDetails.OthersAreForbidden | supabase/functions/get-participant-details/index.ts:91-98 | a signed-in caller who does not organize the event gets 403 once the participant and event are found |

## Left out

- Database, network and UI effects are not modelled: toasts, navigation, logging, loading and saving flags. Each write is represented by its effect on the roster or by the rows it would write.
- The hook's fetch and the realtime subscription (src/hooks/useEvent.ts:12-78) are not modelled. The roster is an input, already in `created_at` order.
- Concurrent clients are not modelled. Each operation assumes a single writer whose snapshot (src/hooks/useEvent.ts:8, 25-32) is the database's current contents. In the application, each browser checks capacity and duplicate names against its own copy, then writes without a transaction (src/hooks/useEvent.ts:117-143, 206-218). Two clients that both see one free slot can both insert a confirmed participant and overfill the pool. The capacity and uniqueness results hold only for the single-writer case.
- The promotion updates' own failures are not modelled (src/hooks/useEvent.ts:184-187 and 226-229). The source ignores their result, so the model assumes they succeed.
- Roster.Join: the unique-violation branch (code 23505) and every other insert error are both reported as `StoreFailed`. The model does not tell them apart, because both return false without a change.
- Roster.Join: the new row takes the loaded event's id. The hook's `eventId` argument, which names the same event, and its `!eventId` guard are not modelled separately.
- Roster.Join: the new participant's id and `created_at` are parameters, because the database generates them.
- DisplayFormat.FormatCpf: lengths and slices count Unicode code points, while JavaScript's `length` and `slice` (src/components/ParticipantDetailsModal.tsx:26-27) count UTF-16 code units. A stored value with a character outside the Basic Multilingual Plane can therefore be reformatted by the model and left alone by the application, or the reverse. The app stores only ASCII digits (src/pages/ParticipantAuth.tsx:151), so this does not arise there.
- Text.Lower: case-insensitive name comparison folds ASCII letters only. JavaScript's full Unicode `toLowerCase` is not modelled.
- CPF check-digit validation and the sign-up and sign-in flows of the participant page are not part of this model.
- EventForm.Submit: the signed-in-user guard (line 103) is not modelled. Nor is the choice between update and insert, the deletion of old rules when editing, or write errors. The model covers the validation and the payload only.
- ParticipantDetails.Handle: CORS headers and environment variables are not modelled. A `participantId` that is a JSON value other than a string is not modelled. Of the failures that reach the catch-all 500, only a body that is not JSON is modelled.
