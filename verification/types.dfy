/** The records of the application's data model (events and their
    participants), reduced to the fields the roster logic reads. */
module Types {
  import opened Wrappers

  datatype Role = Player | Goalkeeper

  datatype Status = Confirmed | Waiting

  /** One claim on a slot of an event. `createdAt` is the arrival
      timestamp the roster is ordered by; `userId` is `None` for a
      participant who joined under a free-text name only. */
  datatype Participant = Participant(
    id: string,
    eventId: string,
    userId: Option<string>,
    name: string,
    role: Role,
    status: Status,
    createdAt: int)

  /** An event with its two independent capacities. */
  datatype Event = Event(
    id: string,
    organizerId: string,
    playerLimit: int,
    goalkeeperLimit: int,
    isOpen: bool)

  /** The capacity of `role`'s confirmed pool. */
  function Limit(e: Event, role: Role): int {
    match role
    case Player => e.playerLimit
    case Goalkeeper => e.goalkeeperLimit
  }
}
