/** The server function that shows an event's organizer the personal data
    (CPF, phone) a participant registered with. Every request goes down one
    ladder of checks; the first that fails decides the response. */
module ParticipantDetails {
  import opened Wrappers

  /** A participant row as the function selects it. */
  datatype ParticipantRow = ParticipantRow(id: string, eventId: string, userId: Option<string>, name: string)

  /** A participant profile row, keyed by the user it belongs to; the
      cellphone column is nullable. */
  datatype Profile = Profile(fullName: string, cpf: string, cellphone: Option<string>, createdAt: string)

  /** The three tables the function reads, each keyed by the column it
      filters on, and whether reading each one fails. */
  datatype Store = Store(
    participants: map<string, ParticipantRow>,
    organizers: map<string, string>,
    profiles: map<string, Profile>,
    participantsFail: bool,
    eventsFail: bool,
    profilesFail: bool)

  /** The body of the request as parsed; `Unparsable` when it is not JSON. */
  datatype RequestBody = Unparsable | Body(participantId: Option<string>)

  /** The parts of an incoming request the function looks at. `caller` is
      the user the authorization token resolves to, `None` when it does
      not resolve. */
  datatype Request = Request(httpMethod: string, authorization: Option<string>,
                             caller: Option<string>, body: RequestBody)

  datatype Payload =
    | NoContent
    | Failure(message: string)
    | Details(participantId: string, fullName: string, cpf: Option<string>,
              cellphone: Option<string>, profileCreatedAt: Option<string>, hasProfile: bool)

  datatype Response = Response(status: int, payload: Payload)

  /** JavaScript truthiness of an optional string: present and non-empty. */
  predicate Truthy(s: Option<string>) {
    s.Some? && s.value != ""
  }

  /** Everything that must hold for the caller to see a participant: a
      signed-in caller, a named participant that exists, in an event that
      exists and that the caller organizes. */
  ghost predicate Authorized(req: Request, store: Store) {
    && req.httpMethod != "OPTIONS"
    && Truthy(req.authorization)
    && req.caller.Some?
    && req.body.Body?
    && Truthy(req.body.participantId)
    && !store.participantsFail
    && req.body.participantId.value in store.participants
    && !store.eventsFail
    && store.participants[req.body.participantId.value].eventId in store.organizers
    && store.organizers[store.participants[req.body.participantId.value].eventId] == req.caller.value
  }

  function Fail(status: int, message: string): Response {
    Response(status, Failure(message))
  }

  /** The request handler. */
  function Handle(req: Request, store: Store): (r: Response)
    ensures req.httpMethod == "OPTIONS" ==> r == Response(200, NoContent)
    ensures req.httpMethod != "OPTIONS" && !Truthy(req.authorization) ==>
      r == Fail(401, "Missing authorization header")
    ensures req.httpMethod != "OPTIONS" && Truthy(req.authorization) && req.caller.None? ==>
      r == Fail(401, "Unauthorized")
    ensures req.httpMethod != "OPTIONS" && Truthy(req.authorization) && req.caller.Some? && req.body.Unparsable? ==>
      r == Fail(500, "Internal server error")
    ensures req.httpMethod != "OPTIONS" && Truthy(req.authorization) && req.caller.Some? && req.body.Body?
            && !Truthy(req.body.participantId) ==>
      r == Fail(400, "Missing participantId")
    ensures r.payload.NoContent? <==> req.httpMethod == "OPTIONS"
    ensures r.payload.Failure? ==> r.status in {400, 401, 403, 404, 500}
    ensures r.payload.Details? <==> Authorized(req, store) && !(Truthy(store.participants[req.body.participantId.value].userId) && store.profilesFail)
    ensures r.payload.Details? ==>
      && r.status == 200
      && var p := store.participants[req.body.participantId.value];
      && r.payload.participantId == p.id
      && (r.payload.hasProfile <==> Truthy(p.userId) && p.userId.value in store.profiles)
      && (r.payload.hasProfile ==>
            var profile := store.profiles[p.userId.value];
            && r.payload == Details(p.id, profile.fullName, Some(profile.cpf), profile.cellphone,
                                    Some(profile.createdAt), true)
            && r.payload.cellphone == profile.cellphone)
      && (!r.payload.hasProfile ==> r.payload == Details(p.id, p.name, None, None, None, false))
  {
    if req.httpMethod == "OPTIONS" then Response(200, NoContent)
    else if !Truthy(req.authorization) then Fail(401, "Missing authorization header")
    else if req.caller.None? then Fail(401, "Unauthorized")
    else if req.body.Unparsable? then Fail(500, "Internal server error")
    else if !Truthy(req.body.participantId) then Fail(400, "Missing participantId")
    else ForParticipant(req.caller.value, req.body.participantId.value, store)
  }

  /** The part of the ladder after the request itself has been checked. */
  function ForParticipant(caller: string, participantId: string, store: Store): (r: Response)
    ensures r.payload.Details? ==> r.status == 200
    ensures r.payload.Failure? ==> r.status in {403, 404, 500}
    ensures !r.payload.NoContent?
    ensures store.participantsFail ==> r == Fail(500, "Failed to fetch participant")
    ensures !store.participantsFail && participantId !in store.participants ==>
      r == Fail(404, "Participant not found")
    ensures !store.participantsFail && participantId in store.participants ==>
      var p := store.participants[participantId];
      && (store.eventsFail || p.eventId !in store.organizers ==> r == Fail(404, "Event not found"))
      && (!store.eventsFail && p.eventId in store.organizers && store.organizers[p.eventId] != caller ==>
            r == Fail(403, "Only the event organizer can view participant details"))
      && (!store.eventsFail && p.eventId in store.organizers && store.organizers[p.eventId] == caller
          && Truthy(p.userId) && store.profilesFail ==>
            r == Fail(500, "Failed to fetch participant profile"))
    ensures r.payload.Details? <==>
      && !store.participantsFail
      && participantId in store.participants
      && !store.eventsFail
      && store.participants[participantId].eventId in store.organizers
      && store.organizers[store.participants[participantId].eventId] == caller
      && !(Truthy(store.participants[participantId].userId) && store.profilesFail)
    ensures r.payload.Details? ==>
      var p := store.participants[participantId];
      && r.payload.participantId == p.id
      && (r.payload.hasProfile <==> Truthy(p.userId) && p.userId.value in store.profiles)
      && (r.payload.hasProfile ==>
            var profile := store.profiles[p.userId.value];
            && r.payload.fullName == profile.fullName && r.payload.cpf == Some(profile.cpf)
            && r.payload.cellphone == profile.cellphone
            && r.payload.profileCreatedAt == Some(profile.createdAt))
      && (!r.payload.hasProfile ==> r.payload == Details(p.id, p.name, None, None, None, false))
  {
    if store.participantsFail then Fail(500, "Failed to fetch participant")
    else if participantId !in store.participants then Fail(404, "Participant not found")
    else
      var p := store.participants[participantId];
      if store.eventsFail || p.eventId !in store.organizers then Fail(404, "Event not found")
      else if store.organizers[p.eventId] != caller then
        Fail(403, "Only the event organizer can view participant details")
      else if !Truthy(p.userId) then Response(200, Details(p.id, p.name, None, None, None, false))
      else if store.profilesFail then Fail(500, "Failed to fetch participant profile")
      else if p.userId.value !in store.profiles then Response(200, Details(p.id, p.name, None, None, None, false))
      else
        var profile := store.profiles[p.userId.value];
        Response(200, Details(p.id, profile.fullName, Some(profile.cpf), profile.cellphone,
                              Some(profile.createdAt), true))
  }

  /** Personal data leaves the function only for the organizer of the
      participant's event, and only the data of that participant's user. */
  lemma CpfOnlyForOrganizer(req: Request, store: Store)
    requires Handle(req, store).payload.Details? && Handle(req, store).payload.cpf.Some?
    ensures req.caller.Some? && req.body.Body? && req.body.participantId.Some?
    ensures var p := store.participants[req.body.participantId.value];
      && store.organizers[p.eventId] == req.caller.value
      && p.userId.Some? && Handle(req, store).payload.cpf.value == store.profiles[p.userId.value].cpf
  {
  }

  /** Whoever is not the organizer gets 403 once the participant and the
      event have been found, whatever the profile tables hold. */
  lemma OthersAreForbidden(req: Request, store: Store)
    requires req.httpMethod != "OPTIONS" && Truthy(req.authorization) && req.caller.Some?
    requires req.body.Body? && Truthy(req.body.participantId)
    requires !store.participantsFail && req.body.participantId.value in store.participants
    requires !store.eventsFail && store.participants[req.body.participantId.value].eventId in store.organizers
    requires store.organizers[store.participants[req.body.participantId.value].eventId] != req.caller.value
    ensures Handle(req, store) == Fail(403, "Only the event organizer can view participant details")
  {
  }
}
