/** The event handlers that carry decisions: registration, invitations,
    reviews and the filter query. The database tables they touch are maps
    keyed as the tables' unique indexes are: registrations by (event, user),
    invitations by (event, receiver). */
module Events {
  import opened Js
  import opened Schema
  import opened EventValidators

  // ---------------------------------------------------------------------
  // The filter query

  /** One entry of the `AND` list handed to the database; `MatchAll` is `{}`. */
  datatype Clause =
    | MatchAll
    | NameContains(name: string)
    | CityEquals(city: string)
    | PriceEquals(price: nat)
    | KeywordsHasSome(keywords: seq<string>)

  /** `filter`: one clause per field, present only when the field is truthy.
      `city` is read from the parsed query, which has no such key, so it is
      always undefined; `venue` is parsed but never read. */
  function FilterConditions(d: FilterData): (r: seq<Clause>)
    ensures |r| == 4
    ensures forall i :: 0 <= i < |r| ==> !r[i].CityEquals?
    ensures r[0] != MatchAll <==> TruthyString(d.name)
    ensures r[0] != MatchAll ==> r[0] == NameContains(d.name.value)
    ensures r[1] == MatchAll
    ensures r[2] != MatchAll <==> d.price.Some? && d.price.value != 0
    ensures r[2] != MatchAll ==> r[2] == PriceEquals(d.price.value)
    ensures r[3] != MatchAll <==> d.keywords.Some? && |d.keywords.value| > 0
    ensures r[3] != MatchAll ==> r[3] == KeywordsHasSome(d.keywords.value)
  {
    var city: Option<string> := None;
    [ if TruthyString(d.name) then NameContains(d.name.value) else MatchAll,
      if TruthyString(city) then CityEquals(city.value) else MatchAll,
      if d.price.Some? && d.price.value != 0 then PriceEquals(d.price.value) else MatchAll,
      if d.keywords.Some? && |d.keywords.value| > 0 then KeywordsHasSome(d.keywords.value) else MatchAll ]
  }

  /** The venue of the query does not influence the conditions. */
  lemma VenueIgnored(d: FilterData, venue: Option<string>)
    ensures FilterConditions(d.(venue := venue)) == FilterConditions(d)
  {
  }

  /** A price written as zeros ("0", "00", ...) filters nothing. */
  lemma ZeroPriceFiltersNothing(q: FilterQuery)
    requires ParseFilter(q).Ok? && q.price.Some? && |q.price.value| > 0
    requires forall i :: 0 <= i < |q.price.value| ==> q.price.value[i] == '0'
    ensures FilterConditions(ParseFilter(q).value)[2] == MatchAll
  {
    ZerosValue(q.price.value);
  }

  /** A string of zeros reads as 0. */
  lemma {:induction false} ZerosValue(z: string)
    requires forall i :: 0 <= i < |z| ==> z[i] == '0'
    ensures forall i :: 0 <= i < |z| ==> IsDigit(z[i])
    ensures DigitsValue(z) == 0
  {
    if z != [] {
      ZerosValue(z[..|z| - 1]);
    }
  }

  /** Any keyword string, even an empty one, yields a keyword clause
      (splitting never gives an empty list). */
  lemma KeywordsAlwaysFilter(q: FilterQuery)
    requires ParseFilter(q).Ok? && q.keywords.Some?
    ensures FilterConditions(ParseFilter(q).value)[3] == KeywordsHasSome(ParseKeywords(q.keywords.value))
  {
  }

  // ---------------------------------------------------------------------
  // The stored rows

  /** An invitation row; its key is (event, receiver). */
  datatype Invitation = Invitation(sender: UserId, status: InvitationStatus)

  /** One element of the `reviews` array of a review submission. */
  datatype ReviewInput = ReviewInput(id: string, rating: int, message: Option<string>)

  /** A review row. */
  datatype ReviewRow = ReviewRow(eventId: EventId, userId: UserId, categoryId: string, rating: int, comment: Option<string>)

  datatype EventError =
    | EventIdNotFound
    | Unauthorized
    | InvalidInputs
    | RecordNotFound
    | NotRegistered
    | InvitationAlreadySent
    | NoPendingInvitation
    | ReviewsRequired
    | AlreadySubmitted

  datatype RegisterOutcome = AlreadyRegistered(status: RegistrationStatus) | Registered

  /** Some review row of `userId` for `eventId` exists. */
  predicate HasReview(rows: seq<ReviewRow>, eventId: EventId, userId: UserId) {
    exists i :: 0 <= i < |rows| && rows[i].eventId == eventId && rows[i].userId == userId
  }

  /** `reviews.map(...)`: one row per submitted entry, in order. */
  function ReviewRows(eventId: EventId, userId: UserId, inputs: seq<ReviewInput>): (rows: seq<ReviewRow>)
    ensures |rows| == |inputs|
    ensures forall i :: 0 <= i < |rows| ==>
              rows[i] == ReviewRow(eventId, userId, inputs[i].id, inputs[i].rating, inputs[i].message)
  {
    seq(|inputs|, i requires 0 <= i < |inputs| => ReviewRow(eventId, userId, inputs[i].id, inputs[i].rating, inputs[i].message))
  }

  // ---------------------------------------------------------------------
  // The handlers

  class EventsDb {
    var registrations: map<(EventId, UserId), RegistrationStatus>
    var invitations: map<(EventId, UserId), Invitation>
    var reviews: seq<ReviewRow>
    /** The `userId` column of each event row that `register` overwrites. */
    var eventUser: map<EventId, UserId>

    /** What the guards of the handlers keep true of the tables: no row is
        keyed by an empty id, every invitation has a sender, and every
        review belongs to an event. It is an invariant that every handler
        preserves; no handler needs it to hold beforehand. */
    ghost predicate Valid()
      reads this
    {
      && (forall k :: k in registrations ==> k.0 != "" && k.1 != "")
      && (forall k :: k in invitations ==> k.0 != "" && k.1 != "" && invitations[k].sender != "")
      && (forall i :: 0 <= i < |reviews| ==> reviews[i].eventId != "")
    }

    constructor ()
      ensures registrations == map[] && invitations == map[] && reviews == [] && eventUser == map[]
      ensures Valid()
    {
      registrations := map[];
      invitations := map[];
      reviews := [];
      eventUser := map[];
    }

    /** `register`: an existing registration is reported with its status;
        otherwise a pending one is created and the event's `userId` is
        overwritten with the registrant. */
    method Register(eventId: EventId, userId: UserId) returns (r: Result<RegisterOutcome, EventError>)
      modifies this
      ensures invitations == old(invitations) && reviews == old(reviews)
      ensures eventId == "" ==> r == Err(EventIdNotFound)
      ensures eventId != "" && userId == "" ==> r == Err(Unauthorized)
      ensures (eventId, userId) in old(registrations) && eventId != "" && userId != "" ==>
                r == Ok(AlreadyRegistered(old(registrations)[(eventId, userId)]))
      ensures r == Ok(Registered) <==> eventId != "" && userId != "" && (eventId, userId) !in old(registrations)
      ensures r == Ok(Registered) ==> registrations == old(registrations)[(eventId, userId) := Pending]
                                      && eventUser == old(eventUser)[eventId := userId]
      ensures r != Ok(Registered) ==> registrations == old(registrations) && eventUser == old(eventUser)
      ensures old(Valid()) ==> Valid()
    {
      if eventId == "" {
        return Err(EventIdNotFound);
      }
      if userId == "" {
        return Err(Unauthorized);
      }
      if (eventId, userId) in registrations {
        return Ok(AlreadyRegistered(registrations[(eventId, userId)]));
      }
      registrations := registrations[(eventId, userId) := Pending];
      eventUser := eventUser[eventId := userId];
      r := Ok(Registered);
    }

    /** `checkRegisteredUser`: whether the (event, user) registration exists. */
    method CheckRegisteredUser(eventId: EventId, userId: UserId) returns (r: Result<bool, EventError>)
      ensures r.Err? <==> userId == "" || eventId == ""
      ensures r.Err? ==> r.error == InvalidInputs
      ensures r.Ok? ==> (r.value <==> (eventId, userId) in registrations)
    {
      if userId == "" || eventId == "" {
        return Err(InvalidInputs);
      }
      r := Ok((eventId, userId) in registrations);
    }

    /** `cancelRegistration`: deletes exactly the (event, user) registration;
        deleting a missing row fails. */
    method CancelRegistration(eventId: EventId, userId: UserId) returns (r: Result<(), EventError>)
      modifies this
      ensures invitations == old(invitations) && reviews == old(reviews) && eventUser == old(eventUser)
      ensures eventId == "" ==> r == Err(EventIdNotFound)
      ensures eventId != "" && userId == "" ==> r == Err(Unauthorized)
      ensures eventId != "" && userId != "" && (eventId, userId) !in old(registrations) ==> r == Err(RecordNotFound)
      ensures r.Ok? <==> eventId != "" && userId != "" && (eventId, userId) in old(registrations)
      ensures r.Ok? ==> registrations == old(registrations) - {(eventId, userId)}
      ensures r.Err? ==> registrations == old(registrations)
      ensures old(Valid()) ==> Valid()
    {
      if eventId == "" {
        return Err(EventIdNotFound);
      }
      if userId == "" {
        return Err(Unauthorized);
      }
      if (eventId, userId) !in registrations {
        return Err(RecordNotFound);
      }
      registrations := registrations - {(eventId, userId)};
      r := Ok(());
    }

    /** `sendInvitation`: the receiver must be registered and must not have
        been invited to the event before, whatever became of that
        invitation; the new invitation is sent by the caller and the
        receiver's registration goes back to pending. */
    method SendInvitation(userId: UserId, eventId: EventId, receiverId: UserId) returns (r: Result<(), EventError>)
      modifies this
      ensures reviews == old(reviews) && eventUser == old(eventUser)
      ensures userId == "" ==> r == Err(Unauthorized)
      ensures userId != "" && (eventId, receiverId) !in old(registrations) ==> r == Err(NotRegistered)
      ensures userId != "" && (eventId, receiverId) in old(registrations) && (eventId, receiverId) in old(invitations) ==>
                r == Err(InvitationAlreadySent)
      ensures r.Ok? <==> userId != "" && (eventId, receiverId) in old(registrations) && (eventId, receiverId) !in old(invitations)
      ensures r.Ok? ==> invitations == old(invitations)[(eventId, receiverId) := Invitation(userId, Sent)]
                        && registrations == old(registrations)[(eventId, receiverId) := Pending]
      ensures r.Err? ==> invitations == old(invitations) && registrations == old(registrations)
      ensures old(Valid()) ==> Valid()
    {
      if userId == "" {
        return Err(Unauthorized);
      }
      if (eventId, receiverId) !in registrations {
        return Err(NotRegistered);
      }
      if (eventId, receiverId) in invitations {
        return Err(InvitationAlreadySent);
      }
      invitations := invitations[(eventId, receiverId) := Invitation(userId, Sent)];
      registrations := registrations[(eventId, receiverId) := Pending];
      r := Ok(());
    }

    /** `rejectInvitation`: with the receiver registered, the invitation is
        declined and the registration rejected; updating a missing
        invitation fails before the registration is touched. The caller
        need not be the receiver. */
    method RejectInvitation(userId: UserId, eventId: EventId, receiverId: UserId) returns (r: Result<(), EventError>)
      modifies this
      ensures reviews == old(reviews) && eventUser == old(eventUser)
      ensures userId == "" ==> r == Err(Unauthorized)
      ensures userId != "" && (eventId, receiverId) !in old(registrations) ==> r == Err(NotRegistered)
      ensures userId != "" && (eventId, receiverId) in old(registrations) && (eventId, receiverId) !in old(invitations) ==>
                r == Err(RecordNotFound)
      ensures r.Ok? <==> userId != "" && (eventId, receiverId) in old(registrations) && (eventId, receiverId) in old(invitations)
      ensures r.Ok? ==> invitations == old(invitations)[(eventId, receiverId) := old(invitations)[(eventId, receiverId)].(status := Declined)]
                        && registrations == old(registrations)[(eventId, receiverId) := Rejected]
      ensures r.Err? ==> invitations == old(invitations) && registrations == old(registrations)
      ensures old(Valid()) ==> Valid()
    {
      if userId == "" {
        return Err(Unauthorized);
      }
      if (eventId, receiverId) !in registrations {
        return Err(NotRegistered);
      }
      if (eventId, receiverId) !in invitations {
        return Err(RecordNotFound);
      }
      invitations := invitations[(eventId, receiverId) := invitations[(eventId, receiverId)].(status := Declined)];
      registrations := registrations[(eventId, receiverId) := Rejected];
      r := Ok(());
    }

    /** `acceptInvitation`: a sent invitation addressed to the caller is
        accepted first; only then is the caller's registration looked up,
        so without one the call fails with the invitation already accepted. */
    method AcceptInvitation(userId: UserId, eventId: EventId) returns (r: Result<(), EventError>)
      modifies this
      ensures reviews == old(reviews) && eventUser == old(eventUser)
      ensures userId == "" ==> r == Err(Unauthorized) && invitations == old(invitations)
      ensures var k := (eventId, userId);
              userId != "" && (k !in old(invitations) || old(invitations)[k].status != Sent) ==>
                r == Err(NoPendingInvitation) && invitations == old(invitations)
      ensures var k := (eventId, userId);
              userId != "" && k in old(invitations) && old(invitations)[k].status == Sent ==>
                invitations == old(invitations)[k := old(invitations)[k].(status := Accepted)]
                && (k !in old(registrations) ==> r == Err(NotRegistered))
                && (k in old(registrations) ==> r == Ok(()))
      ensures r.Ok? ==> registrations == old(registrations)[(eventId, userId) := Approved]
      ensures r.Err? ==> registrations == old(registrations)
      ensures old(Valid()) ==> Valid()
    {
      if userId == "" {
        return Err(Unauthorized);
      }
      var k := (eventId, userId);
      if k !in invitations || invitations[k].status != Sent {
        return Err(NoPendingInvitation);
      }
      invitations := invitations[k := invitations[k].(status := Accepted)];
      if k !in registrations {
        return Err(NotRegistered);
      }
      registrations := registrations[k := Approved];
      r := Ok(());
    }

    /** `submitReview`: `userId` is the caller's id or the empty string, and
        `inputs` is `None` when the body's `reviews` is not an array. A user
        reviews an event once; every entry becomes one row. */
    method SubmitReview(userId: UserId, eventId: EventId, inputs: Option<seq<ReviewInput>>) returns (r: Result<(), EventError>)
      modifies this
      ensures registrations == old(registrations) && invitations == old(invitations) && eventUser == old(eventUser)
      ensures eventId == "" || inputs.None? || inputs.value == [] ==> r == Err(ReviewsRequired)
      ensures eventId != "" && inputs.Some? && inputs.value != [] && HasReview(old(reviews), eventId, userId) ==>
                r == Err(AlreadySubmitted)
      ensures r.Ok? <==> eventId != "" && inputs.Some? && inputs.value != [] && !HasReview(old(reviews), eventId, userId)
      ensures r.Ok? ==> reviews == old(reviews) + ReviewRows(eventId, userId, inputs.value)
      ensures r.Err? ==> reviews == old(reviews)
      ensures old(Valid()) ==> Valid()
    {
      if eventId == "" || inputs.None? || |inputs.value| == 0 {
        return Err(ReviewsRequired);
      }
      if HasReview(reviews, eventId, userId) {
        return Err(AlreadySubmitted);
      }
      reviews := reviews + ReviewRows(eventId, userId, inputs.value);
      r := Ok(());
    }
  }

  // ---------------------------------------------------------------------
  // Sequences of requests

  /** Cancelling a fresh registration restores the registration table. */
  method RegisterThenCancel(db: EventsDb, eventId: EventId, userId: UserId)
    requires eventId != "" && userId != "" && (eventId, userId) !in db.registrations
    modifies db
    ensures db.registrations == old(db.registrations)
  {
    var r1 := db.Register(eventId, userId);
    var seen := db.CheckRegisteredUser(eventId, userId);
    assert seen == Ok(true);
    var r2 := db.CancelRegistration(eventId, userId);
    assert r2.Ok?;
    assert db.registrations == old(db.registrations)[(eventId, userId) := Pending] - {(eventId, userId)};
  }

  /** An invitation sent to a registered user and then accepted approves the
      registration; it cannot be sent again. */
  method InviteThenAccept(db: EventsDb, sender: UserId, eventId: EventId, receiverId: UserId)
      returns (again: Result<(), EventError>)
    requires sender != "" && receiverId != ""
    requires (eventId, receiverId) in db.registrations && (eventId, receiverId) !in db.invitations
    modifies db
    ensures db.registrations == old(db.registrations)[(eventId, receiverId) := Approved]
    ensures db.invitations == old(db.invitations)[(eventId, receiverId) := Invitation(sender, Accepted)]
    ensures again == Err(InvitationAlreadySent)
  {
    var sent := db.SendInvitation(sender, eventId, receiverId);
    assert sent.Ok?;
    var accepted := db.AcceptInvitation(receiverId, eventId);
    assert accepted.Ok?;
    again := db.SendInvitation(sender, eventId, receiverId);
  }

  /** A rejected invitation can no longer be accepted. */
  method RejectThenAccept(db: EventsDb, caller: UserId, eventId: EventId, receiverId: UserId)
      returns (r: Result<(), EventError>)
    requires caller != "" && receiverId != ""
    requires (eventId, receiverId) in db.registrations && (eventId, receiverId) in db.invitations
    modifies db
    ensures r == Err(NoPendingInvitation)
    ensures db.registrations == old(db.registrations)[(eventId, receiverId) := Rejected]
  {
    var rejected := db.RejectInvitation(caller, eventId, receiverId);
    assert rejected.Ok?;
    r := db.AcceptInvitation(receiverId, eventId);
  }

  /** A second review submission for the same event and user is refused. */
  method ReviewTwice(db: EventsDb, userId: UserId, eventId: EventId, first: seq<ReviewInput>, second: seq<ReviewInput>)
      returns (r: Result<(), EventError>)
    requires eventId != "" && first != [] && second != []
    requires !HasReview(db.reviews, eventId, userId)
    modifies db
    ensures r == Err(AlreadySubmitted)
    ensures db.reviews == old(db.reviews) + ReviewRows(eventId, userId, first)
  {
    var r1 := db.SubmitReview(userId, eventId, Some(first));
    assert r1.Ok?;
    var rows := ReviewRows(eventId, userId, first);
    assert db.reviews[|old(db.reviews)|] == rows[0];
    r := db.SubmitReview(userId, eventId, Some(second));
  }
}
