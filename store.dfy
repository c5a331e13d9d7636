/**
 * The two collections the policy routes share, and those routes as methods:
 * each reads, checks and writes the collections as its handler does, and
 * answers with the handler's outcome.
 */
module Store {
  import opened Values
  import opened Biodatas
  import opened ContactRequests
  import opened Visibility

  /** A handler's answer: success (status 200 or 201), 404 or 400. */
  datatype Outcome = Ok | NotFound | BadRequest

  /**
   * The `canSeeContact` the details route sends: `true` for a premium viewer,
   * otherwise the approved request it found, or null when there is none.
   */
  datatype Grant = PremiumViewer | ApprovedRequest(id: ObjectId, request: Doc) | NoGrant
  {
    /** The value is truthy: the route keeps `email` and `mobile`. */
    predicate Truthy()
    {
      !NoGrant?
    }
  }

  class MatrimonyStore {
    /** The `biodatas` collection. */
    var biodatas: Biodatas
    /** The `contactRequests` collection. */
    var contactRequests: Requests
    /** Every `_id` in use is below this; stands for the driver's allocation of fresh ids. */
    var nextObjectId: ObjectId

    ghost predicate Valid()
      reads this
    {
      && (forall k :: k in biodatas ==> k < nextObjectId)
      && (forall k :: k in contactRequests ==> k < nextObjectId)
      && UniqueEmails(biodatas)
      && IdsFromJson(biodatas)
      && CoercedIds(contactRequests)
    }

    constructor ()
      ensures Valid() && biodatas == map[] && contactRequests == map[]
    {
      biodatas, contactRequests, nextObjectId := map[], map[], 0;
    }

    /** `POST /api/biodata`. */
    method CreateBiodata(body: Doc, now: int) returns (outcome: Outcome, id: ObjectId, biodataId: Value)
      requires Valid() && IsJsonBody(body)
      modifies this
      ensures Valid() && contactRequests == old(contactRequests)
      ensures EmailTaken(old(biodatas), Get(body, "email")) ==>
        outcome == BadRequest && biodatas == old(biodatas)
      ensures !EmailTaken(old(biodatas), Get(body, "email")) ==>
        && outcome == Ok && id !in old(biodatas)
        && IsNextId(old(biodatas), biodataId)
        && biodatas == old(biodatas)[id := NewBiodata(body, biodataId, now)]
      ensures NumericIds(old(biodatas)) ==> NumericIds(biodatas)
    {
      if EmailTaken(biodatas, Get(body, "email")) {
        return BadRequest, 0, Null;
      }
      id, biodataId := InsertBiodata(body, now);
      outcome := Ok;
    }

    /** The insertion behind a creation whose email check passed. */
    method InsertBiodata(body: Doc, now: int) returns (id: ObjectId, biodataId: Value)
      requires Valid() && IsJsonBody(body) && !EmailTaken(biodatas, Get(body, "email"))
      modifies this
      ensures Valid() && contactRequests == old(contactRequests)
      ensures id !in old(biodatas) && IsNextId(old(biodatas), biodataId)
      ensures biodatas == old(biodatas)[id := NewBiodata(body, biodataId, now)]
      ensures NumericIds(old(biodatas)) ==> NumericIds(biodatas)
    {
      biodataId := NextBiodataId();
      id := nextObjectId;
      var created := biodatas[id := NewBiodata(body, biodataId, now)];
      assert UniqueEmails(created) && IdsFromJson(created) && (NumericIds(biodatas) ==> NumericIds(created)) by {
        CreationKeepsEmailsUnique(biodatas, id, body, biodataId, now);
        CreationKeepsIdsFromJson(biodatas, id, body, biodataId, now);
        if NumericIds(biodatas) {
          CreationKeepsIdsNumeric(biodatas, id, body, biodataId, now);
        }
      }
      biodatas, nextObjectId := created, nextObjectId + 1;
    }

    /**
     * The `biodataId` a creation assigns: 1 when the collection is empty,
     * otherwise one more than that of the biodata a descending sort by
     * `biodataId` puts first.
     */
    method NextBiodataId() returns (biodataId: Value)
      requires Valid()
      ensures IsNextId(biodatas, biodataId) && IsJsonValue(biodataId)
    {
      if biodatas == map[] {
        biodataId := Num(1);
      } else {
        GreatestIdExists(biodatas);
        var last :| HoldsGreatestId(biodatas, last);
        biodataId := PlusOne(Get(biodatas[last], "biodataId"));
      }
    }

    /** `PUT /api/biodata/:id`. */
    method UpdateBiodata(id: ObjectId, body: Doc) returns (outcome: Outcome)
      requires Valid() && IsJsonBody(body)
      modifies this
      ensures Valid() && contactRequests == old(contactRequests) && nextObjectId == old(nextObjectId)
      ensures EmailTakenByOther(old(biodatas), Get(body, "email"), id) ==>
        outcome == BadRequest && biodatas == old(biodatas)
      ensures !EmailTakenByOther(old(biodatas), Get(body, "email"), id) && id !in old(biodatas) ==>
        outcome == NotFound && biodatas == old(biodatas)
      ensures !EmailTakenByOther(old(biodatas), Get(body, "email"), id) && id in old(biodatas) ==>
        outcome == Ok && biodatas == old(biodatas)[id := UpdatedBiodata(old(biodatas)[id], body)]
      ensures NumericIds(old(biodatas)) && "biodataId" !in body ==> NumericIds(biodatas)
    {
      if EmailTakenByOther(biodatas, Get(body, "email"), id) {
        return BadRequest;
      }
      if id !in biodatas {
        return NotFound;
      }
      UpdateKeepsEmailsUnique(biodatas, id, body);
      UpdateKeepsIdsFromJson(biodatas, id, body);
      if NumericIds(biodatas) && "biodataId" !in body {
        UpdateKeepsIdsNumeric(biodatas, id, body);
      }
      biodatas := biodatas[id := UpdatedBiodata(biodatas[id], body)];
      outcome := Ok;
    }

    /**
     * `GET /api/biodata/details/:id?email=viewerEmail`: the biodata, with
     * `email` and `mobile` removed unless the viewer may see them, and the
     * `canSeeContact` value. Reads only.
     */
    method Details(id: ObjectId, viewerEmail: Option<string>) returns (outcome: Outcome, shown: Doc, grant: Grant)
      requires Valid()
      ensures id !in biodatas ==> outcome == NotFound
      ensures id in biodatas ==> outcome == Ok
      ensures id in biodatas ==> (grant.Truthy() <==> CanSeeContact(biodatas, contactRequests, id, viewerEmail))
      ensures id in biodatas ==> shown == if grant.Truthy() then biodatas[id] else StripContact(biodatas[id])
      ensures grant.PremiumViewer? <==> id in biodatas && ViewerIsPremium(biodatas, viewerEmail)
      ensures !EmailTaken(biodatas, EmailQuery(viewerEmail)) ==> !grant.PremiumViewer?
      ensures grant.ApprovedRequest? ==>
        && id in biodatas && grant.id in contactRequests && grant.request == contactRequests[grant.id]
        && IsApprovalFor(grant.request, biodatas[id], viewerEmail)
    {
      if id !in biodatas {
        return NotFound, map[], NoGrant;
      }
      var biodata := biodatas[id];
      var query := EmailQuery(viewerEmail);
      var isViewerPremium := false;
      if EmailTaken(biodatas, query) {
        var viewer :| viewer in biodatas && Matches(biodatas[viewer], "email", query);
        isViewerPremium := Get(biodatas[viewer], "membership") == Some(Str("premium"));
        if ViewerIsPremium(biodatas, viewerEmail) {
          var k :| k in biodatas && Matches(biodatas[k], "email", query)
            && Get(biodatas[k], "membership") == Some(Str("premium"));
          EmailSelectsOne(biodatas, query, k, viewer);
        }
      }
      var approved: Option<ObjectId> := None;
      if HasApprovedRequest(contactRequests, biodata, viewerEmail) {
        var r :| r in contactRequests && IsApprovalFor(contactRequests[r], biodata, viewerEmail);
        approved := Some(r);
      }
      if isViewerPremium {
        grant := PremiumViewer;
      } else if approved.Some? {
        grant := ApprovedRequest(approved.value, contactRequests[approved.value]);
      } else {
        grant := NoGrant;
      }
      shown := if grant.Truthy() then biodata else StripContact(biodata);
      outcome := Ok;
    }

    /** `PATCH /api/biodata/request-premium/:id`. */
    method RequestPremium(id: ObjectId) returns (outcome: Outcome)
      requires Valid()
      modifies this
      ensures Valid() && contactRequests == old(contactRequests) && nextObjectId == old(nextObjectId)
      ensures id !in old(biodatas) ==> outcome == NotFound && biodatas == old(biodatas)
      ensures id in old(biodatas) && (AlreadyPremium(old(biodatas)[id]) || AlreadyRequested(old(biodatas)[id])) ==>
        outcome == BadRequest && biodatas == old(biodatas)
      ensures id in old(biodatas) && !AlreadyPremium(old(biodatas)[id]) && !AlreadyRequested(old(biodatas)[id]) ==>
        outcome == Ok && biodatas == old(biodatas)[id := PremiumRequested(old(biodatas)[id])]
      ensures forall target, viewerEmail :: CanSeeContact(biodatas, contactRequests, target, viewerEmail)
                                          == CanSeeContact(old(biodatas), old(contactRequests), target, viewerEmail)
    {
      if id !in biodatas {
        return NotFound;
      }
      if AlreadyPremium(biodatas[id]) {
        return BadRequest;
      }
      if AlreadyRequested(biodatas[id]) {
        return BadRequest;
      }
      var updated := PremiumRequested(biodatas[id]);
      assert Get(updated, "email") == Get(biodatas[id], "email");
      assert Get(updated, "biodataId") == Get(biodatas[id], "biodataId");
      forall target, viewerEmail
        ensures CanSeeContact(biodatas[id := updated], contactRequests, target, viewerEmail)
             == CanSeeContact(biodatas, contactRequests, target, viewerEmail)
      {
        PremiumRequestKeepsDisclosure(biodatas, contactRequests, id, target, viewerEmail);
      }
      biodatas := biodatas[id := updated];
      outcome := Ok;
    }

    /**
     * `PATCH /api/admin/approve-premium/:id`: unconditional, so it never fails
     * and applying it twice is applying it once; `matched` is the update's
     * `matchedCount`.
     */
    method ApprovePremium(id: ObjectId) returns (matched: bool)
      requires Valid()
      modifies this
      ensures Valid() && contactRequests == old(contactRequests) && nextObjectId == old(nextObjectId)
      ensures matched == (id in old(biodatas))
      ensures biodatas == if id in old(biodatas) then old(biodatas)[id := PremiumApproved(old(biodatas)[id])] else old(biodatas)
      ensures id in old(biodatas) ==> id !in PendingPremium(biodatas)
      ensures forall target, viewerEmail :: CanSeeContact(biodatas, contactRequests, target, viewerEmail)
                                          == CanSeeContact(old(biodatas), old(contactRequests), target, viewerEmail)
    {
      matched := id in biodatas;
      if matched {
        var updated := PremiumApproved(biodatas[id]);
        assert Get(updated, "email") == Get(biodatas[id], "email");
        assert Get(updated, "biodataId") == Get(biodatas[id], "biodataId");
        forall target, viewerEmail
          ensures CanSeeContact(biodatas[id := updated], contactRequests, target, viewerEmail)
               == CanSeeContact(biodatas, contactRequests, target, viewerEmail)
        {
          PremiumApprovalKeepsDisclosure(biodatas, contactRequests, id, target, viewerEmail);
        }
        biodatas := biodatas[id := updated];
      }
    }

    /** `POST /api/contact-request`: always inserts a new pending request and returns its `_id`. */
    method CreateContactRequest(body: Doc, now: int) returns (id: ObjectId)
      requires Valid()
      modifies this
      ensures Valid() && biodatas == old(biodatas)
      ensures id !in old(contactRequests)
      ensures contactRequests == old(contactRequests)[id := NewContactRequest(body, now)]
      ensures forall target, viewerEmail :: CanSeeContact(biodatas, contactRequests, target, viewerEmail)
                                          == CanSeeContact(old(biodatas), old(contactRequests), target, viewerEmail)
    {
      id := nextObjectId;
      forall target, viewerEmail
        ensures CanSeeContact(biodatas, contactRequests[id := NewContactRequest(body, now)], target, viewerEmail)
             == CanSeeContact(biodatas, contactRequests, target, viewerEmail)
      {
        NewRequestGrantsNothing(biodatas, contactRequests, id, body, now, target, viewerEmail);
      }
      contactRequests := contactRequests[id := NewContactRequest(body, now)];
      nextObjectId := nextObjectId + 1;
    }

    /** `DELETE /api/contact-request/:id`: never fails; `deleted` is the `deletedCount`. */
    method DeleteContactRequest(id: ObjectId) returns (deleted: bool)
      requires Valid()
      modifies this
      ensures Valid() && biodatas == old(biodatas) && nextObjectId == old(nextObjectId)
      ensures deleted == (id in old(contactRequests))
      ensures contactRequests == old(contactRequests) - {id}
      ensures forall target, viewerEmail :: CanSeeContact(biodatas, contactRequests, target, viewerEmail)
                                          ==> CanSeeContact(old(biodatas), old(contactRequests), target, viewerEmail)
      ensures forall target, viewerEmail ::
        && target in biodatas
        && (forall q :: q in old(contactRequests) && q != id ==> !IsApprovalFor(old(contactRequests)[q], biodatas[target], viewerEmail))
        ==> (CanSeeContact(biodatas, contactRequests, target, viewerEmail) <==> ViewerIsPremium(biodatas, viewerEmail))
    {
      deleted := id in contactRequests;
      forall target, viewerEmail
        ensures CanSeeContact(biodatas, contactRequests - {id}, target, viewerEmail)
            ==> CanSeeContact(biodatas, contactRequests, target, viewerEmail)
        ensures && target in biodatas
                && (forall q :: q in contactRequests && q != id ==> !IsApprovalFor(contactRequests[q], biodatas[target], viewerEmail))
                ==> (CanSeeContact(biodatas, contactRequests - {id}, target, viewerEmail) <==> ViewerIsPremium(biodatas, viewerEmail))
      {
        if CanSeeContact(biodatas, contactRequests - {id}, target, viewerEmail) {
          DeletionGrantsNothing(biodatas, contactRequests, id, target, viewerEmail);
        }
        if && target in biodatas
           && (forall q :: q in contactRequests && q != id ==> !IsApprovalFor(contactRequests[q], biodatas[target], viewerEmail)) {
          DeletingSoleApprovalRevokes(biodatas, contactRequests, id, target, viewerEmail);
        }
      }
      contactRequests := contactRequests - {id};
    }

    /**
     * `PATCH /api/contact-request/approve/:id`: 404 unless the request exists and
     * its coerced `biodataId` selects a biodata; then that request alone is
     * approved with the biodata's contact snapshot, and its requester may see
     * that biodata's contact details. `target` is the biodata the lookup found.
     */
    method ApproveContactRequest(id: ObjectId) returns (outcome: Outcome, ghost target: ObjectId)
      requires Valid()
      modifies this
      ensures Valid() && biodatas == old(biodatas) && nextObjectId == old(nextObjectId)
      ensures id !in old(contactRequests) ==> outcome == NotFound && contactRequests == old(contactRequests)
      ensures id in old(contactRequests) && !HasBiodataId(biodatas, ToNumber(Get(old(contactRequests)[id], "biodataId"))) ==>
        outcome == NotFound && contactRequests == old(contactRequests)
      ensures id in old(contactRequests) && HasBiodataId(biodatas, ToNumber(Get(old(contactRequests)[id], "biodataId"))) ==>
        && outcome == Ok && target in biodatas
        && Matches(biodatas[target], "biodataId", Some(ToNumber(Get(old(contactRequests)[id], "biodataId"))))
        && contactRequests == old(contactRequests)[id := ApprovedContactRequest(old(contactRequests)[id], biodatas[target])]
      ensures outcome == Ok ==> forall viewerEmail :: Matches(contactRequests[id], "requesterEmail", EmailQuery(viewerEmail)) ==>
        CanSeeContact(biodatas, contactRequests, target, viewerEmail)
      ensures outcome == Ok ==> id in old(contactRequests) && forall t, viewerEmail ::
        t in biodatas
        && Matches(old(contactRequests)[id], "biodataId", Some(ToNumber(Get(biodatas[t], "biodataId"))))
        && Matches(old(contactRequests)[id], "requesterEmail", EmailQuery(viewerEmail)) ==>
        CanSeeContact(biodatas, contactRequests, t, viewerEmail)
      ensures forall t, viewerEmail :: CanSeeContact(old(biodatas), old(contactRequests), t, viewerEmail) ==>
        CanSeeContact(biodatas, contactRequests, t, viewerEmail)
      ensures forall t, viewerEmail :: CanSeeContact(biodatas, contactRequests, t, viewerEmail) ==>
        || CanSeeContact(old(biodatas), old(contactRequests), t, viewerEmail)
        || (&& Matches(old(contactRequests)[id], "biodataId", Some(ToNumber(Get(biodatas[t], "biodataId"))))
            && Matches(old(contactRequests)[id], "requesterEmail", EmailQuery(viewerEmail)))
    {
      target := 0;
      if id !in contactRequests {
        return NotFound, target;
      }
      var request := contactRequests[id];
      var biodataId := ToNumber(Get(request, "biodataId"));
      if !HasBiodataId(biodatas, biodataId) {
        return NotFound, target;
      }
      var b :| b in biodatas && Matches(biodatas[b], "biodataId", Some(biodataId));
      target := b;
      var approved := ApprovedContactRequest(request, biodatas[b]);
      var updated := contactRequests[id := approved];
      assert CoercedIds(updated) by {
        assert Get(approved, "biodataId") == Get(request, "biodataId");
      }
      forall t, viewerEmail |
        && t in biodatas
        && Matches(request, "biodataId", Some(ToNumber(Get(biodatas[t], "biodataId"))))
        && Matches(request, "requesterEmail", EmailQuery(viewerEmail))
        ensures CanSeeContact(biodatas, updated, t, viewerEmail)
      {
        ApprovalGrantsDisclosure(biodatas, contactRequests, id, biodatas[b], t, viewerEmail);
      }
      forall viewerEmail | Matches(approved, "requesterEmail", EmailQuery(viewerEmail))
        ensures CanSeeContact(biodatas, updated, b, viewerEmail)
      {
        assert Get(approved, "requesterEmail") == Get(request, "requesterEmail");
        assert ToNumber(Get(biodatas[b], "biodataId")) == request["biodataId"];
        ApprovalGrantsDisclosure(biodatas, contactRequests, id, biodatas[b], b, viewerEmail);
      }
      forall t, viewerEmail
        ensures CanSeeContact(biodatas, contactRequests, t, viewerEmail) ==> CanSeeContact(biodatas, updated, t, viewerEmail)
        ensures CanSeeContact(biodatas, updated, t, viewerEmail) ==>
          || CanSeeContact(biodatas, contactRequests, t, viewerEmail)
          || (&& Matches(request, "biodataId", Some(ToNumber(Get(biodatas[t], "biodataId"))))
              && Matches(request, "requesterEmail", EmailQuery(viewerEmail)))
      {
        if CanSeeContact(biodatas, contactRequests, t, viewerEmail) {
          ApprovalRevokesNothing(biodatas, contactRequests, id, biodatas[b], t, viewerEmail);
        }
        if CanSeeContact(biodatas, updated, t, viewerEmail) {
          ApprovalGrantsOnlyItsPair(biodatas, contactRequests, id, biodatas[b], t, viewerEmail);
        }
      }
      contactRequests := updated;
      outcome := Ok;
    }
  }

  // ---------------------------------------------------------------------------
  // A walk through the disclosure policy: A (normal, a@x) and B (premium, b@x)
  // register; a@x pays for B's contact details, sending B's id as text, and an
  // admin approves. Then a@x sees B's contact details and c@y, who has no
  // biodata and no request, does not.

  const BodyA: Doc := map["email" := Str("a@x")]
  const BodyB: Doc := map["email" := Str("b@x"), "mobile" := Str("555")]
  const BodyR: Doc := map["biodataId" := Str("2"), "requesterEmail" := Str("a@x")]

  /** A registers first and receives biodataId 1. */
  method ScenarioRegisterA() returns (store: MatrimonyStore, a: ObjectId)
    ensures fresh(store) && store.Valid()
    ensures store.biodatas.Keys == {a} && store.contactRequests == map[]
    ensures Get(store.biodatas[a], "email") == Some(Str("a@x"))
    ensures Get(store.biodatas[a], "biodataId") == Some(Num(1))
  {
    store := new MatrimonyStore();
    var _, id, biodataId := store.CreateBiodata(BodyA, 0);
    a := id;
  }

  /** B registers next and receives biodataId 2. */
  method ScenarioRegisterB(store: MatrimonyStore, a: ObjectId) returns (b: ObjectId)
    requires store.Valid() && store.biodatas.Keys == {a} && store.contactRequests == map[]
    requires Get(store.biodatas[a], "email") == Some(Str("a@x"))
    requires Get(store.biodatas[a], "biodataId") == Some(Num(1))
    modifies store
    ensures store.Valid() && store.biodatas.Keys == {a, b} && a != b && store.contactRequests == map[]
    ensures store.biodatas[a] == old(store.biodatas[a])
    ensures Get(store.biodatas[b], "email") == Some(Str("b@x"))
    ensures Get(store.biodatas[b], "biodataId") == Some(Num(2))
  {
    assert !EmailTaken(store.biodatas, Get(BodyB, "email")) by {
      forall k | k in store.biodatas
        ensures !Matches(store.biodatas[k], "email", Get(BodyB, "email"))
      {
        assert k == a;
      }
    }
    ghost var before := store.biodatas;
    var _, id, biodataId := store.CreateBiodata(BodyB, 1);
    b := id;
    NextIdAfterOne(before, a, biodataId);
  }

  /** With one biodata in the collection, the next `biodataId` is one more than its. */
  lemma NextIdAfterOne(docs: Biodatas, a: ObjectId, id: Value)
    requires docs.Keys == {a} && IdsFromJson(docs) && IsNextId(docs, id)
    ensures id == PlusOne(Get(docs[a], "biodataId"))
  {
    assert docs != map[] by {
      assert a in docs;
    }
  }

  /** a@x pays for B's contact details, sending B's biodataId as the text "2". */
  method ScenarioPay(store: MatrimonyStore) returns (r: ObjectId)
    requires store.Valid() && store.contactRequests == map[]
    modifies store
    ensures store.Valid() && store.biodatas == old(store.biodatas) && store.contactRequests.Keys == {r}
    ensures Get(store.contactRequests[r], "biodataId") == Some(Num(2))
    ensures Get(store.contactRequests[r], "requesterEmail") == Some(Str("a@x"))
  {
    NumberOfDecimalText(2);
    assert ToNumber(Get(BodyR, "biodataId")) == Num(2);
    r := store.CreateContactRequest(BodyR, 2);
  }

  /** The admin approves the request: it names B by biodataId 2, so B's contact details are copied into it. */
  method ScenarioApprove(store: MatrimonyStore, a: ObjectId, b: ObjectId, r: ObjectId)
    requires store.Valid() && store.biodatas.Keys == {a, b} && store.contactRequests.Keys == {r}
    requires Get(store.biodatas[a], "biodataId") == Some(Num(1))
    requires Get(store.biodatas[b], "biodataId") == Some(Num(2))
    requires Get(store.contactRequests[r], "biodataId") == Some(Num(2))
    requires Get(store.contactRequests[r], "requesterEmail") == Some(Str("a@x"))
    modifies store
    ensures store.Valid() && store.biodatas == old(store.biodatas) && store.contactRequests.Keys == {r}
    ensures IsApprovalFor(store.contactRequests[r], store.biodatas[b], Some("a@x"))
    ensures Get(store.contactRequests[r], "requesterEmail") == Some(Str("a@x"))
  {
    assert Matches(store.biodatas[b], "biodataId", Some(Num(2)));
    var _, target := store.ApproveContactRequest(r);
    assert target == a || target == b;
  }

  /** After the approval, a@x asks for B's details. */
  method ScenarioRequesterViews(store: MatrimonyStore, b: ObjectId, r: ObjectId) returns (sees: bool)
    requires store.Valid() && b in store.biodatas && r in store.contactRequests
    requires IsApprovalFor(store.contactRequests[r], store.biodatas[b], Some("a@x"))
    ensures sees
  {
    var _, _, grant := store.Details(b, Some("a@x"));
    sees := grant.Truthy();
  }

  /** After the approval, c@y, who has no biodata and no request, asks for B's details. */
  method ScenarioStrangerViews(store: MatrimonyStore, a: ObjectId, b: ObjectId, r: ObjectId) returns (sees: bool)
    requires store.Valid() && store.biodatas.Keys == {a, b} && store.contactRequests.Keys == {r}
    requires Get(store.biodatas[a], "email") == Some(Str("a@x"))
    requires Get(store.biodatas[b], "email") == Some(Str("b@x"))
    requires Get(store.contactRequests[r], "requesterEmail") == Some(Str("a@x"))
    ensures !sees
  {
    forall k | k in store.biodatas
      ensures !Matches(store.biodatas[k], "email", EmailQuery(Some("c@y")))
    {
      assert k == a || k == b;
    }
    forall q | q in store.contactRequests
      ensures !Matches(store.contactRequests[q], "requesterEmail", EmailQuery(Some("c@y")))
    {
      assert q == r;
    }
    var _, _, grant := store.Details(b, Some("c@y"));
    sees := grant.Truthy();
  }

  /** The whole walk: after the approval a@x sees B's contact details and c@y does not. */
  method DisclosureScenario() returns (aSees: bool, cSees: bool)
    ensures aSees && !cSees
  {
    var store, a := ScenarioRegisterA();
    var b := ScenarioRegisterB(store, a);
    var r := ScenarioPay(store);
    ScenarioApprove(store, a, b, r);
    aSees := ScenarioRequesterViews(store, b, r);
    cSees := ScenarioStrangerViews(store, a, b, r);
  }
}
