/**
 * The contact-disclosure decision of the biodata details route: whether a
 * viewer may see a biodata's `email` and `mobile`, what the route hides when
 * not, and how each write of the other routes moves that decision.
 */
module Visibility {
  import opened Values
  import opened Biodatas
  import opened ContactRequests

  /** The filter value for `viewerEmail` (the `email` query parameter; `None` when it is absent). */
  function EmailQuery(viewerEmail: Option<string>): Option<Value>
  {
    if viewerEmail.Some? then Some(Str(viewerEmail.value)) else None
  }

  /**
   * `viewer?.membership === "premium"` for the biodata `findOne({ email: viewerEmail })`
   * returns: some biodata answers the viewer's email and has membership
   * "premium". Only `membership` is read, never `isPremium`.
   */
  predicate ViewerIsPremium(biodatas: Biodatas, viewerEmail: Option<string>)
  {
    exists k :: k in biodatas && Matches(biodatas[k], "email", EmailQuery(viewerEmail))
      && Get(biodatas[k], "membership") == Some(Str("premium"))
  }

  /** `request` answers `{ biodataId: Number(target.biodataId), requesterEmail: viewerEmail, status: "approved" }`. */
  predicate IsApprovalFor(request: Doc, target: Doc, viewerEmail: Option<string>)
  {
    && Matches(request, "biodataId", Some(ToNumber(Get(target, "biodataId"))))
    && Matches(request, "requesterEmail", EmailQuery(viewerEmail))
    && Matches(request, "status", Some(Str("approved")))
  }

  predicate HasApprovedRequest(requests: Requests, target: Doc, viewerEmail: Option<string>)
  {
    exists r :: r in requests && IsApprovalFor(requests[r], target, viewerEmail)
  }

  /** `canSeeContact` for the biodata with `_id` `target`: the viewer is premium or holds an approved request for it. */
  predicate CanSeeContact(biodatas: Biodatas, requests: Requests, target: ObjectId, viewerEmail: Option<string>)
  {
    target in biodatas
    && (ViewerIsPremium(biodatas, viewerEmail) || HasApprovedRequest(requests, biodatas[target], viewerEmail))
  }

  /** The biodata as shown to a viewer who may not see contact details: `email` and `mobile` deleted, every other field kept. */
  function StripContact(d: Doc): (r: Doc)
    ensures "email" !in r && "mobile" !in r
    ensures forall f :: f != "email" && f != "mobile" ==> Get(r, f) == Get(d, f)
  {
    d - {"email", "mobile"}
  }

  // ---------------------------------------------------------------------------
  // Writes to biodatas

  /** The biodata fields the decision reads are the same in both collections. */
  ghost predicate SameDisclosureFields(before: Biodatas, after: Biodatas)
  {
    before.Keys == after.Keys
    && forall k :: k in before ==>
      && Get(after[k], "email") == Get(before[k], "email")
      && Get(after[k], "membership") == Get(before[k], "membership")
      && Get(after[k], "biodataId") == Get(before[k], "biodataId")
  }

  /** The decision depends on biodatas only through their `email`, `membership` and `biodataId`. */
  lemma DisclosureReadsOnlyThoseFields(before: Biodatas, after: Biodatas, requests: Requests,
                                       target: ObjectId, viewerEmail: Option<string>)
    requires SameDisclosureFields(before, after)
    ensures CanSeeContact(after, requests, target, viewerEmail) == CanSeeContact(before, requests, target, viewerEmail)
  {
    if ViewerIsPremium(before, viewerEmail) {
      var k: ObjectId :| k in before && Matches(before[k], "email", EmailQuery(viewerEmail))
        && Get(before[k], "membership") == Some(Str("premium"));
      assert k in after && Matches(after[k], "email", EmailQuery(viewerEmail));
    }
    if ViewerIsPremium(after, viewerEmail) {
      var k: ObjectId :| k in after && Matches(after[k], "email", EmailQuery(viewerEmail))
        && Get(after[k], "membership") == Some(Str("premium"));
      assert k in before && Matches(before[k], "email", EmailQuery(viewerEmail));
    }
    if target in before {
      assert Get(after[target], "biodataId") == Get(before[target], "biodataId");
    }
  }

  /** An upgrade request does not change who may see whose contact details. */
  lemma PremiumRequestKeepsDisclosure(biodatas: Biodatas, requests: Requests, k: ObjectId,
                                      target: ObjectId, viewerEmail: Option<string>)
    requires k in biodatas
    ensures CanSeeContact(biodatas[k := PremiumRequested(biodatas[k])], requests, target, viewerEmail)
         == CanSeeContact(biodatas, requests, target, viewerEmail)
  {
    DisclosureReadsOnlyThoseFields(biodatas, biodatas[k := PremiumRequested(biodatas[k])], requests, target, viewerEmail);
  }

  /**
   * Nor does an admin's premium approval: it sets `isPremium`, and the decision
   * reads `membership`, so a biodata promoted this way gains no disclosure rights.
   */
  lemma PremiumApprovalKeepsDisclosure(biodatas: Biodatas, requests: Requests, k: ObjectId,
                                       target: ObjectId, viewerEmail: Option<string>)
    requires k in biodatas
    ensures CanSeeContact(biodatas[k := PremiumApproved(biodatas[k])], requests, target, viewerEmail)
         == CanSeeContact(biodatas, requests, target, viewerEmail)
  {
    DisclosureReadsOnlyThoseFields(biodatas, biodatas[k := PremiumApproved(biodatas[k])], requests, target, viewerEmail);
  }

  // ---------------------------------------------------------------------------
  // Writes to contactRequests

  /** A new request is pending, so creating it grants nothing and revokes nothing. */
  lemma NewRequestGrantsNothing(biodatas: Biodatas, requests: Requests, k: ObjectId, body: Doc, now: int,
                                target: ObjectId, viewerEmail: Option<string>)
    requires k !in requests
    ensures CanSeeContact(biodatas, requests[k := NewContactRequest(body, now)], target, viewerEmail)
         == CanSeeContact(biodatas, requests, target, viewerEmail)
  {
    var after := requests[k := NewContactRequest(body, now)];
    assert !Matches(after[k], "status", Some(Str("approved")));
    if target in biodatas && HasApprovedRequest(after, biodatas[target], viewerEmail) {
      var r: ObjectId :| r in after && IsApprovalFor(after[r], biodatas[target], viewerEmail);
      assert r in requests && requests[r] == after[r];
    }
    if target in biodatas && HasApprovedRequest(requests, biodatas[target], viewerEmail) {
      var r: ObjectId :| r in requests && IsApprovalFor(requests[r], biodatas[target], viewerEmail);
      assert r in after && after[r] == requests[r];
    }
  }

  /**
   * Approving a request lets its requester see the contact details of every
   * biodata whose coerced `biodataId` the request names, whatever snapshot the
   * approval copies: the details route looks the approval up by
   * `Number(target.biodataId)`, not by the biodata the approval found.
   */
  lemma ApprovalGrantsDisclosure(biodatas: Biodatas, requests: Requests, r: ObjectId, snapshot: Doc,
                                 target: ObjectId, viewerEmail: Option<string>)
    requires r in requests && target in biodatas
    requires Matches(requests[r], "biodataId", Some(ToNumber(Get(biodatas[target], "biodataId"))))
    requires Matches(requests[r], "requesterEmail", EmailQuery(viewerEmail))
    ensures CanSeeContact(biodatas, requests[r := ApprovedContactRequest(requests[r], snapshot)], target, viewerEmail)
  {
    var after := requests[r := ApprovedContactRequest(requests[r], snapshot)];
    assert Get(after[r], "biodataId") == Get(requests[r], "biodataId");
    assert Get(after[r], "requesterEmail") == Get(requests[r], "requesterEmail");
    assert IsApprovalFor(after[r], biodatas[target], viewerEmail);
  }

  /**
   * An approval grants no other pair: whoever may see contact details afterwards
   * could before, or is the approved request's requester looking at the biodata
   * whose id it names.
   */
  lemma ApprovalGrantsOnlyItsPair(biodatas: Biodatas, requests: Requests, r: ObjectId, snapshot: Doc,
                                  target: ObjectId, viewerEmail: Option<string>)
    requires r in requests
    requires CanSeeContact(biodatas, requests[r := ApprovedContactRequest(requests[r], snapshot)], target, viewerEmail)
    ensures CanSeeContact(biodatas, requests, target, viewerEmail)
         || (&& Matches(requests[r], "biodataId", Some(ToNumber(Get(biodatas[target], "biodataId"))))
             && Matches(requests[r], "requesterEmail", EmailQuery(viewerEmail)))
  {
    var after := requests[r := ApprovedContactRequest(requests[r], snapshot)];
    if !ViewerIsPremium(biodatas, viewerEmail) {
      var q: ObjectId :| q in after && IsApprovalFor(after[q], biodatas[target], viewerEmail);
      if q == r {
        assert Get(after[r], "biodataId") == Get(requests[r], "biodataId");
        assert Get(after[r], "requesterEmail") == Get(requests[r], "requesterEmail");
      } else {
        assert q in requests && IsApprovalFor(requests[q], biodatas[target], viewerEmail);
      }
    }
  }

  /**
   * Nor does an approval take disclosure away from anyone: the approved request
   * keeps its `biodataId` and `requesterEmail`, and an approval it already
   * answered as stays answered.
   */
  lemma ApprovalRevokesNothing(biodatas: Biodatas, requests: Requests, r: ObjectId, snapshot: Doc,
                               target: ObjectId, viewerEmail: Option<string>)
    requires r in requests
    requires CanSeeContact(biodatas, requests, target, viewerEmail)
    ensures CanSeeContact(biodatas, requests[r := ApprovedContactRequest(requests[r], snapshot)], target, viewerEmail)
  {
    var after := requests[r := ApprovedContactRequest(requests[r], snapshot)];
    if !ViewerIsPremium(biodatas, viewerEmail) {
      var q: ObjectId :| q in requests && IsApprovalFor(requests[q], biodatas[target], viewerEmail);
      if q == r {
        assert Get(after[r], "biodataId") == Get(requests[r], "biodataId");
        assert Get(after[r], "requesterEmail") == Get(requests[r], "requesterEmail");
      }
      assert IsApprovalFor(after[q], biodatas[target], viewerEmail);
    }
  }

  /**
   * An approved request that carries no `requesterEmail` answers the filter of a
   * viewer who sends no `email`, since both sides read as null: such a viewer
   * sees the contact details of the biodata the request names.
   */
  lemma AnonymousViewerMatchesUnnamedRequest(biodatas: Biodatas, requests: Requests, target: ObjectId, r: ObjectId)
    requires target in biodatas && r in requests
    requires "requesterEmail" !in requests[r]
    requires Get(requests[r], "status") == Some(Str("approved"))
    requires Get(requests[r], "biodataId") == Some(ToNumber(Get(biodatas[target], "biodataId")))
    ensures CanSeeContact(biodatas, requests, target, None)
  {
    assert IsApprovalFor(requests[r], biodatas[target], None);
  }

  /** Deleting a request never grants disclosure. */
  lemma DeletionGrantsNothing(biodatas: Biodatas, requests: Requests, r: ObjectId,
                              target: ObjectId, viewerEmail: Option<string>)
    requires CanSeeContact(biodatas, requests - {r}, target, viewerEmail)
    ensures CanSeeContact(biodatas, requests, target, viewerEmail)
  {
    if !ViewerIsPremium(biodatas, viewerEmail) {
      var q: ObjectId :| q in requests - {r} && IsApprovalFor((requests - {r})[q], biodatas[target], viewerEmail);
      assert q in requests && IsApprovalFor(requests[q], biodatas[target], viewerEmail);
    }
  }

  /**
   * Deleting the only approved request for a (biodata, viewer) pair revokes the
   * viewer's disclosure, unless the viewer is premium.
   */
  lemma DeletingSoleApprovalRevokes(biodatas: Biodatas, requests: Requests, r: ObjectId,
                                    target: ObjectId, viewerEmail: Option<string>)
    requires target in biodatas
    requires forall q :: q in requests && q != r ==> !IsApprovalFor(requests[q], biodatas[target], viewerEmail)
    ensures CanSeeContact(biodatas, requests - {r}, target, viewerEmail) <==> ViewerIsPremium(biodatas, viewerEmail)
  {
    forall q | q in requests - {r}
      ensures !IsApprovalFor((requests - {r})[q], biodatas[target], viewerEmail)
    {
      assert (requests - {r})[q] == requests[q];
    }
  }
}
