/**
 * The `contactRequests` collection: the record a paid request inserts, the
 * snapshot an admin approval writes into it, and the requester's list.
 */
module ContactRequests {
  import opened Values

  /** The `contactRequests` collection, by `_id`. */
  type Requests = map<ObjectId, Doc>

  /**
   * The record a new request inserts: the body's fields, then `biodataId`
   * coerced with `Number()`, `status: "pending"` and `createdAt`, which override
   * any the body had.
   */
  function NewContactRequest(body: Doc, now: int): (d: Doc)
    ensures "biodataId" in d && d["biodataId"] == ToNumber(Get(body, "biodataId"))
    ensures "status" in d && d["status"] == Str("pending")
    ensures "createdAt" in d && d["createdAt"] == Date(now)
    ensures forall f :: f in d && f != "biodataId" && f != "status" && f != "createdAt" ==>
      f in body && d[f] == body[f]
    ensures forall f :: f in body ==> f in d
  {
    body + map["biodataId" := ToNumber(Get(body, "biodataId")), "status" := Str("pending"), "createdAt" := Date(now)]
  }

  /**
   * The request after an admin approval: `status: "approved"` and a snapshot of
   * the biodata's `mobile`, `email` and `name` (a field the biodata lacks is
   * written as null); every other field, `requesterEmail` and `biodataId` among
   * them, is kept.
   */
  function ApprovedContactRequest(request: Doc, biodata: Doc): (d: Doc)
    ensures Get(d, "status") == Some(Str("approved"))
    ensures Get(d, "mobile") == Some(Stored(Get(biodata, "mobile")))
    ensures Get(d, "email") == Some(Stored(Get(biodata, "email")))
    ensures Get(d, "name") == Some(Stored(Get(biodata, "name")))
    ensures forall f :: f != "status" && f != "mobile" && f != "email" && f != "name" ==>
      Get(d, f) == Get(request, f)
  {
    request["status" := Str("approved")]["mobile" := Stored(Get(biodata, "mobile"))]
           ["email" := Stored(Get(biodata, "email"))]["name" := Stored(Get(biodata, "name"))]
  }

  /** Every request's `biodataId` is what `Number()` returns: a number or NaN. */
  ghost predicate CoercedIds(requests: Requests)
  {
    forall k :: k in requests ==> "biodataId" in requests[k] && (requests[k]["biodataId"].Num? || requests[k]["biodataId"].NaN?)
  }

  /** `find({ requesterEmail: email })`: exactly the requests whose `requesterEmail` is `email`. */
  function RequestsBy(requests: Requests, email: string): (r: Requests)
    ensures forall k :: k in r <==> k in requests && Get(requests[k], "requesterEmail") == Some(Str(email))
    ensures forall k :: k in r ==> r[k] == requests[k]
  {
    map k | k in requests && Matches(requests[k], "requesterEmail", Some(Str(email))) :: requests[k]
  }

  /**
   * A new request joins the list of the requester named in its body and no
   * other list; the lists otherwise stay as they were.
   */
  lemma NewRequestListedForItsRequester(requests: Requests, k: ObjectId, body: Doc, now: int, email: string)
    requires k !in requests
    ensures var after := requests[k := NewContactRequest(body, now)];
      RequestsBy(after, email) ==
        if Get(body, "requesterEmail") == Some(Str(email))
        then RequestsBy(requests, email)[k := NewContactRequest(body, now)]
        else RequestsBy(requests, email)
  {
    var d := NewContactRequest(body, now);
    assert Get(d, "requesterEmail") == Get(body, "requesterEmail");
  }

  /** Deleting a request takes it off its requester's list and changes no other entry. */
  lemma DeletedRequestUnlisted(requests: Requests, k: ObjectId, email: string)
    ensures RequestsBy(requests - {k}, email) == RequestsBy(requests, email) - {k}
  {
  }
}
