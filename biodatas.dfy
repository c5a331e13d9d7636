/**
 * The `biodatas` collection: what a creation or an update request writes,
 * the email-uniqueness checks in front of both, how the next `biodataId` is
 * chosen, and the premium-upgrade flags.
 */
module Biodatas {
  import opened Values

  /** The `biodatas` collection, by `_id`. */
  type Biodatas = map<ObjectId, Doc>

  // ---------------------------------------------------------------------------
  // Email uniqueness

  /** `findOne({ email })` finds a biodata. */
  predicate EmailTaken(docs: Biodatas, email: Option<Value>)
  {
    exists k :: k in docs && Matches(docs[k], "email", email)
  }

  /** `findOne({ email, _id: { $ne: self } })` finds a biodata. */
  predicate EmailTakenByOther(docs: Biodatas, email: Option<Value>, self: ObjectId)
  {
    exists k :: k in docs && k != self && Matches(docs[k], "email", email)
  }

  /** No email filter selects two biodatas (a missing email and a null one count as the same). */
  ghost predicate UniqueEmails(docs: Biodatas)
  {
    forall i, j :: i in docs && j in docs && i != j ==>
      Stored(Get(docs[i], "email")) != Stored(Get(docs[j], "email"))
  }

  /** Under UniqueEmails an email filter selects at most one biodata, so `findOne` by email is determined. */
  lemma EmailSelectsOne(docs: Biodatas, email: Option<Value>, i: ObjectId, j: ObjectId)
    requires UniqueEmails(docs)
    requires i in docs && Matches(docs[i], "email", email)
    requires j in docs && Matches(docs[j], "email", email)
    ensures i == j
  {
  }

  // ---------------------------------------------------------------------------
  // Lookup by biodataId

  /** `findOne({ biodataId: id })` finds a biodata. */
  predicate HasBiodataId(docs: Biodatas, id: Value)
  {
    exists k :: k in docs && Matches(docs[k], "biodataId", Some(id))
  }

  // ---------------------------------------------------------------------------
  // Creation

  /** The sort key of a biodata when the collection is sorted by `biodataId`. */
  function IdKey(d: Doc): Value
  {
    Stored(Get(d, "biodataId"))
  }

  /** `k` may come first when the collection is sorted by `biodataId` descending. */
  predicate HoldsGreatestId(docs: Biodatas, k: ObjectId)
  {
    k in docs && forall j :: j in docs ==> SortLe(IdKey(docs[j]), IdKey(docs[k]))
  }

  /**
   * Every biodata has a `biodataId`, and it is a value a request body can carry:
   * creation writes a number and an update writes what the body holds.
   */
  ghost predicate IdsFromJson(docs: Biodatas)
  {
    forall k :: k in docs ==> "biodataId" in docs[k] && IsJsonValue(docs[k]["biodataId"])
  }

  /**
   * `id` is a `biodataId` the creation handler can compute: 1 for an empty
   * collection, otherwise one more than the `biodataId` of a biodata that comes
   * first in descending order.
   */
  ghost predicate IsNextId(docs: Biodatas, id: Value)
    requires IdsFromJson(docs)
  {
    if docs == map[] then id == Num(1)
    else exists k :: HoldsGreatestId(docs, k) && id == PlusOne(Get(docs[k], "biodataId"))
  }

  lemma {:induction false} GreatestIdAmong(docs: Biodatas, keys: set<ObjectId>)
    requires keys != {} && keys <= docs.Keys
    ensures exists k :: k in keys && forall j :: j in keys ==> SortLe(IdKey(docs[j]), IdKey(docs[k]))
    decreases keys
  {
    var x :| x in keys;
    if keys == {x} {
      assert forall j :: j in keys ==> j == x;
      SortLeTotal(IdKey(docs[x]), IdKey(docs[x]));
    } else {
      var rest := keys - {x};
      GreatestIdAmong(docs, rest);
      var m :| m in rest && forall j :: j in rest ==> SortLe(IdKey(docs[j]), IdKey(docs[m]));
      SortLeTotal(IdKey(docs[x]), IdKey(docs[m]));
      if SortLe(IdKey(docs[x]), IdKey(docs[m])) {
        assert forall j :: j in keys ==> SortLe(IdKey(docs[j]), IdKey(docs[m]));
      } else {
        forall j | j in keys
          ensures SortLe(IdKey(docs[j]), IdKey(docs[x]))
        {
          if j != x {
            SortLeTransitive(IdKey(docs[j]), IdKey(docs[m]), IdKey(docs[x]));
          } else {
            SortLeTotal(IdKey(docs[x]), IdKey(docs[x]));
          }
        }
      }
    }
  }

  /** A non-empty collection always has a biodata that a descending sort by `biodataId` puts first. */
  lemma GreatestIdExists(docs: Biodatas)
    requires docs != map[]
    ensures exists k :: HoldsGreatestId(docs, k)
  {
    GreatestIdAmong(docs, docs.Keys);
    var k :| k in docs.Keys && forall j :: j in docs.Keys ==> SortLe(IdKey(docs[j]), IdKey(docs[k]));
    assert HoldsGreatestId(docs, k);
  }

  /**
   * The record a creation request inserts: the body's fields, then the server's
   * `biodataId`, `isPremium: false` and `createdAt`, which override any the body had.
   */
  function NewBiodata(body: Doc, id: Value, now: int): (d: Doc)
    ensures "biodataId" in d && d["biodataId"] == id
    ensures "isPremium" in d && d["isPremium"] == Bool(false)
    ensures "createdAt" in d && d["createdAt"] == Date(now)
    ensures forall f :: f in d && f != "biodataId" && f != "isPremium" && f != "createdAt" ==>
      f in body && d[f] == body[f]
    ensures forall f :: f in body ==> f in d
  {
    body + map["biodataId" := id, "isPremium" := Bool(false), "createdAt" := Date(now)]
  }

  /** A creation that passed the email check keeps emails unique. */
  lemma CreationKeepsEmailsUnique(docs: Biodatas, k: ObjectId, body: Doc, id: Value, now: int)
    requires UniqueEmails(docs) && k !in docs
    requires !EmailTaken(docs, Get(body, "email"))
    ensures UniqueEmails(docs[k := NewBiodata(body, id, now)])
  {
    var d := NewBiodata(body, id, now);
    assert Get(d, "email") == Get(body, "email");
  }

  /** The computed `biodataId` is a value a body could carry, so the invariant survives a creation. */
  lemma CreationKeepsIdsFromJson(docs: Biodatas, k: ObjectId, body: Doc, id: Value, now: int)
    requires IdsFromJson(docs) && IsJsonValue(id)
    ensures IdsFromJson(docs[k := NewBiodata(body, id, now)])
  {
  }

  /** Every `biodataId` is a distinct positive number: what creation alone produces. */
  ghost predicate NumericIds(docs: Biodatas)
  {
    && (forall k :: k in docs ==> IdKey(docs[k]).Num? && IdKey(docs[k]).n >= 1)
    && (forall i, j :: i in docs && j in docs && i != j ==> IdKey(docs[i]) != IdKey(docs[j]))
  }

  /** With numeric ids, the next id is the maximum plus one (1 for an empty collection), so it exceeds every id. */
  lemma NextIdExceedsAll(docs: Biodatas, id: Value)
    requires IdsFromJson(docs) && NumericIds(docs) && IsNextId(docs, id)
    ensures id.Num? && id.n >= 1
    ensures docs == map[] ==> id == Num(1)
    ensures docs != map[] ==> exists k :: k in docs && id == Num(IdKey(docs[k]).n + 1)
    ensures forall k :: k in docs ==> IdKey(docs[k]).n < id.n
  {
    if docs != map[] {
      var m :| HoldsGreatestId(docs, m) && id == PlusOne(Get(docs[m], "biodataId"));
      assert id == Num(IdKey(docs[m]).n + 1);
      forall k | k in docs
        ensures IdKey(docs[k]).n < id.n
      {
        assert SortLe(IdKey(docs[k]), IdKey(docs[m]));
      }
    }
  }

  /** Creation keeps every `biodataId` a distinct positive number. */
  lemma CreationKeepsIdsNumeric(docs: Biodatas, k: ObjectId, body: Doc, id: Value, now: int)
    requires IdsFromJson(docs) && NumericIds(docs) && IsNextId(docs, id) && k !in docs
    ensures NumericIds(docs[k := NewBiodata(body, id, now)])
  {
    NextIdExceedsAll(docs, id);
    var after := docs[k := NewBiodata(body, id, now)];
    assert IdKey(after[k]) == id;
    forall i, j | i in after && j in after && i != j
      ensures IdKey(after[i]) != IdKey(after[j])
    {
      if i == k {
        assert IdKey(after[j]).n < id.n;
      } else if j == k {
        assert IdKey(after[i]).n < id.n;
      }
    }
  }

  // ---------------------------------------------------------------------------
  // Update

  /** The record after an update: the body without `_id` is `$set` over the record's fields. */
  function UpdatedBiodata(d: Doc, body: Doc): (r: Doc)
    ensures forall f :: f in body && f != "_id" ==> f in r && r[f] == body[f]
    ensures forall f :: f in d && f !in body ==> f in r && r[f] == d[f]
    ensures forall f :: f in r ==> f in d || f in body
    ensures Get(r, "_id") == Get(d, "_id")
  {
    d + (body - {"_id"})
  }

  /** An update that passed the email check keeps emails unique. */
  lemma UpdateKeepsEmailsUnique(docs: Biodatas, k: ObjectId, body: Doc)
    requires UniqueEmails(docs) && k in docs
    requires !EmailTakenByOther(docs, Get(body, "email"), k)
    ensures UniqueEmails(docs[k := UpdatedBiodata(docs[k], body)])
  {
    var d := UpdatedBiodata(docs[k], body);
    if "email" in body {
      assert Get(d, "email") == Get(body, "email");
    } else {
      assert Get(d, "email") == Get(docs[k], "email");
    }
  }

  lemma UpdateKeepsIdsFromJson(docs: Biodatas, k: ObjectId, body: Doc)
    requires IdsFromJson(docs) && k in docs && IsJsonBody(body)
    ensures IdsFromJson(docs[k := UpdatedBiodata(docs[k], body)])
  {
  }

  /** An update whose body does not name `biodataId` keeps the ids numeric and distinct. */
  lemma UpdateKeepsIdsNumeric(docs: Biodatas, k: ObjectId, body: Doc)
    requires NumericIds(docs) && k in docs && "biodataId" !in body
    ensures NumericIds(docs[k := UpdatedBiodata(docs[k], body)])
  {
    var after := docs[k := UpdatedBiodata(docs[k], body)];
    assert IdKey(after[k]) == IdKey(docs[k]);
    assert forall i :: i in after ==> IdKey(after[i]) == IdKey(docs[i]);
  }

  // ---------------------------------------------------------------------------
  // Premium upgrade

  /** `isPremium === true`: a string "true" or a missing flag does not count. */
  predicate AlreadyPremium(d: Doc)
  {
    Get(d, "isPremium") == Some(Bool(true))
  }

  /** `premiumRequested === true`. */
  predicate AlreadyRequested(d: Doc)
  {
    Get(d, "premiumRequested") == Some(Bool(true))
  }

  /** The record after an upgrade request: `$set: { premiumRequested: true }`. */
  function PremiumRequested(d: Doc): (r: Doc)
    ensures AlreadyRequested(r)
    ensures forall f :: f != "premiumRequested" ==> Get(r, f) == Get(d, f)
  {
    d["premiumRequested" := Bool(true)]
  }

  /** The record after an admin approval: `$set: { isPremium: true, premiumRequested: false }`. */
  function PremiumApproved(d: Doc): (r: Doc)
    ensures AlreadyPremium(r) && Get(r, "premiumRequested") == Some(Bool(false))
    ensures forall f :: f != "isPremium" && f != "premiumRequested" ==> Get(r, f) == Get(d, f)
  {
    d["isPremium" := Bool(true)]["premiumRequested" := Bool(false)]
  }

  /** The admin filter `{ premiumRequested: true, isPremium: false }`. */
  predicate AwaitingPremium(d: Doc)
  {
    Matches(d, "premiumRequested", Some(Bool(true))) && Matches(d, "isPremium", Some(Bool(false)))
  }

  /** The admin's list of premium requests: exactly the biodatas the filter selects. */
  function PendingPremium(docs: Biodatas): (r: Biodatas)
    ensures forall k :: k in r <==> k in docs && AwaitingPremium(docs[k])
    ensures forall k :: k in r ==> r[k] == docs[k]
  {
    map k | k in docs && AwaitingPremium(docs[k]) :: docs[k]
  }

  /** Approval is idempotent: approving an approved record changes nothing. */
  lemma PremiumApprovalIdempotent(d: Doc)
    ensures PremiumApproved(PremiumApproved(d)) == PremiumApproved(d)
  {
  }

  /** After approval a biodata leaves the pending list and nothing else in it changes. */
  lemma ApprovalLeavesPendingList(docs: Biodatas, k: ObjectId)
    requires k in docs
    ensures PendingPremium(docs[k := PremiumApproved(docs[k])]) == PendingPremium(docs) - {k}
  {
    var after := docs[k := PremiumApproved(docs[k])];
    assert !AwaitingPremium(after[k]);
  }

  /**
   * A successful upgrade request puts the biodata on the pending list exactly
   * when its `isPremium` is the boolean false; nothing else on the list changes.
   */
  lemma RequestJoinsPendingList(docs: Biodatas, k: ObjectId)
    requires k in docs && !AlreadyPremium(docs[k]) && !AlreadyRequested(docs[k])
    ensures k in PendingPremium(docs[k := PremiumRequested(docs[k])]) <==> Get(docs[k], "isPremium") == Some(Bool(false))
    ensures PendingPremium(docs[k := PremiumRequested(docs[k])]) - {k} == PendingPremium(docs) - {k}
  {
    var after := docs[k := PremiumRequested(docs[k])];
    assert Get(after[k], "isPremium") == Get(docs[k], "isPremium");
  }
}
