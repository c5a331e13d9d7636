# MatrimonyHub contact-disclosure and premium policy, in Dafny

The MatrimonyHub server keeps two MongoDB collections. `biodatas` holds the
members' profiles. `contactRequests` holds the paid requests to see another
member's contact details. This project models the route handlers that enforce
the site's policy on those two collections:

- **Who may see a biodata's `email` and `mobile`.** `GET /api/biodata/details/:id`
  shows them when the viewer's own biodata has `membership: "premium"`, or when
  an approved contact request for that biodata names the viewer as requester.
  Otherwise it deletes both fields from the answer.
- **The premium-upgrade workflow.** A member asks for an upgrade, the admin
  lists the pending requests and approves one.
- **The contact-request lifecycle.** A request is created as pending after
  payment, a member lists their own requests and can delete one, and the admin
  approves a request, which copies the biodata's contact details into it.
- **Biodata creation and update.** Creation and update refuse an email another biodata holds. A new biodata gets
  the next `biodataId` and is forced to `isPremium: false`.

## Structure

- `values.dfy` (module `Values`) defines field values and documents.
  - A document is a map from field name to value. A missing field reads as
    `undefined`.
  - An equality filter treats `undefined` and a missing field as null, the way
    the Node driver sends them.
  - It also defines MongoDB's ascending sort order, JavaScript `Number(v)`, and
    JavaScript `v + 1`.
- `biodatas.dfy` (module `Biodatas`) covers the `biodatas` collection.
  - The record a creation writes and the `$set` an update applies.
  - The two email-uniqueness checks.
  - The choice of the next `biodataId`.
  - The premium flags and the admin's pending list.
- `contact_requests.dfy` (module `ContactRequests`) covers the pending record a
  new request inserts, the approved record with its contact snapshot, and the
  requester's list.
- `visibility.dfy` (module `Visibility`) defines the disclosure decision as a
  predicate over the two collections. It also proves how each write of the
  other routes moves that decision.
- `store.dfy` (module `Store`) defines the class `MatrimonyStore`.
  - The class holds both collections as mutable maps, with one method per
    route handler.
  - Each method is proved against the functions above and keeps the store
    invariant `Valid`.
  - `Valid` requires four things: fresh `_id`s, unique emails, a JSON-scalar
    `biodataId` on every biodata, and a coerced `biodataId` on every request.
  - The module ends with a walk through the policy, `DisclosureScenario`: two
    members register, one pays for the other's details and the admin approves.
    The requester then sees them and a stranger does not.

The model follows the handlers as written, including where they surprise:

- Disclosure reads `membership`, never `isPremium` (index.js:178). So an admin's
  premium approval grants no disclosure rights.
- Approving a premium upgrade and deleting a contact request never answer 404.
  They report the `matchedCount` / `deletedCount` instead (index.js:256-266,
  index.js:322-326).
- The details route finds an approval by `Number(target.biodataId)` (index.js:186), not by the biodata the approval looked up.
  An update may store a `biodataId` such as `"2"` that coerces to another biodata's id. An approval naming 2 then discloses
  both biodatas' contact details to the requester.
- Duplicate emails are answered with 400 (index.js:55, index.js:111). There is
  no separate "conflict" outcome.
- Creation validates nothing but the email. The body's own fields, `_id` and
  `status` among them, are kept, except those the server overrides.
- There is no revenue or statistics computation in the handlers, so none is
  modelled.

## Model

| member | source | states |
|---|---|---|
| Store.MatrimonyStore.Details | index.js:160-205 | An unknown id answers NotFound. Otherwise the answer's `canSeeContact` is truthy exactly when the viewer is premium or holds an approved request for this biodata's `Number(biodataId)`. `email` and `mobile` are removed exactly when it is falsy. The premium case is reported exactly when some biodata answering the viewer's email has membership "premium", and never when no biodata answers it. A returned request is a stored approved request matching the filter. Nothing is written. |
| Store.MatrimonyStore.CreateBiodata | index.js:48-86 | A taken email (missing counts as null) answers BadRequest and changes nothing. Otherwise exactly one record is added under a fresh `_id`: the body with the next `biodataId`, `isPremium: false` and `createdAt`. Emails stay unique among the routes modelled. Distinct positive numeric ids stay so. |
| Store.MatrimonyStore.NextBiodataId | index.js:58-66 | The id is 1 for an empty collection. Otherwise it is `+ 1` applied to the `biodataId` of a biodata that a descending sort by `biodataId` puts first. |
| Store.MatrimonyStore.UpdateBiodata | index.js:89-130 | An email held by a different biodata answers BadRequest with no change. An unknown id answers NotFound with no change. Otherwise only that record changes: the body without `_id` is set over its fields. Emails stay unique. Numeric ids stay so when the body does not name `biodataId`. |
| Store.MatrimonyStore.RequestPremium | index.js:209-240 | An unknown id answers NotFound. `isPremium === true` or `premiumRequested === true` answers BadRequest with no change. Otherwise the only change is `premiumRequested := true` on that record. In every case, the disclosure decision for every biodata and viewer is the same as before. |
| Store.MatrimonyStore.ApprovePremium | index.js:253-267 | Never fails. `matched` says whether the id exists. An unknown id changes nothing. Otherwise only that record's `isPremium := true` and `premiumRequested := false` are written, and it is no longer on the pending list. The disclosure decision for every biodata and viewer is the same as before. |
| Store.MatrimonyStore.CreateContactRequest | index.js:292-303 | Always inserts exactly one new record under a fresh `_id`, pending whatever the body said, and leaves every existing record alone. For every biodata and viewer, the disclosure decision is the same as before. |
| Store.MatrimonyStore.DeleteContactRequest | index.js:319-327 | Removes only the record with that `_id`. A missing id changes nothing. `deleted` says whether one was removed. No one gains disclosure. A viewer with no other approved request for a biodata can afterwards see its details exactly when the viewer is premium. |
| Store.MatrimonyStore.ApproveContactRequest | index.js:338-375 | A missing request, or no biodata whose `biodataId` equals the request's coerced `biodataId`, answers NotFound with no change. Otherwise only that request changes, to the approved record with the found biodata's contact snapshot. The pairs that gain disclosure are exactly these: a viewer the request names as requester, looking at any biodata whose `Number(biodataId)` equals the request's `biodataId`. That includes biodatas other than the one the lookup found. Everyone who could see a biodata's details still can. |
| Store.DisclosureScenario | index.js:160-205 | After two registrations, a request that sends biodataId 2 as text, and its approval, the requester sees the second biodata's contact details and a viewer with no biodata and no request does not. |
| Biodatas.NewBiodata | index.js:69-74 | The created record has the given `biodataId`, `isPremium: false` and `createdAt` whatever the body said. Every other field is the body's, and every body field is present. |
| Biodatas.GreatestIdExists | index.js:59-63 | A non-empty collection always has a record that a descending sort by `biodataId` puts first. |
| Biodatas.NextIdExceedsAll | index.js:59-66 | When every `biodataId` is a distinct positive number, the next id is 1 for an empty collection and otherwise some record's id plus one, and it exceeds every existing id. |
| Biodatas.CreationKeepsIdsNumeric | index.js:59-76 | A creation keeps every `biodataId` a distinct positive number, so ids stay unique. |
| Biodatas.CreationKeepsEmailsUnique | index.js:53-56 | A creation that passed the email check keeps emails unique across biodatas. |
| Biodatas.EmailSelectsOne | index.js:174-176 | When emails are unique, an email filter selects at most one biodata, so `findOne` by email is determined. |
| Biodatas.UpdatedBiodata | index.js:93-117 | The updated record carries every body field except `_id`, keeps every field the body does not name, and has no other field. Its `_id` is the record's own, present or absent, whatever the body says. |
| Biodatas.UpdateKeepsEmailsUnique | index.js:104-112 | An update that passed the "email held by another biodata" check keeps emails unique. |
| Biodatas.UpdateKeepsIdsNumeric | index.js:114-117 | An update whose body does not name `biodataId` keeps ids numeric and distinct. |
| Biodatas.PremiumRequested | index.js:234-237 | The requested record has `premiumRequested: true`, and every other field is unchanged. |
| Biodatas.PremiumApproved | index.js:256-264 | The approved record has `isPremium: true` and `premiumRequested: false`, both booleans, and every other field is unchanged. |
| Biodatas.PendingPremium | index.js:244-251 | The admin's list holds exactly the biodatas whose `premiumRequested` is true and `isPremium` is false, unchanged. |
| Biodatas.PremiumApprovalIdempotent | index.js:256-264 | Approving an approved record changes nothing. |
| Biodatas.ApprovalLeavesPendingList | index.js:244-264 | After an approval the record leaves the pending list, and the rest of the list is unchanged. |
| Biodatas.RequestJoinsPendingList | index.js:228-248 | After an upgrade request, the record is on the pending list exactly when its `isPremium` is boolean false. The rest of the list is unchanged. |
| ContactRequests.NewContactRequest | index.js:295-300 | The inserted record has `biodataId = Number(body.biodataId)`, `status: "pending"` and `createdAt` whatever the body said. Every other field is the body's. |
| ContactRequests.ApprovedContactRequest | index.js:358-367 | The approved record has `status: "approved"` and the biodata's `mobile`, `email` and `name` (null where the biodata lacks one). Every other field, `requesterEmail` and `biodataId` among them, is kept. |
| ContactRequests.RequestsBy | index.js:308-316 | The requester's list holds exactly the requests whose `requesterEmail` is that email, unchanged. |
| ContactRequests.NewRequestListedForItsRequester | index.js:295-313 | A new request joins the list of the requester named in its body and no other list. The lists otherwise stay as they were. |
| ContactRequests.DeletedRequestUnlisted | index.js:308-324 | Deleting a request takes it off its requester's list and changes nothing else on it. |
| Visibility.StripContact | index.js:193-196 | The stripped record has no `email` and no `mobile`, and every other field is unchanged. |
| Visibility.DisclosureReadsOnlyThoseFields | index.js:174-191 | The decision depends on the biodatas only through their `email`, `membership` and `biodataId`. |
| Visibility.PremiumRequestKeepsDisclosure | index.js:234-237 | An upgrade request changes no one's disclosure rights. |
| Visibility.PremiumApprovalKeepsDisclosure | index.js:256-264 | An admin's premium approval changes no one's disclosure rights, since it writes `isPremium` and the decision reads `membership`. |
| Visibility.NewRequestGrantsNothing | index.js:295-300 | Adding a new pending request leaves every disclosure decision unchanged. |
| Visibility.ApprovalGrantsDisclosure | index.js:182-191 | Approving a request, whatever snapshot it copies, lets its requester see the contact details of every biodata whose `Number(biodataId)` equals the request's `biodataId`. |
| Visibility.ApprovalGrantsOnlyItsPair | index.js:358-368 | After an approval, anyone who may see a biodata's details could already, or is that request's requester looking at the biodata its `biodataId` names. |
| Visibility.ApprovalRevokesNothing | index.js:358-368 | An approval takes disclosure away from no one, because the approved request keeps its `biodataId` and `requesterEmail`. |
| Visibility.AnonymousViewerMatchesUnnamedRequest | index.js:185-189 | A viewer who sends no `email` sees a biodata's contact details whenever an approved request for it carries no `requesterEmail`, since both sides read as null. |
| Visibility.DeletionGrantsNothing | index.js:322-324 | Deleting a request never grants disclosure. |
| Visibility.DeletingSoleApprovalRevokes | index.js:322-324 | Deleting the only approved request for a biodata and viewer leaves the viewer able to see the details exactly when the viewer is premium. |
| Visibility.CanSeeContact | index.js:191 | `canSeeContact`: the target exists, and the viewer is premium or holds an approved request for it. |
| Visibility.ViewerIsPremium | index.js:174-178 | Some biodata answering the filter `{ email: viewerEmail }` has `membership` exactly "premium". `isPremium` is never read. |
| Visibility.IsApprovalFor | index.js:185-189 | A request answers `{ biodataId: Number(target.biodataId), requesterEmail: viewerEmail, status: "approved" }`. |
| Values.Matches | index.js:53 | An equality filter selects a document when the field's value equals the query value, with `undefined` and a missing field both read as null. |
| Values.PlusOne | index.js:66 | JavaScript `v + 1`: undefined gives NaN, null 1, a boolean 2 or 1, a number n + 1, and a string is concatenated with "1". |
| Values.SortLe | index.js:61 | MongoDB's ascending order. Type bracket comes first: null, then numbers with NaN lowest, then strings in binary order, then booleans, then dates. Within a bracket, values are compared. |
| Biodatas.IsNextId | index.js:58-66 | The next `biodataId` is 1 for an empty collection, else `+ 1` on the `biodataId` of a biodata a descending sort puts first. |
| Biodatas.EmailTaken | index.js:53-54 | `findOne({ email })` finds a biodata. |
| Biodatas.EmailTakenByOther | index.js:104-109 | `findOne({ email, _id: { $ne: id } })` finds a biodata. |
| Biodatas.HasBiodataId | index.js:350-354 | `findOne({ biodataId: id })` finds a biodata. |
| Biodatas.AwaitingPremium | index.js:245-248 | A biodata answers `{ premiumRequested: true, isPremium: false }`. |
| Biodatas.AlreadyPremium | index.js:221 | `isPremium === true`: the boolean true, nothing else. |
| Biodatas.AlreadyRequested | index.js:228 | `premiumRequested === true`: the boolean true, nothing else. |
| Values.ToNumber | index.js:297 | `Number(v)` is always a number or NaN, and it leaves a number or NaN as it is, so coercing twice is coercing once. |
| Values.StringToNumber | index.js:297 | `Number(s)` of a string is a number or NaN. |
| Values.NumberOfDecimalText | index.js:297 | A number sent as its decimal text is coerced back to the same number. |
| Values.DecimalTextValue | index.js:297 | The decimal text of a natural number is all digits and denotes that number. |
| Values.SortLeTotal | index.js:59-63 | MongoDB's comparison order of two values is total. |
| Values.SortLeTransitive | index.js:59-63 | MongoDB's comparison order is transitive. |
| Values.StrLeTotal | index.js:59-63 | The binary string order is total. |
| Values.StrLeTransitive | index.js:59-63 | The binary string order is transitive. |

## Left out

- Express routing, CORS, dotenv, the MongoDB connection and its ping are I/O plumbing. The handlers are methods called in sequence.
- The Stripe payment intent is a foreign call, and `amount * 100` is floating point.
- The favourites endpoints are plain inserts and reads with no policy.
- The listing and sorting endpoints are plain queries handed to MongoDB's sort and limit. So is the admin's unfiltered list of all contact requests (index.js:331-334).
- The generic `$set` endpoints for membership and user records (index.js:395-435) are not modelled. A premium viewer arises here from a creation or update body that carries `membership: "premium"`.
- `ObjectId.isValid` (index.js:99) and the 500 answers of the `catch` blocks are not modelled. An `_id` is an abstract natural number, and an id that names no record is simply absent.
- The 201 and 200 success statuses are one outcome, `Ok`. Response messages are not modelled.
- `Date` values are not modelled. `new Date()` is an opaque `now` parameter.
- Values.StringToNumber: reads only decimal digits with an optional sign (and "" as 0). Whitespace, fractions, exponents, hexadecimal and "Infinity" give NaN here, and JavaScript numbers are integers, because floating point is not modelled.
- Request bodies carry scalar fields only. Nested objects, arrays, and field names containing `.` or starting with `$` are not modelled.
- A request body's `_id` on creation is kept as an ordinary field; the driver's rejection of a duplicate `_id` is not modelled.
- Biodatas.CreationKeepsIdsNumeric: "ids stay unique" is proved only while every `biodataId` is a distinct positive number. An update body may set `biodataId` to anything, and the store then no longer guarantees it.
- Store.MatrimonyStore.Details: an absent viewer is proved not premium only when no biodata answers the null email filter. The driver sends `undefined` as null, so a biodata created without an email answers it. In the same way, an approved request that carries no `requesterEmail` answers an absent viewer's request filter, and creation does not require that field. So a viewer who sends no `email` may see contact details (Visibility.AnonymousViewerMatchesUnnamedRequest).
- Store.MatrimonyStore.Details: the `email` query parameter is either absent or one string. Express's query parser also yields arrays and objects, such as `?email[$ne]=x`. Either one turns both lookups (index.js:174-176 and index.js:185-189) into operator queries that can match any record, and so grant disclosure to anyone. That case is not modelled.
- Store.MatrimonyStore.Valid: unique emails hold only because the generic `$set` endpoints (index.js:395-435) are left out. Both endpoints set whatever fields the body holds, `email` among them, and `/users/:id` upserts a new biodata with any email or none. Either can leave two biodatas answering one email filter. Details relies on unique emails to make the viewer lookup determined (Biodatas.EmailSelectsOne).
- Concurrent requests, and the race between reading the greatest `biodataId` and inserting, are not modelled. The store is sequential.
