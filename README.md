# orkut-clone social graph and communities, modelled in Dafny

This project models the data services of an Orkut-style social network. The
services keep two collections in a document store:

- `users`: profiles keyed by uid. Each profile holds four arrays of ids:
  `friends`, `friendRequests` (incoming), `pendingRequests` (outgoing) and
  `communities`.
- `communities`: community records keyed by a generated id. Each record holds
  `members` and `moderators`, the creator (`createdBy`) and a lower-cased copy
  of the name (`nameLower`) used for search.

The model has six modules:

- `Wrappers` (`wrappers.dfy`) holds the `Option` type shared by the others.
- `Firestore` (`firestore.dfy`) gives the two array primitives every write
  relies on. `arrayUnion` appends an id only if it is absent. `arrayRemove`
  drops every occurrence.
- `Documents` (`documents.dfy`) holds the records and the store as a value
  (`Store`, two maps), with the document calls `getDoc`, `updateDoc`, `addDoc`
  and `deleteDoc` as functions. It also has the class `Db`, whose two map
  fields the service methods update in place. `updateDoc` fails on a missing
  document; `deleteDoc` of a missing document succeeds.
- `UserService` (`user_service.dfy`) covers the friend graph: profile lookup,
  the blank-term guard of the user search, send, accept, reject and remove,
  and the listings of friends and incoming requests.
- `CommunityService` (`community_service.dfy`) covers communities: creation,
  join, leave, update with the re-derived search field, deletion with the
  cascade over members, role derivation for the member listing, and the upper
  bound of the name-prefix search.
- `MockUsers` (`mock_users.dfy`) is the simulated sign-in over a fixed table.

Every writing operation (send, accept, reject, remove, create, join, leave,
update and delete) is written twice:

- a function over `Store` values that states what the operation does;
- a module-level method taking a `Db`, whose `ensures` ties the new state and
  the result to that function.

The reading operations are module-level methods taking a `Db`. `getUserProfile`
is stated directly against the object's state. The two friend listings and the
member listing are tied to the functions `ResolveProfiles` and
`MembersWithRoles`. The blank-term guard of `searchUsers` is a function only,
because the query it guards is not modelled.

An operation is a fixed sequence of store calls, reads and writes alike,
numbered from 0 in the order the source makes them. The parameter `outages`
names the calls the store answers with an I/O error. Writes are independent:
a failing write ends the operation with `false` and keeps the earlier writes.
`createCommunity` is the exception. A failed `addDoc` returns null. A failed
profile read or update after it is logged, and the operation still returns the
new id (`CreateCommunityProfileStep`).
Lemmas state what a completed operation does and what an interrupted one
leaves behind. Other lemmas state which invariants each operation keeps:

- friendship is symmetric;
- requests are recorded on both sides;
- a community is created with its owner as a moderator and every moderator
  as a member, and joining or a leave by anyone but the owner keeps that.

Points where the code's behaviour is easy to misread:

- Accepting a request is two `updateDoc` calls, each naming two fields. It
  never checks that a request exists.
- The owner-is-moderator and moderator-is-member invariant is not kept at all
  times. Three things break it: an interrupted leave
  (`LeaveCommunityInterrupted`); a successful leave by the owner, which the
  guard allows once `moderators` has a second entry
  (`OwnerLeaveBreaksWellFormed`); and `updateCommunity`, which replaces
  `members` or `moderators` with whatever it is given
  (`UpdateCommunityMayBreakWellFormed`).
- A friend operation repeated without failures repairs any interrupted first
  attempt (the `...Retry` lemmas). An interrupted join is not repaired by a
  retry (`JoinRetryKeepsDanglingMember`).
- Promoting a moderator is not a service operation. The management page does
  it with `updateCommunity`, replacing `moderators`
  (`OwnerLeavesAfterPromotion`).

## Model

| member | source | states |
|---|---|---|
| Firestore.ArrayUnion | src/firebase/userService.ts:105-107 | `arrayUnion(x)` gives the old ids plus `x`. It keeps the old array as a prefix and appends at most one entry. It changes nothing when `x` is already present and never creates a duplicate. |
| Firestore.ArrayRemove | src/firebase/userService.ts:159-161 | `arrayRemove(x)` keeps exactly the ids other than `x`, each as often as before. It changes nothing when `x` is absent and never creates a duplicate. |
| Firestore.ArrayRemoveAppend | src/firebase/userService.ts:185-187 | removal keeps the order of the remaining ids: it distributes over concatenation |
| Firestore.Patch | src/firebase/userService.ts:131-134 | a field the update does not name keeps its value; a union is `ArrayUnion` of the value, a remove is `ArrayRemove` of the value, each with the stated membership; a replacement value becomes the field |
| Firestore.TransformIdempotent | src/firebase/userService.ts:185-187 | applying the same field transform twice equals applying it once |
| Documents.GetUserDoc | src/firebase/userService.ts:78-84 | a read answers the stored profile exactly when the call succeeds and the document exists |
| Documents.UpdateUserDoc | src/firebase/userService.ts:104-107 | a profile write succeeds exactly when the call succeeds and the document exists. On failure nothing changes. On success only that profile changes, by merging the named fields. |
| Documents.GetCommunityDoc | src/firebase/communityService.ts:193-198 | a read answers the stored community exactly when the call succeeds and the document exists |
| Documents.AddCommunityDoc | src/firebase/communityService.ts:66-67 | `addDoc` under a fresh id stores the record exactly when the call succeeds |
| Documents.ApplyProfilePatch | src/firebase/userService.ts:104-107 | `updateDoc`'s merge into a profile: each of the four array fields becomes `Patch` of its old value and its transform, every other field keeps its value, and an empty update changes nothing |
| Documents.ApplyCommunityPatch | src/firebase/communityService.ts:206-208 | `updateDoc`'s merge into a community, field by field: a given scalar value replaces the old one and a missing one keeps it, the member and moderator lists become `Patch` of their old value and transform; an empty update changes nothing |
| Documents.UpdateCommunityDoc | src/firebase/communityService.ts:206-208 | a community write fails on a missing document or a failed call and then changes nothing; otherwise it merges the fields into that record only |
| Documents.DeleteCommunityDoc | src/firebase/communityService.ts:311 | `deleteDoc` removes the record when the call succeeds and never touches profiles |
| Documents.UpdateUserDocNoDup | src/firebase/userService.ts:104-113 | a write made only of union and remove transforms never creates a duplicate in any profile array |
| Documents.AndThen | src/firebase/userService.ts:104-118 | the second write of a try block runs only after the first succeeded: a failed first write is the result, and the pair succeeds exactly when the second document exists and its call succeeds |
| Documents.TwoWrites | src/firebase/userService.ts:104-118 | two profile writes in sequence succeed exactly when both documents exist and both calls succeed. A first failure changes nothing; a second failure keeps the first write. Other profiles and communities are unchanged. |
| Documents.UpdateUserDocFrame | src/firebase/userService.ts:104-107 | a profile write changes at most its own document, and there only the array fields its update names |
| Documents.TwoWritesFrame | src/firebase/userService.ts:104-118 | two profile writes change at most their two documents, and there only the array fields their updates name |
| Documents.TwoWritesNoDup | src/firebase/userService.ts:104-118 | two writes made only of union and remove transforms never introduce a duplicate in any profile array |
| Documents.ApplyProfilePatchIdempotent | src/firebase/userService.ts:130-141 | merging the same profile update twice equals merging it once |
| Documents.TwoWritesRetry | src/firebase/userService.ts:127-147 | after any first attempt of two writes, a retry without failures leaves the store that one attempt without failures leaves |
| Documents.Db.GetUser | src/firebase/userService.ts:78-79 | the store object's read answers what `GetUserDoc` answers on its current state |
| Documents.Db.UpdateUser | src/firebase/userService.ts:104-107 | the store object's profile write reaches the state and result `UpdateUserDoc` gives |
| Documents.Db.GetCommunity | src/firebase/communityService.ts:193-194 | the store object's community read answers what `GetCommunityDoc` answers |
| Documents.Db.AddCommunity | src/firebase/communityService.ts:66-67 | the store object's `addDoc` reaches the state and result `AddCommunityDoc` gives |
| Documents.Db.UpdateCommunity | src/firebase/communityService.ts:206-208 | the store object's community write reaches the state and result `UpdateCommunityDoc` gives |
| Documents.Db.DeleteCommunity | src/firebase/communityService.ts:311 | the store object's `deleteDoc` reaches the state and result `DeleteCommunityDoc` gives |
| UserService.GetUserProfile | src/firebase/userService.ts:76-90 | the profile is returned exactly when the read succeeds and the document exists; a failed read reads as null |
| UserService.TrimStart | src/firebase/userService.ts:43 | the result is a suffix of the term that does not start with white space, and every character dropped is white space |
| UserService.TrimEnd | src/firebase/userService.ts:43 | the result is a prefix of the term that does not end with white space, and every character dropped is white space |
| UserService.Trim | src/firebase/userService.ts:43 | `trim()` gives a slice of the term with only white space before and after it, and the slice neither starts nor ends with white space |
| UserService.TrimEmptyIffBlank | src/firebase/userService.ts:43 | `trim()` gives the empty string exactly for a term made only of white space and line terminators |
| UserService.SearchUsers | src/firebase/userService.ts:41-70 | an empty or blank term gives [] without a query; a failing query gives [] |
| UserService.SendFriendRequestSpec | src/firebase/userService.ts:97-120 | sending succeeds exactly when the two uids differ, both profiles exist and both writes succeed. A request to oneself, or a failed first write, changes nothing. |
| UserService.SendFriendRequestDelivered | src/firebase/userService.ts:104-113 | after a successful send the target is among the sender's `pendingRequests` and the sender among the target's `friendRequests`; no other field of the two profiles changes |
| UserService.SendFriendRequestInterrupted | src/firebase/userService.ts:104-118 | when the target's write fails, the send returns false with the outgoing request kept and the target unchanged |
| UserService.SendFriendRequestFrame | src/firebase/userService.ts:104-113 | only the request arrays of the two profiles can change, and no duplicate appears |
| UserService.SendFriendRequest | src/firebase/userService.ts:97-120 | the method reaches the state and result `SendFriendRequestSpec` gives |
| UserService.AcceptFriendRequestSpec | src/firebase/userService.ts:127-148 | accepting succeeds exactly when both profiles exist and both writes succeed, whether or not a request exists |
| UserService.AcceptFriendRequestDone | src/firebase/userService.ts:130-141 | after a successful accept each lists the other as a friend. The request is gone from the accepter's `friendRequests` and the friend's `pendingRequests`. The other request arrays are unchanged. |
| UserService.AcceptFriendRequestInterrupted | src/firebase/userService.ts:130-147 | when the friend's write fails, the accepter lists a friend whose profile is unchanged |
| UserService.AcceptFriendRequestFrame | src/firebase/userService.ts:130-141 | only the friend and request arrays of the two profiles change, and no duplicate appears |
| UserService.AcceptFriendRequest | src/firebase/userService.ts:127-148 | the method reaches the state and result `AcceptFriendRequestSpec` gives |
| UserService.RejectFriendRequestSpec | src/firebase/userService.ts:155-174 | rejecting succeeds exactly when both profiles exist and both writes succeed |
| UserService.RejectFriendRequestDone | src/firebase/userService.ts:158-167 | after a successful reject the request is gone from both sides and the other request arrays are unchanged |
| UserService.RejectFriendRequestInterrupted | src/firebase/userService.ts:158-173 | when the requester's write fails, the incoming request is gone and the requester's profile is unchanged |
| UserService.RejectFriendRequestFrame | src/firebase/userService.ts:158-167 | rejecting changes only request arrays of the two profiles, so both `friends` lists are unchanged, and no duplicate appears |
| UserService.RejectFriendRequest | src/firebase/userService.ts:155-174 | the method reaches the state and result `RejectFriendRequestSpec` gives |
| UserService.RemoveFriendSpec | src/firebase/userService.ts:181-200 | removing succeeds exactly when both profiles exist and both writes succeed |
| UserService.RemoveFriendDone | src/firebase/userService.ts:184-193 | after a successful removal neither lists the other; every other friend stays |
| UserService.RemoveFriendInterrupted | src/firebase/userService.ts:184-199 | when the friend's write fails, the friendship is gone from one side only |
| UserService.RemoveFriendFrame | src/firebase/userService.ts:184-193 | only the `friends` arrays of the two profiles change, and no duplicate appears |
| UserService.RemoveFriend | src/firebase/userService.ts:181-200 | the method reaches the state and result `RemoveFriendSpec` gives |
| UserService.ResolveProfiles | src/firebase/userService.ts:214-219 | resolving a list of ids gives no more entries than there are ids |
| UserService.ResolveFrom | src/firebase/userService.ts:214-219 | every resolved profile is the stored profile of a listed id whose read succeeded |
| UserService.ResolveAllPresent | src/firebase/userService.ts:214-219 | when every listed profile exists and every read succeeds, the result is those profiles in list order, one per id |
| UserService.ResolveAppend | src/firebase/userService.ts:214-219 | resolving keeps list order, with any failed reads: the result for `a + b` is the result for `a` followed by the result for `b`, whose reads are the calls after those of `a` |
| UserService.ResolveOne | src/firebase/userService.ts:214-219 | a single id resolves to its profile, or to nothing when the profile is missing or its read fails |
| UserService.ResolveIncludes | src/firebase/userService.ts:214-219 | an id whose profile exists and whose read succeeds is in the listing |
| UserService.Shift | src/firebase/userService.ts:214-219 | renumbers failed calls so that a later part of the list starts counting at zero: call `k` fails in the shifted set exactly when call `k + d` fails |
| UserService.FetchProfiles | src/firebase/userService.ts:214-219 | the loop that reads and pushes each profile returns exactly `ResolveProfiles` of the list |
| UserService.GetUserFriends | src/firebase/userService.ts:206-229 | gives [] when the profile is missing, unreadable or has no friends; otherwise the existing friend profiles in `friends` order. It returns no more entries than there are ids in `friends`. |
| UserService.GetPendingFriendRequests | src/firebase/userService.ts:235-256 | the same contract over `friendRequests` |
| UserService.SendFriendRequestKeepsConsistent | src/firebase/userService.ts:104-113 | a completed send keeps friendship symmetric and requests paired |
| UserService.SendFriendRequestKeepsSymmetric | src/firebase/userService.ts:104-113 | a send, whatever its outcome, keeps friendship symmetric |
| UserService.SendFriendRequestKeepsPaired | src/firebase/userService.ts:104-113 | a completed send keeps every request recorded on both sides |
| UserService.AcceptFriendRequestKeepsConsistent | src/firebase/userService.ts:130-141 | a completed accept keeps friendship symmetric and requests paired |
| UserService.AcceptFriendRequestKeepsSymmetric | src/firebase/userService.ts:130-141 | a completed accept keeps friendship symmetric |
| UserService.AcceptFriendRequestKeepsPaired | src/firebase/userService.ts:130-141 | a completed accept keeps every request recorded on both sides |
| UserService.RejectFriendRequestKeepsConsistent | src/firebase/userService.ts:158-167 | a completed reject keeps friendship symmetric and requests paired |
| UserService.RejectFriendRequestKeepsSymmetric | src/firebase/userService.ts:158-167 | a reject, whatever its outcome, keeps friendship symmetric |
| UserService.RejectFriendRequestKeepsPaired | src/firebase/userService.ts:158-167 | a completed reject keeps every request recorded on both sides |
| UserService.RemoveFriendKeepsConsistent | src/firebase/userService.ts:184-193 | a completed removal keeps friendship symmetric and requests paired |
| UserService.RemoveFriendKeepsSymmetric | src/firebase/userService.ts:184-193 | a completed removal keeps friendship symmetric |
| UserService.RemoveFriendKeepsPaired | src/firebase/userService.ts:184-193 | a removal, whatever its outcome, keeps every request recorded on both sides |
| UserService.AcceptInterruptedBreaksSymmetry | src/firebase/userService.ts:130-147 | an accept whose second write fails returns false and leaves a one-sided friendship |
| UserService.SendInterruptedBreaksPairing | src/firebase/userService.ts:104-118 | a send whose second write fails returns false and leaves an outgoing request the target does not see |
| UserService.SendFriendRequestRetry | src/firebase/userService.ts:97-120 | after any attempt, sending again without failures leaves the store one clean send leaves |
| UserService.AcceptFriendRequestRetry | src/firebase/userService.ts:127-148 | after any attempt, accepting again without failures leaves the store one clean accept leaves |
| UserService.RejectFriendRequestRetry | src/firebase/userService.ts:155-174 | after any attempt, rejecting again without failures leaves the store one clean reject leaves |
| UserService.RemoveFriendRetry | src/firebase/userService.ts:181-200 | removing twice leaves the store that removing once leaves; a clean retry completes a half-done removal |
| UserService.AnaBefriendsBruno | src/firebase/userService.ts:97-148 | ana sends a request, bruno accepts: both succeed and each lists the other as a friend. Ana's request is gone from both sides, and whether an earlier request from bruno to ana is recorded is left as it was. |
| CommunityService.Lower | src/firebase/communityService.ts:60 | `toLowerCase()` keeps the length, moves each capital down by 32, keeps every other character, and leaves no capital |
| CommunityService.LowerIsLower | src/firebase/communityService.ts:60 | lower-casing the search field again changes nothing |
| CommunityService.NewCommunityRecord | src/firebase/communityService.ts:50-64 | the new record has the creator as sole member and sole moderator, and `nameLower` is the lower-cased name. An undefined photo URL stays absent. The other fields are the caller's. The record is well-formed. |
| CommunityService.CreateCommunitySpec | src/firebase/communityService.ts:48-100 | creation returns the new id exactly when `addDoc` succeeds, and then the record is stored under it. A failed `addDoc` returns null with no change. |
| CommunityService.CreateCommunityProfileStep | src/firebase/communityService.ts:70-93 | the creator's `communities` gains the new id when the profile exists and both profile calls succeed; otherwise profiles are unchanged; no other profile or field changes |
| CommunityService.CreateCommunity | src/firebase/communityService.ts:48-100 | the method reaches the state and result `CreateCommunitySpec` gives |
| CommunityService.JoinCommunitySpec | src/firebase/communityService.ts:190-221 | join returns false with no change on a missing or unreadable community. It returns true with no change for a member. Otherwise it succeeds exactly when both writes do and the profile exists. |
| CommunityService.JoinCommunityDone | src/firebase/communityService.ts:206-214 | after a successful join the user is a member. For a new member the community is now in their `communities`. Nothing else in the community or the users changes. |
| CommunityService.JoinCommunityInterrupted | src/firebase/communityService.ts:206-218 | when the profile write fails, the user is a member but the profile is unchanged |
| CommunityService.JoinCommunityIdempotent | src/firebase/communityService.ts:200-203 | joining again after a successful join returns true and changes nothing |
| CommunityService.JoinRetryKeepsDanglingMember | src/firebase/communityService.ts:200-214 | after an interrupted join, a retry returns true at once and the profile still lacks the community |
| CommunityService.JoinCommunityKeepsWellFormed | src/firebase/communityService.ts:206-209 | joining keeps a well-formed community well-formed |
| CommunityService.JoinCommunity | src/firebase/communityService.ts:190-221 | the method reaches the state and result `JoinCommunitySpec` gives |
| CommunityService.LeaveRefused | src/firebase/communityService.ts:238 | the leave guard: the creator is refused while `moderators` has exactly one entry, whoever that entry is |
| CommunityService.LeaveCommunitySpec | src/firebase/communityService.ts:226-265 | leave returns false with no change on a missing or unreadable community, and when the creator is the only entry in `moderators`. Otherwise it succeeds exactly when every write succeeds and the profile exists. |
| CommunityService.LeaveCommunityDone | src/firebase/communityService.ts:243-258 | after a successful leave the user is in neither `members` nor `moderators`, and the community is gone from their `communities`. Nothing else changes. |
| CommunityService.LeaveCommunityResult | src/firebase/communityService.ts:243-258 | a successful leave ends in one store: both lists of that community without the user, and that profile without the community |
| CommunityService.LeaveCommunityWrites | src/firebase/communityService.ts:243-258 | the leave's writes, when every one succeeds, remove the user from `members`, from `moderators` when listed there, and the community from the profile |
| CommunityService.LeaveCommunityCommunityWrites | src/firebase/communityService.ts:243-252 | the community writes of a leave, when they succeed, remove the user from `members` and, when listed there, from `moderators`, and change no other record |
| CommunityService.LeaveCommunityKeepsAModerator | src/firebase/communityService.ts:238-252 | the leave guard means a successful leave never empties `moderators` of a well-formed community |
| CommunityService.OwnerLeaveBreaksWellFormed | src/firebase/communityService.ts:238-252 | when the guard lets the creator leave, the community keeps `createdBy` but it is in neither list, so the invariant is broken |
| CommunityService.LeaveCommunityByMemberKeepsWellFormed | src/firebase/communityService.ts:243-252 | a successful leave by anyone other than the creator keeps the community well-formed |
| CommunityService.LeaveCommunityInterrupted | src/firebase/communityService.ts:243-252 | a moderator whose `moderators` write fails is left a moderator who is not a member |
| CommunityService.LeaveCommunity | src/firebase/communityService.ts:226-265 | the method reaches the state and result `LeaveCommunitySpec` gives |
| CommunityService.UpdateData | src/firebase/communityService.ts:273-278 | a non-empty new name sets `nameLower` to its lower-cased form; otherwise `nameLower` is whatever the caller passed |
| CommunityService.UpdateCommunitySpec | src/firebase/communityService.ts:270-286 | an update succeeds exactly when the community exists and the call succeeds. It changes that record only and never touches profiles. |
| CommunityService.UpdateCommunityMayBreakWellFormed | src/firebase/communityService.ts:270-280 | an update that replaces `moderators` with [] succeeds on any existing community and leaves it without the invariant |
| CommunityService.UpdateCommunityMerges | src/firebase/communityService.ts:273-280 | each field the caller passes is set, every other keeps its value, and a non-empty name re-derives `nameLower` |
| CommunityService.UpdateCommunityKeepsSearchField | src/firebase/communityService.ts:276-278 | an update that does not set `nameLower` keeps it equal to the lower-cased name unless the new name is empty |
| CommunityService.UpdateCommunity | src/firebase/communityService.ts:270-286 | the method reaches the state and result `UpdateCommunitySpec` gives |
| CommunityService.OwnerLeavesAfterPromotion | src/firebase/communityService.ts:238-258 | the sole-moderator creator cannot leave. After promoting another member through `updateCommunity` (the management page's promotion), the creator can. |
| CommunityService.Cascade | src/firebase/communityService.ts:303-308 | the member loop never touches communities and keeps the set of profiles |
| CommunityService.CascadeSucceeds | src/firebase/communityService.ts:303-308 | the member loop completes exactly when every member has a profile and no write fails |
| CommunityService.CascadeFrame | src/firebase/communityService.ts:303-308 | the loop changes only `communities` arrays, only of listed members, and removes no other community |
| CommunityService.CascadeClears | src/firebase/communityService.ts:303-308 | after a complete loop no listed member's profile lists the community |
| CommunityService.CascadeStopsAtFailure | src/firebase/communityService.ts:303-308 | the first failed write ends the loop: later members are not touched |
| CommunityService.DeleteCommunitySpec | src/firebase/communityService.ts:291-317 | deletion returns false with no change on a missing or unreadable community. Communities change only by removing this one, and only on success. |
| CommunityService.DeleteCommunitySucceeds | src/firebase/communityService.ts:296-312 | deletion succeeds exactly when the read succeeds, every member read has a profile, and every later call succeeds |
| CommunityService.DeleteCommunityClears | src/firebase/communityService.ts:303-308 | after a successful deletion no member read at the start lists the community |
| CommunityService.DeleteCommunityKeepsOthers | src/firebase/communityService.ts:303-308 | whatever the outcome, no profile gains or loses any other community |
| CommunityService.DeleteCommunityDone | src/firebase/communityService.ts:296-312 | deletion succeeds exactly when every member's profile exists and every write and the `deleteDoc` succeed. Then no member read at the start lists the community. No profile loses any other community. |
| CommunityService.DeleteCommunityInterrupted | src/firebase/communityService.ts:303-316 | a missing or failing member profile stops the deletion and the community survives |
| CommunityService.DeleteCommunity | src/firebase/communityService.ts:291-317 | the method with its member loop reaches the state and result `DeleteCommunitySpec` gives |
| CommunityService.RoleOf | src/firebase/communityService.ts:341-347 | the role is owner exactly for the creator; moderator exactly for a non-creator in `moderators`; member otherwise |
| CommunityService.MembersWithRoles | src/firebase/communityService.ts:335-354 | the listing has no more entries than `members` has ids |
| CommunityService.MembersWithRolesFrom | src/firebase/communityService.ts:335-354 | every entry is an existing member's profile tagged with that member's role |
| CommunityService.MembersWithRolesAppend | src/firebase/communityService.ts:335-354 | the listing distributes over concatenation, so it keeps `members` order |
| CommunityService.MembersWithRolesOne | src/firebase/communityService.ts:335-354 | a single member is listed with its profile and role when the profile exists, and skipped otherwise |
| CommunityService.GetCommunityMembers | src/firebase/communityService.ts:322-360 | gives [] on a missing or unreadable community and on any failed member read; otherwise the members with profiles, with their roles, in order |
| CommunityService.SearchUpperBound | src/firebase/communityService.ts:147 | the bound has the term's length and the same code units except the last. The last is incremented, wrapping at 0xFFFF, unless it is a line terminator. The empty term maps to itself. |
| CommunityService.PrefixInSearchRange | src/firebase/communityService.ts:147-152 | every name that starts with the term lies in the query's range, unless the term ends in a line terminator or 0xFFFF |
| CommunityService.SearchRangeHoldsOnlyPrefixes | src/firebase/communityService.ts:147-152 | under the same condition, every name in the range starts with the term, so the range is exactly the prefix search |
| CommunityService.LineTerminatorEmptiesRange | src/firebase/communityService.ts:147-152 | an empty term, or one ending in a line terminator, gives an empty range |
| CommunityService.WrapEmptiesRange | src/firebase/communityService.ts:147-152 | a term ending in 0xFFFF gives a bound below the term, so the range is empty |
| MockUsers.WithoutPasswordLosesOnlyPassword | src/mocks/users.ts:49-50 | dropping the password loses that field and nothing else: the entry is rebuilt from the result and the password |
| MockUsers.WithoutPassword | src/mocks/users.ts:49-50 | the `{password, ...rest}` destructuring: the entry is rebuilt from the result and its password |
| MockUsers.Find | src/mocks/users.ts:42-44 | the lookup finds nothing exactly when no entry has both the email and the password; otherwise it finds the first such entry |
| MockUsers.Authenticate | src/mocks/users.ts:41-50 | sign-in returns null exactly when no entry has both the email and the password; otherwise the first such entry without its password |
| MockUsers.AuthenticateUser | src/mocks/users.ts:41-51 | sign-in against the simulated table returns null exactly when no entry has both the email and the password, otherwise the first such entry without its password |
| MockUsers.Users | src/mocks/users.ts:16-38 | the three simulated entries, each with the default picture and no other optional field |
| MockUsers.UsersEmailsDistinct | src/mocks/users.ts:16-38 | no two entries of the table share an email |
| MockUsers.MariaSignsIn | src/mocks/users.ts:24-30 | maria@example.com with senha123 signs in as entry "2" |
| MockUsers.WrongPasswordRefused | src/mocks/users.ts:41-46 | maria@example.com with another user's password, or an empty one, is refused |
| MockUsers.SharedPasswordKeepsUsersApart | src/mocks/users.ts:24-44 | two users share a password, and the email decides which entry signs in |

## Left out

- The React pages and components are not modelled. This covers rendering, local UI state, routing, timers, confirmation dialogs and session storage. The promotion on the management page appears only as the `updateCommunity` call it makes.
- The authentication context and the app configuration are thin wrappers over the Firebase SDK. The configuration does not export the `db` the services import, so the store is an abstract value.
- Query semantics are not modelled: `orderBy`, `startAt`, `endAt`, `limit`, `array-contains`, and the listings `getAllCommunities` and `getUserCommunities`. `getCommunity` is a single `getDoc` read outside the modelled operations; `GetCommunityDoc` has its shape. `SearchUsers` takes the query's answer as a parameter. Only the bound `endStr` of `searchCommunities` is modelled.
- `Timestamp.now()` is the parameter `now`, and the id `addDoc` generates is the parameter `newId`, assumed unused.
- `updateUserSearchField` and `updateAllUsersSearchFields` are imported by pages but not defined in the user service, so they are not part of this model.
- There is no model of async execution, interleavings of concurrent operations, or console logging. Each operation runs as one sequence of calls, and any of its calls may fail.
- `removeMemberFromCommunity` is imported by the management page from the community service, but `communityService.ts` does not define it, so it is not part of this model.
- `Lower` lower-cases ASCII letters only, not the full Unicode mapping of `toLowerCase`.
- `SearchUpperBound` works on the UTF-16 code units of the already lower-cased term. Its order `Less` is code-unit order, which is the store's string order only outside the surrogate range.
- An absent array field and an empty one are the same value, []. This makes the two branches of the creator step of `createCommunity` write the same `[id]`.
- The `id` key a caller may put in the update object of `updateCommunity` is not modelled. `CommunityUpdate` has only the record's own fields.
- `SearchUsers` treats the blank-term guard as its whole contract; the search results themselves depend on the query.
- `CommunityService.CreateCommunitySpec` does not state the profile step itself; `CreateCommunityProfileStep` states it.
