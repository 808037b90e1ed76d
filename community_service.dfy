/**
 * The community service: building and storing a new community, joining,
 * leaving, updating with a re-derived search field, deleting with the cascade
 * over members, listing members with their roles, and the upper bound of the
 * name-prefix search.
 *
 * As in the friend graph, the document calls of one operation are numbered
 * from 0 in the order the service makes them, and `outages` holds the
 * numbers of the calls the store answers with an I/O error.
 */
module CommunityService {
  import opened Wrappers
  import opened Firestore
  import opened Documents

  // ---------------------------------------------------------------------------
  // Lower-casing (ASCII letters only)

  function LowerChar(c: char): char {
    if 'A' <= c <= 'Z' then (c as int + 32) as char else c
  }

  /** `toLowerCase` on ASCII: each capital moves down by 32, every other character stays, and no capital is left. */
  function Lower(s: string): (r: string)
    ensures |r| == |s|
    ensures forall i :: 0 <= i < |s| ==> !('A' <= r[i] <= 'Z')
    ensures forall i :: 0 <= i < |s| && !('A' <= s[i] <= 'Z') ==> r[i] == s[i]
    ensures forall i :: 0 <= i < |s| && 'A' <= s[i] <= 'Z' ==> r[i] as int == s[i] as int + 32
  {
    seq(|s|, i requires 0 <= i < |s| => LowerChar(s[i]))
  }

  /** Lower-casing the search field again changes nothing. */
  lemma LowerIsLower(s: string)
    ensures Lower(Lower(s)) == Lower(s)
  {
  }

  // ---------------------------------------------------------------------------
  // The shape every community is created with

  /**
   * The owner is a moderator, every moderator is a member, and neither list
   * repeats an id.
   */
  predicate WellFormed(c: Community) {
    && c.createdBy in c.moderators
    && (forall m :: m in c.moderators ==> m in c.members)
    && NoDup(c.members)
    && NoDup(c.moderators)
  }

  // ---------------------------------------------------------------------------
  // createCommunity

  /** What a caller passes to `createCommunity`; `photoURL` None is an undefined value. */
  datatype NewCommunity = NewCommunity(
    name: string,
    description: string,
    category: string,
    photoURL: Option<string>,
    createdBy: Uid,
    isPublic: bool)

  /** The record written: the caller's fields, the search field, and the creator as sole member and moderator. */
  function NewCommunityRecord(data: NewCommunity, now: int): (c: Community)
    ensures c.members == [data.createdBy] && c.moderators == [data.createdBy]
    ensures c.nameLower == Some(Lower(data.name))
    ensures c.photoURL == data.photoURL
    ensures c.name == data.name && c.description == data.description && c.category == data.category
    ensures c.createdBy == data.createdBy && c.isPublic == data.isPublic && c.createdAt == now
    ensures WellFormed(c)
  {
    Community(data.name, data.description, data.category, data.photoURL, now, data.createdBy,
              [data.createdBy], [data.createdBy], data.isPublic, Some(Lower(data.name)))
  }

  /** The store after `createCommunity`, and the id it returns (None: it returns null). */
  datatype Created = Created(store: Store, id: Option<Cid>)

  function JoinedPatch(cid: Cid): ProfilePatch { NoProfileChange.(communities := Some(Union(cid))) }

  /**
   * One `addDoc` (call 0) under the fresh id `newId`, then, best effort, a
   * read (call 1) and an update (call 2) of the creator's profile. When the
   * profile has no `communities` field the source writes `[newId]`, which is
   * what `arrayUnion` gives on an absent field.
   */
  function CreateCommunitySpec(s: Store, data: NewCommunity, newId: Cid, now: int, outages: set<nat>): (r: Created)
    requires newId !in s.communities
    ensures r.id == if 0 in outages then None else Some(newId)
    ensures r.id.None? ==> r.store == s
    ensures r.id.Some? ==> r.store.communities == s.communities[newId := NewCommunityRecord(data, now)]
  {
    var r0 := AddCommunityDoc(s, newId, NewCommunityRecord(data, now), 0 in outages);
    if !r0.ok then Created(s, None)
    else
      var owner := GetUserDoc(r0.store, data.createdBy, 1 in outages);
      if owner.None? then Created(r0.store, Some(newId))
      else Created(UpdateUserDoc(r0.store, data.createdBy, JoinedPatch(newId), 2 in outages).store, Some(newId))
  }

  /** The creator's profile gains the new id when it exists and both profile calls succeed; nothing else in `users` changes. */
  lemma CreateCommunityProfileStep(s: Store, data: NewCommunity, newId: Cid, now: int, outages: set<nat>)
    requires newId !in s.communities
    ensures var r := CreateCommunitySpec(s, data, newId, now, outages);
      && UsersChangeOnly(s.users, r.store.users, {data.createdBy}, {Communities})
      && (if 0 !in outages && 1 !in outages && 2 !in outages && data.createdBy in s.users
          then forall y :: y in r.store.users[data.createdBy].communities <==> y in s.users[data.createdBy].communities || y == newId
          else r.store.users == s.users)
  {
  }

  method CreateCommunity(db: Db, data: NewCommunity, newId: Cid, now: int, outages: set<nat>) returns (id: Option<Cid>)
    requires newId !in db.communities
    modifies db
    ensures Created(db.Snapshot(), id) == CreateCommunitySpec(old(db.Snapshot()), data, newId, now, outages)
  {
    var ok := db.AddCommunity(newId, NewCommunityRecord(data, now), 0 in outages);
    if !ok {
      return None;
    }
    // a failure from here on is logged and does not change the result
    var owner := db.GetUser(data.createdBy, 1 in outages);
    if owner.Some? {
      ok := db.UpdateUser(data.createdBy, JoinedPatch(newId), 2 in outages);
    }
    id := Some(newId);
  }

  // ---------------------------------------------------------------------------
  // joinCommunity

  function MemberAdded(uid: Uid): CommunityPatch { NoCommunityChange.(members := Some(Union(uid))) }

  /** A read (call 0); for a non-member, an update of the community (call 1) and of the profile (call 2). */
  function JoinCommunitySpec(s: Store, cid: Cid, uid: Uid, outages: set<nat>): (r: Outcome)
    ensures 0 in outages || cid !in s.communities ==> r == Outcome(s, false)
    ensures 0 !in outages && cid in s.communities && uid in s.communities[cid].members ==> r == Outcome(s, true)
    ensures r.ok <==>
      && 0 !in outages && cid in s.communities
      && (uid in s.communities[cid].members || (1 !in outages && 2 !in outages && uid in s.users))
  {
    var c := GetCommunityDoc(s, cid, 0 in outages);
    if c.None? then Outcome(s, false)
    else if uid in c.value.members then Outcome(s, true)
    else
      var r1 := UpdateCommunityDoc(s, cid, MemberAdded(uid), 1 in outages);
      if !r1.ok then r1
      else UpdateUserDoc(r1.store, uid, JoinedPatch(cid), 2 in outages)
  }

  /** A successful join leaves the user among the members and, when it added them, the community in their profile. */
  lemma JoinCommunityDone(s: Store, cid: Cid, uid: Uid, outages: set<nat>)
    requires JoinCommunitySpec(s, cid, uid, outages).ok
    ensures var t := JoinCommunitySpec(s, cid, uid, outages).store;
      && cid in t.communities
      && uid in t.communities[cid].members
      && (forall y :: y in t.communities[cid].members <==> y in s.communities[cid].members || y == uid)
      && t.communities[cid] == s.communities[cid].(members := t.communities[cid].members)
      && t.communities == s.communities[cid := t.communities[cid]]
      && (uid !in s.communities[cid].members ==>
           && (forall y :: y in t.users[uid].communities <==> y in s.users[uid].communities || y == cid)
           && ChangesOnly(s.users[uid], t.users[uid], {Communities}))
      && t.users.Keys == s.users.Keys
      && (forall u :: u in s.users && u != uid ==> t.users[u] == s.users[u])
  {
  }

  /** When the profile write fails, the user is a member whose profile does not list the community. */
  lemma JoinCommunityInterrupted(s: Store, cid: Cid, uid: Uid, outages: set<nat>)
    requires 0 !in outages && 1 !in outages && cid in s.communities && uid !in s.communities[cid].members
    requires uid !in s.users || 2 in outages
    ensures var r := JoinCommunitySpec(s, cid, uid, outages);
      && !r.ok
      && uid in r.store.communities[cid].members
      && r.store.users == s.users
  {
  }

  /** Joining again after a successful join changes nothing and succeeds. */
  lemma JoinCommunityIdempotent(s: Store, cid: Cid, uid: Uid, first: set<nat>, second: set<nat>)
    requires JoinCommunitySpec(s, cid, uid, first).ok && 0 !in second
    ensures var t := JoinCommunitySpec(s, cid, uid, first).store;
      JoinCommunitySpec(t, cid, uid, second) == Outcome(t, true)
  {
    JoinCommunityDone(s, cid, uid, first);
  }

  /**
   * A retry does not repair an interrupted join: the member check answers
   * true at once and the profile still lacks the community.
   */
  lemma JoinRetryKeepsDanglingMember(s: Store, cid: Cid, uid: Uid, outages: set<nat>)
    requires 0 !in outages && 1 !in outages && 2 in outages
    requires cid in s.communities && uid !in s.communities[cid].members && uid in s.users
    requires cid !in s.users[uid].communities
    ensures var r := JoinCommunitySpec(s, cid, uid, outages);
      var again := JoinCommunitySpec(r.store, cid, uid, {});
      && !r.ok && again.ok
      && uid in again.store.communities[cid].members
      && cid !in again.store.users[uid].communities
  {
    JoinCommunityInterrupted(s, cid, uid, outages);
  }

  lemma JoinCommunityKeepsWellFormed(s: Store, cid: Cid, uid: Uid, outages: set<nat>)
    requires cid in s.communities && WellFormed(s.communities[cid])
    ensures var t := JoinCommunitySpec(s, cid, uid, outages).store;
      cid in t.communities && WellFormed(t.communities[cid])
  {
  }

  method JoinCommunity(db: Db, cid: Cid, uid: Uid, outages: set<nat>) returns (ok: bool)
    modifies db
    ensures Outcome(db.Snapshot(), ok) == JoinCommunitySpec(old(db.Snapshot()), cid, uid, outages)
  {
    var c := db.GetCommunity(cid, 0 in outages);
    if c.None? {
      return false;
    }
    if uid in c.value.members {
      return true;
    }
    ok := db.UpdateCommunity(cid, MemberAdded(uid), 1 in outages);
    if !ok {
      return;
    }
    ok := db.UpdateUser(uid, JoinedPatch(cid), 2 in outages);
  }

  // ---------------------------------------------------------------------------
  // leaveCommunity

  function MemberRemoved(uid: Uid): CommunityPatch { NoCommunityChange.(members := Some(Remove(uid))) }
  function ModeratorRemoved(uid: Uid): CommunityPatch { NoCommunityChange.(moderators := Some(Remove(uid))) }
  function LeftPatch(cid: Cid): ProfilePatch { NoProfileChange.(communities := Some(Remove(cid))) }

  /** The guard: the creator may not leave while `moderators` has exactly one entry. */
  predicate LeaveRefused(c: Community, uid: Uid) {
    c.createdBy == uid && |c.moderators| == 1
  }

  /**
   * A read (call 0), the guard, then updates of `members` (call 1), of
   * `moderators` when the user was one (call 2), and of the profile (the next call).
   */
  function LeaveCommunitySpec(s: Store, cid: Cid, uid: Uid, outages: set<nat>): (r: Outcome)
    ensures 0 in outages || cid !in s.communities ==> r == Outcome(s, false)
    ensures 0 !in outages && cid in s.communities && LeaveRefused(s.communities[cid], uid) ==> r == Outcome(s, false)
    ensures r.ok <==>
      && 0 !in outages && cid in s.communities && !LeaveRefused(s.communities[cid], uid) && 1 !in outages
      && (if uid in s.communities[cid].moderators then 2 !in outages && 3 !in outages else 2 !in outages)
      && uid in s.users
    ensures r.store.communities.Keys == s.communities.Keys && r.store.users.Keys == s.users.Keys
  {
    var c := GetCommunityDoc(s, cid, 0 in outages);
    if c.None? || LeaveRefused(c.value, uid) then Outcome(s, false)
    else
      var r1 := UpdateCommunityDoc(s, cid, MemberRemoved(uid), 1 in outages);
      if !r1.ok then r1
      else
        var wasModerator := uid in c.value.moderators;
        var r2 := if wasModerator then UpdateCommunityDoc(r1.store, cid, ModeratorRemoved(uid), 2 in outages) else r1;
        if !r2.ok then r2
        else UpdateUserDoc(r2.store, uid, LeftPatch(cid), if wasModerator then 3 in outages else 2 in outages)
  }

  /** A successful leave removes the user from both lists and the community from the profile, and nothing else. */
  lemma LeaveCommunityDone(s: Store, cid: Cid, uid: Uid, outages: set<nat>)
    requires LeaveCommunitySpec(s, cid, uid, outages).ok
    ensures var t := LeaveCommunitySpec(s, cid, uid, outages).store;
      var c := s.communities[cid];
      && t.communities == s.communities[cid := c.(members := ArrayRemove(c.members, uid), moderators := ArrayRemove(c.moderators, uid))]
      && t.users == s.users[uid := s.users[uid].(communities := ArrayRemove(s.users[uid].communities, cid))]
      && uid !in t.communities[cid].members
      && uid !in t.communities[cid].moderators
      && cid !in t.users[uid].communities
  {
    LeaveCommunityResult(s, cid, uid, outages);
  }

  /** The store a successful leave produces, as one value. */
  lemma LeaveCommunityResult(s: Store, cid: Cid, uid: Uid, outages: set<nat>)
    requires LeaveCommunitySpec(s, cid, uid, outages).ok
    ensures cid in s.communities && uid in s.users
    ensures var c := s.communities[cid];
      LeaveCommunitySpec(s, cid, uid, outages).store == Store(
        s.users[uid := s.users[uid].(communities := ArrayRemove(s.users[uid].communities, cid))],
        s.communities[cid := c.(members := ArrayRemove(c.members, uid), moderators := ArrayRemove(c.moderators, uid))])
  {
    var c := s.communities[cid];
    var wasModerator := uid in c.moderators;
    assert 1 !in outages && 2 !in outages && (wasModerator ==> 3 !in outages);
    var r1 := UpdateCommunityDoc(s, cid, MemberRemoved(uid), false);
    var r2 := if wasModerator then UpdateCommunityDoc(r1.store, cid, ModeratorRemoved(uid), false) else r1;
    assert LeaveCommunitySpec(s, cid, uid, outages) == UpdateUserDoc(r2.store, uid, LeftPatch(cid), false);
    LeaveCommunityWrites(s, cid, uid);
  }

  /** The writes of a leave that all succeed, from the store as read. */
  lemma LeaveCommunityWrites(s: Store, cid: Cid, uid: Uid)
    requires cid in s.communities && uid in s.users
    ensures var c := s.communities[cid];
      var r1 := UpdateCommunityDoc(s, cid, MemberRemoved(uid), false);
      var r2 := if uid in c.moderators then UpdateCommunityDoc(r1.store, cid, ModeratorRemoved(uid), false) else r1;
      UpdateUserDoc(r2.store, uid, LeftPatch(cid), false).store == Store(
        s.users[uid := s.users[uid].(communities := ArrayRemove(s.users[uid].communities, cid))],
        s.communities[cid := c.(members := ArrayRemove(c.members, uid), moderators := ArrayRemove(c.moderators, uid))])
  {
    var c := s.communities[cid];
    LeaveCommunityCommunityWrites(s, cid, uid);
    assert ApplyProfilePatch(s.users[uid], LeftPatch(cid)) == s.users[uid].(communities := ArrayRemove(s.users[uid].communities, cid));
  }

  /** The one or two community writes of a leave, when they succeed. */
  lemma LeaveCommunityCommunityWrites(s: Store, cid: Cid, uid: Uid)
    requires cid in s.communities
    ensures var c := s.communities[cid];
      var r1 := UpdateCommunityDoc(s, cid, MemberRemoved(uid), false);
      var r2 := if uid in c.moderators then UpdateCommunityDoc(r1.store, cid, ModeratorRemoved(uid), false) else r1;
      r2.ok && r2.store == s.(communities := s.communities[cid := c.(members := ArrayRemove(c.members, uid), moderators := ArrayRemove(c.moderators, uid))])
  {
    var c := s.communities[cid];
    var c2 := c.(members := ArrayRemove(c.members, uid), moderators := ArrayRemove(c.moderators, uid));
    LeaveCommunityCommunityStep(c, uid);
    var c1 := ApplyCommunityPatch(c, MemberRemoved(uid));
    var r1 := UpdateCommunityDoc(s, cid, MemberRemoved(uid), false);
    assert r1.store == s.(communities := s.communities[cid := c1]);
    if uid in c.moderators {
      var r2 := UpdateCommunityDoc(r1.store, cid, ModeratorRemoved(uid), false);
      assert r2.store.communities == s.communities[cid := c1][cid := c2];
      assert s.communities[cid := c1][cid := c2] == s.communities[cid := c2];
    } else {
      assert r1.store.communities == s.communities[cid := c2];
    }
  }

  /** The two community writes of a leave, applied to the document, remove the user from both lists. */
  lemma LeaveCommunityCommunityStep(c: Community, uid: Uid)
    ensures var c1 := ApplyCommunityPatch(c, MemberRemoved(uid));
      var c2 := c.(members := ArrayRemove(c.members, uid), moderators := ArrayRemove(c.moderators, uid));
      && c1 == c.(members := ArrayRemove(c.members, uid))
      && (uid in c.moderators ==> ApplyCommunityPatch(c1, ModeratorRemoved(uid)) == c2)
      && (uid !in c.moderators ==> c1 == c2)
  {
    var c1 := ApplyCommunityPatch(c, MemberRemoved(uid));
    assert c1 == c.(members := ArrayRemove(c.members, uid));
    if uid !in c.moderators {
      assert ArrayRemove(c.moderators, uid) == c.moderators;
    }
  }

  /**
   * The guard lets the creator leave once `moderators` has another entry, and
   * then the community keeps a `createdBy` who is neither a moderator nor a member.
   */
  lemma OwnerLeaveBreaksWellFormed(s: Store, cid: Cid, outages: set<nat>)
    requires cid in s.communities
    requires LeaveCommunitySpec(s, cid, s.communities[cid].createdBy, outages).ok
    ensures var c' := LeaveCommunitySpec(s, cid, s.communities[cid].createdBy, outages).store.communities[cid];
      && c'.createdBy == s.communities[cid].createdBy
      && c'.createdBy !in c'.moderators && c'.createdBy !in c'.members
      && !WellFormed(c')
  {
    LeaveCommunityDone(s, cid, s.communities[cid].createdBy, outages);
  }

  /** Under the creation invariant, a successful leave never leaves a community without a moderator. */
  lemma LeaveCommunityKeepsAModerator(s: Store, cid: Cid, uid: Uid, outages: set<nat>)
    requires cid in s.communities && WellFormed(s.communities[cid])
    requires LeaveCommunitySpec(s, cid, uid, outages).ok
    ensures |LeaveCommunitySpec(s, cid, uid, outages).store.communities[cid].moderators| > 0
  {
    LeaveCommunityDone(s, cid, uid, outages);
    var c := s.communities[cid];
    var mods := LeaveCommunitySpec(s, cid, uid, outages).store.communities[cid].moderators;
    if uid == c.createdBy {
      assert |c.moderators| != 1;
      var i :| 0 <= i < |c.moderators| && c.moderators[i] == uid;
      var k := if i == 0 then 1 else 0;
      assert c.moderators[k] != uid;
      assert c.moderators[k] in mods;
    } else {
      assert c.createdBy in mods;
    }
  }

  /** A member who is not the owner leaves a well-formed community well-formed. */
  lemma LeaveCommunityByMemberKeepsWellFormed(s: Store, cid: Cid, uid: Uid, outages: set<nat>)
    requires cid in s.communities && WellFormed(s.communities[cid]) && uid != s.communities[cid].createdBy
    requires LeaveCommunitySpec(s, cid, uid, outages).ok
    ensures WellFormed(LeaveCommunitySpec(s, cid, uid, outages).store.communities[cid])
  {
    LeaveCommunityDone(s, cid, uid, outages);
  }

  /** A moderator whose `moderators` write fails is left a moderator who is no longer a member. */
  lemma LeaveCommunityInterrupted(s: Store, cid: Cid, uid: Uid, outages: set<nat>)
    requires 0 !in outages && 1 !in outages && 2 in outages
    requires cid in s.communities && uid in s.communities[cid].moderators && !LeaveRefused(s.communities[cid], uid)
    ensures var r := LeaveCommunitySpec(s, cid, uid, outages);
      && !r.ok
      && uid in r.store.communities[cid].moderators
      && uid !in r.store.communities[cid].members
      && !WellFormed(r.store.communities[cid])
  {
  }

  method LeaveCommunity(db: Db, cid: Cid, uid: Uid, outages: set<nat>) returns (ok: bool)
    modifies db
    ensures Outcome(db.Snapshot(), ok) == LeaveCommunitySpec(old(db.Snapshot()), cid, uid, outages)
  {
    var c := db.GetCommunity(cid, 0 in outages);
    if c.None? || LeaveRefused(c.value, uid) {
      return false;
    }
    ok := db.UpdateCommunity(cid, MemberRemoved(uid), 1 in outages);
    if !ok {
      return;
    }
    var step := 2;
    if uid in c.value.moderators {
      ok := db.UpdateCommunity(cid, ModeratorRemoved(uid), 2 in outages);
      if !ok {
        return;
      }
      step := 3;
    }
    ok := db.UpdateUser(uid, LeftPatch(cid), step in outages);
  }

  // ---------------------------------------------------------------------------
  // updateCommunity

  /** `Partial<Community>`: the fields a caller passes; None means the key is absent. */
  datatype CommunityUpdate = CommunityUpdate(
    name: Option<string>,
    description: Option<string>,
    category: Option<string>,
    photoURL: Option<string>,
    createdAt: Option<int>,
    createdBy: Option<Uid>,
    members: Option<seq<Uid>>,
    moderators: Option<seq<Uid>>,
    isPublic: Option<bool>,
    nameLower: Option<string>)

  function AsReplace(v: Option<seq<Uid>>): Option<Transform> {
    if v.Some? then Some(Replace(v.value)) else None
  }

  /** The data written: the caller's fields, and `nameLower` derived from a non-empty `name`. */
  function UpdateData(d: CommunityUpdate): (w: CommunityPatch)
    ensures d.name.Some? && d.name.value != "" ==> w.nameLower == Some(Lower(d.name.value))
    ensures !(d.name.Some? && d.name.value != "") ==> w.nameLower == d.nameLower
  {
    CommunityPatch(d.name, d.description, d.category, d.photoURL, d.createdAt, d.createdBy,
                   AsReplace(d.members), AsReplace(d.moderators), d.isPublic,
                   if d.name.Some? && d.name.value != "" then Some(Lower(d.name.value)) else d.nameLower)
  }

  /** One update (call 0); it fails on a missing community. */
  function UpdateCommunitySpec(s: Store, cid: Cid, d: CommunityUpdate, outages: set<nat>): (r: Outcome)
    ensures r.ok <==> 0 !in outages && cid in s.communities
    ensures !r.ok ==> r.store == s
    ensures r.store.users == s.users
    ensures r.ok ==> cid in r.store.communities && r.store.communities == s.communities[cid := r.store.communities[cid]]
  {
    UpdateCommunityDoc(s, cid, UpdateData(d), 0 in outages)
  }

  /** A successful update sets every field the caller passed, keeps every other, and re-derives `nameLower` from a new name. */
  lemma UpdateCommunityMerges(s: Store, cid: Cid, d: CommunityUpdate, outages: set<nat>)
    requires UpdateCommunitySpec(s, cid, d, outages).ok
    ensures var c := s.communities[cid];
      var c' := UpdateCommunitySpec(s, cid, d, outages).store.communities[cid];
      && c'.name == (if d.name.Some? then d.name.value else c.name)
      && c'.description == (if d.description.Some? then d.description.value else c.description)
      && c'.category == (if d.category.Some? then d.category.value else c.category)
      && c'.photoURL == (if d.photoURL.Some? then d.photoURL else c.photoURL)
      && c'.createdAt == (if d.createdAt.Some? then d.createdAt.value else c.createdAt)
      && c'.createdBy == (if d.createdBy.Some? then d.createdBy.value else c.createdBy)
      && c'.members == (if d.members.Some? then d.members.value else c.members)
      && c'.moderators == (if d.moderators.Some? then d.moderators.value else c.moderators)
      && c'.isPublic == (if d.isPublic.Some? then d.isPublic.value else c.isPublic)
      && (d.name.Some? && d.name.value != "" ==> c'.nameLower == Some(Lower(c'.name)))
      && (!(d.name.Some? && d.name.value != "") ==> c'.nameLower == (if d.nameLower.Some? then d.nameLower else c.nameLower))
  {
  }

  /**
   * The search field stays in step with the name across an update that does
   * not set it by hand, unless the new name is empty: an empty `name` is not
   * truthy, so the old `nameLower` stays.
   */
  lemma UpdateCommunityKeepsSearchField(s: Store, cid: Cid, d: CommunityUpdate, outages: set<nat>)
    requires UpdateCommunitySpec(s, cid, d, outages).ok
    requires s.communities[cid].nameLower == Some(Lower(s.communities[cid].name))
    requires d.nameLower.None?
    ensures var c' := UpdateCommunitySpec(s, cid, d, outages).store.communities[cid];
      c'.nameLower == Some(Lower(c'.name)) <==> d.name.None? || d.name.value != "" || Lower(s.communities[cid].name) == ""
  {
    UpdateCommunityMerges(s, cid, d, outages);
    LowerIsLower(s.communities[cid].name);
  }

  method UpdateCommunity(db: Db, cid: Cid, d: CommunityUpdate, outages: set<nat>) returns (ok: bool)
    modifies db
    ensures Outcome(db.Snapshot(), ok) == UpdateCommunitySpec(old(db.Snapshot()), cid, d, outages)
  {
    ok := db.UpdateCommunity(cid, UpdateData(d), 0 in outages);
  }

  /**
   * The scenario of the owner who cannot leave as sole moderator, promotes a
   * member (the management page's update of `moderators`), and then can leave.
   */
  lemma OwnerLeavesAfterPromotion(s: Store, cid: Cid, owner: Uid, member: Uid)
    requires cid in s.communities && owner in s.users
    requires s.communities[cid].createdBy == owner && s.communities[cid].moderators == [owner]
    requires member != owner
    ensures LeaveCommunitySpec(s, cid, owner, {}) == Outcome(s, false)
    ensures var promote := NoUpdate.(moderators := Some(s.communities[cid].moderators + [member]));
      var promoted := UpdateCommunitySpec(s, cid, promote, {});
      promoted.ok && LeaveCommunitySpec(promoted.store, cid, owner, {}).ok
  {
    var promote := NoUpdate.(moderators := Some(s.communities[cid].moderators + [member]));
    UpdateCommunityMerges(s, cid, promote, {});
  }

  /** `updateCommunity` replaces the lists with whatever it is given: emptying `moderators` succeeds and breaks the invariant. */
  lemma UpdateCommunityMayBreakWellFormed(s: Store, cid: Cid)
    requires cid in s.communities
    ensures var r := UpdateCommunitySpec(s, cid, NoUpdate.(moderators := Some([])), {});
      r.ok && !WellFormed(r.store.communities[cid])
  {
    UpdateCommunityMerges(s, cid, NoUpdate.(moderators := Some([])), {});
  }

  const NoUpdate := CommunityUpdate(None, None, None, None, None, None, None, None, None, None)

  // ---------------------------------------------------------------------------
  // deleteCommunity

  /**
   * The cascade: `communities: arrayRemove(cid)` on the profile of each id in
   * turn (the write for `ids[j]` is call j + 1), stopping at the first failure;
   * a missing profile fails its write.
   */
  function Cascade(s: Store, ids: seq<Uid>, cid: Cid, outages: set<nat>): (r: Outcome)
    ensures r.store.communities == s.communities
    ensures forall u :: u in r.store.users <==> u in s.users
    decreases |ids|
  {
    if ids == [] then Outcome(s, true)
    else
      var n := |ids| - 1;
      var prev := Cascade(s, ids[..n], cid, outages);
      if !prev.ok then prev
      else UpdateUserDoc(prev.store, ids[n], LeftPatch(cid), n + 1 in outages)
  }

  /** The cascade succeeds exactly when every id has a profile and none of its writes fails. */
  lemma {:induction false} CascadeSucceeds(s: Store, ids: seq<Uid>, cid: Cid, outages: set<nat>)
    ensures Cascade(s, ids, cid, outages).ok <==>
      (forall j :: 0 <= j < |ids| ==> ids[j] in s.users) && (forall step :: 1 <= step <= |ids| ==> step !in outages)
    decreases |ids|
  {
    if ids != [] {
      var n := |ids| - 1;
      var prev := Cascade(s, ids[..n], cid, outages);
      CascadeSucceeds(s, ids[..n], cid, outages);
      assert Cascade(s, ids, cid, outages).ok <==> prev.ok && ids[n] in s.users && n + 1 !in outages;
      if prev.ok && ids[n] in s.users && n + 1 !in outages {
        assert forall j :: 0 <= j < n ==> ids[..n][j] in s.users;
        forall j | 0 <= j < |ids| ensures ids[j] in s.users {
          if j < n {
            assert ids[..n][j] == ids[j];
            assert ids[..n][j] in s.users;
          } else {
            assert j == n;
          }
        }
        forall step | 1 <= step <= |ids| ensures step !in outages {
          if step <= n { assert 1 <= step <= |ids[..n]|; } else { assert step == n + 1; }
        }
      }
      if (forall j :: 0 <= j < |ids| ==> ids[j] in s.users) && (forall step :: 1 <= step <= |ids| ==> step !in outages) {
        forall j | 0 <= j < n ensures ids[..n][j] in s.users {
          assert ids[..n][j] == ids[j];
        }
      }
    }
  }

  /** The cascade only ever removes `cid` from `communities`, and only on the profiles of `ids`. */
  lemma {:induction false} CascadeFrame(s: Store, ids: seq<Uid>, cid: Cid, outages: set<nat>)
    ensures var t := Cascade(s, ids, cid, outages).store.users;
      && (forall u :: u in s.users ==> t[u] == s.users[u].(communities := t[u].communities))
      && (forall u, y :: u in s.users && y != cid ==> (y in t[u].communities <==> y in s.users[u].communities))
      && (forall u :: u in s.users && u !in ids ==> t[u] == s.users[u])
    decreases |ids|
  {
    if ids != [] {
      var n := |ids| - 1;
      var prev := Cascade(s, ids[..n], cid, outages);
      CascadeFrame(s, ids[..n], cid, outages);
      if prev.ok && ids[n] in s.users && n + 1 !in outages {
        var t := Cascade(s, ids, cid, outages).store.users;
        var p := prev.store.users[ids[n]];
        assert t == prev.store.users[ids[n] := p.(communities := ArrayRemove(p.communities, cid))];
        forall u | u in s.users && u !in ids ensures t[u] == s.users[u] {
          assert u !in ids[..n];
        }
      }
    }
  }

  lemma SplitLast(ids: seq<Uid>)
    requires ids != []
    ensures forall u :: u in ids ==> u in ids[..|ids| - 1] || u == ids[|ids| - 1]
  {
    assert ids == ids[..|ids| - 1] + [ids[|ids| - 1]];
  }

  /** A complete cascade leaves no profile of `ids` listing the community. */
  lemma {:induction false} CascadeClears(s: Store, ids: seq<Uid>, cid: Cid, outages: set<nat>)
    ensures var r := Cascade(s, ids, cid, outages);
      r.ok ==> forall u :: u in ids ==> u in r.store.users && cid !in r.store.users[u].communities
    decreases |ids|
  {
    if ids != [] {
      var n := |ids| - 1;
      SplitLast(ids);
      var prev := Cascade(s, ids[..n], cid, outages);
      CascadeClears(s, ids[..n], cid, outages);
      if prev.ok && ids[n] in prev.store.users && n + 1 !in outages {
        var t := Cascade(s, ids, cid, outages).store.users;
        var p := prev.store.users[ids[n]];
        assert t == prev.store.users[ids[n] := p.(communities := ArrayRemove(p.communities, cid))];
      }
    }
  }

  /** One more member: the cascade over a longer prefix is the shorter one followed by that member's write. */
  lemma CascadeStep(s: Store, ids: seq<Uid>, cid: Cid, outages: set<nat>, i: nat)
    requires i < |ids|
    ensures var prev := Cascade(s, ids[..i], cid, outages);
      Cascade(s, ids[..i + 1], cid, outages) ==
        if !prev.ok then prev else UpdateUserDoc(prev.store, ids[i], LeftPatch(cid), i + 1 in outages)
  {
    assert ids[..i + 1][..i] == ids[..i];
  }

  /** Once the cascade has failed on a prefix of the ids, the whole cascade ends in the same store. */
  lemma {:induction false} CascadeStopsAtFailure(s: Store, ids: seq<Uid>, cid: Cid, outages: set<nat>, k: nat)
    requires k <= |ids| && !Cascade(s, ids[..k], cid, outages).ok
    ensures Cascade(s, ids, cid, outages) == Cascade(s, ids[..k], cid, outages)
    decreases |ids|
  {
    if k < |ids| {
      var n := |ids| - 1;
      assert ids[..n][..k] == ids[..k];
      CascadeStopsAtFailure(s, ids[..n], cid, outages, k);
      var prev := Cascade(s, ids[..n], cid, outages);
      assert !prev.ok;
      assert Cascade(s, ids, cid, outages) == prev;
    } else {
      assert ids[..k] == ids;
    }
  }

  /** A read (call 0), the cascade over the members read, then `deleteDoc` (the call after the cascade). */
  function DeleteCommunitySpec(s: Store, cid: Cid, outages: set<nat>): (r: Outcome)
    ensures 0 in outages || cid !in s.communities ==> r == Outcome(s, false)
    ensures forall u :: u in r.store.users <==> u in s.users
    ensures !r.ok ==> r.store.communities == s.communities
    ensures r.ok ==> cid in s.communities && r.store.communities == s.communities - {cid}
  {
    var c := GetCommunityDoc(s, cid, 0 in outages);
    if c.None? then Outcome(s, false)
    else
      var members := c.value.members;
      var cascade := Cascade(s, members, cid, outages);
      if !cascade.ok then cascade
      else DeleteCommunityDoc(cascade.store, cid, |members| + 1 in outages)
  }

  /**
   * The deletion succeeds exactly when every member's write and the final
   * `deleteDoc` do; then no member's profile lists the community, and no
   * profile loses any other community.
   */
  lemma DeleteCommunityDone(s: Store, cid: Cid, outages: set<nat>)
    ensures var r := DeleteCommunitySpec(s, cid, outages);
      && (r.ok <==>
           && 0 !in outages && cid in s.communities
           && (forall m :: m in s.communities[cid].members ==> m in s.users)
           && (forall step :: 1 <= step <= |s.communities[cid].members| + 1 ==> step !in outages))
      && (r.ok ==> forall m :: m in s.communities[cid].members ==> m in r.store.users && cid !in r.store.users[m].communities)
      && (forall u, y :: u in s.users && y != cid ==> (y in r.store.users[u].communities <==> y in s.users[u].communities))
  {
    DeleteCommunitySucceeds(s, cid, outages);
    DeleteCommunityClears(s, cid, outages);
    DeleteCommunityKeepsOthers(s, cid, outages);
  }

  lemma DeleteCommunitySucceeds(s: Store, cid: Cid, outages: set<nat>)
    ensures DeleteCommunitySpec(s, cid, outages).ok <==>
      && 0 !in outages && cid in s.communities
      && (forall m :: m in s.communities[cid].members ==> m in s.users)
      && (forall step :: 1 <= step <= |s.communities[cid].members| + 1 ==> step !in outages)
  {
    if 0 !in outages && cid in s.communities {
      var members := s.communities[cid].members;
      var n := |members|;
      DeleteCommunityOkThroughCascade(s, cid, outages);
      CascadeSucceeds(s, members, cid, outages);
      var present := forall m :: m in members ==> m in s.users;
      var written := forall step :: 1 <= step <= n + 1 ==> step !in outages;
      if present {
        forall j | 0 <= j < n ensures members[j] in s.users {
          assert members[j] in members;
        }
      }
      if forall j :: 0 <= j < n ==> members[j] in s.users {
        forall m | m in members ensures m in s.users {
          var j :| 0 <= j < n && members[j] == m;
        }
      }
      if written {
        forall step | 1 <= step <= n ensures step !in outages {
        }
      }
      if (forall step :: 1 <= step <= n ==> step !in outages) && n + 1 !in outages {
        forall step | 1 <= step <= n + 1 ensures step !in outages {
        }
      }
    }
  }

  /** Past the read, the deletion succeeds when the cascade and the final `deleteDoc` do. */
  lemma DeleteCommunityOkThroughCascade(s: Store, cid: Cid, outages: set<nat>)
    requires 0 !in outages && cid in s.communities
    ensures var members := s.communities[cid].members;
      DeleteCommunitySpec(s, cid, outages).ok == (Cascade(s, members, cid, outages).ok && |members| + 1 !in outages)
  {
  }

  lemma DeleteCommunityClears(s: Store, cid: Cid, outages: set<nat>)
    ensures var r := DeleteCommunitySpec(s, cid, outages);
      r.ok ==> forall m :: m in s.communities[cid].members ==> m in r.store.users && cid !in r.store.users[m].communities
  {
    if 0 !in outages && cid in s.communities {
      CascadeClears(s, s.communities[cid].members, cid, outages);
    }
  }

  lemma DeleteCommunityKeepsOthers(s: Store, cid: Cid, outages: set<nat>)
    ensures var r := DeleteCommunitySpec(s, cid, outages);
      forall u, y :: u in s.users && y != cid ==> (y in r.store.users[u].communities <==> y in s.users[u].communities)
  {
    if 0 !in outages && cid in s.communities {
      CascadeFrame(s, s.communities[cid].members, cid, outages);
    }
  }

  /** A member whose profile write fails or is missing stops the cascade, and the community survives. */
  lemma DeleteCommunityInterrupted(s: Store, cid: Cid, outages: set<nat>, j: nat)
    requires 0 !in outages && cid in s.communities && j < |s.communities[cid].members|
    requires s.communities[cid].members[j] !in s.users || j + 1 in outages
    ensures var r := DeleteCommunitySpec(s, cid, outages);
      !r.ok && cid in r.store.communities
  {
    DeleteCommunityDone(s, cid, outages);
  }

  method DeleteCommunity(db: Db, cid: Cid, outages: set<nat>) returns (ok: bool)
    modifies db
    ensures Outcome(db.Snapshot(), ok) == DeleteCommunitySpec(old(db.Snapshot()), cid, outages)
  {
    var c := db.GetCommunity(cid, 0 in outages);
    if c.None? {
      return false;
    }
    var members := c.value.members;
    ghost var s0 := db.Snapshot();
    var i := 0;
    while i < |members|
      invariant 0 <= i <= |members|
      invariant Cascade(s0, members[..i], cid, outages) == Outcome(db.Snapshot(), true)
    {
      ok := db.UpdateUser(members[i], LeftPatch(cid), i + 1 in outages);
      CascadeStep(s0, members, cid, outages, i);
      if !ok {
        CascadeStopsAtFailure(s0, members, cid, outages, i + 1);
        return;
      }
      i := i + 1;
    }
    assert members[..i] == members;
    ok := db.DeleteCommunity(cid, |members| + 1 in outages);
  }

  // ---------------------------------------------------------------------------
  // getCommunityMembers: role derivation

  /** The roles `'membro'`, `'moderador'` and `'dono'`. */
  datatype Role = Member | Moderator | Owner

  datatype CommunityMember = CommunityMember(profile: Profile, role: Role)

  function RoleOf(c: Community, memberId: Uid): (r: Role)
    ensures r == Owner <==> memberId == c.createdBy
    ensures r == Moderator <==> memberId != c.createdBy && memberId in c.moderators
    ensures r == Member <==> memberId != c.createdBy && memberId !in c.moderators
  {
    if memberId == c.createdBy then Owner
    else if memberId in c.moderators then Moderator
    else Member
  }

  /** The members of `ids` that have a profile, each with its role, in order. */
  function MembersWithRoles(users: map<Uid, Profile>, c: Community, ids: seq<Uid>): (r: seq<CommunityMember>)
    ensures |r| <= |ids|
    decreases |ids|
  {
    if ids == [] then []
    else
      var n := |ids| - 1;
      MembersWithRoles(users, c, ids[..n]) +
        (if ids[n] in users then [CommunityMember(users[ids[n]], RoleOf(c, ids[n]))] else [])
  }

  /** Every entry is an existing member's profile with that member's role. */
  lemma {:induction false} MembersWithRolesFrom(users: map<Uid, Profile>, c: Community, ids: seq<Uid>, k: nat)
    requires k < |MembersWithRoles(users, c, ids)|
    ensures exists j ::
      && 0 <= j < |ids| && ids[j] in users
      && MembersWithRoles(users, c, ids)[k] == CommunityMember(users[ids[j]], RoleOf(c, ids[j]))
    decreases |ids|
  {
    var n := |ids| - 1;
    var prev := MembersWithRoles(users, c, ids[..n]);
    if k < |prev| {
      MembersWithRolesFrom(users, c, ids[..n], k);
      var j :| 0 <= j < n && ids[..n][j] in users && prev[k] == CommunityMember(users[ids[..n][j]], RoleOf(c, ids[..n][j]));
      assert ids[..n][j] == ids[j];
    } else {
      assert MembersWithRoles(users, c, ids)[k] == CommunityMember(users[ids[n]], RoleOf(c, ids[n]));
    }
  }

  /** The listing keeps the order of `members` and skips exactly the ids without a profile. */
  lemma {:induction false} MembersWithRolesAppend(users: map<Uid, Profile>, c: Community, a: seq<Uid>, b: seq<Uid>)
    ensures MembersWithRoles(users, c, a + b) == MembersWithRoles(users, c, a) + MembersWithRoles(users, c, b)
  {
    if b == [] {
      assert a + b == a;
    } else {
      var n := |b| - 1;
      assert (a + b)[..|a + b| - 1] == a + b[..n];
      MembersWithRolesAppend(users, c, a, b[..n]);
    }
  }

  /** A single member is listed with its role when it has a profile and skipped otherwise. */
  lemma MembersWithRolesOne(users: map<Uid, Profile>, c: Community, id: Uid)
    ensures MembersWithRoles(users, c, [id]) == if id in users then [CommunityMember(users[id], RoleOf(c, id))] else []
  {
    assert [id][..0] == [];
  }

  /** Some member read among the first `n` (calls 1 to n) fails. */
  predicate SomeReadFails(n: nat, outages: set<nat>) {
    exists step :: 1 <= step <= n && step in outages
  }

  /**
   * `getCommunityMembers`: a read of the community (call 0), then one read per
   * member (call j + 1). A failed member read is thrown inside the loop and the
   * whole listing is [].
   */
  method GetCommunityMembers(db: Db, cid: Cid, outages: set<nat>) returns (r: seq<CommunityMember>)
    ensures 0 in outages || cid !in db.communities ==> r == []
    ensures 0 !in outages && cid in db.communities ==>
      var c := db.communities[cid];
      r == if SomeReadFails(|c.members|, outages) then [] else MembersWithRoles(db.users, c, c.members)
  {
    var c := db.GetCommunity(cid, 0 in outages);
    if c.None? {
      return [];
    }
    var members := c.value.members;
    r := [];
    var i := 0;
    while i < |members|
      invariant 0 <= i <= |members|
      invariant !SomeReadFails(i, outages)
      invariant r == MembersWithRoles(db.users, c.value, members[..i])
    {
      var p := db.GetUser(members[i], i + 1 in outages);
      if i + 1 in outages {
        assert SomeReadFails(|members|, outages);
        return [];
      }
      assert members[..i + 1][..i] == members[..i];
      if p.Some? {
        r := r + [CommunityMember(p.value, RoleOf(c.value, members[i]))];
      }
      i := i + 1;
    }
    assert members[..i] == members;
  }

  // ---------------------------------------------------------------------------
  // searchCommunities: the upper bound of the prefix range

  /** A UTF-16 code unit, the element of a JavaScript string. */
  type CodeUnit = x: int | 0 <= x < 0x1_0000

  /** The code units `.` does not match. */
  predicate IsLineTerminator(u: CodeUnit) {
    u == 0x0A || u == 0x0D || u == 0x2028 || u == 0x2029
  }

  /**
   * `term.replace(/.$/, c => String.fromCharCode(c.charCodeAt(0) + 1))` on the
   * lower-cased term: the last code unit, unless it is a line terminator, is
   * incremented, wrapping from 0xFFFF to 0.
   */
  function SearchUpperBound(term: seq<CodeUnit>): (r: seq<CodeUnit>)
    ensures |r| == |term|
    ensures forall i :: 0 <= i < |term| - 1 ==> r[i] == term[i]
    ensures term != [] && !IsLineTerminator(term[|term| - 1]) ==> r[|r| - 1] == (term[|term| - 1] as int + 1) % 0x1_0000
    ensures term == [] || IsLineTerminator(term[|term| - 1]) ==> r == term
  {
    if term == [] || IsLineTerminator(term[|term| - 1]) then term
    else term[..|term| - 1] + [((term[|term| - 1] as int + 1) % 0x1_0000) as CodeUnit]
  }

  /** The order of the range query: lexicographic on code units, as the store orders strings outside the surrogate range. */
  predicate Less(a: seq<CodeUnit>, b: seq<CodeUnit>)
    decreases |a|
  {
    if a == [] then b != []
    else if b == [] then false
    else if a[0] != b[0] then a[0] < b[0]
    else Less(a[1..], b[1..])
  }

  /** `a >= b` in JavaScript string order. */
  predicate AtLeast(a: seq<CodeUnit>, b: seq<CodeUnit>) {
    !Less(a, b)
  }

  /**
   * The range `[term, SearchUpperBound(term))` holds every name that starts
   * with the term, when the last code unit is neither a line terminator nor 0xFFFF.
   */
  lemma {:induction false} PrefixInSearchRange(term: seq<CodeUnit>, name: seq<CodeUnit>)
    requires term != [] && !IsLineTerminator(term[|term| - 1]) && term[|term| - 1] < 0xFFFF
    requires |term| <= |name| && name[..|term|] == term
    ensures AtLeast(name, term) && Less(name, SearchUpperBound(term))
  {
    PrefixNotLess(term, name);
    if |term| == 1 {
      assert name[0] == term[0];
    } else {
      var bound := SearchUpperBound(term);
      assert bound[1..] == SearchUpperBound(term[1..]);
      assert name[1..][..|term| - 1] == term[1..];
      PrefixInSearchRange(term[1..], name[1..]);
    }
  }

  lemma {:induction false} PrefixNotLess(term: seq<CodeUnit>, name: seq<CodeUnit>)
    requires |term| <= |name| && name[..|term|] == term
    ensures !Less(name, term)
    decreases |term|
  {
    if term != [] {
      assert name[0] == term[0];
      assert name[1..][..|term| - 1] == term[1..];
      PrefixNotLess(term[1..], name[1..]);
    }
  }

  /**
   * Only names that start with the term lie in the range, so with the range's
   * other direction the query is exactly the prefix search.
   */
  lemma {:induction false} SearchRangeHoldsOnlyPrefixes(term: seq<CodeUnit>, name: seq<CodeUnit>)
    requires term != [] && !IsLineTerminator(term[|term| - 1]) && term[|term| - 1] < 0xFFFF
    requires AtLeast(name, term) && Less(name, SearchUpperBound(term))
    ensures |term| <= |name| && name[..|term|] == term
  {
    var bound := SearchUpperBound(term);
    assert name != [];
    assert name[0] == term[0];
    if |term| > 1 {
      assert bound[1..] == SearchUpperBound(term[1..]);
      SearchRangeHoldsOnlyPrefixes(term[1..], name[1..]);
      assert name == [name[0]] + name[1..];
    }
  }

  /** An empty term, or one ending in a line terminator, gives an empty range: no name lies in it. */
  lemma LineTerminatorEmptiesRange(term: seq<CodeUnit>, name: seq<CodeUnit>)
    requires term == [] || IsLineTerminator(term[|term| - 1])
    ensures !(AtLeast(name, term) && Less(name, SearchUpperBound(term)))
  {
  }

  /** A term ending in 0xFFFF gives a bound below the term itself, so the range is empty. */
  lemma {:induction false} WrapEmptiesRange(term: seq<CodeUnit>, name: seq<CodeUnit>)
    requires term != [] && term[|term| - 1] == 0xFFFF
    ensures !(AtLeast(name, term) && Less(name, SearchUpperBound(term)))
  {
    BoundBelowTerm(term);
    if Less(name, SearchUpperBound(term)) {
      LessTransitive(name, SearchUpperBound(term), term);
    }
  }

  lemma {:induction false} BoundBelowTerm(term: seq<CodeUnit>)
    requires term != [] && term[|term| - 1] == 0xFFFF
    ensures Less(SearchUpperBound(term), term)
    decreases |term|
  {
    if |term| > 1 {
      var bound := SearchUpperBound(term);
      assert bound[1..] == SearchUpperBound(term[1..]);
      BoundBelowTerm(term[1..]);
    }
  }

  lemma {:induction false} LessTransitive(a: seq<CodeUnit>, b: seq<CodeUnit>, c: seq<CodeUnit>)
    requires Less(a, b) && Less(b, c)
    ensures Less(a, c)
    decreases |a|
  {
    if a != [] && b != [] && c != [] && a[0] == b[0] && b[0] == c[0] {
      LessTransitive(a[1..], b[1..], c[1..]);
    }
  }
}
