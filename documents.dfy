/**
 * The two collections of the document store, `users` and `communities`, as
 * maps from document id to record, and the document calls the services make
 * on them: `getDoc`, `updateDoc`, `addDoc` and `deleteDoc`.
 *
 * Every call takes `down`: whether the store answers that call with an I/O
 * error. `updateDoc` on a missing document fails as well; `deleteDoc` of a
 * missing document succeeds.
 */
module Documents {
  import opened Wrappers
  import opened Firestore

  type Uid = Id
  type Cid = Id

  /**
   * A user profile document. An absent array field reads as [], which is how
   * every operation here treats it: `arrayUnion` on an absent field stores
   * `[x]`, `arrayRemove` stores `[]`.
   */
  datatype Profile = Profile(
    uid: Uid,
    email: Option<string>,
    displayName: string,
    photoURL: Option<string>,
    birthDate: Option<string>,
    gender: Option<string>,
    relationship: Option<string>,
    bio: Option<string>,
    country: Option<string>,
    friends: seq<Uid>,          // symmetric friendship edges
    friendRequests: seq<Uid>,   // incoming requests
    pendingRequests: seq<Uid>,  // outgoing requests
    communities: seq<Cid>)

  /** A community document; its id is the document key. */
  datatype Community = Community(
    name: string,
    description: string,
    category: string,
    photoURL: Option<string>,   // None: no such key in the document
    createdAt: int,             // the creation timestamp, abstract
    createdBy: Uid,
    members: seq<Uid>,
    moderators: seq<Uid>,
    isPublic: bool,
    nameLower: Option<string>)

  /** The array fields of a profile that `updateDoc` may name. */
  datatype ProfilePatch = ProfilePatch(
    friends: Option<Transform>,
    friendRequests: Option<Transform>,
    pendingRequests: Option<Transform>,
    communities: Option<Transform>)

  const NoProfileChange := ProfilePatch(None, None, None, None)

  /** The fields of a community that `updateDoc` may name. */
  datatype CommunityPatch = CommunityPatch(
    name: Option<string>,
    description: Option<string>,
    category: Option<string>,
    photoURL: Option<string>,
    createdAt: Option<int>,
    createdBy: Option<Uid>,
    members: Option<Transform>,
    moderators: Option<Transform>,
    isPublic: Option<bool>,
    nameLower: Option<string>)

  const NoCommunityChange := CommunityPatch(None, None, None, None, None, None, None, None, None, None)

  function Pick<T>(cur: T, o: Option<T>): T {
    if o.Some? then o.value else cur
  }

  /** `updateDoc` merges the named fields into the profile and keeps the others. */
  function ApplyProfilePatch(p: Profile, w: ProfilePatch): (r: Profile)
    ensures r.(friends := p.friends, friendRequests := p.friendRequests,
               pendingRequests := p.pendingRequests, communities := p.communities) == p
    ensures r.friends == Patch(p.friends, w.friends)
    ensures r.friendRequests == Patch(p.friendRequests, w.friendRequests)
    ensures r.pendingRequests == Patch(p.pendingRequests, w.pendingRequests)
    ensures r.communities == Patch(p.communities, w.communities)
    ensures w.friends.None? ==> r.friends == p.friends
    ensures w.friendRequests.None? ==> r.friendRequests == p.friendRequests
    ensures w.pendingRequests.None? ==> r.pendingRequests == p.pendingRequests
    ensures w.communities.None? ==> r.communities == p.communities
    ensures w == NoProfileChange ==> r == p
  {
    p.(friends := Patch(p.friends, w.friends),
       friendRequests := Patch(p.friendRequests, w.friendRequests),
       pendingRequests := Patch(p.pendingRequests, w.pendingRequests),
       communities := Patch(p.communities, w.communities))
  }

  /** `updateDoc` merges the named fields into the community and keeps the others. */
  function ApplyCommunityPatch(c: Community, w: CommunityPatch): (r: Community)
    ensures w.name.Some? ==> r.name == w.name.value
    ensures w.name.None? ==> r.name == c.name
    ensures r.description == Pick(c.description, w.description)
    ensures r.category == Pick(c.category, w.category)
    ensures r.photoURL == (if w.photoURL.Some? then w.photoURL else c.photoURL)
    ensures r.createdAt == Pick(c.createdAt, w.createdAt)
    ensures r.createdBy == Pick(c.createdBy, w.createdBy)
    ensures r.members == Patch(c.members, w.members)
    ensures r.moderators == Patch(c.moderators, w.moderators)
    ensures r.isPublic == Pick(c.isPublic, w.isPublic)
    ensures r.nameLower == (if w.nameLower.Some? then w.nameLower else c.nameLower)
    ensures w.createdBy.None? ==> r.createdBy == c.createdBy
    ensures w.members.None? ==> r.members == c.members
    ensures w.moderators.None? ==> r.moderators == c.moderators
    ensures w.nameLower.None? ==> r.nameLower == c.nameLower
    ensures w == NoCommunityChange ==> r == c
  {
    Community(
      Pick(c.name, w.name), Pick(c.description, w.description), Pick(c.category, w.category),
      if w.photoURL.Some? then w.photoURL else c.photoURL,
      Pick(c.createdAt, w.createdAt), Pick(c.createdBy, w.createdBy),
      Patch(c.members, w.members), Patch(c.moderators, w.moderators),
      Pick(c.isPublic, w.isPublic),
      if w.nameLower.Some? then w.nameLower else c.nameLower)
  }

  /** The whole store. */
  datatype Store = Store(users: map<Uid, Profile>, communities: map<Cid, Community>)

  /** The store after an operation, and whether the operation reports success. */
  datatype Outcome = Outcome(store: Store, ok: bool)

  // ---------------------------------------------------------------------------
  // Frame predicates used by the service contracts

  /** The profile arrays an operation may change. */
  datatype UserField = Friends | FriendRequests | PendingRequests | Communities

  /** `q` equals `p` except, possibly, in the array fields `fs`. */
  predicate ChangesOnly(p: Profile, q: Profile, fs: set<UserField>) {
    && q.(friends := p.friends, friendRequests := p.friendRequests,
          pendingRequests := p.pendingRequests, communities := p.communities) == p
    && (Friends !in fs ==> q.friends == p.friends)
    && (FriendRequests !in fs ==> q.friendRequests == p.friendRequests)
    && (PendingRequests !in fs ==> q.pendingRequests == p.pendingRequests)
    && (Communities !in fs ==> q.communities == p.communities)
  }

  /**
   * `t` has the same profiles as `s`: profiles outside `ids` are unchanged and
   * the others differ at most in the fields `fs`.
   */
  ghost predicate UsersChangeOnly(s: map<Uid, Profile>, t: map<Uid, Profile>, ids: set<Uid>, fs: set<UserField>) {
    && t.Keys == s.Keys
    && (forall u :: u in s && u !in ids ==> t[u] == s[u])
    && (forall u :: u in s ==> ChangesOnly(s[u], t[u], fs))
  }

  /** No array field of any profile holds a duplicate. */
  predicate UsersNoDup(users: map<Uid, Profile>) {
    forall u :: u in users ==>
      && NoDup(users[u].friends) && NoDup(users[u].friendRequests)
      && NoDup(users[u].pendingRequests) && NoDup(users[u].communities)
  }

  // ---------------------------------------------------------------------------
  // The document calls as functions of the store

  function GetUserDoc(s: Store, uid: Uid, down: bool): (r: Option<Profile>)
    ensures r.Some? <==> !down && uid in s.users
    ensures r.Some? ==> r.value == s.users[uid]
  {
    if !down && uid in s.users then Some(s.users[uid]) else None
  }

  function UpdateUserDoc(s: Store, uid: Uid, w: ProfilePatch, down: bool): (r: Outcome)
    ensures r.ok <==> !down && uid in s.users
    ensures !r.ok ==> r.store == s
    ensures r.ok ==> r.store == s.(users := s.users[uid := ApplyProfilePatch(s.users[uid], w)])
  {
    if !down && uid in s.users then
      Outcome(s.(users := s.users[uid := ApplyProfilePatch(s.users[uid], w)]), true)
    else Outcome(s, false)
  }

  function GetCommunityDoc(s: Store, cid: Cid, down: bool): (r: Option<Community>)
    ensures r.Some? <==> !down && cid in s.communities
    ensures r.Some? ==> r.value == s.communities[cid]
  {
    if !down && cid in s.communities then Some(s.communities[cid]) else None
  }

  /** `addDoc` under an id the store has not used. */
  function AddCommunityDoc(s: Store, cid: Cid, c: Community, down: bool): (r: Outcome)
    requires cid !in s.communities
    ensures r.ok <==> !down
    ensures !r.ok ==> r.store == s
    ensures r.ok ==> r.store == s.(communities := s.communities[cid := c])
  {
    if down then Outcome(s, false) else Outcome(s.(communities := s.communities[cid := c]), true)
  }

  function UpdateCommunityDoc(s: Store, cid: Cid, w: CommunityPatch, down: bool): (r: Outcome)
    ensures r.ok <==> !down && cid in s.communities
    ensures !r.ok ==> r.store == s
    ensures r.ok ==> r.store == s.(communities := s.communities[cid := ApplyCommunityPatch(s.communities[cid], w)])
  {
    if !down && cid in s.communities then
      Outcome(s.(communities := s.communities[cid := ApplyCommunityPatch(s.communities[cid], w)]), true)
    else Outcome(s, false)
  }

  function DeleteCommunityDoc(s: Store, cid: Cid, down: bool): (r: Outcome)
    ensures r.ok <==> !down
    ensures r.store.users == s.users
    ensures r.ok ==> r.store.communities == s.communities - {cid}
    ensures !r.ok ==> r.store == s
  {
    if down then Outcome(s, false) else Outcome(s.(communities := s.communities - {cid}), true)
  }

  /** The set primitives never introduce a duplicate; only a `Replace` can. */
  predicate SetOperationsOnly(w: ProfilePatch) {
    && (w.friends.Some? ==> !w.friends.value.Replace?)
    && (w.friendRequests.Some? ==> !w.friendRequests.value.Replace?)
    && (w.pendingRequests.Some? ==> !w.pendingRequests.value.Replace?)
    && (w.communities.Some? ==> !w.communities.value.Replace?)
  }

  lemma UpdateUserDocNoDup(s: Store, uid: Uid, w: ProfilePatch, down: bool)
    requires UsersNoDup(s.users) && SetOperationsOnly(w)
    ensures UsersNoDup(UpdateUserDoc(s, uid, w, down).store.users)
  {
    if !down && uid in s.users {
      var p := s.users[uid];
      var q := ApplyProfilePatch(p, w);
      assert NoDup(q.friends) && NoDup(q.friendRequests) && NoDup(q.pendingRequests) && NoDup(q.communities);
    }
  }

  /** The array fields `w` names are among `fs`. */
  predicate NamesOnly(w: ProfilePatch, fs: set<UserField>) {
    && (w.friends.Some? ==> Friends in fs)
    && (w.friendRequests.Some? ==> FriendRequests in fs)
    && (w.pendingRequests.Some? ==> PendingRequests in fs)
    && (w.communities.Some? ==> Communities in fs)
  }

  lemma ChangesOnlyTrans(p: Profile, q: Profile, r: Profile, fs: set<UserField>)
    requires ChangesOnly(p, q, fs) && ChangesOnly(q, r, fs)
    ensures ChangesOnly(p, r, fs)
  {
  }

  /** A profile write changes at most its own document, and there only the fields it names. */
  lemma UpdateUserDocFrame(s: Store, uid: Uid, w: ProfilePatch, down: bool, fs: set<UserField>)
    requires NamesOnly(w, fs)
    ensures UsersChangeOnly(s.users, UpdateUserDoc(s, uid, w, down).store.users, {uid}, fs)
  {
    var t := UpdateUserDoc(s, uid, w, down).store.users;
    forall u | u in s.users
      ensures ChangesOnly(s.users[u], t[u], fs)
    {
      if !down && u == uid {
        assert t[u] == ApplyProfilePatch(s.users[u], w);
      } else {
        assert t[u] == s.users[u];
      }
    }
  }

  /** The second of two profile writes, attempted only when the first succeeded. */
  function AndThen(r1: Outcome, uid: Uid, w: ProfilePatch, down: bool): (r: Outcome)
    ensures !r1.ok ==> r == r1
    ensures r.ok <==> r1.ok && !down && uid in r1.store.users
    ensures r1.ok && !r.ok ==> r.store == r1.store
    ensures r.ok ==> r.store.users == r1.store.users[uid := ApplyProfilePatch(r1.store.users[uid], w)]
  {
    if r1.ok then UpdateUserDoc(r1.store, uid, w, down) else r1
  }

  /** Two profile writes change at most their two documents, and there only the fields they name. */
  lemma TwoWritesFrame(s: Store, a: Uid, w1: ProfilePatch, d1: bool, b: Uid, w2: ProfilePatch, d2: bool, fs: set<UserField>)
    requires NamesOnly(w1, fs) && NamesOnly(w2, fs)
    ensures UsersChangeOnly(s.users, AndThen(UpdateUserDoc(s, a, w1, d1), b, w2, d2).store.users, {a, b}, fs)
  {
    var r1 := UpdateUserDoc(s, a, w1, d1);
    UpdateUserDocFrame(s, a, w1, d1, fs);
    if r1.ok {
      var t := UpdateUserDoc(r1.store, b, w2, d2).store.users;
      UpdateUserDocFrame(r1.store, b, w2, d2, fs);
      forall u | u in s.users
        ensures ChangesOnly(s.users[u], t[u], fs)
      {
        ChangesOnlyTrans(s.users[u], r1.store.users[u], t[u], fs);
      }
    }
  }

  /** Two writes made of set primitives never introduce a duplicate. */
  lemma TwoWritesNoDup(s: Store, a: Uid, w1: ProfilePatch, d1: bool, b: Uid, w2: ProfilePatch, d2: bool)
    requires UsersNoDup(s.users) && SetOperationsOnly(w1) && SetOperationsOnly(w2)
    ensures UsersNoDup(AndThen(UpdateUserDoc(s, a, w1, d1), b, w2, d2).store.users)
  {
    UpdateUserDocNoDup(s, a, w1, d1);
    UpdateUserDocNoDup(UpdateUserDoc(s, a, w1, d1).store, b, w2, d2);
  }

  /** What two profile writes in sequence do to the store, whichever of them fails. */
  lemma TwoWrites(s: Store, a: Uid, w1: ProfilePatch, d1: bool, b: Uid, w2: ProfilePatch, d2: bool)
    ensures var r := AndThen(UpdateUserDoc(s, a, w1, d1), b, w2, d2);
      && r.store.communities == s.communities
      && r.store.users.Keys == s.users.Keys
      && (r.ok <==> !d1 && !d2 && a in s.users && b in s.users)
      && (d1 || a !in s.users ==> r.store == s)
      && (forall u :: u in s.users && u != a && u != b ==> r.store.users[u] == s.users[u])
      && (!d1 && a in s.users && a != b ==> r.store.users[a] == ApplyProfilePatch(s.users[a], w1))
      && (r.ok && a != b ==> r.store.users[b] == ApplyProfilePatch(s.users[b], w2))
      && (r.ok && a == b ==> r.store.users[a] == ApplyProfilePatch(ApplyProfilePatch(s.users[a], w1), w2))
      && (!r.ok && b != a && b in s.users ==> r.store.users[b] == s.users[b])
  {
  }

  lemma {:induction false} ApplyProfilePatchIdempotent(p: Profile, w: ProfilePatch)
    ensures ApplyProfilePatch(ApplyProfilePatch(p, w), w) == ApplyProfilePatch(p, w)
  {
    TransformIdempotent(p.friends, w.friends);
    TransformIdempotent(p.friendRequests, w.friendRequests);
    TransformIdempotent(p.pendingRequests, w.pendingRequests);
    TransformIdempotent(p.communities, w.communities);
  }

  /**
   * Repeating two writes without failures after any first attempt gives the
   * store a single attempt without failures gives, provided the pair of
   * writes is stable when both go to the same profile.
   */
  lemma TwoWritesRetry(s: Store, a: Uid, w1: ProfilePatch, d1: bool, b: Uid, w2: ProfilePatch, d2: bool)
    requires a == b && a in s.users ==>
      var both := ApplyProfilePatch(ApplyProfilePatch(s.users[a], w1), w2);
      ApplyProfilePatch(ApplyProfilePatch(both, w1), w2) == both
    ensures var r := AndThen(UpdateUserDoc(s, a, w1, d1), b, w2, d2);
      AndThen(UpdateUserDoc(r.store, a, w1, false), b, w2, false) == AndThen(UpdateUserDoc(s, a, w1, false), b, w2, false)
  {
    var r := AndThen(UpdateUserDoc(s, a, w1, d1), b, w2, d2);
    if !d1 && a in s.users {
      var a1 := ApplyProfilePatch(s.users[a], w1);
      ApplyProfilePatchIdempotent(s.users[a], w1);
      assert s.users[a := a1][a := ApplyProfilePatch(a1, w1)] == s.users[a := a1];
      if b in s.users && a != b {
        var b2 := ApplyProfilePatch(s.users[b], w2);
        ApplyProfilePatchIdempotent(s.users[b], w2);
        if !d2 {
          assert r.store.users == s.users[a := a1][b := b2];
          assert r.store.users[a := ApplyProfilePatch(a1, w1)][b := ApplyProfilePatch(b2, w2)] == r.store.users;
        }
      }
    }
  }

  // ---------------------------------------------------------------------------
  // The store object the services share

  class Db {
    var users: map<Uid, Profile>
    var communities: map<Cid, Community>

    constructor (s: Store)
      ensures Snapshot() == s
    {
      users := s.users;
      communities := s.communities;
    }

    function Snapshot(): Store
      reads this
    {
      Store(users, communities)
    }

    /** `getDoc(doc(db, "users", uid))` */
    method GetUser(uid: Uid, down: bool) returns (r: Option<Profile>)
      ensures r == GetUserDoc(Snapshot(), uid, down)
    {
      if !down && uid in users {
        r := Some(users[uid]);
      } else {
        r := None;
      }
    }

    /** `updateDoc(doc(db, "users", uid), w)` */
    method UpdateUser(uid: Uid, w: ProfilePatch, down: bool) returns (ok: bool)
      modifies this
      ensures Outcome(Snapshot(), ok) == UpdateUserDoc(old(Snapshot()), uid, w, down)
    {
      ok := !down && uid in users;
      if ok {
        users := users[uid := ApplyProfilePatch(users[uid], w)];
      }
    }

    /** `getDoc(doc(db, "communities", cid))` */
    method GetCommunity(cid: Cid, down: bool) returns (r: Option<Community>)
      ensures r == GetCommunityDoc(Snapshot(), cid, down)
    {
      if !down && cid in communities {
        r := Some(communities[cid]);
      } else {
        r := None;
      }
    }

    /** `addDoc(collection(db, "communities"), c)`, the generated id being `cid` */
    method AddCommunity(cid: Cid, c: Community, down: bool) returns (ok: bool)
      requires cid !in communities
      modifies this
      ensures Outcome(Snapshot(), ok) == AddCommunityDoc(old(Snapshot()), cid, c, down)
    {
      ok := !down;
      if ok {
        communities := communities[cid := c];
      }
    }

    /** `updateDoc(doc(db, "communities", cid), w)` */
    method UpdateCommunity(cid: Cid, w: CommunityPatch, down: bool) returns (ok: bool)
      modifies this
      ensures Outcome(Snapshot(), ok) == UpdateCommunityDoc(old(Snapshot()), cid, w, down)
    {
      ok := !down && cid in communities;
      if ok {
        communities := communities[cid := ApplyCommunityPatch(communities[cid], w)];
      }
    }

    /** `deleteDoc(doc(db, "communities", cid))` */
    method DeleteCommunity(cid: Cid, down: bool) returns (ok: bool)
      modifies this
      ensures Outcome(Snapshot(), ok) == DeleteCommunityDoc(old(Snapshot()), cid, down)
    {
      ok := !down;
      if ok {
        communities := communities - {cid};
      }
    }
  }
}
