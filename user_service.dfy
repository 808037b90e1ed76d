/**
 * The friend graph service: profile lookup, the blank-term guard of the user
 * search, sending, accepting and rejecting friend requests, removing friends,
 * and listing friends and incoming requests.
 *
 * Each operation is a fixed sequence of document calls, numbered from 0 in
 * the order the service makes them; `outages` holds the numbers of the calls
 * that the store answers with an I/O error. A failing write ends the
 * operation with `false` and leaves the writes before it in place.
 */
module UserService {
  import opened Wrappers
  import opened Firestore
  import opened Documents

  // ---------------------------------------------------------------------------
  // The invariants the friend graph is meant to keep

  /** Friendship is symmetric between existing profiles. */
  predicate FriendsSymmetric(users: map<Uid, Profile>) {
    forall a, b :: a in users && b in users ==> (b in users[a].friends <==> a in users[b].friends)
  }

  /** A request is recorded on both sides: outgoing at the sender, incoming at the target. */
  predicate RequestsPaired(users: map<Uid, Profile>) {
    forall a, b :: a in users && b in users ==> (b in users[a].pendingRequests <==> a in users[b].friendRequests)
  }

  predicate Consistent(users: map<Uid, Profile>) {
    FriendsSymmetric(users) && RequestsPaired(users)
  }

  // ---------------------------------------------------------------------------
  // getUserProfile

  /** `getUserProfile`: one read (call 0); a failed read is swallowed and reads as a missing profile. */
  method GetUserProfile(db: Db, uid: Uid, outages: set<nat>) returns (r: Option<Profile>)
    ensures r.Some? <==> 0 !in outages && uid in db.users
    ensures r.Some? ==> r.value == db.users[uid]
  {
    r := db.GetUser(uid, 0 in outages);
  }

  // ---------------------------------------------------------------------------
  // searchUsers: the blank-term guard

  /** The characters `String.prototype.trim` strips: white space and line terminators. */
  predicate IsTrimmed(c: char) {
    var n := c as int;
    n == 0x09 || n == 0x0A || n == 0x0B || n == 0x0C || n == 0x0D || n == 0x20 || n == 0xA0 ||
    n == 0x1680 || (0x2000 <= n <= 0x200A) || n == 0x2028 || n == 0x2029 || n == 0x202F ||
    n == 0x205F || n == 0x3000 || n == 0xFEFF
  }

  /** Drops the leading white space: the result is a suffix of `s`, and every character dropped is white space. */
  function TrimStart(s: string): (r: string)
    ensures |r| <= |s| && r == s[|s| - |r|..]
    ensures forall i :: 0 <= i < |s| - |r| ==> IsTrimmed(s[i])
    ensures r != [] ==> !IsTrimmed(r[0])
  {
    if s != [] && IsTrimmed(s[0]) then
      var r := TrimStart(s[1..]);
      assert forall i :: 1 <= i < |s| ==> s[i] == s[1..][i - 1];
      r
    else s
  }

  /** Drops the trailing white space: the result is a prefix of `s`, and every character dropped is white space. */
  function TrimEnd(s: string): (r: string)
    ensures |r| <= |s| && r == s[..|r|]
    ensures forall i :: |r| <= i < |s| ==> IsTrimmed(s[i])
    ensures r != [] ==> !IsTrimmed(r[|r| - 1])
  {
    if s != [] && IsTrimmed(s[|s| - 1]) then
      var r := TrimEnd(s[..|s| - 1]);
      assert forall i :: 0 <= i < |s| - 1 ==> s[i] == s[..|s| - 1][i];
      r
    else s
  }

  /** `r` is the slice of `s` starting at `k`, with only white space before and after it. */
  predicate SliceWithin(s: string, k: int, r: string) {
    && 0 <= k <= |s| - |r|
    && r == s[k..k + |r|]
    && (forall i :: 0 <= i < k ==> IsTrimmed(s[i]))
    && (forall i :: k + |r| <= i < |s| ==> IsTrimmed(s[i]))
  }

  /**
   * `String.prototype.trim`: a slice of `s`, surrounded only by white space,
   * that neither starts nor ends with white space.
   */
  function Trim(s: string): (r: string)
    ensures exists k :: SliceWithin(s, k, r)
    ensures r != [] ==> !IsTrimmed(r[0]) && !IsTrimmed(r[|r| - 1])
  {
    TrimIsSlice(s);
    TrimEnd(TrimStart(s))
  }

  lemma TrimIsSlice(s: string)
    ensures var t := TrimStart(s);
      var r := TrimEnd(t);
      && SliceWithin(s, |s| - |t|, r)
      && (r != [] ==> r[0] == t[0])
  {
    TrimSliceBounds(s);
    TrimSliceTail(s);
  }

  lemma TrimSliceBounds(s: string)
    ensures var t := TrimStart(s);
      var r := TrimEnd(t);
      r == s[|s| - |t|..|s| - |t| + |r|]
  {
    var t := TrimStart(s);
    var r := TrimEnd(t);
    var k := |s| - |t|;
    assert t == s[k..];
    assert r == t[..|r|];
  }

  lemma TrimSliceTail(s: string)
    ensures var t := TrimStart(s);
      var r := TrimEnd(t);
      forall i :: |s| - |t| + |r| <= i < |s| ==> IsTrimmed(s[i])
  {
    var t := TrimStart(s);
    var r := TrimEnd(t);
    var k := |s| - |t|;
    forall i | k + |r| <= i < |s|
      ensures IsTrimmed(s[i])
    {
      assert s[i] == t[i - k];
    }
  }

  /** `!searchTerm.trim()` holds exactly for terms made only of white space (or empty). */
  lemma {:induction false} TrimEmptyIffBlank(s: string)
    ensures Trim(s) == [] <==> forall i :: 0 <= i < |s| ==> IsTrimmed(s[i])
  {
    if s != [] && IsTrimmed(s[0]) {
      TrimEmptyIffBlank(s[1..]);
      assert forall i :: 1 <= i < |s| ==> s[i] == s[1..][i - 1];
    } else if s != [] {
      TrimEndKeepsFirst(s);
    }
  }

  lemma {:induction false} TrimEndKeepsFirst(s: string)
    requires s != [] && !IsTrimmed(s[0])
    ensures TrimEnd(s) != []
  {
    if IsTrimmed(s[|s| - 1]) {
      TrimEndKeepsFirst(s[..|s| - 1]);
    }
  }

  /**
   * `searchUsers`: a blank term returns [] before any store call. Otherwise the
   * answer is the indexed query's (`query`, None when the query throws), whose
   * ordering and range semantics are not part of this model.
   */
  function SearchUsers(term: string, query: Option<seq<Profile>>): (r: seq<Profile>)
    ensures (forall i :: 0 <= i < |term| ==> IsTrimmed(term[i])) ==> r == []
    ensures query.None? ==> r == []
  {
    TrimEmptyIffBlank(term);
    if Trim(term) == [] then [] else if query.Some? then query.value else []
  }

  // ---------------------------------------------------------------------------
  // sendFriendRequest

  function SendFriendRequestSpec(s: Store, from: Uid, to: Uid, outages: set<nat>): (r: Outcome)
    ensures r.store.communities == s.communities
    ensures r.ok <==> from != to && from in s.users && to in s.users && 0 !in outages && 1 !in outages
    ensures from == to || from !in s.users || 0 in outages ==> r.store == s
  {
    if from == to then Outcome(s, false)  // the thrown error is caught
    else
      TwoWrites(s, from, SendOut(to), 0 in outages, to, SendIn(from), 1 in outages);
      AndThen(UpdateUserDoc(s, from, SendOut(to), 0 in outages), to, SendIn(from), 1 in outages)
  }

  function SendOut(to: Uid): ProfilePatch { NoProfileChange.(pendingRequests := Some(Union(to))) }
  function SendIn(from: Uid): ProfilePatch { NoProfileChange.(friendRequests := Some(Union(from))) }

  /** A delivered request is recorded on both sides, and nothing else changes. */
  lemma SendFriendRequestDelivered(s: Store, from: Uid, to: Uid, outages: set<nat>)
    requires SendFriendRequestSpec(s, from, to, outages).ok
    ensures var t := SendFriendRequestSpec(s, from, to, outages).store.users;
      && (forall y :: y in t[from].pendingRequests <==> y in s.users[from].pendingRequests || y == to)
      && (forall y :: y in t[to].friendRequests <==> y in s.users[to].friendRequests || y == from)
      && ChangesOnly(s.users[from], t[from], {PendingRequests})
      && ChangesOnly(s.users[to], t[to], {FriendRequests})
  {
    TwoWrites(s, from, SendOut(to), 0 in outages, to, SendIn(from), 1 in outages);
  }

  /** When the target's write fails after the sender's landed, the request is outgoing only. */
  lemma SendFriendRequestInterrupted(s: Store, from: Uid, to: Uid, outages: set<nat>)
    requires from != to && from in s.users && 0 !in outages && (to !in s.users || 1 in outages)
    ensures var r := SendFriendRequestSpec(s, from, to, outages);
      && !r.ok
      && to in r.store.users[from].pendingRequests
      && (to in s.users ==> r.store.users[to] == s.users[to])
  {
    TwoWrites(s, from, SendOut(to), 0 in outages, to, SendIn(from), 1 in outages);
  }

  /** Only the two request arrays of the two profiles can change, and no duplicate appears. */
  lemma SendFriendRequestFrame(s: Store, from: Uid, to: Uid, outages: set<nat>)
    ensures var t := SendFriendRequestSpec(s, from, to, outages).store.users;
      && UsersChangeOnly(s.users, t, {from, to}, {FriendRequests, PendingRequests})
      && (UsersNoDup(s.users) ==> UsersNoDup(t))
  {
    TwoWritesFrame(s, from, SendOut(to), 0 in outages, to, SendIn(from), 1 in outages, {FriendRequests, PendingRequests});
    if UsersNoDup(s.users) {
      TwoWritesNoDup(s, from, SendOut(to), 0 in outages, to, SendIn(from), 1 in outages);
    }
  }

  method SendFriendRequest(db: Db, from: Uid, to: Uid, outages: set<nat>) returns (ok: bool)
    modifies db
    ensures Outcome(db.Snapshot(), ok) == SendFriendRequestSpec(old(db.Snapshot()), from, to, outages)
  {
    if from == to {
      return false;
    }
    ok := db.UpdateUser(from, SendOut(to), 0 in outages);
    if !ok {
      return;
    }
    ok := db.UpdateUser(to, SendIn(from), 1 in outages);
  }

  // ---------------------------------------------------------------------------
  // acceptFriendRequest

  function AcceptMine(friend: Uid): ProfilePatch {
    NoProfileChange.(friends := Some(Union(friend)), friendRequests := Some(Remove(friend)))
  }
  function AcceptTheirs(self: Uid): ProfilePatch {
    NoProfileChange.(friends := Some(Union(self)), pendingRequests := Some(Remove(self)))
  }

  /** Accepting never looks for a request: it succeeds whenever both profiles exist. */
  function AcceptFriendRequestSpec(s: Store, self: Uid, friend: Uid, outages: set<nat>): (r: Outcome)
    ensures r.store.communities == s.communities
    ensures r.ok <==> self in s.users && friend in s.users && 0 !in outages && 1 !in outages
    ensures self !in s.users || 0 in outages ==> r.store == s
  {
    TwoWrites(s, self, AcceptMine(friend), 0 in outages, friend, AcceptTheirs(self), 1 in outages);
    AndThen(UpdateUserDoc(s, self, AcceptMine(friend), 0 in outages), friend, AcceptTheirs(self), 1 in outages)
  }

  /** After a successful accept both sides list each other as friends and the request is gone from both. */
  lemma AcceptFriendRequestDone(s: Store, self: Uid, friend: Uid, outages: set<nat>)
    requires AcceptFriendRequestSpec(s, self, friend, outages).ok
    ensures var t := AcceptFriendRequestSpec(s, self, friend, outages).store.users;
      && friend in t[self].friends && friend !in t[self].friendRequests
      && self in t[friend].friends && self !in t[friend].pendingRequests
      && (forall y :: y in t[self].friends <==> y in s.users[self].friends || y == friend)
      && (forall y :: y in t[friend].friends <==> y in s.users[friend].friends || y == self)
      && (forall y :: y in t[self].friendRequests <==> y in s.users[self].friendRequests && y != friend)
      && (forall y :: y in t[friend].pendingRequests <==> y in s.users[friend].pendingRequests && y != self)
      && (self != friend ==> t[self].pendingRequests == s.users[self].pendingRequests)
      && (self != friend ==> t[friend].friendRequests == s.users[friend].friendRequests)
  {
    TwoWrites(s, self, AcceptMine(friend), 0 in outages, friend, AcceptTheirs(self), 1 in outages);
  }

  /** When the friend's write fails, the accepting user lists a friend who does not list them back. */
  lemma AcceptFriendRequestInterrupted(s: Store, self: Uid, friend: Uid, outages: set<nat>)
    requires self != friend && self in s.users && 0 !in outages && (friend !in s.users || 1 in outages)
    ensures var r := AcceptFriendRequestSpec(s, self, friend, outages);
      && !r.ok
      && friend in r.store.users[self].friends
      && (friend in s.users ==> r.store.users[friend] == s.users[friend])
  {
    TwoWrites(s, self, AcceptMine(friend), 0 in outages, friend, AcceptTheirs(self), 1 in outages);
  }

  lemma AcceptFriendRequestFrame(s: Store, self: Uid, friend: Uid, outages: set<nat>)
    ensures var t := AcceptFriendRequestSpec(s, self, friend, outages).store.users;
      && UsersChangeOnly(s.users, t, {self, friend}, {Friends, FriendRequests, PendingRequests})
      && (UsersNoDup(s.users) ==> UsersNoDup(t))
  {
    TwoWritesFrame(s, self, AcceptMine(friend), 0 in outages, friend, AcceptTheirs(self), 1 in outages, {Friends, FriendRequests, PendingRequests});
    if UsersNoDup(s.users) {
      TwoWritesNoDup(s, self, AcceptMine(friend), 0 in outages, friend, AcceptTheirs(self), 1 in outages);
    }
  }

  method AcceptFriendRequest(db: Db, self: Uid, friend: Uid, outages: set<nat>) returns (ok: bool)
    modifies db
    ensures Outcome(db.Snapshot(), ok) == AcceptFriendRequestSpec(old(db.Snapshot()), self, friend, outages)
  {
    ok := db.UpdateUser(self, AcceptMine(friend), 0 in outages);
    if !ok {
      return;
    }
    ok := db.UpdateUser(friend, AcceptTheirs(self), 1 in outages);
  }

  // ---------------------------------------------------------------------------
  // rejectFriendRequest

  function RejectMine(requester: Uid): ProfilePatch { NoProfileChange.(friendRequests := Some(Remove(requester))) }
  function RejectTheirs(self: Uid): ProfilePatch { NoProfileChange.(pendingRequests := Some(Remove(self))) }

  function RejectFriendRequestSpec(s: Store, self: Uid, requester: Uid, outages: set<nat>): (r: Outcome)
    ensures r.store.communities == s.communities
    ensures r.ok <==> self in s.users && requester in s.users && 0 !in outages && 1 !in outages
    ensures self !in s.users || 0 in outages ==> r.store == s
  {
    TwoWrites(s, self, RejectMine(requester), 0 in outages, requester, RejectTheirs(self), 1 in outages);
    AndThen(UpdateUserDoc(s, self, RejectMine(requester), 0 in outages), requester, RejectTheirs(self), 1 in outages)
  }

  /** After a successful reject the request is gone from both sides. */
  lemma RejectFriendRequestDone(s: Store, self: Uid, requester: Uid, outages: set<nat>)
    requires RejectFriendRequestSpec(s, self, requester, outages).ok
    ensures var t := RejectFriendRequestSpec(s, self, requester, outages).store.users;
      && requester !in t[self].friendRequests && self !in t[requester].pendingRequests
      && (forall y :: y in t[self].friendRequests <==> y in s.users[self].friendRequests && y != requester)
      && (forall y :: y in t[requester].pendingRequests <==> y in s.users[requester].pendingRequests && y != self)
      && (self != requester ==> t[self].pendingRequests == s.users[self].pendingRequests)
      && (self != requester ==> t[requester].friendRequests == s.users[requester].friendRequests)
  {
    TwoWrites(s, self, RejectMine(requester), 0 in outages, requester, RejectTheirs(self), 1 in outages);
  }

  lemma RejectFriendRequestInterrupted(s: Store, self: Uid, requester: Uid, outages: set<nat>)
    requires self != requester && self in s.users && 0 !in outages && (requester !in s.users || 1 in outages)
    ensures var r := RejectFriendRequestSpec(s, self, requester, outages);
      && !r.ok
      && requester !in r.store.users[self].friendRequests
      && (requester in s.users ==> r.store.users[requester] == s.users[requester])
  {
    TwoWrites(s, self, RejectMine(requester), 0 in outages, requester, RejectTheirs(self), 1 in outages);
  }

  /** Rejecting touches only request arrays: both `friends` lists are unchanged. */
  lemma RejectFriendRequestFrame(s: Store, self: Uid, requester: Uid, outages: set<nat>)
    ensures var t := RejectFriendRequestSpec(s, self, requester, outages).store.users;
      && UsersChangeOnly(s.users, t, {self, requester}, {FriendRequests, PendingRequests})
      && (UsersNoDup(s.users) ==> UsersNoDup(t))
  {
    TwoWritesFrame(s, self, RejectMine(requester), 0 in outages, requester, RejectTheirs(self), 1 in outages, {FriendRequests, PendingRequests});
    if UsersNoDup(s.users) {
      TwoWritesNoDup(s, self, RejectMine(requester), 0 in outages, requester, RejectTheirs(self), 1 in outages);
    }
  }

  method RejectFriendRequest(db: Db, self: Uid, requester: Uid, outages: set<nat>) returns (ok: bool)
    modifies db
    ensures Outcome(db.Snapshot(), ok) == RejectFriendRequestSpec(old(db.Snapshot()), self, requester, outages)
  {
    ok := db.UpdateUser(self, RejectMine(requester), 0 in outages);
    if !ok {
      return;
    }
    ok := db.UpdateUser(requester, RejectTheirs(self), 1 in outages);
  }

  // ---------------------------------------------------------------------------
  // removeFriend

  function Unfriend(other: Uid): ProfilePatch { NoProfileChange.(friends := Some(Remove(other))) }

  function RemoveFriendSpec(s: Store, self: Uid, friend: Uid, outages: set<nat>): (r: Outcome)
    ensures r.store.communities == s.communities
    ensures r.ok <==> self in s.users && friend in s.users && 0 !in outages && 1 !in outages
    ensures self !in s.users || 0 in outages ==> r.store == s
  {
    TwoWrites(s, self, Unfriend(friend), 0 in outages, friend, Unfriend(self), 1 in outages);
    AndThen(UpdateUserDoc(s, self, Unfriend(friend), 0 in outages), friend, Unfriend(self), 1 in outages)
  }

  /** After a successful removal neither lists the other as a friend. */
  lemma RemoveFriendDone(s: Store, self: Uid, friend: Uid, outages: set<nat>)
    requires RemoveFriendSpec(s, self, friend, outages).ok
    ensures var t := RemoveFriendSpec(s, self, friend, outages).store.users;
      && friend !in t[self].friends && self !in t[friend].friends
      && (forall y :: y in t[self].friends <==> y in s.users[self].friends && y != friend)
      && (forall y :: y in t[friend].friends <==> y in s.users[friend].friends && y != self)
  {
    TwoWrites(s, self, Unfriend(friend), 0 in outages, friend, Unfriend(self), 1 in outages);
  }

  lemma RemoveFriendInterrupted(s: Store, self: Uid, friend: Uid, outages: set<nat>)
    requires self != friend && self in s.users && 0 !in outages && (friend !in s.users || 1 in outages)
    ensures var r := RemoveFriendSpec(s, self, friend, outages);
      && !r.ok
      && friend !in r.store.users[self].friends
      && (friend in s.users ==> r.store.users[friend] == s.users[friend])
  {
    TwoWrites(s, self, Unfriend(friend), 0 in outages, friend, Unfriend(self), 1 in outages);
  }

  lemma RemoveFriendFrame(s: Store, self: Uid, friend: Uid, outages: set<nat>)
    ensures var t := RemoveFriendSpec(s, self, friend, outages).store.users;
      && UsersChangeOnly(s.users, t, {self, friend}, {Friends})
      && (UsersNoDup(s.users) ==> UsersNoDup(t))
  {
    TwoWritesFrame(s, self, Unfriend(friend), 0 in outages, friend, Unfriend(self), 1 in outages, {Friends});
    if UsersNoDup(s.users) {
      TwoWritesNoDup(s, self, Unfriend(friend), 0 in outages, friend, Unfriend(self), 1 in outages);
    }
  }

  method RemoveFriend(db: Db, self: Uid, friend: Uid, outages: set<nat>) returns (ok: bool)
    modifies db
    ensures Outcome(db.Snapshot(), ok) == RemoveFriendSpec(old(db.Snapshot()), self, friend, outages)
  {
    ok := db.UpdateUser(self, Unfriend(friend), 0 in outages);
    if !ok {
      return;
    }
    ok := db.UpdateUser(friend, Unfriend(self), 1 in outages);
  }

  // ---------------------------------------------------------------------------
  // getUserFriends and getPendingFriendRequests

  /**
   * The profiles of `ids`, in order, one read per id (the read of `ids[k]` is
   * call k + 1). A missing profile or a failed read is skipped, since
   * `getUserProfile` turns both into null.
   */
  function ResolveProfiles(users: map<Uid, Profile>, ids: seq<Uid>, outages: set<nat>): (r: seq<Profile>)
    ensures |r| <= |ids|
    decreases |ids|
  {
    if ids == [] then []
    else
      var n := |ids| - 1;
      ResolveProfiles(users, ids[..n], outages) + (if ids[n] in users && n + 1 !in outages then [users[ids[n]]] else [])
  }

  /** Every entry is the profile of a listed id that exists and whose read succeeded. */
  lemma {:induction false} ResolveFrom(users: map<Uid, Profile>, ids: seq<Uid>, outages: set<nat>, k: nat)
    requires k < |ResolveProfiles(users, ids, outages)|
    ensures exists j :: 0 <= j < |ids| && ids[j] in users && j + 1 !in outages && ResolveProfiles(users, ids, outages)[k] == users[ids[j]]
    decreases |ids|
  {
    var n := |ids| - 1;
    var prev := ResolveProfiles(users, ids[..n], outages);
    if k < |prev| {
      ResolveFrom(users, ids[..n], outages, k);
      var j :| 0 <= j < n && ids[..n][j] in users && j + 1 !in outages && prev[k] == users[ids[..n][j]];
      assert ids[..n][j] == ids[j];
    } else {
      assert ResolveProfiles(users, ids, outages)[k] == users[ids[n]];
    }
  }

  /** When every listed profile exists and every read succeeds, the result is the profiles of `ids`, one per id. */
  lemma {:induction false} ResolveAllPresent(users: map<Uid, Profile>, ids: seq<Uid>, outages: set<nat>)
    requires forall j :: 0 <= j < |ids| ==> ids[j] in users
    requires forall step :: 1 <= step <= |ids| ==> step !in outages
    ensures |ResolveProfiles(users, ids, outages)| == |ids|
    ensures forall k :: 0 <= k < |ids| ==> ResolveProfiles(users, ids, outages)[k] == users[ids[k]]
  {
    if ids != [] {
      var n := |ids| - 1;
      forall j | 0 <= j < n
        ensures ids[..n][j] in users
      {
        assert ids[..n][j] == ids[j];
      }
      ResolveAllPresent(users, ids[..n], outages);
      var prev := ResolveProfiles(users, ids[..n], outages);
      assert ResolveProfiles(users, ids, outages) == prev + [users[ids[n]]];
      forall k | 0 <= k < |ids|
        ensures ResolveProfiles(users, ids, outages)[k] == users[ids[k]]
      {
        if k < n {
          assert ids[..n][k] == ids[k];
        }
      }
    }
  }

  /** An id whose profile exists and whose read succeeds is listed. */
  lemma {:induction false} ResolveIncludes(users: map<Uid, Profile>, ids: seq<Uid>, outages: set<nat>, j: nat)
    requires j < |ids| && ids[j] in users && j + 1 !in outages
    ensures users[ids[j]] in ResolveProfiles(users, ids, outages)
    decreases |ids|
  {
    var n := |ids| - 1;
    if j < n {
      assert ids[..n][j] == ids[j];
      ResolveIncludes(users, ids[..n], outages, j);
    }
  }

  /** The failing calls of a run that starts `d` calls later, renumbered from its own first call. */
  function Shift(outages: set<nat>, d: nat): (r: set<nat>)
    ensures forall k: nat :: k in r <==> k + d in outages
  {
    var r := set x | x in outages && x >= d :: (x - d) as nat;
    assert forall k: nat :: k + d in outages ==> k in r by {
      forall k: nat | k + d in outages ensures k in r {
        var x := k + d;
        assert x in outages && x >= d && (x - d) as nat == k;
      }
    }
    r
  }

  /**
   * Resolving keeps the order of the ids: the result for `a + b` is the result
   * for `a` followed by the result for `b`, whose reads are the calls after
   * those of `a`.
   */
  lemma {:induction false} ResolveAppend(users: map<Uid, Profile>, a: seq<Uid>, b: seq<Uid>, outages: set<nat>)
    ensures ResolveProfiles(users, a + b, outages) == ResolveProfiles(users, a, outages) + ResolveProfiles(users, b, Shift(outages, |a|))
  {
    if b == [] {
      assert a + b == a;
    } else {
      var n := |b| - 1;
      assert (a + b)[..|a + b| - 1] == a + b[..n];
      assert (a + b)[|a| + n] == b[n];
      assert n + 1 in Shift(outages, |a|) <==> |a| + n + 1 in outages;
      ResolveAppend(users, a, b[..n], outages);
    }
  }

  /** A single id resolves to its profile when the profile exists and its read succeeds, and to nothing otherwise. */
  lemma ResolveOne(users: map<Uid, Profile>, id: Uid, outages: set<nat>)
    ensures ResolveProfiles(users, [id], outages) == if id in users && 1 !in outages then [users[id]] else []
  {
    assert [id][..0] == [];
  }

  /** The loop shared by both listings: one read per id, pushing each profile found. */
  method FetchProfiles(db: Db, ids: seq<Uid>, outages: set<nat>) returns (r: seq<Profile>)
    ensures r == ResolveProfiles(db.users, ids, outages)
  {
    r := [];
    var i := 0;
    while i < |ids|
      invariant 0 <= i <= |ids|
      invariant r == ResolveProfiles(db.users, ids[..i], outages)
    {
      var p := db.GetUser(ids[i], i + 1 in outages);
      assert ids[..i + 1][..i] == ids[..i];
      if p.Some? {
        r := r + [p.value];
      }
      i := i + 1;
    }
    assert ids[..i] == ids;
  }

  /** `getUserFriends`: the profiles of the user's friends, or [] when there is no profile or no friend. */
  method GetUserFriends(db: Db, uid: Uid, outages: set<nat>) returns (r: seq<Profile>)
    ensures 0 in outages || uid !in db.users || db.users[uid].friends == [] ==> r == []
    ensures 0 !in outages && uid in db.users ==> r == ResolveProfiles(db.users, db.users[uid].friends, outages)
    ensures uid in db.users ==> |r| <= |db.users[uid].friends|
  {
    var profile := GetUserProfile(db, uid, outages);
    if profile.None? || profile.value.friends == [] {
      return [];
    }
    r := FetchProfiles(db, profile.value.friends, outages);
  }

  /** `getPendingFriendRequests`: the same resolution over the incoming requests. */
  method GetPendingFriendRequests(db: Db, uid: Uid, outages: set<nat>) returns (r: seq<Profile>)
    ensures 0 in outages || uid !in db.users || db.users[uid].friendRequests == [] ==> r == []
    ensures 0 !in outages && uid in db.users ==> r == ResolveProfiles(db.users, db.users[uid].friendRequests, outages)
    ensures uid in db.users ==> |r| <= |db.users[uid].friendRequests|
  {
    var profile := GetUserProfile(db, uid, outages);
    if profile.None? || profile.value.friendRequests == [] {
      return [];
    }
    r := FetchProfiles(db, profile.value.friendRequests, outages);
  }

  // ---------------------------------------------------------------------------
  // The graph invariants: kept by each completed operation, broken by an interrupted one

  /** Adding or dropping the one request from `x` to `z` keeps requests paired. */
  lemma PairedAfterEdit(s: map<Uid, Profile>, t: map<Uid, Profile>, x: Uid, z: Uid, add: bool)
    requires RequestsPaired(s) && t.Keys == s.Keys
    requires forall a, y :: a in t ==>
      (y in t[a].pendingRequests <==> if a == x && y == z then add else y in s[a].pendingRequests)
    requires forall b, y :: b in t ==>
      (y in t[b].friendRequests <==> if b == z && y == x then add else y in s[b].friendRequests)
    ensures RequestsPaired(t)
  {
    forall a, b | a in t && b in t
      ensures b in t[a].pendingRequests <==> a in t[b].friendRequests
    {
      assert b in t[a].pendingRequests <==> if a == x && b == z then add else b in s[a].pendingRequests;
      assert a in t[b].friendRequests <==> if b == z && a == x then add else a in s[b].friendRequests;
    }
  }

  /** Adding or dropping the friendship between `x` and `z`, on both sides, keeps friendship symmetric. */
  lemma SymmetricAfterEdit(s: map<Uid, Profile>, t: map<Uid, Profile>, x: Uid, z: Uid, add: bool)
    requires FriendsSymmetric(s) && t.Keys == s.Keys
    requires forall a, y :: a in t ==>
      (y in t[a].friends <==> if (a == x && y == z) || (a == z && y == x) then add else y in s[a].friends)
    ensures FriendsSymmetric(t)
  {
    forall a, b | a in t && b in t
      ensures b in t[a].friends <==> a in t[b].friends
    {
      assert b in t[a].friends <==> if (a == x && b == z) || (a == z && b == x) then add else b in s[a].friends;
      assert a in t[b].friends <==> if (b == x && a == z) || (b == z && a == x) then add else a in s[b].friends;
    }
  }

  /** Friendship is symmetric after any change that leaves every `friends` list as it was. */
  lemma SymmetricWhenFriendsKept(s: map<Uid, Profile>, t: map<Uid, Profile>)
    requires FriendsSymmetric(s) && t.Keys == s.Keys
    requires forall a :: a in t ==> t[a].friends == s[a].friends
    ensures FriendsSymmetric(t)
  {
  }

  lemma PairedWhenRequestsKept(s: map<Uid, Profile>, t: map<Uid, Profile>)
    requires RequestsPaired(s) && t.Keys == s.Keys
    requires forall a :: a in t ==> t[a].pendingRequests == s[a].pendingRequests && t[a].friendRequests == s[a].friendRequests
    ensures RequestsPaired(t)
  {
  }

  lemma SendFriendRequestKeepsConsistent(s: Store, from: Uid, to: Uid, outages: set<nat>)
    requires Consistent(s.users) && SendFriendRequestSpec(s, from, to, outages).ok
    ensures Consistent(SendFriendRequestSpec(s, from, to, outages).store.users)
  {
    SendFriendRequestKeepsSymmetric(s, from, to, outages);
    SendFriendRequestKeepsPaired(s, from, to, outages);
  }

  lemma SendFriendRequestKeepsSymmetric(s: Store, from: Uid, to: Uid, outages: set<nat>)
    requires FriendsSymmetric(s.users)
    ensures FriendsSymmetric(SendFriendRequestSpec(s, from, to, outages).store.users)
  {
    var t := SendFriendRequestSpec(s, from, to, outages).store.users;
    SendFriendRequestFrame(s, from, to, outages);
    forall a | a in t
      ensures t[a].friends == s.users[a].friends
    {
      assert ChangesOnly(s.users[a], t[a], {FriendRequests, PendingRequests});
    }
    SymmetricWhenFriendsKept(s.users, t);
  }

  lemma SendFriendRequestKeepsPaired(s: Store, from: Uid, to: Uid, outages: set<nat>)
    requires RequestsPaired(s.users) && SendFriendRequestSpec(s, from, to, outages).ok
    ensures RequestsPaired(SendFriendRequestSpec(s, from, to, outages).store.users)
  {
    var t := SendFriendRequestSpec(s, from, to, outages).store.users;
    SendFriendRequestDelivered(s, from, to, outages);
    TwoWrites(s, from, SendOut(to), 0 in outages, to, SendIn(from), 1 in outages);
    forall a, y | a in t
      ensures y in t[a].pendingRequests <==> if a == from && y == to then true else y in s.users[a].pendingRequests
      ensures y in t[a].friendRequests <==> if a == to && y == from then true else y in s.users[a].friendRequests
    {
      if a != from && a != to {
        assert t[a] == s.users[a];
      }
    }
    PairedAfterEdit(s.users, t, from, to, true);
  }

  lemma AcceptFriendRequestKeepsConsistent(s: Store, self: Uid, friend: Uid, outages: set<nat>)
    requires Consistent(s.users) && AcceptFriendRequestSpec(s, self, friend, outages).ok
    ensures Consistent(AcceptFriendRequestSpec(s, self, friend, outages).store.users)
  {
    AcceptFriendRequestKeepsSymmetric(s, self, friend, outages);
    AcceptFriendRequestKeepsPaired(s, self, friend, outages);
  }

  lemma AcceptFriendRequestKeepsSymmetric(s: Store, self: Uid, friend: Uid, outages: set<nat>)
    requires FriendsSymmetric(s.users) && AcceptFriendRequestSpec(s, self, friend, outages).ok
    ensures FriendsSymmetric(AcceptFriendRequestSpec(s, self, friend, outages).store.users)
  {
    var t := AcceptFriendRequestSpec(s, self, friend, outages).store.users;
    AcceptFriendRequestDone(s, self, friend, outages);
    TwoWrites(s, self, AcceptMine(friend), 0 in outages, friend, AcceptTheirs(self), 1 in outages);
    forall a, y | a in t
      ensures y in t[a].friends <==> if (a == self && y == friend) || (a == friend && y == self) then true else y in s.users[a].friends
    {
      if a != self && a != friend {
        assert t[a] == s.users[a];
      }
    }
    SymmetricAfterEdit(s.users, t, self, friend, true);
  }

  lemma AcceptFriendRequestKeepsPaired(s: Store, self: Uid, friend: Uid, outages: set<nat>)
    requires RequestsPaired(s.users) && AcceptFriendRequestSpec(s, self, friend, outages).ok
    ensures RequestsPaired(AcceptFriendRequestSpec(s, self, friend, outages).store.users)
  {
    var t := AcceptFriendRequestSpec(s, self, friend, outages).store.users;
    AcceptFriendRequestDone(s, self, friend, outages);
    TwoWrites(s, self, AcceptMine(friend), 0 in outages, friend, AcceptTheirs(self), 1 in outages);
    forall a, y | a in t
      ensures y in t[a].pendingRequests <==> if a == friend && y == self then false else y in s.users[a].pendingRequests
      ensures y in t[a].friendRequests <==> if a == self && y == friend then false else y in s.users[a].friendRequests
    {
      if a != self && a != friend {
        assert t[a] == s.users[a];
      }
    }
    PairedAfterEdit(s.users, t, friend, self, false);
  }

  lemma RejectFriendRequestKeepsConsistent(s: Store, self: Uid, requester: Uid, outages: set<nat>)
    requires Consistent(s.users) && RejectFriendRequestSpec(s, self, requester, outages).ok
    ensures Consistent(RejectFriendRequestSpec(s, self, requester, outages).store.users)
  {
    RejectFriendRequestKeepsSymmetric(s, self, requester, outages);
    RejectFriendRequestKeepsPaired(s, self, requester, outages);
  }

  lemma RejectFriendRequestKeepsSymmetric(s: Store, self: Uid, requester: Uid, outages: set<nat>)
    requires FriendsSymmetric(s.users)
    ensures FriendsSymmetric(RejectFriendRequestSpec(s, self, requester, outages).store.users)
  {
    var t := RejectFriendRequestSpec(s, self, requester, outages).store.users;
    RejectFriendRequestFrame(s, self, requester, outages);
    forall a | a in t
      ensures t[a].friends == s.users[a].friends
    {
      assert ChangesOnly(s.users[a], t[a], {FriendRequests, PendingRequests});
    }
    SymmetricWhenFriendsKept(s.users, t);
  }

  lemma RejectFriendRequestKeepsPaired(s: Store, self: Uid, requester: Uid, outages: set<nat>)
    requires RequestsPaired(s.users) && RejectFriendRequestSpec(s, self, requester, outages).ok
    ensures RequestsPaired(RejectFriendRequestSpec(s, self, requester, outages).store.users)
  {
    var t := RejectFriendRequestSpec(s, self, requester, outages).store.users;
    RejectFriendRequestDone(s, self, requester, outages);
    TwoWrites(s, self, RejectMine(requester), 0 in outages, requester, RejectTheirs(self), 1 in outages);
    forall a, y | a in t
      ensures y in t[a].pendingRequests <==> if a == requester && y == self then false else y in s.users[a].pendingRequests
      ensures y in t[a].friendRequests <==> if a == self && y == requester then false else y in s.users[a].friendRequests
    {
      if a != self && a != requester {
        assert t[a] == s.users[a];
      }
    }
    PairedAfterEdit(s.users, t, requester, self, false);
  }

  lemma RemoveFriendKeepsConsistent(s: Store, self: Uid, friend: Uid, outages: set<nat>)
    requires Consistent(s.users) && RemoveFriendSpec(s, self, friend, outages).ok
    ensures Consistent(RemoveFriendSpec(s, self, friend, outages).store.users)
  {
    RemoveFriendKeepsSymmetric(s, self, friend, outages);
    RemoveFriendKeepsPaired(s, self, friend, outages);
  }

  lemma RemoveFriendKeepsSymmetric(s: Store, self: Uid, friend: Uid, outages: set<nat>)
    requires FriendsSymmetric(s.users) && RemoveFriendSpec(s, self, friend, outages).ok
    ensures FriendsSymmetric(RemoveFriendSpec(s, self, friend, outages).store.users)
  {
    var t := RemoveFriendSpec(s, self, friend, outages).store.users;
    RemoveFriendDone(s, self, friend, outages);
    TwoWrites(s, self, Unfriend(friend), 0 in outages, friend, Unfriend(self), 1 in outages);
    forall a, y | a in t
      ensures y in t[a].friends <==> if (a == self && y == friend) || (a == friend && y == self) then false else y in s.users[a].friends
    {
      if a != self && a != friend {
        assert t[a] == s.users[a];
      }
    }
    SymmetricAfterEdit(s.users, t, self, friend, false);
  }

  lemma RemoveFriendKeepsPaired(s: Store, self: Uid, friend: Uid, outages: set<nat>)
    requires RequestsPaired(s.users)
    ensures RequestsPaired(RemoveFriendSpec(s, self, friend, outages).store.users)
  {
    var t := RemoveFriendSpec(s, self, friend, outages).store.users;
    RemoveFriendFrame(s, self, friend, outages);
    forall a | a in t
      ensures t[a].pendingRequests == s.users[a].pendingRequests && t[a].friendRequests == s.users[a].friendRequests
    {
      assert ChangesOnly(s.users[a], t[a], {Friends});
    }
    PairedWhenRequestsKept(s.users, t);
  }

  /** An accept whose second write fails leaves a one-sided friendship. */
  lemma AcceptInterruptedBreaksSymmetry(s: Store, self: Uid, friend: Uid, outages: set<nat>)
    requires FriendsSymmetric(s.users)
    requires self != friend && self in s.users && friend in s.users && friend !in s.users[self].friends
    requires 0 !in outages && 1 in outages
    ensures !AcceptFriendRequestSpec(s, self, friend, outages).ok
    ensures !FriendsSymmetric(AcceptFriendRequestSpec(s, self, friend, outages).store.users)
  {
    AcceptFriendRequestInterrupted(s, self, friend, outages);
    AcceptFriendRequestFrame(s, self, friend, outages);
    var t := AcceptFriendRequestSpec(s, self, friend, outages).store.users;
    assert self !in s.users[friend].friends;
    assert friend in t[self].friends && self !in t[friend].friends;
  }

  /** A send whose second write fails leaves an outgoing request the target never sees. */
  lemma SendInterruptedBreaksPairing(s: Store, from: Uid, to: Uid, outages: set<nat>)
    requires RequestsPaired(s.users)
    requires from != to && from in s.users && to in s.users && from !in s.users[to].friendRequests
    requires 0 !in outages && 1 in outages
    ensures !SendFriendRequestSpec(s, from, to, outages).ok
    ensures !RequestsPaired(SendFriendRequestSpec(s, from, to, outages).store.users)
  {
    SendFriendRequestInterrupted(s, from, to, outages);
    var t := SendFriendRequestSpec(s, from, to, outages).store.users;
    assert to in t[from].pendingRequests && from !in t[to].friendRequests;
  }

  // ---------------------------------------------------------------------------
  // Retrying: every friend operation can be repeated, and a retry without failures
  // completes an interrupted first attempt.

  lemma SendFriendRequestRetry(s: Store, from: Uid, to: Uid, outages: set<nat>)
    ensures var r := SendFriendRequestSpec(s, from, to, outages);
      SendFriendRequestSpec(r.store, from, to, {}) == SendFriendRequestSpec(s, from, to, {})
  {
    if from != to {
      TwoWritesRetry(s, from, SendOut(to), 0 in outages, to, SendIn(from), 1 in outages);
    }
  }

  lemma AcceptFriendRequestRetry(s: Store, self: Uid, friend: Uid, outages: set<nat>)
    ensures var r := AcceptFriendRequestSpec(s, self, friend, outages);
      AcceptFriendRequestSpec(r.store, self, friend, {}) == AcceptFriendRequestSpec(s, self, friend, {})
  {
    TwoWritesRetry(s, self, AcceptMine(friend), 0 in outages, friend, AcceptTheirs(self), 1 in outages);
  }

  lemma RejectFriendRequestRetry(s: Store, self: Uid, requester: Uid, outages: set<nat>)
    ensures var r := RejectFriendRequestSpec(s, self, requester, outages);
      RejectFriendRequestSpec(r.store, self, requester, {}) == RejectFriendRequestSpec(s, self, requester, {})
  {
    TwoWritesRetry(s, self, RejectMine(requester), 0 in outages, requester, RejectTheirs(self), 1 in outages);
  }

  /** `removeFriend` twice leaves the store as once does; a retry also completes a half-done removal. */
  lemma RemoveFriendRetry(s: Store, self: Uid, friend: Uid, outages: set<nat>)
    ensures var r := RemoveFriendSpec(s, self, friend, outages);
      RemoveFriendSpec(r.store, self, friend, {}) == RemoveFriendSpec(s, self, friend, {})
  {
    TwoWritesRetry(s, self, Unfriend(friend), 0 in outages, friend, Unfriend(self), 1 in outages);
  }

  /** The scenario of a request from "ana" to "bruno" that "bruno" accepts. */
  lemma AnaBefriendsBruno(s: Store)
    requires "ana" in s.users && "bruno" in s.users
    ensures var sent := SendFriendRequestSpec(s, "ana", "bruno", {});
      var accepted := AcceptFriendRequestSpec(sent.store, "bruno", "ana", {});
      var t := accepted.store.users;
      && sent.ok && accepted.ok
      && "ana" in t["bruno"].friends && "bruno" in t["ana"].friends
      && "ana" !in t["bruno"].friendRequests && "bruno" !in t["ana"].pendingRequests
      && ("bruno" in t["ana"].friendRequests <==> "bruno" in s.users["ana"].friendRequests)
      && ("ana" in t["bruno"].pendingRequests <==> "ana" in s.users["bruno"].pendingRequests)
  {
    var sent := SendFriendRequestSpec(s, "ana", "bruno", {});
    SendFriendRequestFrame(s, "ana", "bruno", {});
    AcceptFriendRequestDone(sent.store, "bruno", "ana", {});
  }
}
