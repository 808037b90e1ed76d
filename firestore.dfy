/**
 * The two array primitives of the document store that the services rely on,
 * `arrayUnion` and `arrayRemove`, and the field transforms built from them.
 * Every array field of a document is a sequence of identifiers.
 */
module Firestore {
  import opened Wrappers

  /** Document identifiers (user uids and community ids). */
  type Id = string

  /** No identifier occurs twice. */
  predicate NoDup(s: seq<Id>) {
    forall i, j :: 0 <= i < j < |s| ==> s[i] != s[j]
  }

  /** `arrayUnion(x)`: appends `x` only if it is absent. */
  function ArrayUnion(s: seq<Id>, x: Id): (r: seq<Id>)
    ensures forall y :: y in r <==> y in s || y == x
    ensures |s| <= |r| <= |s| + 1 && r[..|s|] == s
    ensures x in s ==> r == s
    ensures NoDup(s) ==> NoDup(r)
  {
    if x in s then s else s + [x]
  }

  /** `arrayRemove(x)`: removes every occurrence of `x`, keeping the order of the rest. */
  function ArrayRemove(s: seq<Id>, x: Id): (r: seq<Id>)
    ensures forall y :: y in r <==> y in s && y != x
    ensures multiset(r) == multiset(s)[x := 0]
    ensures |r| <= |s|
    ensures x !in s ==> r == s
    ensures NoDup(s) ==> NoDup(r)
  {
    if s == [] then []
    else if s[0] == x then
      assert s == [s[0]] + s[1..];
      ArrayRemove(s[1..], x)
    else
      assert s == [s[0]] + s[1..];
      assert NoDup(s) ==> NoDup(s[1..]) && s[0] !in s[1..];
      [s[0]] + ArrayRemove(s[1..], x)
  }

  /** Removing keeps the relative order: the result of removing from a concatenation. */
  lemma {:induction false} ArrayRemoveAppend(s: seq<Id>, t: seq<Id>, x: Id)
    ensures ArrayRemove(s + t, x) == ArrayRemove(s, x) + ArrayRemove(t, x)
  {
    if s != [] {
      assert (s + t)[1..] == s[1..] + t;
      ArrayRemoveAppend(s[1..], t, x);
    } else {
      assert s + t == t;
    }
  }

  /** The value of one array field in an `updateDoc` call. */
  datatype Transform = Union(x: Id) | Remove(x: Id) | Replace(v: seq<Id>)

  /** The new value of an array field that an update names (`None`: the update leaves it out). */
  function Patch(cur: seq<Id>, t: Option<Transform>): (r: seq<Id>)
    ensures t.None? ==> r == cur
    ensures t.Some? && t.value.Union? ==> r == ArrayUnion(cur, t.value.x)
    ensures t.Some? && t.value.Union? ==> forall y :: y in r <==> y in cur || y == t.value.x
    ensures t.Some? && t.value.Remove? ==> r == ArrayRemove(cur, t.value.x)
    ensures t.Some? && t.value.Remove? ==> forall y :: y in r <==> y in cur && y != t.value.x
    ensures t.Some? && t.value.Replace? ==> r == t.value.v
  {
    match t
    case None => cur
    case Some(Union(x)) => ArrayUnion(cur, x)
    case Some(Remove(x)) => ArrayRemove(cur, x)
    case Some(Replace(v)) => v
  }

  /** Both set primitives are safe to repeat: applying a transform twice equals applying it once. */
  lemma TransformIdempotent(cur: seq<Id>, t: Option<Transform>)
    ensures Patch(Patch(cur, t), t) == Patch(cur, t)
  {
  }
}
