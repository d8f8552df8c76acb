/** The document-store queries the route handlers use, as operations on an
    in-memory table (a sequence of records in insertion order). A filter is
    a predicate on records. */
module Tables {
  import opened Records

  /** `findOne`: the position of the first record the filter accepts. */
  function FindOne<T>(s: seq<T>, p: T -> bool): (r: Option<nat>)
    ensures r.Some? ==> r.value < |s| && p(s[r.value])
    ensures r.Some? ==> forall j :: 0 <= j < r.value ==> !p(s[j])
    ensures r.None? <==> forall j :: 0 <= j < |s| ==> !p(s[j])
  {
    if s == [] then None
    else if p(s[0]) then Some(0)
    else match FindOne(s[1..], p)
      case None => None
      case Some(i) => Some(i + 1)
  }

  /** `find`: every record the filter accepts, in table order. */
  function Find<T(!new)>(s: seq<T>, p: T -> bool): (r: seq<T>)
    ensures |r| <= |s|
    ensures forall x :: x in r <==> x in s && p(x)
    ensures forall x :: multiset(r)[x] == if p(x) then multiset(s)[x] else 0
  {
    if s == [] then []
    else
      assert s == [s[0]] + s[1..];
      if p(s[0]) then [s[0]] + Find(s[1..], p) else Find(s[1..], p)
  }

  /** `findOneAndDelete`: removes the first match and returns it; the other
      records keep their order. */
  function FindOneAndDelete<T>(s: seq<T>, p: T -> bool): (r: (Option<T>, seq<T>))
    ensures FindOne(s, p).None? ==> r == (None, s)
    ensures FindOne(s, p).Some? ==>
      var i := FindOne(s, p).value;
      && r.0 == Some(s[i])
      && |r.1| == |s| - 1
      && (forall j :: 0 <= j < i ==> r.1[j] == s[j])
      && (forall j :: i < j < |s| ==> r.1[j - 1] == s[j])
  {
    match FindOne(s, p)
    case None => (None, s)
    case Some(i) => (Some(s[i]), s[..i] + s[i + 1..])
  }

  /** `findOneAndUpdate` with `new: true`: rewrites the first match with
      `f` and returns the rewritten record; every other record is kept. */
  function FindOneAndUpdate<T>(s: seq<T>, p: T -> bool, f: T -> T): (r: (Option<T>, seq<T>))
    ensures FindOne(s, p).None? ==> r == (None, s)
    ensures FindOne(s, p).Some? ==>
      var i := FindOne(s, p).value;
      && r.0 == Some(f(s[i]))
      && |r.1| == |s|
      && r.1[i] == f(s[i])
      && (forall j :: 0 <= j < |s| && j != i ==> r.1[j] == s[j])
  {
    match FindOne(s, p)
    case None => (None, s)
    case Some(i) => (Some(f(s[i])), s[i := f(s[i])])
  }

  /** Removing the record at `i` from a table with unique ids leaves exactly
      the records whose id differs from the removed one, still unique. */
  lemma RemoveByUniqueId(s: seq<Note>, i: nat)
    requires NoteIdsUnique(s) && i < |s|
    ensures forall n :: n in s[..i] + s[i + 1..] <==> n in s && n.id != s[i].id
    ensures NoteIdsUnique(s[..i] + s[i + 1..])
  {
  }

  predicate IsPinned(n: Note) { n.isPinned }

  predicate IsUnpinned(n: Note) { !n.isPinned }

  /** Every pinned note comes before every unpinned one. */
  predicate PinnedBeforeUnpinned(s: seq<Note>)
  {
    forall i, j :: 0 <= i < j < |s| && s[j].isPinned ==> s[i].isPinned
  }

  /** `find(...).sort({isPinned: -1})`: the pinned notes, then the unpinned
      ones. The store leaves the order within each group open; this model
      keeps table order there. */
  function PinnedFirst(s: seq<Note>): seq<Note>
  {
    Find(s, IsPinned) + Find(s, IsUnpinned)
  }

  /** The sort is a permutation that puts the pinned notes first. */
  lemma PinnedFirstSorts(s: seq<Note>)
    ensures multiset(PinnedFirst(s)) == multiset(s)
    ensures PinnedBeforeUnpinned(PinnedFirst(s))
  {
    var a, b := Find(s, IsPinned), Find(s, IsUnpinned);
    assert forall k :: 0 <= k < |a| ==> a[k] in a && a[k].isPinned;
    assert forall k :: 0 <= k < |b| ==> b[k] in b && !b[k].isPinned;
  }
}
