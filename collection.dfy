// A Mongo collection as the sequence of its documents in natural order, and
// the query primitives the routes use on it: findOne (first match), find with
// a filter, findOneAndDelete / deleteOne (remove the first match) and
// deleteMany with `_id: ids` (remove every listed id).

module Collection {
  import opened Values

  /** `a` can be obtained from `b` by deleting elements; order is kept. */
  predicate Subsequence<T(==)>(a: seq<T>, b: seq<T>)
    decreases |b|
  {
    if a == [] then true
    else if b == [] then false
    else if a[0] == b[0] then Subsequence(a[1..], b[1..])
    else Subsequence(a, b[1..])
  }

  lemma {:induction false} SubsequenceNoLonger<T>(a: seq<T>, b: seq<T>)
    requires Subsequence(a, b)
    ensures |a| <= |b|
    decreases |b|
  {
    if a != [] && b != [] {
      if a[0] == b[0] {
        SubsequenceNoLonger(a[1..], b[1..]);
      } else {
        SubsequenceNoLonger(a, b[1..]);
      }
    }
  }

  /** The index of the first element satisfying `p`: what `findOne` picks. */
  function FirstIndex<T>(s: seq<T>, p: T -> bool): (r: Option<nat>)
    ensures r.Some? ==> r.value < |s| && p(s[r.value])
    ensures r.Some? ==> forall j :: 0 <= j < r.value ==> !p(s[j])
    ensures r.None? ==> forall j :: 0 <= j < |s| ==> !p(s[j])
  {
    if s == [] then None
    else if p(s[0]) then Some(0)
    else
      match FirstIndex(s[1..], p)
      case None => None
      case Some(k) => Some(k + 1)
  }

  /** `Array.prototype.filter` / a `find` with a condition: the elements satisfying `p`, in order. */
  function Filter<T(==,!new)>(s: seq<T>, p: T -> bool): (r: seq<T>)
    ensures forall i :: 0 <= i < |r| ==> p(r[i])
    ensures forall x :: multiset(r)[x] == if p(x) then multiset(s)[x] else 0
    ensures Subsequence(r, s)
  {
    if s == [] then []
    else
      var rest := Filter(s[1..], p);
      assert s == [s[0]] + s[1..];
      if p(s[0]) then
        assert ([s[0]] + rest)[1..] == rest;
        [s[0]] + rest
      else
        assert rest != [] ==> rest[0] != s[0];
        rest
  }

  /** Remove the first element satisfying `p` (`deleteOne`, `findOneAndDelete`). */
  function DeleteOne<T>(s: seq<T>, p: T -> bool): (r: seq<T>)
    ensures FirstIndex(s, p).None? ==> r == s
    ensures FirstIndex(s, p).Some? ==>
              var i := FirstIndex(s, p).value; r == s[..i] + s[i + 1..]
  {
    if s == [] then []
    else if p(s[0]) then s[1..]
    else
      var rest := DeleteOne(s[1..], p);
      assert FirstIndex(s[1..], p).Some? ==>
               var k := FirstIndex(s[1..], p).value;
               s[..k + 1] == [s[0]] + s[1..][..k] && s[k + 2..] == s[1..][k + 1..];
      [s[0]] + rest
  }

  function HasId<D>(id: Id): Doc<D> -> bool {
    (d: Doc<D>) => d.id == id
  }

  function IdNotIn<D>(ids: seq<Id>): Doc<D> -> bool {
    (d: Doc<D>) => d.id !in ids
  }

  /** `findOne({ _id: id })`. */
  function Find<D>(docs: seq<Doc<D>>, id: Id): (r: Option<Doc<D>>)
    ensures r.Some? ==> r.value in docs && r.value.id == id
    ensures r.None? ==> forall d :: d in docs ==> d.id != id
  {
    match FirstIndex(docs, HasId(id))
    case None => None
    case Some(i) => Some(docs[i])
  }

  /** Replace the contents of the document at index `i`, keeping its id. */
  function Replace<D>(docs: seq<Doc<D>>, i: nat, body: D): (r: seq<Doc<D>>)
    requires i < |docs|
    ensures |r| == |docs| && r[i] == Doc(docs[i].id, body)
    ensures forall j :: 0 <= j < |docs| && j != i ==> r[j] == docs[j]
  {
    docs[i := Doc(docs[i].id, body)]
  }

  /** `deleteMany({ _id: ids })`: every document whose id is listed goes, the rest stay in order. */
  function RemoveIds<D(==,!new)>(docs: seq<Doc<D>>, ids: seq<Id>): (r: seq<Doc<D>>)
    ensures forall d :: d in r <==> d in docs && d.id !in ids
    ensures Subsequence(r, docs)
  {
    var r := Filter(docs, IdNotIn(ids));
    assert forall d :: d in r <==> multiset(r)[d] > 0;
    assert forall d :: d in docs <==> multiset(docs)[d] > 0;
    r
  }

  ghost predicate UniqueIds<D>(docs: seq<Doc<D>>) {
    forall i, j :: 0 <= i < j < |docs| ==> docs[i].id != docs[j].id
  }

  ghost predicate AtMostOne<T>(s: seq<T>, p: T -> bool) {
    forall i, j :: 0 <= i < |s| && 0 <= j < |s| && p(s[i]) && p(s[j]) ==> i == j
  }

  lemma {:induction false} FilterKeepsUniqueIds<D(!new)>(docs: seq<Doc<D>>, p: Doc<D> -> bool)
    requires UniqueIds(docs)
    ensures UniqueIds(Filter(docs, p))
  {
    if docs != [] {
      var tail := docs[1..];
      assert UniqueIds(tail);
      FilterKeepsUniqueIds(tail, p);
      var rest := Filter(tail, p);
      if p(docs[0]) {
        forall j | 0 <= j < |rest|
          ensures rest[j].id != docs[0].id
        {
          assert multiset(rest)[rest[j]] > 0;
          assert rest[j] in tail;
        }
        var r := [docs[0]] + rest;
        forall a, b | 0 <= a < b < |r|
          ensures r[a].id != r[b].id
        {
          if a > 0 {
            assert r[a] == rest[a - 1] && r[b] == rest[b - 1];
          }
        }
      }
    }
  }

  lemma RemoveIdsKeepsUniqueIds<D(!new)>(docs: seq<Doc<D>>, ids: seq<Id>)
    requires UniqueIds(docs)
    ensures UniqueIds(RemoveIds(docs, ids))
  {
    FilterKeepsUniqueIds(docs, IdNotIn(ids));
  }

  lemma {:induction false} DeleteOneKeepsUniqueIds<D>(docs: seq<Doc<D>>, p: Doc<D> -> bool)
    requires UniqueIds(docs)
    ensures UniqueIds(DeleteOne(docs, p))
  {
    var r := DeleteOne(docs, p);
    if FirstIndex(docs, p).Some? {
      var i := FirstIndex(docs, p).value;
      forall a, b | 0 <= a < b < |r|
        ensures r[a].id != r[b].id
      {
        var a' := if a < i then a else a + 1;
        var b' := if b < i then b else b + 1;
        assert r[a] == docs[a'] && r[b] == docs[b'];
      }
    }
  }

  /** When at most one element satisfies `p`, after `DeleteOne` none does. */
  lemma {:induction false} DeleteOneLeavesNone<T>(s: seq<T>, p: T -> bool)
    requires AtMostOne(s, p)
    ensures forall k :: 0 <= k < |DeleteOne(s, p)| ==> !p(DeleteOne(s, p)[k])
  {
    var r := DeleteOne(s, p);
    if FirstIndex(s, p).Some? {
      var i := FirstIndex(s, p).value;
      forall k | 0 <= k < |r|
        ensures !p(r[k])
      {
        var k' := if k < i then k else k + 1;
        assert r[k] == s[k'];
      }
    }
  }

  /** With unique ids, deleting by id leaves no document with that id. */
  lemma DeleteIdLeavesNone<D>(docs: seq<Doc<D>>, id: Id)
    requires UniqueIds(docs)
    ensures Find(DeleteOne(docs, HasId(id)), id).None?
  {
    assert AtMostOne(docs, HasId(id));
    DeleteOneLeavesNone(docs, HasId(id));
  }

  /** `DeleteOne` only removes: what is left was there before. */
  lemma {:induction false} DeleteOneShrinks<T>(s: seq<T>, p: T -> bool)
    ensures forall x :: x in DeleteOne(s, p) ==> x in s
  {
    var r := DeleteOne(s, p);
    if FirstIndex(s, p).Some? {
      var i := FirstIndex(s, p).value;
      forall x | x in r
        ensures x in s
      {
        var k :| 0 <= k < |r| && r[k] == x;
        assert r[k] == s[if k < i then k else k + 1];
      }
    }
  }

  /** Appending a document whose id is new keeps ids unique. */
  lemma AppendKeepsUniqueIds<D>(docs: seq<Doc<D>>, d: Doc<D>)
    requires UniqueIds(docs)
    requires forall e :: e in docs ==> e.id != d.id
    ensures UniqueIds(docs + [d])
  {
    var r := docs + [d];
    forall i, j | 0 <= i < j < |r|
      ensures r[i].id != r[j].id
    {
      assert r[i] == docs[i] && r[i] in docs;
    }
  }

  lemma ReplaceKeepsUniqueIds<D>(docs: seq<Doc<D>>, i: nat, body: D)
    requires i < |docs| && UniqueIds(docs)
    ensures UniqueIds(Replace(docs, i, body))
  {
  }
}
