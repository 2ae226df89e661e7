/** The in-memory cache of the category, supplier and address services: a list
    of records that each successful remote call rewrites in its success
    handler. The remote server is not modelled; its reply to a call is a
    parameter of the handler, and a failed call never reaches the handler. */
module EntityService {

  /** The server's reply to one call: the value it sent back, or an error. */
  datatype Reply<R> = Ok(value: R) | Failed

  /** A cached entity: its identifier and its other fields by name. */
  datatype Record<V> = Record(id: int, fields: map<string, V>)

  /** What the batch update emits: the list of updated records, an error, or
      nothing at all for an empty batch. */
  datatype BatchOutcome<V> = AllUpdated(values: seq<Record<V>>) | BatchFailed | NothingEmitted

  /** `{ ...current, ...returned }`: every field of either record, the returned
      record's value winning where both have one, and the returned identifier. */
  function Merge<V>(current: Record<V>, returned: Record<V>): (r: Record<V>)
    ensures r.id == returned.id
    ensures r.fields.Keys == current.fields.Keys + returned.fields.Keys
    ensures forall k :: k in returned.fields ==> r.fields[k] == returned.fields[k]
    ensures forall k :: k in current.fields && k !in returned.fields ==> r.fields[k] == current.fields[k]
  {
    Record(returned.id, current.fields + returned.fields)
  }

  /** Merging the same reply twice is merging it once. */
  lemma MergeIdempotent<V>(current: Record<V>, returned: Record<V>)
    ensures Merge(Merge(current, returned), returned) == Merge(current, returned)
  {
    var once, twice := Merge(current, returned), Merge(Merge(current, returned), returned);
    assert twice.fields == once.fields;
  }

  /** The delete handler's `filter(p => p.id !== id)`: the records whose
      identifier is not `id`. */
  function WithoutId<V>(s: seq<Record<V>>, id: int): (r: seq<Record<V>>)
    ensures |r| <= |s|
    ensures forall k :: 0 <= k < |r| ==> r[k] in s && r[k].id != id
    ensures forall k :: 0 <= k < |s| && s[k].id != id ==> s[k] in r
  {
    if s == [] then []
    else (if s[0].id == id then [] else [s[0]]) + WithoutId(s[1..], id)
  }

  /** Filtering a concatenation filters each part in place, so the records that
      stay keep their relative order. */
  lemma {:induction false} WithoutIdAppend<V>(a: seq<Record<V>>, b: seq<Record<V>>, id: int)
    ensures WithoutId(a + b, id) == WithoutId(a, id) + WithoutId(b, id)
  {
    if a != [] {
      assert (a + b)[0] == a[0] && (a + b)[1..] == a[1..] + b;
      WithoutIdAppend(a[1..], b, id);
    } else {
      assert a + b == b;
    }
  }

  /** Exactly the records with identifier `id` go: each other record stays as
      many times as it was there. */
  lemma {:induction false} WithoutIdCounts<V>(s: seq<Record<V>>, id: int, x: Record<V>)
    ensures multiset(WithoutId(s, id))[x] == if x.id == id then 0 else multiset(s)[x]
  {
    if s != [] {
      WithoutIdCounts(s[1..], id, x);
      assert s == [s[0]] + s[1..];
    }
  }

  /** With no record of identifier `id`, the delete handler leaves the list as it is. */
  lemma {:induction false} WithoutAbsentId<V>(s: seq<Record<V>>, id: int)
    requires forall k :: 0 <= k < |s| ==> s[k].id != id
    ensures WithoutId(s, id) == s
  {
    if s != [] {
      WithoutAbsentId(s[1..], id);
      assert s == [s[0]] + s[1..];
    }
  }

  /** Deleting twice is deleting once. */
  lemma WithoutIdIdempotent<V>(s: seq<Record<V>>, id: int)
    ensures WithoutId(WithoutId(s, id), id) == WithoutId(s, id)
  {
    WithoutAbsentId(WithoutId(s, id), id);
  }

  /** Deleting a record just created under identifier `id` gives the list the
      delete would have given before the create. */
  lemma CreateThenDelete<V>(s: seq<Record<V>>, x: Record<V>)
    ensures WithoutId(s + [x], x.id) == WithoutId(s, x.id)
  {
    WithoutIdAppend(s, [x], x.id);
    assert [x][1..] == [];
  }

  /** The update handler's `map(c => c.id === id ? { ...c, ...returned } : c)`:
      the same number of records, each record of identifier `id` merged with
      the returned one, every other record as it was. */
  function MergeById<V>(s: seq<Record<V>>, id: int, returned: Record<V>): (r: seq<Record<V>>)
    ensures |r| == |s|
    ensures forall k :: 0 <= k < |s| && s[k].id == id ==> r[k] == Merge(s[k], returned)
    ensures forall k :: 0 <= k < |s| && s[k].id != id ==> r[k] == s[k]
  {
    if s == [] then []
    else [if s[0].id == id then Merge(s[0], returned) else s[0]] + MergeById(s[1..], id, returned)
  }

  /** Applying the same update reply twice is applying it once. */
  lemma MergeByIdIdempotent<V>(s: seq<Record<V>>, id: int, returned: Record<V>)
    ensures MergeById(MergeById(s, id, returned), id, returned) == MergeById(s, id, returned)
  {
    var once := MergeById(s, id, returned);
    var twice := MergeById(once, id, returned);
    forall k | 0 <= k < |s| ensures twice[k] == once[k] {
      if s[k].id == id {
        MergeIdempotent(s[k], returned);
      }
    }
  }

  /** An update of an identifier nothing in the cache has changes nothing. */
  lemma MergeAbsentId<V>(s: seq<Record<V>>, id: int, returned: Record<V>)
    requires forall k :: 0 <= k < |s| ==> s[k].id != id
    ensures MergeById(s, id, returned) == s
  {
    var r := MergeById(s, id, returned);
    assert forall k :: 0 <= k < |s| ==> r[k] == s[k];
  }

  /** Every reply of the batch succeeded. */
  predicate AllOk<V>(replies: seq<Reply<Record<V>>>) {
    forall k :: 0 <= k < |replies| ==> replies[k].Ok?
  }

  /** The records a fully successful batch sent back, in request order. */
  function Values<V>(replies: seq<Reply<Record<V>>>): (r: seq<Record<V>>)
    requires AllOk(replies)
    ensures |r| == |replies|
    ensures forall k :: 0 <= k < |r| ==> replies[k] == Ok(r[k])
  {
    seq(|replies|, k requires 0 <= k < |replies| => replies[k].value)
  }

  /** The cache after the replies of a batch update are handled in request
      order by the single-update handler, stopping at the first failure. */
  function AfterBatch<V>(cache: seq<Record<V>>, ids: seq<int>, replies: seq<Reply<Record<V>>>): seq<Record<V>>
    requires |ids| == |replies|
    decreases |replies|
  {
    if replies == [] || replies[0].Failed? then cache
    else AfterBatch(MergeById(cache, ids[0], replies[0].value), ids[1..], replies[1..])
  }

  /** Handling the batch's replies keeps the length of the cache and every
      record whose identifier the batch does not name. */
  lemma {:induction false} AfterBatchKeepsOthers<V>(cache: seq<Record<V>>, ids: seq<int>, replies: seq<Reply<Record<V>>>)
    requires |ids| == |replies|
    ensures |AfterBatch(cache, ids, replies)| == |cache|
    ensures forall k :: 0 <= k < |cache| && cache[k].id !in ids ==> AfterBatch(cache, ids, replies)[k] == cache[k]
    decreases |replies|
  {
    if replies != [] && replies[0].Ok? {
      var next := MergeById(cache, ids[0], replies[0].value);
      AfterBatchKeepsOthers(next, ids[1..], replies[1..]);
      forall k | 0 <= k < |cache| && cache[k].id !in ids
        ensures AfterBatch(cache, ids, replies)[k] == cache[k]
      {
        assert ids == [ids[0]] + ids[1..];
        assert next[k] == cache[k];
      }
    }
  }

  /** One entity service's cache, the value held by its `BehaviorSubject`. */
  class CachedService<V> {
    var cache: seq<Record<V>>

    /** The subject starts out holding the empty list. */
    constructor ()
      ensures cache == []
    {
      cache := [];
    }

    /** The list call: on success the cache becomes the fetched list. */
    method GetAll(reply: Reply<seq<Record<V>>>) returns (emitted: Reply<seq<Record<V>>>)
      modifies this
      ensures emitted == reply
      ensures reply.Ok? ==> cache == reply.value
      ensures reply.Failed? ==> cache == old(cache)
    {
      if reply.Ok? {
        cache := reply.value;
      }
      emitted := reply;
    }

    /** The single fetch: its pipeline has no success handler, so the cache
        is outside its frame. */
    method GetOne(id: int, reply: Reply<Record<V>>) returns (emitted: Reply<Record<V>>)
      ensures emitted == reply
    {
      emitted := reply;
    }

    /** The delete call: on success the records with identifier `id` leave
        the cache. */
    method Delete(id: int, reply: Reply<()>) returns (emitted: Reply<()>)
      modifies this
      ensures emitted == reply
      ensures reply.Ok? ==> cache == WithoutId(old(cache), id)
      ensures reply.Failed? ==> cache == old(cache)
    {
      if reply.Ok? {
        cache := WithoutId(cache, id);
      }
      emitted := reply;
    }

    /** The single update of record `id`: on success the returned record is
        merged into every cached record with that identifier. */
    method UpdateOne(id: int, reply: Reply<Record<V>>) returns (emitted: Reply<Record<V>>)
      modifies this
      ensures emitted == reply
      ensures reply.Ok? ==> cache == MergeById(old(cache), id, reply.value)
      ensures reply.Failed? ==> cache == old(cache)
    {
      if reply.Ok? {
        cache := MergeById(cache, id, reply.value);
      }
      emitted := reply;
    }

    /** The create call: on success the returned record is appended. */
    method Create(reply: Reply<Record<V>>) returns (emitted: Reply<Record<V>>)
      modifies this
      ensures emitted == reply
      ensures reply.Ok? ==> cache == old(cache) + [reply.value]
      ensures reply.Failed? ==> cache == old(cache)
    {
      if reply.Ok? {
        cache := cache + [reply.value];
      }
      emitted := reply;
    }

    /** The batch update: one single update per identifier, whose replies are
        handled in request order. When every one succeeds the batch emits the
        returned records and the cache becomes exactly that list; a failure
        makes the batch fail and keeps what the replies before it merged in;
        an empty batch emits nothing and changes nothing. */
    method UpdateMany(ids: seq<int>, replies: seq<Reply<Record<V>>>) returns (outcome: BatchOutcome<V>)
      requires |ids| == |replies|
      modifies this
      ensures replies == [] ==> outcome == NothingEmitted && cache == old(cache)
      ensures replies != [] && AllOk(replies) ==> outcome == AllUpdated(Values(replies)) && cache == Values(replies)
      ensures !AllOk(replies) ==> outcome == BatchFailed && cache == AfterBatch(old(cache), ids, replies)
    {
      var i := 0;
      while i < |replies| && replies[i].Ok?
        invariant 0 <= i <= |replies|
        invariant forall k :: 0 <= k < i ==> replies[k].Ok?
        invariant AfterBatch(old(cache), ids, replies) == AfterBatch(cache, ids[i..], replies[i..])
      {
        assert ids[i..][1..] == ids[i + 1..] && replies[i..][1..] == replies[i + 1..];
        var _ := UpdateOne(ids[i], replies[i]);
        i := i + 1;
      }
      if i < |replies| {
        return BatchFailed;
      }
      if replies == [] {
        return NothingEmitted;
      }
      cache := Values(replies);
      return AllUpdated(Values(replies));
    }
  }
}
