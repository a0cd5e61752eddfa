/**
 * The search glue of convex/search.ts: the clamp on the requested number of hits,
 * `fetchByEmbeddingIds`, which resolves embedding ids to the documents that point
 * at them, and `vecSearch`, which embeds the query, asks the vector index for hits
 * and resolves them. The embedding provider and the vector index are parameters.
 */
module Search {
  import opened Wrappers
  import opened DocumentTables

  const DefaultLimit: int := 10
  const MaxLimit: int := 256

  /** `Math.min(Math.max(limit ?? 10, 1), 256)`. */
  function EffectiveLimit(limit: Option<int>): (n: int)
    ensures 1 <= n <= MaxLimit
    ensures limit.None? ==> n == DefaultLimit
    ensures limit.Some? && 1 <= limit.value <= MaxLimit ==> n == limit.value
    ensures limit.Some? && limit.value < 1 ==> n == 1
    ensures limit.Some? && limit.value > MaxLimit ==> n == MaxLimit
  {
    var requested := limit.GetOr(DefaultLimit);
    var atLeastOne := if requested > 1 then requested else 1;
    if atLeastOne < MaxLimit then atLeastOne else MaxLimit
  }

  /** Clamping twice is clamping once. */
  lemma EffectiveLimitStable(limit: Option<int>)
    ensures EffectiveLimit(Some(EffectiveLimit(limit))) == EffectiveLimit(limit)
  {
  }

  /**
   * The document `.withIndex("by_embeddingId", ...).unique()` finds for embedding
   * id `e`: in consistent tables at most one document points at an embedding row,
   * since that row's key is the document's key.
   */
  function OwnerOf(t: Tables, e: Id): (o: Option<Id>)
    requires Consistent(t)
    ensures o.Some? ==> o.value in t.documents && t.documents[o.value].embeddingId == Some(e)
    ensures o.None? ==> forall i :: i in t.documents ==> t.documents[i].embeddingId != Some(e)
  {
    if exists i :: i in t.documents && t.documents[i].embeddingId == Some(e) then
      OwnerUnique(t, e);
      var i :| i in t.documents && t.documents[i].embeddingId == Some(e); Some(i)
    else None
  }

  /** Two documents that point at the same embedding row are the same document. */
  lemma OwnerUnique(t: Tables, e: Id)
    requires Consistent(t)
    ensures forall i, j ::
              (i in t.documents && j in t.documents
               && t.documents[i].embeddingId == Some(e) && t.documents[j].embeddingId == Some(e)) ==> i == j
  {
    forall i, j | i in t.documents && j in t.documents
        && t.documents[i].embeddingId == Some(e) && t.documents[j].embeddingId == Some(e)
      ensures i == j
    {
      assert t.documents[i].externalId == t.embeddings[e].externalId == t.documents[j].externalId;
    }
  }

  /** A `Doc<"documents">` as a query returns it: the row's `_id` with its fields. */
  datatype DocRow = DocRow(id: Id, doc: Document)

  /** The stored row `i`. */
  function RowAt(t: Tables, i: Id): (r: DocRow)
    requires i in t.documents
    ensures r.id == i && r.doc == t.documents[i]
  {
    DocRow(i, t.documents[i])
  }

  /** What `fetchByEmbeddingIds(ids)` returns: the owner of each id, in input order, misses skipped. */
  function Fetch(t: Tables, ids: seq<Id>): (r: seq<DocRow>)
    requires Consistent(t)
    ensures |r| <= |ids|
  {
    if ids == [] then []
    else
      var o := OwnerOf(t, ids[|ids| - 1]);
      Fetch(t, ids[..|ids| - 1]) + (if o.Some? then [RowAt(t, o.value)] else [])
  }

  /** Resolving two lists of ids one after the other is resolving their concatenation. */
  lemma {:induction false} FetchAppend(t: Tables, a: seq<Id>, b: seq<Id>)
    requires Consistent(t)
    ensures Fetch(t, a + b) == Fetch(t, a) + Fetch(t, b)
    decreases |b|
  {
    if b == [] {
      assert a + b == a;
    } else {
      var init := b[..|b| - 1];
      assert (a + b)[..|a + b| - 1] == a + init;
      FetchAppend(t, a, init);
    }
  }

  /** A single id resolves to its owner, or to nothing when no document points at it. */
  lemma FetchOne(t: Tables, e: Id)
    requires Consistent(t)
    ensures OwnerOf(t, e).Some? ==> Fetch(t, [e]) == [RowAt(t, OwnerOf(t, e).value)]
    ensures OwnerOf(t, e).None? ==> Fetch(t, [e]) == []
  {
    assert [e][..0] == [];
  }

  /** A repeated id yields its document repeated. */
  lemma FetchRepeated(t: Tables, ids: seq<Id>, e: Id)
    requires Consistent(t) && OwnerOf(t, e).Some?
    ensures Fetch(t, ids + [e] + [e]) == Fetch(t, ids) + [RowAt(t, OwnerOf(t, e).value), RowAt(t, OwnerOf(t, e).value)]
  {
    FetchAppend(t, ids + [e], [e]);
    FetchAppend(t, ids, [e]);
    FetchOne(t, e);
  }

  /** When every id has an owner, the result lines up with the ids: the k-th document owns the k-th id. */
  lemma {:induction false} FetchAllOwned(t: Tables, ids: seq<Id>)
    requires Consistent(t)
    requires forall k :: 0 <= k < |ids| ==> OwnerOf(t, ids[k]).Some?
    ensures |Fetch(t, ids)| == |ids|
    ensures forall k :: 0 <= k < |ids| ==> Fetch(t, ids)[k] == RowAt(t, OwnerOf(t, ids[k]).value)
    decreases |ids|
  {
    if ids != [] {
      var init := ids[..|ids| - 1];
      assert forall k :: 0 <= k < |init| ==> init[k] == ids[k];
      FetchAllOwned(t, init);
    }
  }

  /** Ids that no document points at contribute nothing. */
  lemma {:induction false} FetchMisses(t: Tables, ids: seq<Id>)
    requires Consistent(t)
    requires forall k :: 0 <= k < |ids| ==> OwnerOf(t, ids[k]).None?
    ensures Fetch(t, ids) == []
    decreases |ids|
  {
    if ids != [] {
      FetchMisses(t, ids[..|ids| - 1]);
    }
  }

  /**
   * `vecSearch(query, limit)`: fails with "GOOGLE_API_KEY missing" before any
   * search when the key is absent or empty; otherwise embeds the query, takes the
   * ids of the hits the vector index returns for the clamped limit, and resolves
   * them. `embed` stands for the embedding provider and `vectorSearch` for the
   * vector index (its ranking is not modelled).
   */
  function VecSearch(t: Tables, query: string, limit: Option<int>, apiKey: Option<string>,
                     embed: string -> seq<real>, vectorSearch: (seq<real>, int) -> seq<Id>): (r: Result<seq<DocRow>>)
    requires Consistent(t)
    ensures r.Failure? <==> apiKey.None? || apiKey.value == ""
    ensures r.Failure? ==> r.error == "GOOGLE_API_KEY missing"
    ensures r.Success? ==> r.value == Fetch(t, vectorSearch(embed(query), EffectiveLimit(limit)))
  {
    if apiKey.None? || apiKey.value == "" then Failure("GOOGLE_API_KEY missing")
    else
      var vector := embed(query);
      var hits := vectorSearch(vector, EffectiveLimit(limit));
      Success(Fetch(t, hits))
  }

  /** With a key, the result is the hits' documents in hit order: never more than the hits, and exactly one per hit when each has an owner. */
  lemma VecSearchHits(t: Tables, query: string, limit: Option<int>, apiKey: string,
                      embed: string -> seq<real>, vectorSearch: (seq<real>, int) -> seq<Id>)
    requires Consistent(t) && apiKey != ""
    ensures var hits := vectorSearch(embed(query), EffectiveLimit(limit));
      var r := VecSearch(t, query, limit, Some(apiKey), embed, vectorSearch);
      && r.Success? && |r.value| <= |hits|
      && ((forall k :: 0 <= k < |hits| ==> OwnerOf(t, hits[k]).Some?) ==>
            && |r.value| == |hits|
            && forall k :: 0 <= k < |hits| ==> r.value[k] == RowAt(t, OwnerOf(t, hits[k]).value))
  {
    var hits := vectorSearch(embed(query), EffectiveLimit(limit));
    if forall k :: 0 <= k < |hits| ==> OwnerOf(t, hits[k]).Some? {
      FetchAllOwned(t, hits);
    }
  }
}
