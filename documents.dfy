/**
 * The Convex deployment as an object: the `documents` and `docEmbeddings` tables
 * and the id allocator, with the mutations `upsertMany` and `backfillMeta` of
 * convex/documents.ts and the query `fetchByEmbeddingIds` of convex/search.ts as
 * methods. Each method is proved against the function of DocumentTables or Search
 * that describes it, and the properties of those functions are proved there.
 */
module Documents {
  import opened Wrappers
  import opened DocumentTables
  import opened Search

  class DocumentStore {
    var documents: map<Id, Document>
    var embeddings: map<Id, Embedding>
    var nextId: Id

    /** The tables as a value. */
    function State(): Tables
      reads this
    {
      Tables(documents, embeddings, nextId)
    }

    ghost predicate Valid()
      reads this
    {
      Consistent(State())
    }

    /** A new deployment has no rows. */
    constructor()
      ensures Valid() && State() == Empty
    {
      documents := map[];
      embeddings := map[];
      nextId := 0;
    }

    /** `upsertMany(docs)`. */
    method UpsertMany(docs: seq<DocInput>)
      requires Valid()
      modifies this
      ensures Valid() && State() == UpsertAll(old(State()), docs)
    {
      for k := 0 to |docs|
        invariant Valid() && State() == UpsertAll(old(State()), docs[..k])
      {
        assert docs[..k + 1][..k] == docs[..k];
        ghost var before := State();
        var d := docs[k];
        var embeddingId := PutEmbedding(d);
        UpsertEmbeddingEffect(before, d);
        PutDocument(d, embeddingId);
        UpsertOneConsistent(before, d);
      }
      assert docs[..|docs|] == docs;
    }

    /** The embedding half of one `upsertMany` iteration; returns the embedding id the document will carry. */
    method PutEmbedding(d: DocInput) returns (embeddingId: Id)
      requires Valid()
      modifies this
      ensures State() == UpsertEmbedding(old(State()), d)
      ensures embeddingId == UpsertEmbId(old(State()), d.externalId)
    {
      var existingEmb := EmbWith(embeddings, d.externalId);
      if existingEmb.None? {
        embeddingId := nextId;
        nextId := nextId + 1;
        embeddings := embeddings[embeddingId := Embedding(d.externalId, d.embedding)];
      } else {
        embeddingId := existingEmb.value;
        embeddings := embeddings[embeddingId := embeddings[embeddingId].(vector := d.embedding)];
      }
    }

    /** The document half of one `upsertMany` iteration. */
    method PutDocument(d: DocInput, embeddingId: Id)
      requires UniqueDocs(documents)
      modifies this
      ensures State() == UpsertDocument(old(State()), d, embeddingId)
    {
      var existingDoc := DocWith(documents, d.externalId);
      var base := InputFields(d, embeddingId);
      if existingDoc.None? {
        documents := documents[nextId := Patch(Blank(d.externalId), base)];
        nextId := nextId + 1;
      } else {
        documents := documents[existingDoc.value := Patch(documents[existingDoc.value], base)];
      }
    }

    /** `backfillMeta(updates)`. */
    method BackfillMeta(updates: seq<MetaUpdate>)
      requires Valid()
      modifies this
      ensures Valid() && State() == BackfillAll(old(State()), updates)
    {
      for k := 0 to |updates|
        invariant Valid() && State() == BackfillAll(old(State()), updates[..k])
      {
        assert updates[..k + 1][..k] == updates[..k];
        BackfillOneEffect(State(), updates[k]);
        PatchOne(updates[k]);
      }
      assert updates[..|updates|] == updates;
    }

    /** One iteration of the `backfillMeta` loop. */
    method PatchOne(u: MetaUpdate)
      requires UniqueDocs(documents)
      modifies this
      ensures State() == BackfillOne(old(State()), u)
    {
      var doc := DocWith(documents, u.externalId);
      if doc.None? {
        return;
      }
      var patch := UpdateFields(u);
      if patch != NoFields {
        documents := documents[doc.value := Patch(documents[doc.value], patch)];
      }
    }

    /** `fetchByEmbeddingIds(ids)`: reads the tables and changes nothing. */
    method FetchByEmbeddingIds(ids: seq<Id>) returns (results: seq<DocRow>)
      requires Valid()
      ensures results == Fetch(State(), ids)
    {
      results := [];
      for k := 0 to |ids|
        invariant results == Fetch(State(), ids[..k])
      {
        assert ids[..k + 1][..k] == ids[..k];
        var doc := OwnerOf(State(), ids[k]);
        if doc.Some? {
          results := results + [DocRow(doc.value, documents[doc.value])];
        }
      }
      assert ids[..|ids|] == ids;
    }
  }

  /** Two calls of `upsertMany` with the same documents leave the store as one call. */
  method UpsertTwice(store: DocumentStore, docs: seq<DocInput>)
    requires store.Valid()
    modifies store
    ensures store.Valid() && store.State() == UpsertAll(old(store.State()), docs)
  {
    store.UpsertMany(docs);
    store.UpsertMany(docs);
    UpsertIdempotent(old(store.State()), docs);
  }
}
