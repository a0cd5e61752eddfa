/**
 * The pure parts of the ingestion script scripts/embed.ts: the list batcher `chunk`,
 * the metadata record derived from a summary row, the default for a file without
 * metadata, the upload payload, and `embedBatch` with the embedding provider passed
 * in as a function.
 */
module Ingest {
  import opened Wrappers
  import opened Sequences
  import opened Utf8
  import opened Chunker
  import opened Vectors
  import opened Metadata
  import DocumentTables

  /** The number of files processed per upload round. */
  const FilesPerBatch: nat := 32

  /** `chunk(arr, size)`: consecutive groups of `size`; a size of zero would never advance. */
  method ChunkList<T>(arr: seq<T>, size: nat) returns (groups: seq<seq<T>>)
    requires size > 0
    ensures groups == Batches(arr, size)
  {
    groups := [];
    var i := 0;
    while i < |arr|
      invariant i <= |arr|
      invariant groups + Batches(arr[i..], size) == Batches(arr, size)
      decreases |arr| - i
    {
      // `arr.slice(i, i + size)`, whose end is clamped to the length
      var end := if i + size < |arr| then i + size else |arr|;
      BatchesFrom(arr, i, end, size);
      assert groups + ([arr[i..end]] + Batches(arr[end..], size))
          == (groups + [arr[i..end]]) + Batches(arr[end..], size);
      groups := groups + [arr[i..end]];
      i := end;
    }
    assert arr[i..] == [];
  }

  /** The upload loop visits `ceil(files / 32)` batches, and together they hold every file once, in order. */
  lemma UploadBatchesCover<T>(files: seq<T>)
    ensures |Batches(files, FilesPerBatch)| == CeilDiv(|files|, FilesPerBatch)
    ensures Flatten(Batches(files, FilesPerBatch)) == files
    ensures forall b :: 0 <= b < |Batches(files, FilesPerBatch)| ==>
              Batches(files, FilesPerBatch)[b] == JsSlice(files, b * FilesPerBatch, b * FilesPerBatch + FilesPerBatch)
  {
    BatchesShape(files, FilesPerBatch);
    forall b | 0 <= b < |Batches(files, FilesPerBatch)|
      ensures Batches(files, FilesPerBatch)[b] == JsSlice(files, b * FilesPerBatch, b * FilesPerBatch + FilesPerBatch)
    {
      BatchAt(files, FilesPerBatch, b);
    }
  }

  /** The metadata a document is uploaded with. */
  datatype DocMeta = DocMeta(
    externalId: string,
    title: string,
    authors: seq<string>,
    publicationDate: Option<string>,
    year: Option<int>,
    summary: Option<string>)

  /** The `DocMeta` that `toMap` stores for a summary row. */
  function MetaOf(it: SummaryItem): (m: DocMeta)
    ensures m.externalId == KeyOf(it)
    ensures it.title.Some? ==> m.title == it.title.value
    ensures it.title.None? ==> m.title == ""
    ensures it.authors.Some? ==> m.authors == it.authors.value
    ensures it.authors.None? ==> m.authors == []
    ensures it.publication_date.Some? ==> m.publicationDate == it.publication_date
    ensures it.publication_date.None? ==> m.publicationDate == it.publicationDate
    ensures m.year == it.year && m.summary == it.summary
  {
    DocMeta(
      KeyOf(it),
      it.title.GetOr(""),
      it.authors.GetOr([]),
      if it.publication_date.Some? then it.publication_date else it.publicationDate,
      it.year,
      it.summary)
  }

  /** `meta.get(name) || { externalId: name, title: name, ... }`: the metadata used for the file with stem `name`. */
  function MetaFor(meta: map<string, DocMeta>, name: string): (m: DocMeta)
    ensures name !in meta ==> m == DocMeta(name, name, [], None, None, None)
    ensures name in meta ==> m == meta[name]
  {
    if name in meta then meta[name] else DocMeta(name, name, [], None, None, None)
  }

  /** What the script uploads for one file: `number` is never sent. */
  datatype DocPayload = DocPayload(
    externalId: string,
    title: string,
    authors: seq<string>,
    publicationDate: Option<string>,
    year: Option<int>,
    path: string,
    summary: Option<string>,
    embedding: seq<real>)

  /** JavaScript truthiness of an optional string and of an optional number. */
  predicate TruthyText(s: Option<string>) { s.Some? && s.value != "" }
  predicate TruthyNumber(n: Option<int>) { n.Some? && n.value != 0 }

  /**
   * The payload for one file: an empty title falls back to the id, a missing vector
   * becomes `[]`, and an optional field is sent only when it is truthy.
   */
  function Payload(m: DocMeta, path: string, vector: Option<seq<real>>): (p: DocPayload)
    ensures p.externalId == m.externalId && p.path == path && p.authors == m.authors
    ensures p.title == (if m.title != "" then m.title else m.externalId)
    ensures m.externalId != "" ==> p.title != ""
    ensures vector.Some? ==> p.embedding == vector.value
    ensures vector.None? ==> p.embedding == []
    ensures p.publicationDate.Some? <==> TruthyText(m.publicationDate)
    ensures p.year.Some? <==> TruthyNumber(m.year)
    ensures p.summary.Some? <==> TruthyText(m.summary)
    ensures p.publicationDate.Some? ==> p.publicationDate == m.publicationDate
    ensures p.year.Some? ==> p.year == m.year
    ensures p.summary.Some? ==> p.summary == m.summary
  {
    DocPayload(
      m.externalId,
      if m.title != "" then m.title else m.externalId,
      m.authors,
      if TruthyText(m.publicationDate) then m.publicationDate else None,
      if TruthyNumber(m.year) then m.year else None,
      path,
      if TruthyText(m.summary) then m.summary else None,
      vector.GetOr([]))
  }

  /** `vectors[i] || []`: the i-th vector, if the embedding step produced one. */
  function VectorAt(vectors: seq<seq<real>>, i: nat): (v: Option<seq<real>>)
    ensures v.Some? <==> i < |vectors|
  {
    if i < |vectors| then Some(vectors[i]) else None
  }

  /**
   * `embedding: vectors[i] || []` with the vectors of `embedBatch`: each file of the
   * batch is uploaded with the mean embedding of its own text, in file order.
   */
  lemma PayloadCarriesDocVector(m: DocMeta, path: string, texts: seq<string>, vectors: seq<seq<real>>,
                                embed: Chunk -> seq<real>, i: nat)
    requires |vectors| == |texts| && forall k :: 0 <= k < |texts| ==> vectors[k] == DocVector(texts[k], embed)
    requires i < |texts|
    ensures Payload(m, path, VectorAt(vectors, i)).embedding == DocVector(texts[i], embed)
  {
  }

  /** A file that has no summary row is uploaded under its stem, as id and as title, with nothing optional. */
  lemma PayloadWithoutMeta(meta: map<string, DocMeta>, name: string, path: string, vector: Option<seq<real>>)
    requires name !in meta
    ensures var p := Payload(MetaFor(meta, name), path, vector);
      p.externalId == name && p.title == name && p.authors == []
      && p.publicationDate.None? && p.year.None? && p.summary.None?
  {
  }

  /**
   * A summary row reaches the upload with its key as id and its title (or the key
   * when the title is missing or empty); an empty `publication_date` hides a
   * `publicationDate`, because `??` keeps the empty string.
   */
  lemma PayloadFromRow(items: seq<SummaryItem>, name: string, path: string, vector: Option<seq<real>>)
    requires name != "" && LastWithKey(items, name).Some?
    ensures var it := items[LastWithKey(items, name).value];
      var p := Payload(MetaFor(MapOf(items, MetaOf), name), path, vector);
      && p.externalId == name
      && p.title == (if it.title.Some? && it.title.value != "" then it.title.value else name)
      && (it.publication_date == Some("") ==> p.publicationDate.None?)
  {
    MapOfLastWins(items, MetaOf, name);
  }

  /** The embeddings of a document's chunks, one per chunk, in order. */
  function ChunkVectors(chunks: seq<Chunk>, embed: Chunk -> seq<real>): (vs: seq<seq<real>>)
    ensures |vs| == |chunks| && forall j :: 0 <= j < |chunks| ==> vs[j] == embed(chunks[j])
  {
    seq(|chunks|, j requires 0 <= j < |chunks| => embed(chunks[j]))
  }

  /** The vector of one document: the mean of the embeddings of its chunks. */
  function DocVector(t: string, embed: Chunk -> seq<real>): seq<real>
  {
    Mean(ChunkVectors(Split(t, MaxEmbedBytes), embed))
  }

  /** A document within the byte budget is embedded in one call, and its vector is that call's result. */
  lemma ShortDocVector(t: string, embed: Chunk -> seq<real>)
    requires TextBytes(t) <= MaxEmbedBytes
    ensures DocVector(t, embed) == embed(Text(t))
  {
    assert ChunkVectors(Split(t, MaxEmbedBytes), embed) == [embed(Text(t))];
    MeanOfOne(embed(Text(t)));
  }

  /** The inner `for (let j = 0; j < chunks.length; j++)` loop: one embedding call per chunk. */
  method EmbedChunks(chunks: seq<Chunk>, embed: Chunk -> seq<real>) returns (vecs: seq<seq<real>>)
    ensures vecs == ChunkVectors(chunks, embed)
  {
    vecs := [];
    for j := 0 to |chunks|
      invariant |vecs| == j && forall k :: 0 <= k < j ==> vecs[k] == embed(chunks[k])
    {
      vecs := vecs + [embed(chunks[j])];
    }
  }

  /**
   * `embedBatch`: one vector per text, in order. The embedding provider is the
   * function `embed`; its network call and logging are not part of this model.
   */
  method EmbedBatch(texts: seq<string>, embed: Chunk -> seq<real>) returns (out: seq<seq<real>>)
    ensures |out| == |texts|
    ensures forall i :: 0 <= i < |texts| ==> out[i] == DocVector(texts[i], embed)
  {
    out := [];
    for i := 0 to |texts|
      invariant |out| == i
      invariant forall k :: 0 <= k < i ==> out[k] == DocVector(texts[k], embed)
    {
      var chunks := SplitByBytes(texts[i], MaxEmbedBytes);
      var vecs := EmbedChunks(chunks, embed);
      var v := Avg(vecs);
      out := out + [v[..]];
    }
  }

  /** The arguments of `documents:upsertMany` for one payload: the path is always sent, `number` never. */
  function InputOf(p: DocPayload): (d: DocumentTables.DocInput)
    ensures d.externalId == p.externalId && d.title == p.title && d.authors == p.authors
    ensures d.path == Some(p.path) && d.number.None? && d.embedding == p.embedding
  {
    DocumentTables.DocInput(p.externalId, p.title, p.authors, p.publicationDate, p.year,
                            Some(p.path), p.summary, None, p.embedding)
  }

  /** The `docs` argument of one upload call. */
  function Inputs(ps: seq<DocPayload>): (ds: seq<DocumentTables.DocInput>)
    ensures |ds| == |ps| && forall i :: 0 <= i < |ps| ==> ds[i] == InputOf(ps[i])
  {
    seq(|ps|, i requires 0 <= i < |ps| => InputOf(ps[i]))
  }

  /**
   * Ingesting a document again keeps its row and the `number` that the backfill
   * stored on it, because no payload carries a number.
   */
  lemma ReingestKeepsNumber(t: DocumentTables.Tables, ps: seq<DocPayload>, x: string)
    requires DocumentTables.Consistent(t) && DocumentTables.Mentions(Inputs(ps), x)
    requires DocumentTables.DocWith(t.documents, x).Some?
    ensures var r := DocumentTables.UpsertAll(t, Inputs(ps));
      var i := DocumentTables.DocWith(t.documents, x).value;
      && DocumentTables.DocWith(r.documents, x) == Some(i)
      && r.documents[i].number == t.documents[i].number
  {
    var ds := Inputs(ps);
    assert DocumentTables.NeverSet(ds, x, DocumentTables.InputNumber) by {
      forall k | 0 <= k < |ds| && ds[k].externalId == x
        ensures DocumentTables.InputNumber(ds[k]).None?
      {
        assert ds[k] == InputOf(ps[k]);
      }
    }
    var r := DocumentTables.UpsertAll(t, ds);
    var i := DocumentTables.DocWith(t.documents, x).value;
    assert DocumentTables.DocWith(r.documents, x) == Some(i) by {
      DocumentTables.UpsertManyOutcome(t, ds, x);
    }
    assert r.documents[i].number == t.documents[i].number by {
      DocumentTables.UpsertManyOptionalFields(t, ds, x);
    }
  }
}
