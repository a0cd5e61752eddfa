/**
 * The two tables of the Convex back end (convex/schema.ts): `documents` and
 * `docEmbeddings`, both looked up by `externalId` through a unique index, and the
 * mutations of convex/documents.ts as functions from one state of the tables to the
 * next. Record ids come from one allocator shared by both tables, handed out in
 * increasing order.
 */
module DocumentTables {
  import opened Wrappers

  type Id = nat

  /** A row of `documents`; `None` is an absent optional field. */
  datatype Document = Document(
    externalId: string,
    title: string,
    authors: seq<string>,
    publicationDate: Option<string>,
    year: Option<int>,
    path: Option<string>,
    summary: Option<string>,
    number: Option<string>,
    embeddingId: Option<Id>)

  /** A row of `docEmbeddings`. */
  datatype Embedding = Embedding(externalId: string, vector: seq<real>)

  datatype Tables = Tables(documents: map<Id, Document>, embeddings: map<Id, Embedding>, nextId: Id)

  /** An empty deployment. */
  const Empty := Tables(map[], map[], 0)

  // ---------------------------------------------------------------------------
  // Consistency of the tables

  /** The `by_externalId` index of `documents` finds at most one row per key (`.unique()` does not throw). */
  predicate UniqueDocs(docs: map<Id, Document>)
  {
    forall i, j :: i in docs && j in docs && docs[i].externalId == docs[j].externalId ==> i == j
  }

  predicate UniqueEmbs(embs: map<Id, Embedding>)
  {
    forall i, j :: i in embs && j in embs && embs[i].externalId == embs[j].externalId ==> i == j
  }

  /** A document's `embeddingId` names the embedding row with the same `externalId`. */
  predicate Linked(t: Tables)
  {
    forall i :: i in t.documents && t.documents[i].embeddingId.Some? ==>
      && t.documents[i].embeddingId.value in t.embeddings
      && t.embeddings[t.documents[i].embeddingId.value].externalId == t.documents[i].externalId
  }

  /** Every id in use was handed out before `nextId`. */
  predicate Allocated(t: Tables)
  {
    && (forall i :: i in t.documents ==> i < t.nextId)
    && (forall i :: i in t.embeddings ==> i < t.nextId)
  }

  predicate Consistent(t: Tables)
  {
    UniqueDocs(t.documents) && UniqueEmbs(t.embeddings) && Linked(t) && Allocated(t)
  }

  lemma EmptyConsistent()
    ensures Consistent(Empty)
  {
  }

  /** The row `.withIndex("by_externalId", ...).unique()` returns from `documents`. */
  function DocWith(docs: map<Id, Document>, x: string): (r: Option<Id>)
    requires UniqueDocs(docs)
    ensures r.Some? ==> r.value in docs && docs[r.value].externalId == x
    ensures r.None? ==> forall i :: i in docs ==> docs[i].externalId != x
  {
    if exists i :: i in docs && docs[i].externalId == x then
      var i :| i in docs && docs[i].externalId == x; Some(i)
    else None
  }

  /** The row `.withIndex("by_externalId", ...).unique()` returns from `docEmbeddings`. */
  function EmbWith(embs: map<Id, Embedding>, x: string): (r: Option<Id>)
    requires UniqueEmbs(embs)
    ensures r.Some? ==> r.value in embs && embs[r.value].externalId == x
    ensures r.None? ==> forall i :: i in embs ==> embs[i].externalId != x
  {
    if exists i :: i in embs && embs[i].externalId == x then
      var i :| i in embs && embs[i].externalId == x; Some(i)
    else None
  }

  // ---------------------------------------------------------------------------
  // Partial records: the object passed to `ctx.db.patch`

  /** The fields a patch sets; `None` leaves the stored value alone. */
  datatype Fields = Fields(
    title: Option<string>,
    authors: Option<seq<string>>,
    publicationDate: Option<string>,
    year: Option<int>,
    path: Option<string>,
    summary: Option<string>,
    number: Option<string>,
    embeddingId: Option<Id>)

  const NoFields := Fields(None, None, None, None, None, None, None, None)

  /** `a ?? b` for optional values: `a` when present. */
  function Or<T>(a: Option<T>, b: Option<T>): Option<T>
  {
    if a.Some? then a else b
  }

  /** `ctx.db.patch(id, f)`: the fields `f` sets replace the stored ones, the rest stay. */
  function Patch(d: Document, f: Fields): Document
  {
    Document(
      d.externalId,
      f.title.GetOr(d.title),
      f.authors.GetOr(d.authors),
      Or(f.publicationDate, d.publicationDate),
      Or(f.year, d.year),
      Or(f.path, d.path),
      Or(f.summary, d.summary),
      Or(f.number, d.number),
      Or(f.embeddingId, d.embeddingId))
  }

  /** The single patch that does what `f` then `g` do. */
  function Then(f: Fields, g: Fields): Fields
  {
    Fields(
      Or(g.title, f.title), Or(g.authors, f.authors), Or(g.publicationDate, f.publicationDate),
      Or(g.year, f.year), Or(g.path, f.path), Or(g.summary, f.summary), Or(g.number, f.number),
      Or(g.embeddingId, f.embeddingId))
  }

  /** Two patches in a row are one combined patch. */
  lemma PatchThen(d: Document, f: Fields, g: Fields)
    ensures Patch(Patch(d, f), g) == Patch(d, Then(f, g))
  {
  }

  /** Repeating a patch changes nothing more. */
  lemma PatchTwice(d: Document, f: Fields)
    ensures Patch(Patch(d, f), f) == Patch(d, f)
  {
    PatchThen(d, f, f);
    assert Then(f, f) == f;
  }

  // ---------------------------------------------------------------------------
  // upsertMany

  /** One element of the `docs` argument of `upsertMany`. */
  datatype DocInput = DocInput(
    externalId: string,
    title: string,
    authors: seq<string>,
    publicationDate: Option<string>,
    year: Option<int>,
    path: Option<string>,
    summary: Option<string>,
    number: Option<string>,
    embedding: seq<real>)

  /**
   * The `base` object: id, title, authors and embedding id always, the optional
   * fields only when they are not `null`.
   */
  function InputFields(d: DocInput, e: Id): Fields
  {
    Fields(Some(d.title), Some(d.authors), d.publicationDate, d.year, d.path, d.summary, d.number, Some(e))
  }

  /** The row an insert starts from: inserting `base` is patching this blank row. */
  function Blank(x: string): Document
  {
    Document(x, "", [], None, None, None, None, None, None)
  }

  /** The embedding id an upsert of key `x` uses: the existing row's, or a fresh one. */
  function UpsertEmbId(t: Tables, x: string): Id
    requires Consistent(t)
  {
    var e := EmbWith(t.embeddings, x);
    if e.Some? then e.value else t.nextId
  }

  /** The embedding half of an upsert: the key's row takes the new vector, or a row is inserted under a fresh id. */
  function UpsertEmbedding(t: Tables, d: DocInput): Tables
    requires Consistent(t)
  {
    var e := EmbWith(t.embeddings, d.externalId);
    if e.Some? then t.(embeddings := t.embeddings[e.value := t.embeddings[e.value].(vector := d.embedding)])
    else Tables(t.documents, t.embeddings[t.nextId := Embedding(d.externalId, d.embedding)], t.nextId + 1)
  }

  /** The document half: the key's row is patched with `base`, or a blank row is patched and inserted under a fresh id. */
  function UpsertDocument(s: Tables, d: DocInput, embId: Id): Tables
    requires UniqueDocs(s.documents)
  {
    var o := DocWith(s.documents, d.externalId);
    if o.Some? then s.(documents := s.documents[o.value := Patch(s.documents[o.value], InputFields(d, embId))])
    else Tables(s.documents[s.nextId := Patch(Blank(d.externalId), InputFields(d, embId))], s.embeddings, s.nextId + 1)
  }

  /** One iteration of the `upsertMany` loop: the embedding first, then the document. */
  function UpsertOne(t: Tables, d: DocInput): Tables
    requires Consistent(t)
  {
    UpsertDocument(UpsertEmbedding(t, d), d, UpsertEmbId(t, d.externalId))
  }

  /**
   * `r` is a later state than `t`: rows were only added, every row keeps its key,
   * and ids were allocated only for new rows.
   */
  predicate Grows(t: Tables, r: Tables)
  {
    && t.documents.Keys <= r.documents.Keys && t.embeddings.Keys <= r.embeddings.Keys
    && t.nextId <= r.nextId
    && (r.documents.Keys == t.documents.Keys && r.embeddings.Keys == t.embeddings.Keys ==> r.nextId == t.nextId)
    && (forall i :: i in t.documents ==> r.documents[i].externalId == t.documents[i].externalId)
    && (forall i :: i in t.embeddings ==> r.embeddings[i].externalId == t.embeddings[i].externalId)
  }

  lemma GrowsTrans(a: Tables, b: Tables, c: Tables)
    requires Grows(a, b) && Grows(b, c)
    ensures Grows(a, c)
  {
  }

  /**
   * The embedding half keeps the tables consistent, leaves the documents alone and
   * every embedding row of another key, and leaves the key's row holding the new vector.
   */
  lemma UpsertEmbeddingEffect(t: Tables, d: DocInput)
    requires Consistent(t)
    ensures var s := UpsertEmbedding(t, d);
      var e := UpsertEmbId(t, d.externalId);
      && Consistent(s) && s.documents == t.documents && Grows(t, s)
      && EmbWith(s.embeddings, d.externalId) == Some(e)
      && s.embeddings[e].vector == d.embedding
      && (forall i :: i in s.embeddings && s.embeddings[i].externalId != d.externalId ==>
            i in t.embeddings && s.embeddings[i] == t.embeddings[i])
  {
    var s := UpsertEmbedding(t, d);
    var e := UpsertEmbId(t, d.externalId);
    if EmbWith(t.embeddings, d.externalId).None? {
      assert e !in t.embeddings;
    }
    assert e in s.embeddings && s.embeddings[e].externalId == d.externalId;
    assert UniqueEmbs(s.embeddings);
  }

  /**
   * The document half, given the key's embedding row: the tables stay consistent,
   * embeddings are untouched, rows of other keys stay as they were, and the key's
   * row is its old (or blank) row patched with the input.
   */
  lemma UpsertDocumentEffect(s: Tables, d: DocInput, e: Id)
    requires Consistent(s) && EmbWith(s.embeddings, d.externalId) == Some(e)
    ensures var r := UpsertDocument(s, d, e);
      && Consistent(r) && r.embeddings == s.embeddings && Grows(s, r)
      && DocWith(r.documents, d.externalId).Some?
      && (forall i :: i in r.documents && r.documents[i].externalId != d.externalId ==>
            i in s.documents && r.documents[i] == s.documents[i])
      && (forall i :: i in r.documents && r.documents[i].externalId == d.externalId ==>
            && (i !in s.documents ==> DocWith(s.documents, d.externalId).None?)
            && r.documents[i] == Patch(Before(s, i, d.externalId), InputFields(d, e)))
  {
    var r := UpsertDocument(s, d, e);
    var o := DocWith(s.documents, d.externalId);
    if o.Some? {
      assert r.documents[o.value].externalId == d.externalId;
    } else {
      assert s.nextId !in s.documents;
      assert r.documents[s.nextId].externalId == d.externalId;
    }
    assert UniqueDocs(r.documents);
  }

  /** An upsert keeps the tables consistent, and afterwards the key's embedding row is the one it used. */
  lemma UpsertOneConsistent(t: Tables, d: DocInput)
    requires Consistent(t)
    ensures Consistent(UpsertOne(t, d))
    ensures EmbWith(UpsertOne(t, d).embeddings, d.externalId) == Some(UpsertEmbId(t, d.externalId))
  {
    UpsertEmbeddingEffect(t, d);
    UpsertDocumentEffect(UpsertEmbedding(t, d), d, UpsertEmbId(t, d.externalId));
  }

  /** An upsert adds rows but never removes one, and touches no row of another key. */
  lemma UpsertOneFrame(t: Tables, d: DocInput)
    requires Consistent(t)
    ensures var r := UpsertOne(t, d);
      && Grows(t, r)
      && (forall i :: i in r.documents && r.documents[i].externalId != d.externalId ==>
            i in t.documents && r.documents[i] == t.documents[i])
      && (forall i :: i in r.embeddings && r.embeddings[i].externalId != d.externalId ==>
            i in t.embeddings && r.embeddings[i] == t.embeddings[i])
  {
    var s := UpsertEmbedding(t, d);
    UpsertEmbeddingEffect(t, d);
    UpsertDocumentEffect(s, d, UpsertEmbId(t, d.externalId));
    GrowsTrans(t, s, UpsertOne(t, d));
  }

  /** After an upsert the key has a document: the stored one or a blank one, patched with the input. */
  lemma UpsertOneKey(t: Tables, d: DocInput)
    requires Consistent(t)
    ensures Consistent(UpsertOne(t, d))
    ensures var r := UpsertOne(t, d);
      && DocWith(r.documents, d.externalId).Some?
      && r.embeddings[UpsertEmbId(t, d.externalId)].vector == d.embedding
      && (forall i :: i in r.documents && r.documents[i].externalId == d.externalId ==>
            && (i !in t.documents ==> DocWith(t.documents, d.externalId).None?)
            && r.documents[i] == Patch(Before(t, i, d.externalId), InputFields(d, UpsertEmbId(t, d.externalId))))
  {
    var s := UpsertEmbedding(t, d);
    UpsertEmbeddingEffect(t, d);
    UpsertDocumentEffect(s, d, UpsertEmbId(t, d.externalId));
    assert forall i :: Before(s, i, d.externalId) == Before(t, i, d.externalId);
  }

  /** `upsertMany(docs)`: the documents are processed in order. */
  function UpsertAll(t: Tables, ds: seq<DocInput>): (r: Tables)
    requires Consistent(t)
    ensures Consistent(r)
  {
    if ds == [] then t
    else
      var s := UpsertAll(t, ds[..|ds| - 1]);
      UpsertOneConsistent(s, ds[|ds| - 1]);
      UpsertOne(s, ds[|ds| - 1])
  }

  /** Some element of `ds` has key `x`. */
  predicate Mentions(ds: seq<DocInput>, x: string)
  {
    exists k :: 0 <= k < |ds| && ds[k].externalId == x
  }

  lemma MentionsSnoc(ds: seq<DocInput>, d: DocInput, x: string)
    ensures Mentions(ds + [d], x) <==> Mentions(ds, x) || d.externalId == x
  {
    if Mentions(ds, x) {
      var k :| 0 <= k < |ds| && ds[k].externalId == x;
      assert (ds + [d])[k] == ds[k];
    }
    if Mentions(ds + [d], x) && d.externalId != x {
      var k :| 0 <= k < |ds + [d]| && (ds + [d])[k].externalId == x;
      assert k < |ds| && ds[k] == (ds + [d])[k];
    }
    if d.externalId == x {
      assert (ds + [d])[|ds|] == d;
    }
  }

  /** The last element of `ds` with key `x`: the one whose values an upsert leaves in place. */
  function LastInput(ds: seq<DocInput>, x: string): (d: DocInput)
    requires Mentions(ds, x)
    ensures d.externalId == x
    decreases |ds|
  {
    var init := ds[..|ds| - 1];
    assert ds == init + [ds[|ds| - 1]];
    MentionsSnoc(init, ds[|ds| - 1], x);
    if ds[|ds| - 1].externalId == x then ds[|ds| - 1] else LastInput(init, x)
  }

  /** The combined patch that the elements of `ds` with key `x` apply, in order. */
  function Combined(ds: seq<DocInput>, x: string, e: Id): Fields
  {
    if ds == [] then NoFields
    else
      var c := Combined(ds[..|ds| - 1], x, e);
      if ds[|ds| - 1].externalId == x then Then(c, InputFields(ds[|ds| - 1], e)) else c
  }

  /** What a document id held before: the stored row, or the blank row an insert starts from. */
  function Before(t: Tables, i: Id, x: string): Document
  {
    if i in t.documents then t.documents[i] else Blank(x)
  }

  /** A row found by key stays the row found by key when rows are only added. */
  lemma DocWithStable(a: map<Id, Document>, b: map<Id, Document>, x: string)
    requires UniqueDocs(a) && UniqueDocs(b) && a.Keys <= b.Keys
    requires forall i :: i in a ==> b[i].externalId == a[i].externalId
    requires DocWith(a, x).Some?
    ensures DocWith(b, x) == DocWith(a, x)
  {
    var j := DocWith(a, x).value;
    assert j in b && b[j].externalId == x;
  }

  lemma EmbWithStable(a: map<Id, Embedding>, b: map<Id, Embedding>, x: string)
    requires UniqueEmbs(a) && UniqueEmbs(b) && a.Keys <= b.Keys
    requires forall i :: i in a ==> b[i].externalId == a[i].externalId
    requires EmbWith(a, x).Some?
    ensures EmbWith(b, x) == EmbWith(a, x)
  {
    var j := EmbWith(a, x).value;
    assert j in b && b[j].externalId == x;
  }

  /** `upsertMany` only adds rows, and every row keeps its key. */
  lemma {:induction false} UpsertAllGrows(t: Tables, ds: seq<DocInput>)
    requires Consistent(t)
    ensures Grows(t, UpsertAll(t, ds))
    decreases |ds|
  {
    if ds != [] {
      var init := ds[..|ds| - 1];
      UpsertAllGrows(t, init);
      UpsertOneFrame(UpsertAll(t, init), ds[|ds| - 1]);
      GrowsTrans(t, UpsertAll(t, init), UpsertAll(t, ds));
    }
  }

  /** `upsertMany` leaves the rows of keys it was not given as they were. */
  lemma UpsertAllUntouched(t: Tables, ds: seq<DocInput>)
    requires Consistent(t)
    ensures var r := UpsertAll(t, ds);
      && (forall i :: i in r.documents && !Mentions(ds, r.documents[i].externalId) ==>
            i in t.documents && r.documents[i] == t.documents[i])
      && (forall i :: i in r.embeddings && !Mentions(ds, r.embeddings[i].externalId) ==>
            i in t.embeddings && r.embeddings[i] == t.embeddings[i])
  {
    var r := UpsertAll(t, ds);
    forall i | i in r.documents && !Mentions(ds, r.documents[i].externalId)
      ensures i in t.documents && r.documents[i] == t.documents[i]
    {
      UntouchedDocument(t, ds, i);
    }
    forall i | i in r.embeddings && !Mentions(ds, r.embeddings[i].externalId)
      ensures i in t.embeddings && r.embeddings[i] == t.embeddings[i]
    {
      UntouchedEmbedding(t, ds, i);
    }
  }

  lemma {:induction false} UntouchedDocument(t: Tables, ds: seq<DocInput>, i: Id)
    requires Consistent(t)
    requires i in UpsertAll(t, ds).documents && !Mentions(ds, UpsertAll(t, ds).documents[i].externalId)
    ensures i in t.documents && UpsertAll(t, ds).documents[i] == t.documents[i]
    decreases |ds|
  {
    if ds != [] {
      var init, d := ds[..|ds| - 1], ds[|ds| - 1];
      assert ds == init + [d];
      var s := UpsertAll(t, init);
      var x := UpsertAll(t, ds).documents[i].externalId;
      MentionsSnoc(init, d, x);
      UpsertOneFrame(s, d);
      assert i in s.documents && s.documents[i] == UpsertAll(t, ds).documents[i];
      UntouchedDocument(t, init, i);
    }
  }

  lemma {:induction false} UntouchedEmbedding(t: Tables, ds: seq<DocInput>, i: Id)
    requires Consistent(t)
    requires i in UpsertAll(t, ds).embeddings && !Mentions(ds, UpsertAll(t, ds).embeddings[i].externalId)
    ensures i in t.embeddings && UpsertAll(t, ds).embeddings[i] == t.embeddings[i]
    decreases |ds|
  {
    if ds != [] {
      var init, d := ds[..|ds| - 1], ds[|ds| - 1];
      assert ds == init + [d];
      var s := UpsertAll(t, init);
      var x := UpsertAll(t, ds).embeddings[i].externalId;
      MentionsSnoc(init, d, x);
      UpsertOneFrame(s, d);
      assert i in s.embeddings && s.embeddings[i] == UpsertAll(t, ds).embeddings[i];
      UntouchedEmbedding(t, init, i);
    }
  }

  /** After `upsertMany`, every key it was given has a document and an embedding. */
  lemma {:induction false} UpsertAllCovers(t: Tables, ds: seq<DocInput>, x: string)
    requires Consistent(t) && Mentions(ds, x)
    ensures DocWith(UpsertAll(t, ds).documents, x).Some?
    ensures EmbWith(UpsertAll(t, ds).embeddings, x).Some?
    decreases |ds|
  {
    var init, d := ds[..|ds| - 1], ds[|ds| - 1];
    assert ds == init + [d];
    var s := UpsertAll(t, init);
    UpsertOneConsistent(s, d);
    UpsertOneFrame(s, d);
    UpsertOneKey(s, d);
    MentionsSnoc(init, d, x);
    if x != d.externalId {
      UpsertAllCovers(t, init, x);
      DocWithStable(s.documents, UpsertAll(t, ds).documents, x);
      EmbWithStable(s.embeddings, UpsertAll(t, ds).embeddings, x);
    }
  }

  lemma {:induction false} CombinedUnmentioned(ds: seq<DocInput>, x: string, e: Id)
    requires !Mentions(ds, x)
    ensures Combined(ds, x, e) == NoFields
    decreases |ds|
  {
    if ds != [] {
      var init, d := ds[..|ds| - 1], ds[|ds| - 1];
      assert ds == init + [d];
      MentionsSnoc(init, d, x);
      CombinedUnmentioned(init, x, e);
    }
  }

  /**
   * In `r`, the key `x` has an embedding row, and every document of `x` is what
   * `t` held at that id (or a blank row) patched with the inputs of `x` in `ds`.
   */
  predicate DocumentsAfter(t: Tables, r: Tables, ds: seq<DocInput>, x: string)
    requires Consistent(r)
  {
    && EmbWith(r.embeddings, x).Some?
    && forall i :: i in r.documents && r.documents[i].externalId == x ==>
         r.documents[i] == Patch(Before(t, i, x), Combined(ds, x, EmbWith(r.embeddings, x).value))
  }

  /** An upsert of another key leaves the documents of `x` as they were. */
  lemma DocumentsAfterOther(t: Tables, s: Tables, r: Tables, init: seq<DocInput>, d: DocInput, x: string)
    requires Consistent(s) && Consistent(r) && Grows(s, r) && x != d.externalId
    requires forall i :: i in r.documents && r.documents[i].externalId != d.externalId ==>
               i in s.documents && r.documents[i] == s.documents[i]
    requires DocumentsAfter(t, s, init, x)
    ensures DocumentsAfter(t, r, init + [d], x)
  {
    var ds := init + [d];
    assert ds[..|ds| - 1] == init;
    EmbWithStable(s.embeddings, r.embeddings, x);
    var e := EmbWith(r.embeddings, x).value;
    assert Combined(ds, x, e) == Combined(init, x, e);
  }

  /** A later input of a key patches the document that the earlier inputs left. */
  lemma DocumentsAfterAgain(t: Tables, s: Tables, r: Tables, init: seq<DocInput>, d: DocInput, e: Id)
    requires Consistent(s) && Consistent(r) && Grows(s, r)
    requires EmbWith(r.embeddings, d.externalId) == Some(e)
    requires DocWith(s.documents, d.externalId).Some?
    requires forall i :: i in r.documents && r.documents[i].externalId == d.externalId ==>
               && (i !in s.documents ==> DocWith(s.documents, d.externalId).None?)
               && r.documents[i] == Patch(Before(s, i, d.externalId), InputFields(d, e))
    requires DocumentsAfter(t, s, init, d.externalId)
    ensures DocumentsAfter(t, r, init + [d], d.externalId)
  {
    var x := d.externalId;
    var ds := init + [d];
    assert ds[..|ds| - 1] == init;
    EmbWithStable(s.embeddings, r.embeddings, x);
    assert Combined(ds, x, e) == Then(Combined(init, x, e), InputFields(d, e));
    forall i | i in r.documents && r.documents[i].externalId == x
      ensures r.documents[i] == Patch(Before(t, i, x), Combined(ds, x, e))
    {
      assert i in s.documents;
      PatchThen(Before(t, i, x), Combined(init, x, e), InputFields(d, e));
    }
  }

  /** The first input of a key patches the stored document, or a blank one that is inserted. */
  lemma DocumentsAfterFirst(t: Tables, s: Tables, r: Tables, init: seq<DocInput>, d: DocInput, e: Id)
    requires Consistent(s) && Consistent(r) && !Mentions(init, d.externalId)
    requires EmbWith(r.embeddings, d.externalId) == Some(e)
    requires forall i :: i in r.documents && r.documents[i].externalId == d.externalId ==>
               && Before(s, i, d.externalId) == Before(t, i, d.externalId)
               && r.documents[i] == Patch(Before(s, i, d.externalId), InputFields(d, e))
    ensures DocumentsAfter(t, r, init + [d], d.externalId)
  {
    var x := d.externalId;
    var ds := init + [d];
    assert ds[..|ds| - 1] == init;
    CombinedUnmentioned(init, x, e);
    assert Combined(ds, x, e) == InputFields(d, e);
  }

  /** Rows of a key that no earlier input mentions are, before the next upsert, what they were at the start. */
  lemma BeforeUnmentioned(t: Tables, init: seq<DocInput>, x: string, i: Id)
    requires Consistent(t) && !Mentions(init, x)
    requires i in UpsertAll(t, init).documents ==> UpsertAll(t, init).documents[i].externalId == x
    ensures Before(UpsertAll(t, init), i, x) == Before(t, i, x)
  {
    UpsertAllGrows(t, init);
    UpsertAllUntouched(t, init);
  }

  /**
   * After `upsertMany`, the document of a key it was given is what was stored
   * before (or a blank row) with the inputs of that key applied in order, each as
   * one patch, all pointing at the key's embedding row.
   */
  lemma {:induction false} UpsertAllDocument(t: Tables, ds: seq<DocInput>, x: string)
    requires Consistent(t) && Mentions(ds, x)
    ensures DocumentsAfter(t, UpsertAll(t, ds), ds, x)
    decreases |ds|
  {
    var init, d := ds[..|ds| - 1], ds[|ds| - 1];
    assert ds == init + [d];
    var s := UpsertAll(t, init);
    var r := UpsertAll(t, ds);
    assert r == UpsertOne(s, d);
    UpsertOneConsistent(s, d);
    UpsertOneFrame(s, d);
    UpsertOneKey(s, d);
    MentionsSnoc(init, d, x);
    var e := UpsertEmbId(s, d.externalId);
    if x != d.externalId {
      UpsertAllDocument(t, init, x);
      DocumentsAfterOther(t, s, r, init, d, x);
    } else if Mentions(init, x) {
      UpsertAllDocument(t, init, x);
      UpsertAllCovers(t, init, x);
      DocumentsAfterAgain(t, s, r, init, d, e);
    } else {
      forall i | i in r.documents && r.documents[i].externalId == x
        ensures Before(s, i, x) == Before(t, i, x)
      {
        BeforeUnmentioned(t, init, x, i);
      }
      DocumentsAfterFirst(t, s, r, init, d, e);
    }
  }

  /** After `upsertMany`, the embedding row of a key it was given holds the vector of the key's last input. */
  lemma {:induction false} UpsertAllEmbedding(t: Tables, ds: seq<DocInput>, x: string)
    requires Consistent(t) && Mentions(ds, x)
    ensures var r := UpsertAll(t, ds);
      && EmbWith(r.embeddings, x).Some?
      && r.embeddings[EmbWith(r.embeddings, x).value].vector == LastInput(ds, x).embedding
    decreases |ds|
  {
    var init, d := ds[..|ds| - 1], ds[|ds| - 1];
    assert ds == init + [d];
    var s := UpsertAll(t, init);
    var r := UpsertAll(t, ds);
    UpsertOneConsistent(s, d);
    UpsertOneFrame(s, d);
    UpsertOneKey(s, d);
    MentionsSnoc(init, d, x);
    if x != d.externalId {
      UpsertAllEmbedding(t, init, x);
      EmbWithStable(s.embeddings, r.embeddings, x);
    }
  }

  /** Field selectors, named so that statements about one field can refer to it. */
  function InputPublicationDate(d: DocInput): Option<string> { d.publicationDate }
  function InputYear(d: DocInput): Option<int> { d.year }
  function InputPath(d: DocInput): Option<string> { d.path }
  function InputSummary(d: DocInput): Option<string> { d.summary }
  function InputNumber(d: DocInput): Option<string> { d.number }
  function FieldPublicationDate(f: Fields): Option<string> { f.publicationDate }
  function FieldYear(f: Fields): Option<int> { f.year }
  function FieldPath(f: Fields): Option<string> { f.path }
  function FieldSummary(f: Fields): Option<string> { f.summary }
  function FieldNumber(f: Fields): Option<string> { f.number }

  /** No input of key `x` in `ds` sets the field `f`. */
  predicate NeverSet<T>(ds: seq<DocInput>, x: string, f: DocInput -> Option<T>)
  {
    forall k :: 0 <= k < |ds| && ds[k].externalId == x ==> f(ds[k]).None?
  }

  /** An optional field that no input of the key sets is absent from the combined patch. */
  lemma {:induction false} CombinedNeverSet<T>(ds: seq<DocInput>, x: string, e: Id,
                                               f: DocInput -> Option<T>, g: Fields -> Option<T>)
    requires forall d: DocInput, e: Id :: g(InputFields(d, e)) == f(d)
    requires forall a: Fields, b: Fields :: g(Then(a, b)) == Or(g(b), g(a))
    requires g(NoFields) == None
    requires NeverSet(ds, x, f)
    ensures g(Combined(ds, x, e)).None?
    decreases |ds|
  {
    if ds != [] {
      var init, d := ds[..|ds| - 1], ds[|ds| - 1];
      assert NeverSet(init, x, f) by {
        forall k | 0 <= k < |init| && init[k].externalId == x
          ensures f(init[k]).None?
        {
          assert init[k] == ds[k];
        }
      }
      CombinedNeverSet(init, x, e, f, g);
      if d.externalId == x {
        assert f(ds[|ds| - 1]).None?;
      }
    }
  }

  /** An optional field that the last input of the key sets has that input's value in the combined patch. */
  lemma {:induction false} CombinedLastSet<T>(ds: seq<DocInput>, x: string, e: Id,
                                              f: DocInput -> Option<T>, g: Fields -> Option<T>)
    requires forall d: DocInput, e: Id :: g(InputFields(d, e)) == f(d)
    requires forall a: Fields, b: Fields :: g(Then(a, b)) == Or(g(b), g(a))
    requires Mentions(ds, x) && f(LastInput(ds, x)).Some?
    ensures g(Combined(ds, x, e)) == f(LastInput(ds, x))
    decreases |ds|
  {
    var init, d := ds[..|ds| - 1], ds[|ds| - 1];
    assert ds == init + [d];
    MentionsSnoc(init, d, x);
    if d.externalId != x {
      CombinedLastSet(init, x, e, f, g);
    }
  }

  /** The title, authors and embedding id of the combined patch are those of the last input. */
  lemma {:induction false} CombinedRequired(ds: seq<DocInput>, x: string, e: Id)
    requires Mentions(ds, x)
    ensures Combined(ds, x, e).title == Some(LastInput(ds, x).title)
    ensures Combined(ds, x, e).authors == Some(LastInput(ds, x).authors)
    ensures Combined(ds, x, e).embeddingId == Some(e)
    decreases |ds|
  {
    var init, d := ds[..|ds| - 1], ds[|ds| - 1];
    assert ds == init + [d];
    MentionsSnoc(init, d, x);
    if d.externalId != x {
      CombinedRequired(init, x, e);
    }
  }

  /**
   * The outcome of `upsertMany` for one key it was given: one document and one
   * embedding row for the key (the stored ones when they existed), linked to each
   * other, with the last input's id, title, authors and vector.
   */
  lemma UpsertManyOutcome(t: Tables, ds: seq<DocInput>, x: string)
    requires Consistent(t) && Mentions(ds, x)
    ensures var r := UpsertAll(t, ds);
      && DocWith(r.documents, x).Some? && EmbWith(r.embeddings, x).Some?
      && (DocWith(t.documents, x).Some? ==> DocWith(r.documents, x) == DocWith(t.documents, x))
      && (EmbWith(t.embeddings, x).Some? ==> EmbWith(r.embeddings, x) == EmbWith(t.embeddings, x))
      && var doc := r.documents[DocWith(r.documents, x).value];
         && doc.externalId == x
         && doc.title == LastInput(ds, x).title
         && doc.authors == LastInput(ds, x).authors
         && doc.embeddingId == EmbWith(r.embeddings, x)
         && r.embeddings[EmbWith(r.embeddings, x).value].vector == LastInput(ds, x).embedding
  {
    var r := UpsertAll(t, ds);
    UpsertAllCovers(t, ds, x);
    UpsertAllGrows(t, ds);
    UpsertAllDocument(t, ds, x);
    UpsertAllEmbedding(t, ds, x);
    if DocWith(t.documents, x).Some? {
      DocWithStable(t.documents, r.documents, x);
    }
    if EmbWith(t.embeddings, x).Some? {
      EmbWithStable(t.embeddings, r.embeddings, x);
    }
    CombinedRequired(ds, x, EmbWith(r.embeddings, x).value);
  }

  /**
   * The optional fields after `upsertMany`, for one key it was given: the last
   * input's value when it sets the field; the stored value (absent for a new
   * document) when no input of the key sets it.
   */
  lemma UpsertManyOptionalFields(t: Tables, ds: seq<DocInput>, x: string)
    requires Consistent(t) && Mentions(ds, x)
    ensures var r := UpsertAll(t, ds);
      && DocWith(r.documents, x).Some?
      && var doc := r.documents[DocWith(r.documents, x).value];
         var prior := if DocWith(t.documents, x).Some? then t.documents[DocWith(t.documents, x).value] else Blank(x);
         var last := LastInput(ds, x);
         && (last.publicationDate.Some? ==> doc.publicationDate == last.publicationDate)
         && (NeverSet(ds, x, InputPublicationDate) ==> doc.publicationDate == prior.publicationDate)
         && (last.year.Some? ==> doc.year == last.year)
         && (NeverSet(ds, x, InputYear) ==> doc.year == prior.year)
         && (last.path.Some? ==> doc.path == last.path)
         && (NeverSet(ds, x, InputPath) ==> doc.path == prior.path)
         && (last.summary.Some? ==> doc.summary == last.summary)
         && (NeverSet(ds, x, InputSummary) ==> doc.summary == prior.summary)
         && (last.number.Some? ==> doc.number == last.number)
         && (NeverSet(ds, x, InputNumber) ==> doc.number == prior.number)
  {
    var r := UpsertAll(t, ds);
    UpsertManyPatched(t, ds, x);
    var e := EmbWith(r.embeddings, x).value;
    var doc := r.documents[DocWith(r.documents, x).value];
    var prior := if DocWith(t.documents, x).Some? then t.documents[DocWith(t.documents, x).value] else Blank(x);
    PatchedOptionalFields(ds, x, e, prior, doc);
  }

  /** The optional fields of a document patched with the combined inputs of its key. */
  lemma PatchedOptionalFields(ds: seq<DocInput>, x: string, e: Id, prior: Document, doc: Document)
    requires Mentions(ds, x) && doc == Patch(prior, Combined(ds, x, e))
    ensures var last := LastInput(ds, x);
      && (last.publicationDate.Some? ==> doc.publicationDate == last.publicationDate)
      && (NeverSet(ds, x, InputPublicationDate) ==> doc.publicationDate == prior.publicationDate)
      && (last.year.Some? ==> doc.year == last.year)
      && (NeverSet(ds, x, InputYear) ==> doc.year == prior.year)
      && (last.path.Some? ==> doc.path == last.path)
      && (NeverSet(ds, x, InputPath) ==> doc.path == prior.path)
      && (last.summary.Some? ==> doc.summary == last.summary)
      && (NeverSet(ds, x, InputSummary) ==> doc.summary == prior.summary)
      && (last.number.Some? ==> doc.number == last.number)
      && (NeverSet(ds, x, InputNumber) ==> doc.number == prior.number)
  {
    var last := LastInput(ds, x);
    assert (last.publicationDate.Some? ==> doc.publicationDate == last.publicationDate)
        && (NeverSet(ds, x, InputPublicationDate) ==> doc.publicationDate == prior.publicationDate) by {
      OptionalField(ds, x, e, InputPublicationDate, FieldPublicationDate);
    }
    assert (last.year.Some? ==> doc.year == last.year)
        && (NeverSet(ds, x, InputYear) ==> doc.year == prior.year) by {
      OptionalField(ds, x, e, InputYear, FieldYear);
    }
    assert (last.path.Some? ==> doc.path == last.path)
        && (NeverSet(ds, x, InputPath) ==> doc.path == prior.path) by {
      OptionalField(ds, x, e, InputPath, FieldPath);
    }
    assert (last.summary.Some? ==> doc.summary == last.summary)
        && (NeverSet(ds, x, InputSummary) ==> doc.summary == prior.summary) by {
      OptionalField(ds, x, e, InputSummary, FieldSummary);
    }
    assert (last.number.Some? ==> doc.number == last.number)
        && (NeverSet(ds, x, InputNumber) ==> doc.number == prior.number) by {
      OptionalField(ds, x, e, InputNumber, FieldNumber);
    }
  }

  /** The document of a key given to `upsertMany` is its prior document patched by all of the key's inputs. */
  lemma UpsertManyPatched(t: Tables, ds: seq<DocInput>, x: string)
    requires Consistent(t) && Mentions(ds, x)
    ensures var r := UpsertAll(t, ds);
      && DocWith(r.documents, x).Some? && EmbWith(r.embeddings, x).Some?
      && r.documents[DocWith(r.documents, x).value]
         == Patch(if DocWith(t.documents, x).Some? then t.documents[DocWith(t.documents, x).value] else Blank(x),
                  Combined(ds, x, EmbWith(r.embeddings, x).value))
  {
    var r := UpsertAll(t, ds);
    UpsertAllCovers(t, ds, x);
    UpsertAllGrows(t, ds);
    UpsertAllDocument(t, ds, x);
    var i := DocWith(r.documents, x).value;
    if DocWith(t.documents, x).Some? {
      DocWithStable(t.documents, r.documents, x);
    } else {
      assert i !in t.documents;
    }
  }

  lemma OptionalField<T>(ds: seq<DocInput>, x: string, e: Id, f: DocInput -> Option<T>, g: Fields -> Option<T>)
    requires Mentions(ds, x)
    requires forall d: DocInput, e: Id :: g(InputFields(d, e)) == f(d)
    requires forall a: Fields, b: Fields :: g(Then(a, b)) == Or(g(b), g(a))
    requires g(NoFields) == None
    ensures NeverSet(ds, x, f) ==> g(Combined(ds, x, e)).None?
    ensures f(LastInput(ds, x)).Some? ==> g(Combined(ds, x, e)) == f(LastInput(ds, x))
  {
    if NeverSet(ds, x, f) {
      CombinedNeverSet(ds, x, e, f, g);
    }
    if f(LastInput(ds, x)).Some? {
      CombinedLastSet(ds, x, e, f, g);
    }
  }

  /**
   * `upsertMany` creates a row only for a key it was given that had no row of that
   * kind: an existing document or embedding is reused, never duplicated.
   */
  lemma UpsertAllNewRows(t: Tables, ds: seq<DocInput>)
    requires Consistent(t)
    ensures var r := UpsertAll(t, ds);
      && (forall i :: i in r.documents && i !in t.documents ==>
            Mentions(ds, r.documents[i].externalId) && DocWith(t.documents, r.documents[i].externalId).None?)
      && (forall i :: i in r.embeddings && i !in t.embeddings ==>
            Mentions(ds, r.embeddings[i].externalId) && EmbWith(t.embeddings, r.embeddings[i].externalId).None?)
  {
    var r := UpsertAll(t, ds);
    UpsertAllGrows(t, ds);
    UpsertAllUntouched(t, ds);
    forall i | i in r.documents && i !in t.documents
      ensures DocWith(t.documents, r.documents[i].externalId).None?
    {
      var y := r.documents[i].externalId;
      if DocWith(t.documents, y).Some? {
        DocWithStable(t.documents, r.documents, y);
      }
    }
    forall i | i in r.embeddings && i !in t.embeddings
      ensures EmbWith(t.embeddings, r.embeddings[i].externalId).None?
    {
      var y := r.embeddings[i].externalId;
      if EmbWith(t.embeddings, y).Some? {
        EmbWithStable(t.embeddings, r.embeddings, y);
      }
    }
  }

  /** A second `upsertMany` with the same documents allocates nothing. */
  lemma UpsertAgainSameRows(t: Tables, ds: seq<DocInput>)
    requires Consistent(t)
    ensures var r1 := UpsertAll(t, ds);
      var r2 := UpsertAll(r1, ds);
      && r2.documents.Keys == r1.documents.Keys
      && r2.embeddings.Keys == r1.embeddings.Keys
      && r2.nextId == r1.nextId
  {
    var r1 := UpsertAll(t, ds);
    var r2 := UpsertAll(r1, ds);
    UpsertAllGrows(r1, ds);
    UpsertAllNewRows(r1, ds);
    forall i | i in r2.documents
      ensures i in r1.documents
    {
      var y := r2.documents[i].externalId;
      if i !in r1.documents {
        UpsertAllCovers(t, ds, y);
      }
    }
    forall i | i in r2.embeddings
      ensures i in r1.embeddings
    {
      var y := r2.embeddings[i].externalId;
      if i !in r1.embeddings {
        UpsertAllCovers(t, ds, y);
      }
    }
  }

  /** A document of a given key is unchanged by the second run: the same patch applied twice. */
  lemma UpsertAgainDocument(t: Tables, ds: seq<DocInput>, i: Id)
    requires Consistent(t)
    requires i in UpsertAll(t, ds).documents && Mentions(ds, UpsertAll(t, ds).documents[i].externalId)
    ensures i in UpsertAll(UpsertAll(t, ds), ds).documents
    ensures UpsertAll(UpsertAll(t, ds), ds).documents[i] == UpsertAll(t, ds).documents[i]
  {
    var r1 := UpsertAll(t, ds);
    var r2 := UpsertAll(r1, ds);
    var y := r1.documents[i].externalId;
    UpsertAllGrows(r1, ds);
    UpsertAllDocument(t, ds, y);
    UpsertAllDocument(r1, ds, y);
    EmbWithStable(r1.embeddings, r2.embeddings, y);
    var e := EmbWith(r1.embeddings, y).value;
    assert r1.documents[i] == Patch(Before(t, i, y), Combined(ds, y, e));
    assert r2.documents[i] == Patch(r1.documents[i], Combined(ds, y, e));
    PatchTwice(Before(t, i, y), Combined(ds, y, e));
  }

  /** An embedding of a given key is unchanged by the second run: it already holds the last vector. */
  lemma UpsertAgainEmbedding(t: Tables, ds: seq<DocInput>, i: Id)
    requires Consistent(t)
    requires i in UpsertAll(t, ds).embeddings && Mentions(ds, UpsertAll(t, ds).embeddings[i].externalId)
    ensures i in UpsertAll(UpsertAll(t, ds), ds).embeddings
    ensures UpsertAll(UpsertAll(t, ds), ds).embeddings[i] == UpsertAll(t, ds).embeddings[i]
  {
    var r1 := UpsertAll(t, ds);
    var r2 := UpsertAll(r1, ds);
    var y := r1.embeddings[i].externalId;
    UpsertAllGrows(r1, ds);
    UpsertAllEmbedding(t, ds, y);
    UpsertAllEmbedding(r1, ds, y);
    EmbWithStable(r1.embeddings, r2.embeddings, y);
    assert EmbWith(r1.embeddings, y) == Some(i);
  }

  lemma UpsertAgainDocuments(t: Tables, ds: seq<DocInput>)
    requires Consistent(t)
    ensures UpsertAll(UpsertAll(t, ds), ds).documents == UpsertAll(t, ds).documents
  {
    var r1 := UpsertAll(t, ds);
    var r2 := UpsertAll(r1, ds);
    UpsertAgainSameRows(t, ds);
    UpsertAllGrows(r1, ds);
    UpsertAllUntouched(r1, ds);
    forall i | i in r1.documents
      ensures r2.documents[i] == r1.documents[i]
    {
      if Mentions(ds, r1.documents[i].externalId) {
        UpsertAgainDocument(t, ds, i);
      }
    }
  }

  lemma UpsertAgainEmbeddings(t: Tables, ds: seq<DocInput>)
    requires Consistent(t)
    ensures UpsertAll(UpsertAll(t, ds), ds).embeddings == UpsertAll(t, ds).embeddings
  {
    var r1 := UpsertAll(t, ds);
    var r2 := UpsertAll(r1, ds);
    UpsertAgainSameRows(t, ds);
    UpsertAllGrows(r1, ds);
    UpsertAllUntouched(r1, ds);
    forall i | i in r1.embeddings
      ensures r2.embeddings[i] == r1.embeddings[i]
    {
      if Mentions(ds, r1.embeddings[i].externalId) {
        UpsertAgainEmbedding(t, ds, i);
      }
    }
  }

  /** Running `upsertMany` twice with the same documents leaves the tables as running it once. */
  lemma UpsertIdempotent(t: Tables, ds: seq<DocInput>)
    requires Consistent(t)
    ensures UpsertAll(UpsertAll(t, ds), ds) == UpsertAll(t, ds)
  {
    UpsertAgainSameRows(t, ds);
    UpsertAgainDocuments(t, ds);
    UpsertAgainEmbeddings(t, ds);
  }

  // ---------------------------------------------------------------------------
  // backfillMeta

  /** One element of the `updates` argument of `backfillMeta`; `None` is a field not supplied. */
  datatype MetaUpdate = MetaUpdate(
    externalId: string,
    title: Option<string>,
    authors: Option<seq<string>>,
    publicationDate: Option<string>,
    year: Option<int>,
    path: Option<string>,
    summary: Option<string>,
    number: Option<string>)

  /** The `patch` object: the supplied fields, and never `embeddingId`. */
  function UpdateFields(u: MetaUpdate): (f: Fields)
    ensures f.embeddingId.None?
    ensures f == NoFields <==>
      u.title.None? && u.authors.None? && u.publicationDate.None? && u.year.None?
      && u.path.None? && u.summary.None? && u.number.None?
  {
    Fields(u.title, u.authors, u.publicationDate, u.year, u.path, u.summary, u.number, None)
  }

  /** One iteration of the `backfillMeta` loop: unknown keys and empty patches write nothing. */
  function BackfillOne(t: Tables, u: MetaUpdate): Tables
    requires UniqueDocs(t.documents)
  {
    var o := DocWith(t.documents, u.externalId);
    if o.None? || UpdateFields(u) == NoFields then t
    else t.(documents := t.documents[o.value := Patch(t.documents[o.value], UpdateFields(u))])
  }

  /**
   * A backfill changes at most the document of its key, and in it only the fields it
   * supplies, each to the supplied value; embeddings, `embeddingId`, the set of rows
   * and the allocator stay as they were.
   */
  lemma BackfillOneEffect(t: Tables, u: MetaUpdate)
    requires Consistent(t)
    ensures var r := BackfillOne(t, u);
      && Consistent(r)
      && r.embeddings == t.embeddings && r.nextId == t.nextId
      && r.documents.Keys == t.documents.Keys
      && (DocWith(t.documents, u.externalId).None? ==> r == t)
      && (forall i :: i in t.documents ==>
            var a, b := t.documents[i], r.documents[i];
            && b.externalId == a.externalId && b.embeddingId == a.embeddingId
            && (a.externalId != u.externalId ==> b == a)
            && (a.externalId == u.externalId ==>
                  && (u.title.Some? ==> b.title == u.title.value)
                  && (u.title.None? ==> b.title == a.title)
                  && (u.authors.Some? ==> b.authors == u.authors.value)
                  && (u.authors.None? ==> b.authors == a.authors)
                  && b.publicationDate == Or(u.publicationDate, a.publicationDate)
                  && b.year == Or(u.year, a.year)
                  && b.path == Or(u.path, a.path)
                  && b.summary == Or(u.summary, a.summary)
                  && b.number == Or(u.number, a.number)))
  {
    var r := BackfillOne(t, u);
    var o := DocWith(t.documents, u.externalId);
    if o.Some? {
      forall i | i in t.documents
        ensures r.documents[i].externalId == t.documents[i].externalId
        ensures r.documents[i].embeddingId == t.documents[i].embeddingId
        ensures t.documents[i].externalId != u.externalId ==> r.documents[i] == t.documents[i]
        ensures t.documents[i].externalId == u.externalId ==> UpdatedBy(t.documents[i], u, r.documents[i])
      {
        if t.documents[i].externalId == u.externalId {
          assert i == o.value;
          UpdatedFields(t.documents[i], u, r.documents[i]);
        }
      }
    }
  }

  /** `b` is `a` with the fields that `u` supplies written over it. */
  predicate UpdatedBy(a: Document, u: MetaUpdate, b: Document)
  {
    && (u.title.Some? ==> b.title == u.title.value)
    && (u.title.None? ==> b.title == a.title)
    && (u.authors.Some? ==> b.authors == u.authors.value)
    && (u.authors.None? ==> b.authors == a.authors)
    && b.publicationDate == Or(u.publicationDate, a.publicationDate)
    && b.year == Or(u.year, a.year)
    && b.path == Or(u.path, a.path)
    && b.summary == Or(u.summary, a.summary)
    && b.number == Or(u.number, a.number)
  }

  lemma UpdatedFields(a: Document, u: MetaUpdate, b: Document)
    requires b == (if UpdateFields(u) == NoFields then a else Patch(a, UpdateFields(u)))
    ensures b.externalId == a.externalId && b.embeddingId == a.embeddingId
    ensures UpdatedBy(a, u, b)
  {
  }

  /** An update with no supplied field writes nothing, whatever its key. */
  lemma BackfillEmptyPatch(t: Tables, u: MetaUpdate)
    requires Consistent(t)
    requires u.title.None? && u.authors.None? && u.publicationDate.None? && u.year.None?
    requires u.path.None? && u.summary.None? && u.number.None?
    ensures BackfillOne(t, u) == t
  {
  }

  /** `backfillMeta(updates)`: the updates are applied in order. */
  function BackfillAll(t: Tables, us: seq<MetaUpdate>): (r: Tables)
    requires Consistent(t)
    ensures Consistent(r)
    ensures r.embeddings == t.embeddings && r.nextId == t.nextId && r.documents.Keys == t.documents.Keys
    ensures forall i :: i in t.documents ==>
      r.documents[i].externalId == t.documents[i].externalId
      && r.documents[i].embeddingId == t.documents[i].embeddingId
  {
    if us == [] then t
    else
      var s := BackfillAll(t, us[..|us| - 1]);
      BackfillOneEffect(s, us[|us| - 1]);
      BackfillOne(s, us[|us| - 1])
  }

  /** Some update in `us` names key `x`. */
  predicate Targets(us: seq<MetaUpdate>, x: string)
  {
    exists k :: 0 <= k < |us| && us[k].externalId == x
  }

  /** A document that no update names is left exactly as it was. */
  lemma {:induction false} BackfillUntargeted(t: Tables, us: seq<MetaUpdate>, i: Id)
    requires Consistent(t) && i in t.documents && !Targets(us, t.documents[i].externalId)
    ensures BackfillAll(t, us).documents[i] == t.documents[i]
    decreases |us|
  {
    if us != [] {
      var init := us[..|us| - 1];
      assert !Targets(init, t.documents[i].externalId) by {
        forall k | 0 <= k < |init|
          ensures init[k].externalId != t.documents[i].externalId
        {
          assert init[k] == us[k];
        }
      }
      BackfillUntargeted(t, init, i);
      BackfillOneEffect(BackfillAll(t, init), us[|us| - 1]);
    }
  }

  /** Updates for keys that have no document change nothing at all. */
  lemma {:induction false} BackfillUnknownKeys(t: Tables, us: seq<MetaUpdate>)
    requires Consistent(t)
    requires forall k :: 0 <= k < |us| ==> DocWith(t.documents, us[k].externalId).None?
    ensures BackfillAll(t, us) == t
    decreases |us|
  {
    if us != [] {
      BackfillUnknownKeys(t, us[..|us| - 1]);
      BackfillOneEffect(t, us[|us| - 1]);
    }
  }

  /** On the document of its key, a backfill is the patch of the supplied fields (an empty patch changes nothing). */
  lemma BackfillOnePatch(t: Tables, u: MetaUpdate, i: Id)
    requires Consistent(t) && i in t.documents && t.documents[i].externalId == u.externalId
    ensures BackfillOne(t, u).documents[i] == Patch(t.documents[i], UpdateFields(u))
  {
    assert DocWith(t.documents, u.externalId) == Some(i);
  }

  /** Applying two lists of updates one after the other is applying their concatenation. */
  lemma {:induction false} BackfillAllAppend(t: Tables, a: seq<MetaUpdate>, b: seq<MetaUpdate>)
    requires Consistent(t)
    ensures BackfillAll(t, a + b) == BackfillAll(BackfillAll(t, a), b)
    decreases |b|
  {
    if b == [] {
      assert a + b == a;
    } else {
      var init := b[..|b| - 1];
      assert (a + b)[..|a + b| - 1] == a + init;
      assert (a + b)[|a + b| - 1] == b[|b| - 1];
      BackfillAllAppend(t, a, init);
    }
  }

  // ---------------------------------------------------------------------------
  // list

  /** One element of the result of `list`; `number ?? null` is an absent number. */
  datatype ListEntry = ListEntry(id: Id, externalId: string, title: string, number: Option<string>)

  function EntryOf(i: Id, d: Document): ListEntry
  {
    ListEntry(i, d.externalId, d.title, d.number)
  }

  /** The entries of the documents with an id below `n`, in id (creation) order. */
  function ListBelow(docs: map<Id, Document>, n: nat): (r: seq<ListEntry>)
    ensures |r| <= n
    ensures forall k :: 0 <= k < |r| ==> r[k].id < n && r[k].id in docs && r[k] == EntryOf(r[k].id, docs[r[k].id])
  {
    if n == 0 then []
    else ListBelow(docs, n - 1) + (if n - 1 in docs then [EntryOf(n - 1, docs[n - 1])] else [])
  }

  /** `list()`: `query("documents").collect()` yields the rows in the order they were created. */
  function List(t: Tables): seq<ListEntry>
  {
    ListBelow(t.documents, t.nextId)
  }

  /** Entries come in strictly increasing id order, so no document is listed twice. */
  lemma {:induction false} ListBelowSorted(docs: map<Id, Document>, n: nat)
    ensures forall k, l :: 0 <= k < l < |ListBelow(docs, n)| ==> ListBelow(docs, n)[k].id < ListBelow(docs, n)[l].id
  {
    if n > 0 {
      ListBelowSorted(docs, n - 1);
      var p := ListBelow(docs, n - 1);
      var r := ListBelow(docs, n);
      assert r[..|p|] == p;
      forall k, l | 0 <= k < l < |r|
        ensures r[k].id < r[l].id
      {
        if l < |p| {
          assert r[k] == p[k] && r[l] == p[l];
        } else {
          assert r[k] == p[k] && p[k].id < n - 1;
          assert r[l].id == n - 1;
        }
      }
    }
  }

  /** Every document below `n` has an entry. */
  lemma {:induction false} ListBelowComplete(docs: map<Id, Document>, n: nat, i: Id)
    requires i in docs && i < n
    ensures exists k :: 0 <= k < |ListBelow(docs, n)| && ListBelow(docs, n)[k].id == i
  {
    var p := ListBelow(docs, n - 1);
    var r := ListBelow(docs, n);
    if i == n - 1 {
      assert r[|p|].id == i;
    } else {
      ListBelowComplete(docs, n - 1, i);
      var k :| 0 <= k < |p| && p[k].id == i;
      assert r[k] == p[k];
    }
  }

  /** Entries come in strictly increasing id order (so no document twice), and each document below `n` has one. */
  lemma ListBelowOrdered(docs: map<Id, Document>, n: nat)
    ensures var r := ListBelow(docs, n);
      && (forall k, l :: 0 <= k < l < |r| ==> r[k].id < r[l].id)
      && (forall i :: i in docs && i < n ==> exists k :: 0 <= k < |r| && r[k].id == i)
  {
    ListBelowSorted(docs, n);
    forall i | i in docs && i < n
      ensures exists k :: 0 <= k < |ListBelow(docs, n)| && ListBelow(docs, n)[k].id == i
    {
      ListBelowComplete(docs, n, i);
    }
  }

  /** The number of entries is the number of documents below `n`. */
  lemma {:induction false} ListBelowCount(docs: map<Id, Document>, n: nat)
    ensures |ListBelow(docs, n)| == |set i | i in docs && i < n|
  {
    if n > 0 {
      ListBelowCount(docs, n - 1);
      var below := set i | i in docs && i < n - 1;
      if n - 1 in docs {
        assert (set i | i in docs && i < n) == below + {n - 1};
      } else {
        assert (set i | i in docs && i < n) == below;
      }
    }
  }

  /**
   * `list` returns one entry per stored document, in id order, carrying its id,
   * key, title and number.
   */
  lemma ListEntries(t: Tables)
    requires Consistent(t)
    ensures var r := List(t);
      && |r| == |t.documents|
      && (forall k :: 0 <= k < |r| ==> r[k].id in t.documents && r[k] == EntryOf(r[k].id, t.documents[r[k].id]))
      && (forall k, l :: 0 <= k < l < |r| ==> r[k].id < r[l].id)
      && (forall i :: i in t.documents ==> exists k :: 0 <= k < |r| && r[k].id == i)
  {
    ListBelowOrdered(t.documents, t.nextId);
    ListBelowCount(t.documents, t.nextId);
    assert (set i | i in t.documents && i < t.nextId) == t.documents.Keys;
  }
}
