/**
 * The planner of scripts/backfill.ts: for every listed document it looks up the
 * summary row by the 3-digit number at the start of the title (or by the document's
 * key), proposes an update with the fields worth filling in, keeps the updates that
 * carry at least one field, and sends them to `backfillMeta` in slices of 64.
 * The number formatter `pad3` is modelled too.
 */
module Backfill {
  import opened Wrappers
  import opened Sequences
  import opened Metadata
  import opened DocumentTables

  /** The number of updates sent per `backfillMeta` call. */
  const UpdatesPerBatch: nat := 64

  // ---------------------------------------------------------------------------
  // Decimal digits: `/^([0-9]{3})/` and `pad3`

  predicate IsDigit(c: char) { '0' <= c <= '9' }

  function DigitValue(c: char): nat
    requires IsDigit(c)
  {
    (c as int - '0' as int) as nat
  }

  function DigitChar(d: nat): (c: char)
    requires d < 10
    ensures IsDigit(c) && DigitValue(c) == d
  {
    ('0' as int + d) as char
  }

  /** `match ? match[1] : undefined` for `/^([0-9]{3})[_-]?/`: the title's first three characters when they are digits. */
  function Num(title: string): (r: Option<string>)
    ensures r.Some? <==> |title| >= 3 && IsDigit(title[0]) && IsDigit(title[1]) && IsDigit(title[2])
    ensures r.Some? ==> r.value == title[..3] && |r.value| == 3
  {
    if |title| >= 3 && IsDigit(title[0]) && IsDigit(title[1]) && IsDigit(title[2]) then Some(title[..3]) else None
  }

  /** `n.toString()` for a non-negative integer: its decimal digits, without leading zeros. */
  function Decimal(n: nat): (s: string)
    ensures 1 <= |s| && forall k :: 0 <= k < |s| ==> IsDigit(s[k])
    ensures |s| > 1 ==> s[0] != '0'
  {
    if n < 10 then [DigitChar(n)] else Decimal(n / 10) + [DigitChar(n % 10)]
  }

  /** The value of a string of decimal digits. */
  function ParseDecimal(s: string): nat
    requires forall k :: 0 <= k < |s| ==> IsDigit(s[k])
  {
    if s == [] then 0 else ParseDecimal(s[..|s| - 1]) * 10 + DigitValue(s[|s| - 1])
  }

  function Zeros(k: nat): (s: string)
    ensures |s| == k && forall j :: 0 <= j < k ==> s[j] == '0'
  {
    if k == 0 then [] else Zeros(k - 1) + ['0']
  }

  /** `pad3(n)`: the decimal digits, left-padded with `'0'` to three characters. */
  function Pad3(n: nat): string
  {
    var d := Decimal(n);
    if |d| >= 3 then d else Zeros(3 - |d|) + d
  }

  lemma {:induction false} DecimalRoundTrip(n: nat)
    ensures ParseDecimal(Decimal(n)) == n
  {
    if n >= 10 {
      var s := Decimal(n);
      assert s[..|s| - 1] == Decimal(n / 10);
      DecimalRoundTrip(n / 10);
    }
  }

  lemma {:induction false} ParseZeros(k: nat)
    ensures ParseDecimal(Zeros(k)) == 0
  {
    if k > 0 {
      assert Zeros(k)[..k - 1] == Zeros(k - 1);
      ParseZeros(k - 1);
    }
  }

  /** Leading zeros do not change the value. */
  lemma {:induction false} ParseLeadingZeros(k: nat, s: string)
    requires forall j :: 0 <= j < |s| ==> IsDigit(s[j])
    ensures ParseDecimal(Zeros(k) + s) == ParseDecimal(s)
    decreases |s|
  {
    if s == [] {
      assert Zeros(k) + s == Zeros(k);
      ParseZeros(k);
    } else {
      var init := s[..|s| - 1];
      assert (Zeros(k) + s)[..|Zeros(k) + s| - 1] == Zeros(k) + init;
      ParseLeadingZeros(k, init);
    }
  }

  lemma {:induction false} DecimalLength(n: nat)
    ensures n < 10 ==> |Decimal(n)| == 1
    ensures n < 100 ==> |Decimal(n)| <= 2
    ensures n < 1000 ==> |Decimal(n)| <= 3
    ensures n >= 1000 ==> |Decimal(n)| > 3
  {
    if n >= 10 {
      DecimalLength(n / 10);
    }
  }

  /**
   * `pad3(n)` is at least three characters long, all digits, longer only when the
   * number needs more digits, and reads back as `n`.
   */
  lemma Pad3Properties(n: nat)
    ensures var p := Pad3(n);
      && |p| >= 3 && (forall k :: 0 <= k < |p| ==> IsDigit(p[k]))
      && (n < 1000 <==> |p| == 3)
      && (|Decimal(n)| >= 3 ==> p == Decimal(n))
      && ParseDecimal(p) == n
  {
    var d := Decimal(n);
    DecimalLength(n);
    DecimalRoundTrip(n);
    if |d| < 3 {
      ParseLeadingZeros(3 - |d|, d);
    }
  }

  /** A title that starts with `pad3(n)` for `n < 1000` has `pad3(n)` as its number. */
  lemma NumOfPad3(n: nat, rest: string)
    requires n < 1000
    ensures Num(Pad3(n) + rest) == Some(Pad3(n))
  {
    Pad3Properties(n);
    var p := Pad3(n);
    assert (p + rest)[..3] == p;
  }

  // ---------------------------------------------------------------------------
  // The update proposed for one listed document

  /** JavaScript truthiness of an optional string. */
  predicate Truthy(s: Option<string>) { s.Some? && s.value != "" }

  /** `num ?? d.externalId`: the key used to find the document's summary row. */
  function IdKey(e: ListEntry): (k: string)
    ensures Num(e.title).Some? ==> k == Num(e.title).value
    ensures Num(e.title).None? ==> k == e.externalId
  {
    Num(e.title).GetOr(e.externalId)
  }

  /** `meta.get(idKey)`. */
  function RowFor(e: ListEntry, meta: map<string, SummaryItem>): Option<SummaryItem>
  {
    if IdKey(e) in meta then Some(meta[IdKey(e)]) else None
  }

  /**
   * The publication date as the script picks it: the guard asks whether either
   * field is truthy, but the value is `publication_date ?? publicationDate`, which
   * keeps an empty `publication_date`.
   */
  function PickDateAsWritten(s: Option<SummaryItem>): Option<string>
  {
    if s.Some? && (Truthy(s.value.publication_date) || Truthy(s.value.publicationDate)) then
      if s.value.publication_date.Some? then s.value.publication_date else s.value.publicationDate
    else None
  }

  /** The publication date the guard means: the first of the two fields that is truthy. */
  function PickDate(s: Option<SummaryItem>): (r: Option<string>)
    ensures r.Some? <==> s.Some? && (Truthy(s.value.publication_date) || Truthy(s.value.publicationDate))
    ensures r.Some? ==> r.value != ""
    ensures s.Some? && Truthy(s.value.publication_date) ==> r == s.value.publication_date
  {
    if s.Some? && Truthy(s.value.publication_date) then s.value.publication_date
    else if s.Some? && Truthy(s.value.publicationDate) then s.value.publicationDate
    else None
  }

  /** The update built for one listed document, with the publication date picked as intended. */
  function Proposal(e: ListEntry, meta: map<string, SummaryItem>): (u: MetaUpdate)
    ensures u.externalId == e.externalId && u.path.None?
    ensures var s := RowFor(e, meta);
      && (u.title.Some? <==> e.title == "" && s.Some? && Truthy(s.value.title))
      && (u.title.Some? ==> u.title == s.value.title)
      && (u.authors.Some? <==> s.Some? && s.value.authors.Some? && |s.value.authors.value| > 0)
      && (u.authors.Some? ==> u.authors == s.value.authors)
      && u.publicationDate == PickDate(s)
      && (u.year.Some? <==> s.Some? && s.value.year.Some?)
      && (u.year.Some? ==> u.year == s.value.year)
      && (u.summary.Some? <==> s.Some? && Truthy(s.value.summary))
      && (u.summary.Some? ==> u.summary == s.value.summary)
      && u.number == Num(e.title)
  {
    var s := RowFor(e, meta);
    MetaUpdate(
      e.externalId,
      if e.title == "" && s.Some? && Truthy(s.value.title) then s.value.title else None,
      if s.Some? && s.value.authors.Some? && |s.value.authors.value| > 0 then s.value.authors else None,
      PickDate(s),
      if s.Some? then s.value.year else None,
      None,
      if s.Some? && Truthy(s.value.summary) then s.value.summary else None,
      Num(e.title))
  }

  /** The update the script builds: the same except for the publication date. */
  function ProposalAsWritten(e: ListEntry, meta: map<string, SummaryItem>): (u: MetaUpdate)
    ensures u.(publicationDate := None) == Proposal(e, meta).(publicationDate := None)
    ensures u.publicationDate == PickDateAsWritten(RowFor(e, meta))
  {
    Proposal(e, meta).(publicationDate := PickDateAsWritten(RowFor(e, meta)))
  }

  /**
   * Which publication date an update carries: `Nullish` is the script's
   * `publication_date ?? publicationDate`, `FirstTruthy` the date its guard means.
   */
  datatype DateRule = Nullish | FirstTruthy

  /** The update for one listed document under a date rule. */
  function ProposalBy(rule: DateRule, e: ListEntry, meta: map<string, SummaryItem>): MetaUpdate
  {
    match rule
    case Nullish => ProposalAsWritten(e, meta)
    case FirstTruthy => Proposal(e, meta)
  }

  /** Both rules build the same update apart from the publication date. */
  lemma ProposalByFields(rule: DateRule, e: ListEntry, meta: map<string, SummaryItem>)
    ensures ProposalBy(rule, e, meta).(publicationDate := None) == Proposal(e, meta).(publicationDate := None)
    ensures rule == Nullish ==> ProposalBy(rule, e, meta).publicationDate == PickDateAsWritten(RowFor(e, meta))
    ensures rule == FirstTruthy ==> ProposalBy(rule, e, meta).publicationDate == PickDate(RowFor(e, meta))
  {
  }

  /** `Object.keys(u).length > 1`: the update carries a field besides its key. */
  predicate HasFields(u: MetaUpdate)
  {
    UpdateFields(u) != NoFields
  }

  /**
   * The two pickers differ exactly when `publication_date` is present but empty and
   * `publicationDate` is truthy: the script then proposes the empty string.
   */
  lemma PickDateDiffers(s: Option<SummaryItem>)
    ensures PickDateAsWritten(s) != PickDate(s) <==>
      s.Some? && s.value.publication_date == Some("") && Truthy(s.value.publicationDate)
    ensures PickDateAsWritten(s) != PickDate(s) ==> PickDateAsWritten(s) == Some("")
  {
  }

  /**
   * The as-written date picker erases a stored publication date: a document whose
   * stored date is "2021-05-01", listed with its summary row holding
   * `publication_date: ""` and `publicationDate: "2021"`, is backfilled with "".
   */
  lemma AsWrittenErasesDate()
    ensures var doc := Document("007", "", [], Some("2021-05-01"), None, None, None, None, None);
      var t := Tables(map[0 := doc], map[], 1);
      var row := SummaryItem(Some("007"), None, None, None, Some(""), Some("2021"), None, None);
      var meta := map["007" := row];
      var u := ProposalAsWritten(EntryOf(0, doc), meta);
      && Consistent(t)
      && u.publicationDate == Some("")
      && BackfillOne(t, u).documents[0].publicationDate == Some("")
      && 0 in ApplyCalls(t, Batches(Plan(Nullish, List(t), meta), UpdatesPerBatch)).documents
      && ApplyCalls(t, Batches(Plan(Nullish, List(t), meta), UpdatesPerBatch)).documents[0].publicationDate == Some("")
      && Proposal(EntryOf(0, doc), meta).publicationDate == Some("2021")
  {
    var doc := Document("007", "", [], Some("2021-05-01"), None, None, None, None, None);
    var t := Tables(map[0 := doc], map[], 1);
    var row := SummaryItem(Some("007"), None, None, None, Some(""), Some("2021"), None, None);
    var meta := map["007" := row];
    assert t.documents.Keys == {0} && t.documents[0].externalId == "007";
    assert DocWith(t.documents, "007") == Some(0);
    assert Consistent(t);
    RunEffect(Nullish, t, meta, 0);
    ProposalByFields(Nullish, EntryOf(0, doc), meta);
    assert ProposalBy(Nullish, EntryOf(0, doc), meta).publicationDate == Some("");
  }

  // ---------------------------------------------------------------------------
  // The planning loop and the batches

  /** The updates the `for (const d of existing)` loop collects, in list order. */
  function Plan(rule: DateRule, es: seq<ListEntry>, meta: map<string, SummaryItem>): (us: seq<MetaUpdate>)
    ensures |us| <= |es|
    ensures forall k :: 0 <= k < |us| ==> HasFields(us[k])
  {
    if es == [] then []
    else
      var u := ProposalBy(rule, es[|es| - 1], meta);
      Plan(rule, es[..|es| - 1], meta) + (if HasFields(u) then [u] else [])
  }

  /** The proposals for every entry, before the filter. */
  function Proposals(rule: DateRule, es: seq<ListEntry>, meta: map<string, SummaryItem>): (ps: seq<MetaUpdate>)
    ensures |ps| == |es| && forall k :: 0 <= k < |es| ==> ps[k] == ProposalBy(rule, es[k], meta)
  {
    seq(|es|, k requires 0 <= k < |es| => ProposalBy(rule, es[k], meta))
  }

  lemma ProposalsSnoc(rule: DateRule, es: seq<ListEntry>, e: ListEntry, meta: map<string, SummaryItem>)
    ensures Proposals(rule, es + [e], meta) == Proposals(rule, es, meta) + [ProposalBy(rule, e, meta)]
  {
  }

  /** The plan is the list of proposals, in list order, with the empty ones dropped. */
  lemma {:induction false} PlanIsFilter(rule: DateRule, es: seq<ListEntry>, meta: map<string, SummaryItem>)
    ensures Plan(rule, es, meta) == Filter(Proposals(rule, es, meta), HasFields)
    decreases |es|
  {
    if es != [] {
      var init, e := es[..|es| - 1], es[|es| - 1];
      var u := ProposalBy(rule, e, meta);
      calc {
        Plan(rule, es, meta);
        { PlanTail(rule, es, meta); }
        Plan(rule, init, meta) + Filter([u], HasFields);
        { PlanIsFilter(rule, init, meta); }
        Filter(Proposals(rule, init, meta), HasFields) + Filter([u], HasFields);
        { FilterAppend(Proposals(rule, init, meta), [u], HasFields); }
        Filter(Proposals(rule, init, meta) + [u], HasFields);
        { assert es == init + [e]; ProposalsSnoc(rule, init, e, meta); }
        Filter(Proposals(rule, es, meta), HasFields);
      }
    }
  }

  /** One step of the plan: the last entry's proposal is kept when it carries a field. */
  lemma PlanTail(rule: DateRule, es: seq<ListEntry>, meta: map<string, SummaryItem>)
    requires es != []
    ensures Plan(rule, es, meta) ==
            Plan(rule, es[..|es| - 1], meta) + Filter([ProposalBy(rule, es[|es| - 1], meta)], HasFields)
  {
    FilterSingle(ProposalBy(rule, es[|es| - 1], meta), HasFields);
  }

  /** The planning loop of `run`, as written: the date is taken with `??`. */
  method PlanUpdates(existing: seq<ListEntry>, meta: map<string, SummaryItem>) returns (updates: seq<MetaUpdate>)
    ensures updates == Plan(Nullish, existing, meta)
  {
    updates := [];
    for k := 0 to |existing|
      invariant updates == Plan(Nullish, existing[..k], meta)
    {
      assert existing[..k + 1][..k] == existing[..k];
      var u := ProposalAsWritten(existing[k], meta);
      if HasFields(u) {
        updates := updates + [u];
      }
    }
    assert existing[..|existing|] == existing;
  }

  /**
   * The batch loop of `run`: nothing is sent when there are no updates, otherwise
   * `updates.slice(i, i + 64)` for `i = 0, 64, 128, ...`; the result lists the
   * arguments of the `backfillMeta` calls, in order.
   */
  method SendBatches(updates: seq<MetaUpdate>) returns (calls: seq<seq<MetaUpdate>>)
    ensures calls == Batches(updates, UpdatesPerBatch)
  {
    calls := [];
    if |updates| == 0 {
      return;
    }
    var i := 0;
    while i < |updates|
      invariant i <= |updates| ==> calls + Batches(updates[i..], UpdatesPerBatch) == Batches(updates, UpdatesPerBatch)
      invariant i > |updates| ==> calls == Batches(updates, UpdatesPerBatch)
      decreases |updates| - i
    {
      var batch := JsSlice(updates, i, i + UpdatesPerBatch);
      var end := if i + UpdatesPerBatch < |updates| then i + UpdatesPerBatch else |updates|;
      assert batch == updates[i..end];
      BatchesFrom(updates, i, end, UpdatesPerBatch);
      assert calls + ([batch] + Batches(updates[end..], UpdatesPerBatch))
          == (calls + [batch]) + Batches(updates[end..], UpdatesPerBatch);
      calls := calls + [batch];
      if end == |updates| {
        assert updates[end..] == [];
      }
      i := i + UpdatesPerBatch;
    }
    if i == |updates| {
      assert updates[i..] == [];
    }
  }

  /** The slices cover the updates in order, each of at most 64, all but the last full. */
  lemma SendBatchesCover(updates: seq<MetaUpdate>)
    ensures var b := Batches(updates, UpdatesPerBatch);
      && Flatten(b) == updates
      && |b| == CeilDiv(|updates|, UpdatesPerBatch)
      && (updates == [] <==> b == [])
      && forall j :: 0 <= j < |b| ==> b[j] == JsSlice(updates, j * UpdatesPerBatch, j * UpdatesPerBatch + UpdatesPerBatch)
  {
    var b := Batches(updates, UpdatesPerBatch);
    BatchesShape(updates, UpdatesPerBatch);
    forall j | 0 <= j < |b|
      ensures b[j] == JsSlice(updates, j * UpdatesPerBatch, j * UpdatesPerBatch + UpdatesPerBatch)
    {
      BatchAt(updates, UpdatesPerBatch, j);
    }
    if updates != [] {
      assert b != [];
    }
  }

  /** `toMap` of the backfill script keeps each summary row as it is. */
  function Raw(it: SummaryItem): SummaryItem { it }

  /** The metadata map holds, for every non-empty key that occurs, the last row with that key. */
  lemma BackfillMapLastWins(items: seq<SummaryItem>, k: string)
    ensures k in MapOf(items, Raw) <==> k != "" && LastWithKey(items, k).Some?
    ensures k in MapOf(items, Raw) ==> MapOf(items, Raw)[k] == items[LastWithKey(items, k).value]
  {
    MapOfLastWins(items, Raw, k);
  }

  // ---------------------------------------------------------------------------
  // What the run does to the tables

  /** The `backfillMeta` calls made one after the other. */
  function ApplyCalls(t: Tables, calls: seq<seq<MetaUpdate>>): (r: Tables)
    requires Consistent(t)
    ensures Consistent(r)
    decreases |calls|
  {
    if calls == [] then t else ApplyCalls(BackfillAll(t, calls[0]), calls[1..])
  }

  /** Sending the updates in several calls has the effect of sending them all in one. */
  lemma {:induction false} ApplyCallsFlatten(t: Tables, calls: seq<seq<MetaUpdate>>)
    requires Consistent(t)
    ensures ApplyCalls(t, calls) == BackfillAll(t, Flatten(calls))
    decreases |calls|
  {
    if calls != [] {
      ApplyCallsFlatten(BackfillAll(t, calls[0]), calls[1..]);
      BackfillAllAppend(t, calls[0], Flatten(calls[1..]));
    }
  }

  /** No two entries share a key. */
  predicate DistinctKeys(es: seq<ListEntry>)
  {
    forall k, l :: 0 <= k < l < |es| ==> es[k].externalId != es[l].externalId
  }

  /** What the plan of `es` leaves in a document `d` of key `x`, given the document `before` it started from. */
  predicate PlannedFor(rule: DateRule, es: seq<ListEntry>, meta: map<string, SummaryItem>, x: string, before: Document, d: Document)
  {
    && (forall k :: 0 <= k < |es| && es[k].externalId == x ==> d == Patch(before, UpdateFields(ProposalBy(rule, es[k], meta))))
    && ((forall k :: 0 <= k < |es| ==> es[k].externalId != x) ==> d == before)
  }

  /** Applying the plan of entries with distinct keys patches each document with the proposal of the entry of its key. */
  lemma {:induction false} PlanEffect(rule: DateRule, t: Tables, es: seq<ListEntry>, meta: map<string, SummaryItem>, i: Id)
    requires Consistent(t) && i in t.documents && DistinctKeys(es)
    ensures PlannedFor(rule, es, meta, t.documents[i].externalId, t.documents[i], BackfillAll(t, Plan(rule, es, meta)).documents[i])
    decreases |es|
  {
    if es != [] {
      var init, e := es[..|es| - 1], es[|es| - 1];
      assert es == init + [e];
      DistinctKeysInit(init, e);
      PlanEffect(rule, t, init, meta, i);
      var u := ProposalBy(rule, e, meta);
      var s := BackfillAll(t, Plan(rule, init, meta));
      var r := BackfillAll(t, Plan(rule, es, meta));
      assert r == BackfillAll(s, if HasFields(u) then [u] else []) by {
        assert Plan(rule, es, meta) == Plan(rule, init, meta) + (if HasFields(u) then [u] else []);
        BackfillAllAppend(t, Plan(rule, init, meta), if HasFields(u) then [u] else []);
      }
      PlanStep(s, u, i);
      PlannedForSnoc(rule, init, e, meta, t.documents[i].externalId, t.documents[i], s.documents[i], r.documents[i]);
    }
  }

  lemma DistinctKeysInit(init: seq<ListEntry>, e: ListEntry)
    requires DistinctKeys(init + [e])
    ensures DistinctKeys(init)
    ensures forall k :: 0 <= k < |init| ==> init[k].externalId != e.externalId
  {
    var es := init + [e];
    forall k, l | 0 <= k < l < |init|
      ensures init[k].externalId != init[l].externalId
    {
      assert init[k] == es[k] && init[l] == es[l];
    }
    forall k | 0 <= k < |init|
      ensures init[k].externalId != e.externalId
    {
      assert init[k] == es[k] && e == es[|init|];
    }
  }

  lemma PlannedForSnoc(rule: DateRule, init: seq<ListEntry>, e: ListEntry, meta: map<string, SummaryItem>, x: string,
                       before: Document, mid: Document, after: Document)
    requires forall k :: 0 <= k < |init| ==> init[k].externalId != e.externalId
    requires PlannedFor(rule, init, meta, x, before, mid)
    requires after == if e.externalId == x then Patch(mid, UpdateFields(ProposalBy(rule, e, meta))) else mid
    ensures PlannedFor(rule, init + [e], meta, x, before, after)
  {
    var es := init + [e];
    if e.externalId != x {
      forall k | 0 <= k < |es| && es[k].externalId == x
        ensures after == Patch(before, UpdateFields(ProposalBy(rule, es[k], meta)))
      {
        assert k < |init| && es[k] == init[k];
      }
      forall k | 0 <= k < |init|
        ensures init[k] == es[k]
      {
      }
    } else {
      assert mid == before by {
        forall k | 0 <= k < |init|
          ensures init[k].externalId != x
        {
        }
      }
      assert forall k :: 0 <= k < |init| ==> es[k] == init[k];
      assert es[|init|] == e;
    }
  }

  /** One kept proposal patches the document of its key and no other. */
  lemma PlanStep(s: Tables, u: MetaUpdate, i: Id)
    requires Consistent(s) && i in s.documents
    ensures var r := BackfillAll(s, if HasFields(u) then [u] else []);
      && (s.documents[i].externalId == u.externalId ==> r.documents[i] == Patch(s.documents[i], UpdateFields(u)))
      && (s.documents[i].externalId != u.externalId ==> r.documents[i] == s.documents[i])
  {
    var opt := if HasFields(u) then [u] else [];
    if HasFields(u) {
      assert opt[..0] == [];
      assert BackfillAll(s, opt) == BackfillOne(s, u);
      BackfillOneEffect(s, u);
      if s.documents[i].externalId == u.externalId {
        BackfillOnePatch(s, u, i);
      }
    }
  }

  /** The entries of `list` have distinct keys and include one for every document. */
  lemma ListKeys(t: Tables, i: Id)
    requires Consistent(t) && i in t.documents
    ensures DistinctKeys(List(t))
    ensures exists k :: 0 <= k < |List(t)| && List(t)[k] == EntryOf(i, t.documents[i])
  {
    var es := List(t);
    ListEntries(t);
    forall k, l | 0 <= k < l < |es|
      ensures es[k].externalId != es[l].externalId
    {
      assert es[k].id != es[l].id;
    }
    var k :| 0 <= k < |es| && es[k].id == i;
    assert es[k] == EntryOf(i, t.documents[i]);
  }

  /**
   * One run of the script against the tables it listed: every document is patched
   * with exactly the update proposed for it under the date rule, whatever the
   * batching. The script itself runs under `Nullish`.
   */
  lemma RunEffect(rule: DateRule, t: Tables, meta: map<string, SummaryItem>, i: Id)
    requires Consistent(t) && i in t.documents
    ensures var r := ApplyCalls(t, Batches(Plan(rule, List(t), meta), UpdatesPerBatch));
      && r.embeddings == t.embeddings
      && i in r.documents
      && r.documents[i] == Patch(t.documents[i], UpdateFields(ProposalBy(rule, EntryOf(i, t.documents[i]), meta)))
  {
    var us := Plan(rule, List(t), meta);
    ApplyCallsFlatten(t, Batches(us, UpdatesPerBatch));
    BatchesShape(us, UpdatesPerBatch);
    ListKeys(t, i);
    PlanEffect(rule, t, List(t), meta, i);
    var k :| 0 <= k < |List(t)| && List(t)[k] == EntryOf(i, t.documents[i]);
  }

  /**
   * What a run guarantees under either date rule: a non-empty title is never
   * replaced, a title that starts with three digits sets the number, and the key
   * and the embedding link are kept.
   */
  lemma RunKeeps(rule: DateRule, t: Tables, meta: map<string, SummaryItem>, i: Id)
    requires Consistent(t) && i in t.documents
    ensures var r := ApplyCalls(t, Batches(Plan(rule, List(t), meta), UpdatesPerBatch));
      var before := t.documents[i];
      && i in r.documents
      && r.documents[i].externalId == before.externalId
      && r.documents[i].embeddingId == before.embeddingId
      && (before.title != "" ==> r.documents[i].title == before.title)
      && (Num(before.title).Some? ==> r.documents[i].number == Num(before.title))
  {
    RunEffect(rule, t, meta, i);
    ProposalByFields(rule, EntryOf(i, t.documents[i]), meta);
  }

  /**
   * With the date picked as intended a run also never replaces a stored
   * publication date by "", which the script's `Nullish` run can do
   * (`AsWrittenErasesDate`).
   */
  lemma RunOutcome(t: Tables, meta: map<string, SummaryItem>, i: Id)
    requires Consistent(t) && i in t.documents
    ensures var r := ApplyCalls(t, Batches(Plan(FirstTruthy, List(t), meta), UpdatesPerBatch));
      var before := t.documents[i];
      && i in r.documents
      && (before.title != "" ==> r.documents[i].title == before.title)
      && (Num(before.title).Some? ==> r.documents[i].number == Num(before.title))
      && (r.documents[i].publicationDate == Some("") ==> before.publicationDate == Some(""))
  {
    RunEffect(FirstTruthy, t, meta, i);
    ProposalByFields(FirstTruthy, EntryOf(i, t.documents[i]), meta);
  }
}
