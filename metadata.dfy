/**
 * The rows of `summary.json` and the `toMap` loop that indexes them, shared by
 * scripts/embed.ts (which converts each row to a `DocMeta`) and scripts/backfill.ts
 * (which keeps the row as it is). A row's key is `String(id ?? externalId ?? "")`;
 * rows with an empty key are skipped, and a later row with the same key replaces
 * an earlier one.
 */
module Metadata {
  import opened Wrappers

  /**
   * One row of `summary.json`; `None` stands for a missing or `null` field, and for
   * an `authors` value that is not an array.
   */
  datatype SummaryItem = SummaryItem(
    id: Option<string>,
    externalId: Option<string>,
    title: Option<string>,
    authors: Option<seq<string>>,
    publication_date: Option<string>,
    publicationDate: Option<string>,
    year: Option<int>,
    summary: Option<string>)

  /** `String(it.id ?? it.externalId ?? "")`: `??` falls through only on a missing value, not on `""`. */
  function KeyOf(it: SummaryItem): (k: string)
    ensures it.id.Some? ==> k == it.id.value
    ensures it.id.None? && it.externalId.Some? ==> k == it.externalId.value
    ensures it.id.None? && it.externalId.None? ==> k == ""
  {
    if it.id.Some? then it.id.value
    else if it.externalId.Some? then it.externalId.value
    else ""
  }

  /** The map that the `toMap` loop builds: `m.set(key, conv(it))` for every row with a non-empty key. */
  function MapOf<V>(items: seq<SummaryItem>, conv: SummaryItem -> V): map<string, V>
  {
    if items == [] then map[]
    else
      var m := MapOf(items[..|items| - 1], conv);
      var it := items[|items| - 1];
      if KeyOf(it) == "" then m else m[KeyOf(it) := conv(it)]
  }

  /** The index of the last row whose key is `k`, if any. */
  function LastWithKey(items: seq<SummaryItem>, k: string): (r: Option<nat>)
    ensures r.Some? ==> r.value < |items| && KeyOf(items[r.value]) == k
    ensures r.Some? ==> forall j :: r.value < j < |items| ==> KeyOf(items[j]) != k
    ensures r.None? ==> forall j :: 0 <= j < |items| ==> KeyOf(items[j]) != k
  {
    if items == [] then None
    else if KeyOf(items[|items| - 1]) == k then Some(|items| - 1)
    else LastWithKey(items[..|items| - 1], k)
  }

  /**
   * The map holds exactly the non-empty keys that occur, and each key is bound to
   * its last row: duplicates are resolved by the last writer.
   */
  lemma {:induction false} MapOfLastWins<V>(items: seq<SummaryItem>, conv: SummaryItem -> V, k: string)
    ensures k in MapOf(items, conv) <==> k != "" && LastWithKey(items, k).Some?
    ensures k in MapOf(items, conv) ==> MapOf(items, conv)[k] == conv(items[LastWithKey(items, k).value])
  {
    if items != [] {
      var init := items[..|items| - 1];
      MapOfLastWins(init, conv, k);
      if KeyOf(items[|items| - 1]) != k {
        assert LastWithKey(items, k) == LastWithKey(init, k);
        if LastWithKey(init, k).Some? {
          assert items[LastWithKey(init, k).value] == init[LastWithKey(init, k).value];
        }
      }
    }
  }

  /** An explicit empty `id` wins over `externalId`, so such a row is skipped. */
  lemma EmptyIdSkipsRow<V>(items: seq<SummaryItem>, conv: SummaryItem -> V, it: SummaryItem)
    requires it.id == Some("")
    ensures MapOf(items + [it], conv) == MapOf(items, conv)
  {
    assert (items + [it])[..|items|] == items;
  }

  /** The `for (const it of items)` loop of `toMap`, with the per-row conversion as a parameter. */
  method ToMap<V>(items: seq<SummaryItem>, conv: SummaryItem -> V) returns (m: map<string, V>)
    ensures m == MapOf(items, conv)
  {
    m := map[];
    for i := 0 to |items|
      invariant m == MapOf(items[..i], conv)
    {
      assert items[..i + 1][..i] == items[..i];
      var id := KeyOf(items[i]);
      if id == "" {
        continue;
      }
      m := m[id := conv(items[i])];
    }
    assert items[..|items|] == items;
  }
}
