/**
 * The local publication helpers of src/data.ts, over a publication list given as a
 * parameter: the substring search, the related-publication lookup and the citation
 * statistics.
 */
module Publications {
  import opened Wrappers
  import opened Sequences
  import opened JsText

  /** A publication; its 3D position is presentation only and not modelled. */
  datatype Publication = Publication(
    id: string,
    title: string,
    authors: seq<string>,
    year: int,
    abstractText: string,
    category: string,
    tags: seq<string>,
    citations: int,
    connections: seq<string>)

  // ---------------------------------------------------------------------------
  // searchPublications

  /** The lowered title, abstract, some lowered tag or the lowered category contains `lq`. */
  predicate Matches(p: Publication, lq: string)
  {
    || Contains(Lower(p.title), lq)
    || Contains(Lower(p.abstractText), lq)
    || (exists k :: 0 <= k < |p.tags| && Contains(Lower(p.tags[k]), lq))
    || Contains(Lower(p.category), lq)
  }

  /** `searchPublications(query)` over `pubs`. */
  function SearchPublications(pubs: seq<Publication>, query: string): (r: seq<Publication>)
    ensures IsSubseq(r, pubs)
  {
    var lq := Lower(query);
    Filter(pubs, (p: Publication) => Matches(p, lq))
  }

  /** The result holds exactly the matching publications, in their original order. */
  lemma SearchExact(pubs: seq<Publication>, query: string)
    ensures IsSubseq(SearchPublications(pubs, query), pubs)
    ensures forall p :: p in SearchPublications(pubs, query) <==> p in pubs && Matches(p, Lower(query))
    ensures forall p :: multiset(SearchPublications(pubs, query))[p] ==
                        (if Matches(p, Lower(query)) then multiset(pubs)[p] else 0)
  {
    var r := SearchPublications(pubs, query);
    forall p
      ensures multiset(r)[p] == if Matches(p, Lower(query)) then multiset(pubs)[p] else 0
    {
      FilterCount(pubs, (q: Publication) => Matches(q, Lower(query)), p);
    }
    forall p | p in r
      ensures p in pubs && Matches(p, Lower(query))
    {
      var i :| 0 <= i < |r| && r[i] == p;
    }
    forall p | p in pubs && Matches(p, Lower(query))
      ensures p in r
    {
      var i :| 0 <= i < |pubs| && pubs[i] == p;
    }
  }

  /** An empty query matches every publication. */
  lemma SearchEmptyQuery(pubs: seq<Publication>)
    ensures SearchPublications(pubs, "") == pubs
  {
    forall i | 0 <= i < |pubs|
      ensures Matches(pubs[i], Lower(""))
    {
      assert Lower("") == "";
      assert Contains(Lower(pubs[i].title), "");
    }
    FilterKeepsAll(pubs, (p: Publication) => Matches(p, Lower("")));
  }

  // ---------------------------------------------------------------------------
  // getRelatedPublications

  /** `pubs.find(p => p.id === id)`: the first publication with that id. */
  function FindById(pubs: seq<Publication>, id: string): (r: Option<nat>)
    ensures r.Some? ==>
      && r.value < |pubs| && pubs[r.value].id == id
      && forall k :: 0 <= k < r.value ==> pubs[k].id != id
    ensures r.None? ==> forall k :: 0 <= k < |pubs| ==> pubs[k].id != id
  {
    if pubs == [] then None
    else if pubs[0].id == id then Some(0)
    else
      var r := FindById(pubs[1..], id);
      if r.Some? then Some(r.value + 1) else None
  }

  /** `getRelatedPublications(id)` over `pubs`. */
  function Related(pubs: seq<Publication>, id: string): (r: seq<Publication>)
    ensures IsSubseq(r, pubs)
  {
    var found := FindById(pubs, id);
    if found.None? then []
    else
      var src := pubs[found.value];
      Filter(pubs, (p: Publication) => p.id in src.connections)
  }

  /**
   * An unknown id has no related publications; otherwise the result holds exactly
   * the publications whose id the first publication with that id lists as a
   * connection, in dataset order.
   */
  lemma RelatedExact(pubs: seq<Publication>, id: string)
    ensures FindById(pubs, id).None? ==> Related(pubs, id) == []
    ensures FindById(pubs, id).Some? ==>
      forall p :: p in Related(pubs, id) <==> p in pubs && p.id in pubs[FindById(pubs, id).value].connections
  {
    var found := FindById(pubs, id);
    if found.Some? {
      var src := pubs[found.value];
      var r := Related(pubs, id);
      forall p | p in r
        ensures p in pubs && p.id in src.connections
      {
        var i :| 0 <= i < |r| && r[i] == p;
      }
      forall p | p in pubs && p.id in src.connections
        ensures p in r
      {
        var i :| 0 <= i < |pubs| && pubs[i] == p;
      }
    }
  }

  // ---------------------------------------------------------------------------
  // getStatistics

  datatype Statistics = Statistics(
    totalPublications: nat,
    totalCitations: int,
    categoriesCount: nat,
    averageCitationsPerPaper: int,
    topCategory: string)

  /** `pubs.reduce((sum, pub) => sum + pub.citations, 0)`. */
  function SumCitations(pubs: seq<Publication>): int
  {
    if pubs == [] then 0 else SumCitations(pubs[..|pubs| - 1]) + pubs[|pubs| - 1].citations
  }

  /** `Math.round(total / n)`: the integer nearest to the quotient, halves rounded up. */
  function RoundDiv(total: int, n: nat): (r: int)
    requires n > 0
    ensures 2 * n * r - n <= 2 * total < 2 * n * r + n
  {
    var q := (2 * total + n) / (2 * n);
    assert 2 * n * q <= 2 * total + n < 2 * n * q + 2 * n;
    q
  }

  /** The quotient lies within one half of the rounded value, below it by at most a half and above it by less. */
  lemma RoundDivNearest(total: int, n: nat)
    requires n > 0
    ensures (RoundDiv(total, n) as real) - 0.5 <= (total as real) / (n as real) < (RoundDiv(total, n) as real) + 0.5
  {
    var ri := RoundDiv(total, n);
    var m := n * ri;
    assert 2 * m - n <= 2 * total < 2 * m + n;
    assert (m as real) == (n as real) * (ri as real);
    WithinHalf(total as real, n as real, ri as real);
  }

  /** If `2nr - n <= 2t < 2nr + n` then `t / n` lies within one half of `r`, below by at most a half. */
  lemma WithinHalf(t: real, n: real, r: real)
    requires n > 0.0
    requires 2.0 * (n * r) - n <= 2.0 * t < 2.0 * (n * r) + n
    ensures r - 0.5 <= t / n < r + 0.5
  {
    var x := t / n;
    assert x * n == t;
    assert n * (2.0 * x) == 2.0 * t;
    assert n * (2.0 * r - 1.0) == 2.0 * (n * r) - n;
    assert n * (2.0 * r + 1.0) == 2.0 * (n * r) + n;
    MulCancel(n, 2.0 * r - 1.0, 2.0 * x);
    MulCancel(n, 2.0 * x, 2.0 * r + 1.0);
  }

  lemma MulCancel(n: real, a: real, b: real)
    requires n > 0.0
    ensures n * a <= n * b ==> a <= b
    ensures n * a < n * b ==> a < b
  {
    if a > b {
      assert n * (a - b) > 0.0;
    }
    if a >= b {
      assert n * (a - b) >= 0.0;
    }
  }

  /** The number of publications in category `c`. */
  function CountIn(pubs: seq<Publication>, c: string): nat
  {
    if pubs == [] then 0
    else CountIn(pubs[..|pubs| - 1], c) + (if pubs[|pubs| - 1].category == c then 1 else 0)
  }

  /** The keys of `categoryCount` in insertion order: each category at its first occurrence. */
  function Categories(pubs: seq<Publication>): (cs: seq<string>)
    ensures forall k, l :: 0 <= k < l < |cs| ==> cs[k] != cs[l]
  {
    if pubs == [] then []
    else
      var init := Categories(pubs[..|pubs| - 1]);
      var c := pubs[|pubs| - 1].category;
      if c in init then init else init + [c]
  }

  /** A category is a key exactly when some publication has it, and then its count is positive. */
  lemma {:induction false} CategoriesExact(pubs: seq<Publication>, c: string)
    ensures c in Categories(pubs) <==> exists k :: 0 <= k < |pubs| && pubs[k].category == c
    ensures c in Categories(pubs) <==> CountIn(pubs, c) > 0
  {
    if pubs != [] {
      var init := pubs[..|pubs| - 1];
      CategoriesExact(init, c);
      if exists k :: 0 <= k < |init| && init[k].category == c {
        var k :| 0 <= k < |init| && init[k].category == c;
        assert pubs[k] == init[k];
      }
      if exists k :: 0 <= k < |pubs| && pubs[k].category == c {
        var k :| 0 <= k < |pubs| && pubs[k].category == c;
        if k < |init| {
          assert init[k] == pubs[k];
        }
      }
    }
  }

  /** `Object.entries(categoryCount)`: each key with its count, in insertion order. */
  function Entries(pubs: seq<Publication>): (es: seq<(string, nat)>)
    ensures |es| == |Categories(pubs)|
  {
    var cs := Categories(pubs);
    seq(|cs|, k requires 0 <= k < |cs| => (cs[k], CountIn(pubs, cs[k])))
  }

  /**
   * The head of the entries after the stable sort by decreasing count: the first
   * entry whose count is maximal.
   */
  function TopOf(es: seq<(string, nat)>): (r: (string, nat))
    requires es != []
    ensures r in es
    ensures forall k :: 0 <= k < |es| ==> es[k].1 <= r.1
    ensures exists j :: 0 <= j < |es| && es[j] == r && forall k :: 0 <= k < j ==> es[k].1 < r.1
  {
    if |es| == 1 then es[0]
    else
      var init := es[..|es| - 1];
      var best := TopOf(init);
      var j :| 0 <= j < |init| && init[j] == best && forall k :: 0 <= k < j ==> init[k].1 < best.1;
      assert forall k :: 0 <= k < |init| ==> es[k] == init[k];
      if es[|es| - 1].1 > best.1 then es[|es| - 1] else best
  }

  /** `getStatistics()` over `pubs`: an empty list makes the source throw, here a failure. */
  function StatisticsOf(pubs: seq<Publication>, categoriesCount: nat): Result<Statistics>
  {
    if pubs == [] then Failure("Cannot read properties of undefined (reading '0')")
    else
      var total := SumCitations(pubs);
      Success(Statistics(|pubs|, total, categoriesCount, RoundDiv(total, |pubs|), TopOf(Entries(pubs)).0))
  }

  /** `counts` and `order` are the `categoryCount` record after the publications `seen`. */
  ghost predicate Tallied(seen: seq<Publication>, counts: map<string, nat>, order: seq<string>)
  {
    && order == Categories(seen)
    && (forall c :: c in counts <==> c in order)
    && (forall c :: c in counts ==> counts[c] == CountIn(seen, c))
  }

  /** One call of the `forEach` callback: `categoryCount[c] = (categoryCount[c] || 0) + 1`. */
  method Tally(ghost seen: seq<Publication>, counts: map<string, nat>, order: seq<string>, p: Publication)
    returns (counts': map<string, nat>, order': seq<string>)
    requires Tallied(seen, counts, order)
    ensures Tallied(seen + [p], counts', order')
  {
    var next := seen + [p];
    assert next[..|seen|] == seen;
    assert forall d :: CountIn(next, d) == CountIn(seen, d) + (if d == p.category then 1 else 0);
    var c := p.category;
    CategoriesExact(seen, c);
    if c !in counts {
      order' := order + [c];
      counts' := counts[c := 1];
    } else {
      order' := order;
      counts' := counts[c := counts[c] + 1];
    }
  }

  /** `getStatistics`: the `forEach` that fills the `categoryCount` record, then the summary. */
  method GetStatistics(pubs: seq<Publication>, categoriesCount: nat) returns (r: Result<Statistics>)
    ensures r == StatisticsOf(pubs, categoriesCount)
  {
    var counts: map<string, nat> := map[];
    var order: seq<string> := [];
    for k := 0 to |pubs|
      invariant Tallied(pubs[..k], counts, order)
    {
      assert pubs[..k + 1] == pubs[..k] + [pubs[k]];
      counts, order := Tally(pubs[..k], counts, order, pubs[k]);
    }
    assert pubs[..|pubs|] == pubs;
    if |pubs| == 0 {
      return Failure("Cannot read properties of undefined (reading '0')");
    }
    var entries := seq(|order|, k requires 0 <= k < |order| => (order[k], counts[order[k]]));
    assert entries == Entries(pubs);
    var total := SumCitations(pubs);
    r := Success(Statistics(|pubs|, total, categoriesCount, RoundDiv(total, |pubs|), TopOf(entries).0));
  }

  /**
   * For a non-empty list: the count and the citation sum, the average rounded to
   * the nearest integer (halves up), `categoriesCount` as given whatever the list,
   * and a top category that occurs, whose count no category exceeds, and that
   * comes first among the categories with that count.
   */
  lemma StatisticsFacts(pubs: seq<Publication>, categoriesCount: nat)
    ensures StatisticsOf(pubs, categoriesCount).Failure? <==> pubs == []
    ensures pubs != [] ==>
      var s := StatisticsOf(pubs, categoriesCount).value;
      var cs := Categories(pubs);
      && s.totalPublications == |pubs|
      && s.totalCitations == SumCitations(pubs)
      && s.categoriesCount == categoriesCount
      && 2 * |pubs| * s.averageCitationsPerPaper - |pubs| <= 2 * s.totalCitations < 2 * |pubs| * s.averageCitationsPerPaper + |pubs|
      && s.topCategory in cs
      && (forall c :: c in cs ==> CountIn(pubs, c) <= CountIn(pubs, s.topCategory))
      && (exists j :: 0 <= j < |cs| && cs[j] == s.topCategory
            && forall k :: 0 <= k < j ==> CountIn(pubs, cs[k]) < CountIn(pubs, s.topCategory))
  {
    if pubs != [] {
      TopCategory(pubs);
    }
  }

  /** The category `getStatistics` reports as top, in terms of the category counts. */
  lemma TopCategory(pubs: seq<Publication>)
    requires pubs != []
    ensures var cs := Categories(pubs);
      var top := TopOf(Entries(pubs)).0;
      && top in cs
      && (forall c :: c in cs ==> CountIn(pubs, c) <= CountIn(pubs, top))
      && (exists j :: 0 <= j < |cs| && cs[j] == top
            && forall k :: 0 <= k < j ==> CountIn(pubs, cs[k]) < CountIn(pubs, top))
  {
    var cs := Categories(pubs);
    var es := Entries(pubs);
    assert cs != [] by {
      CategoriesExact(pubs, pubs[0].category);
    }
    var top := TopOf(es);
    var j :| 0 <= j < |es| && es[j] == top && forall k :: 0 <= k < j ==> es[k].1 < top.1;
    assert cs[j] == top.0 && CountIn(pubs, top.0) == top.1;
    forall c | c in cs
      ensures CountIn(pubs, c) <= top.1
    {
      var k :| 0 <= k < |cs| && cs[k] == c;
      assert es[k].1 == CountIn(pubs, c);
    }
    forall k | 0 <= k < j
      ensures CountIn(pubs, cs[k]) < top.1
    {
      assert es[k].1 == CountIn(pubs, cs[k]);
    }
  }
}
