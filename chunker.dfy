/**
 * `splitByBytes` of scripts/embed.ts: cuts a document's text into chunks whose
 * UTF-8 encoding fits a byte budget. Text that fits is one chunk. Otherwise the
 * text is split into paragraphs at runs of two or more newlines, paragraphs are
 * accumulated greedily into a buffer joined by blank lines, the buffer is
 * flushed when the next paragraph would overflow it, and a paragraph that alone
 * exceeds the budget is hard-split into byte slices.
 */
module Chunker {
  import opened Utf8
  import opened Sequences

  /** The byte budget the ingestion script uses (`MAX_EMBED_BYTES`). */
  const MaxEmbedBytes: nat := 30000

  /** A chunk: accumulated paragraphs, or one byte slice of a hard-split paragraph. */
  datatype Chunk = Text(text: string) | Slice(bytes: seq<byte>)

  /** The bytes a chunk stands for. */
  function ChunkBytes(c: Chunk): seq<byte>
  {
    match c
    case Text(t) => Encode(t)
    case Slice(bs) => bs
  }

  // ---------------------------------------------------------------------------
  // Paragraphs: `s.split(/\n{2,}/)`

  /** `p` has no two newlines in a row. */
  predicate NoBlankLine(p: string)
  {
    forall j :: 0 <= j < |p| - 1 ==> !(p[j] == '\n' && p[j + 1] == '\n')
  }

  /** `s` has no three newlines in a row. */
  predicate NoTripleNewline(s: string)
  {
    forall j :: 0 <= j < |s| - 2 ==> !(s[j] == '\n' && s[j + 1] == '\n' && s[j + 2] == '\n')
  }

  /** The first position at or after `k` where two newlines start, or `|s|`. */
  function BreakAt(s: string, k: nat): (i: nat)
    requires k <= |s|
    ensures k <= i <= |s|
    ensures i < |s| ==> i + 1 < |s| && s[i] == '\n' && s[i + 1] == '\n'
    ensures forall j :: k <= j < i && j + 1 < |s| ==> !(s[j] == '\n' && s[j + 1] == '\n')
    decreases |s| - k
  {
    if k + 1 >= |s| then |s|
    else if s[k] == '\n' && s[k + 1] == '\n' then k
    else BreakAt(s, k + 1)
  }

  /** The end of the run of newlines that starts at `k`. */
  function RunEnd(s: string, k: nat): (e: nat)
    requires k <= |s|
    ensures k <= e <= |s|
    ensures forall j :: k <= j < e ==> s[j] == '\n'
    ensures e < |s| ==> s[e] != '\n'
    decreases |s| - k
  {
    if k < |s| && s[k] == '\n' then RunEnd(s, k + 1) else k
  }

  /** `s.split(/\n{2,}/)`: the pieces between maximal runs of two or more newlines. */
  function Paragraphs(s: string): (ps: seq<string>)
    ensures |ps| >= 1
    ensures forall i :: 0 <= i < |ps| ==> NoBlankLine(ps[i])
    decreases |s|
  {
    var i := BreakAt(s, 0);
    if i == |s| then [s]
    else [s[..i]] + Paragraphs(s[RunEnd(s, i)..])
  }

  /** `ps.join("\n\n")`, built the way the buffer grows: `buf + "\n\n" + p`. */
  function Join(ps: seq<string>): string
  {
    if |ps| == 0 then ""
    else if |ps| == 1 then ps[0]
    else Join(ps[..|ps| - 1]) + "\n\n" + ps[|ps| - 1]
  }

  lemma JoinSnoc(ps: seq<string>, p: string)
    requires ps != []
    ensures Join(ps + [p]) == Join(ps) + "\n\n" + p
  {
    assert (ps + [p])[..|ps|] == ps;
  }

  lemma {:induction false} JoinCons(a: string, ps: seq<string>)
    requires ps != []
    ensures Join([a] + ps) == a + "\n\n" + Join(ps)
    decreases |ps|
  {
    if |ps| > 1 {
      var init := ps[..|ps| - 1];
      assert ([a] + ps)[..|ps|] == [a] + init;
      JoinCons(a, init);
    }
  }

  /** A joined buffer begins with its first paragraph. */
  lemma {:induction false} JoinStartsWithFirst(ps: seq<string>)
    requires ps != []
    ensures |ps[0]| <= |Join(ps)| && Join(ps)[..|ps[0]|] == ps[0]
    decreases |ps|
  {
    if |ps| > 1 {
      var init := ps[..|ps| - 1];
      JoinStartsWithFirst(init);
    }
  }

  /** Without three newlines in a row, a run that starts with two newlines is exactly two long. */
  lemma RunOfTwo(s: string, i: nat)
    requires NoTripleNewline(s) && i + 1 < |s| && s[i] == '\n' && s[i + 1] == '\n'
    ensures RunEnd(s, i) == i + 2
  {
    assert RunEnd(s, i) == RunEnd(s, i + 2);
    if i + 2 < |s| {
      assert s[i + 2] != '\n';
    }
  }

  lemma NoTripleNewlineSuffix(s: string, k: nat)
    requires NoTripleNewline(s) && k <= |s|
    ensures NoTripleNewline(s[k..])
  {
    var rest := s[k..];
    forall j | 0 <= j < |rest| - 2
      ensures !(rest[j] == '\n' && rest[j + 1] == '\n' && rest[j + 2] == '\n')
    {
      assert rest[j] == s[k + j] && rest[j + 1] == s[k + j + 1] && rest[j + 2] == s[k + j + 2];
    }
  }

  /**
   * Splitting at blank lines and joining with blank lines gives the text back,
   * as long as no run of three or more newlines was collapsed by the split.
   */
  lemma {:induction false} ParagraphsJoin(s: string)
    requires NoTripleNewline(s)
    ensures Join(Paragraphs(s)) == s
    decreases |s|
  {
    var i := BreakAt(s, 0);
    if i < |s| {
      RunOfTwo(s, i);
      var rest := s[i + 2..];
      assert Paragraphs(s) == [s[..i]] + Paragraphs(rest);
      NoTripleNewlineSuffix(s, i + 2);
      ParagraphsJoin(rest);
      JoinCons(s[..i], Paragraphs(rest));
      assert s == s[..i] + "\n\n" + rest;
    }
  }

  // ---------------------------------------------------------------------------
  // The greedy accumulation, as a function of the paragraphs seen so far

  /** The way a run of paragraphs leaves the splitter: one joined chunk, or hard-split bytes. */
  datatype Group = Joined(paras: seq<string>) | Hard(para: string)

  /** The splitter's state after some paragraphs: emitted groups, and the paragraphs in `buf`. */
  datatype Acc = Acc(done: seq<Group>, cur: seq<string>)

  /** One iteration of the paragraph loop. `cur != []` is the truthiness of `buf`. */
  function Step(acc: Acc, p: string, maxBytes: nat): Acc
  {
    var cand := if acc.cur != [] then Join(acc.cur) + "\n\n" + p else p;
    if TextBytes(cand) <= maxBytes then
      Acc(acc.done, if acc.cur != [] then acc.cur + [p] else if p == "" then [] else [p])
    else
      var flushed := if acc.cur != [] then acc.done + [Joined(acc.cur)] else acc.done;
      if TextBytes(p) <= maxBytes then Acc(flushed, if p == "" then [] else [p])
      else Acc(flushed + [Hard(p)], [])
  }

  /** The state after the paragraphs `ps`, in order. */
  function Run(ps: seq<string>, maxBytes: nat): Acc
  {
    if ps == [] then Acc([], [])
    else Step(Run(ps[..|ps| - 1], maxBytes), ps[|ps| - 1], maxBytes)
  }

  /** All groups, once the final non-empty buffer is flushed. */
  function Finish(acc: Acc): seq<Group>
  {
    acc.done + (if acc.cur != [] then [Joined(acc.cur)] else [])
  }

  /** The groups that over-budget text `s` is cut into. */
  function Groups(s: string, maxBytes: nat): seq<Group>
  {
    Finish(Run(Paragraphs(s), maxBytes))
  }

  /** The chunks one group is emitted as. */
  function GroupChunks(g: Group, maxBytes: nat): seq<Chunk>
    requires maxBytes > 0
  {
    match g
    case Joined(ps) => [Text(Join(ps))]
    case Hard(p) => SliceChunks(Batches(Encode(p), maxBytes))
  }

  function SliceChunks(bss: seq<seq<byte>>): (r: seq<Chunk>)
    ensures |r| == |bss|
    ensures forall i :: 0 <= i < |r| ==> r[i] == Slice(bss[i])
  {
    seq(|bss|, i requires 0 <= i < |bss| => Slice(bss[i]))
  }

  /** The chunks of a list of groups, in order. */
  function Chunks(gs: seq<Group>, maxBytes: nat): seq<Chunk>
    requires maxBytes > 0
  {
    if gs == [] then [] else Chunks(gs[..|gs| - 1], maxBytes) + GroupChunks(gs[|gs| - 1], maxBytes)
  }

  lemma ChunksSnoc(gs: seq<Group>, g: Group, maxBytes: nat)
    requires maxBytes > 0
    ensures Chunks(gs + [g], maxBytes) == Chunks(gs, maxBytes) + GroupChunks(g, maxBytes)
  {
    assert (gs + [g])[..|gs|] == gs;
  }

  /** `splitByBytes(s, maxBytes)` as a function. */
  function Split(s: string, maxBytes: nat): seq<Chunk>
    requires maxBytes > 0
  {
    if TextBytes(s) <= maxBytes then [Text(s)]
    else Chunks(Groups(s, maxBytes), maxBytes)
  }

  // ---------------------------------------------------------------------------
  // What the splitter guarantees

  /** A group fits the budget: a joined group is non-empty and within it, a hard one is over it. */
  predicate GroupOk(g: Group, maxBytes: nat)
  {
    match g
    case Joined(ps) => ps != [] && Join(ps) != "" && TextBytes(Join(ps)) <= maxBytes
    case Hard(p) => TextBytes(p) > maxBytes
  }

  predicate AccOk(acc: Acc, maxBytes: nat)
  {
    && (forall i :: 0 <= i < |acc.done| ==> GroupOk(acc.done[i], maxBytes))
    && (acc.cur != [] ==> GroupOk(Joined(acc.cur), maxBytes))
  }

  lemma StepOk(acc: Acc, p: string, maxBytes: nat)
    requires AccOk(acc, maxBytes)
    ensures AccOk(Step(acc, p, maxBytes), maxBytes)
  {
    var cand := if acc.cur != [] then Join(acc.cur) + "\n\n" + p else p;
    if TextBytes(cand) <= maxBytes && acc.cur != [] {
      JoinSnoc(acc.cur, p);
    }
  }

  lemma {:induction false} RunOk(ps: seq<string>, maxBytes: nat)
    ensures AccOk(Run(ps, maxBytes), maxBytes)
  {
    if ps != [] {
      RunOk(ps[..|ps| - 1], maxBytes);
      StepOk(Run(ps[..|ps| - 1], maxBytes), ps[|ps| - 1], maxBytes);
    }
  }

  lemma {:induction false} ChunksBounded(gs: seq<Group>, maxBytes: nat)
    requires maxBytes > 0
    requires forall i :: 0 <= i < |gs| ==> GroupOk(gs[i], maxBytes)
    ensures forall i :: 0 <= i < |Chunks(gs, maxBytes)| ==>
              0 < |ChunkBytes(Chunks(gs, maxBytes)[i])| <= maxBytes
  {
    if gs != [] {
      ChunksBounded(gs[..|gs| - 1], maxBytes);
      if gs[|gs| - 1].Hard? {
        BatchesShape(Encode(gs[|gs| - 1].para), maxBytes);
      }
    }
  }

  /**
   * Text within the budget is returned whole (the empty text included); over-budget
   * text becomes non-empty chunks, each within the budget.
   */
  lemma SplitBounded(s: string, maxBytes: nat)
    requires maxBytes > 0
    ensures TextBytes(s) <= maxBytes ==> Split(s, maxBytes) == [Text(s)]
    ensures TextBytes(s) > maxBytes ==>
              forall i :: 0 <= i < |Split(s, maxBytes)| ==>
                0 < |ChunkBytes(Split(s, maxBytes)[i])| <= maxBytes
  {
    if TextBytes(s) > maxBytes {
      var acc := Run(Paragraphs(s), maxBytes);
      RunOk(Paragraphs(s), maxBytes);
      ChunksBounded(Groups(s, maxBytes), maxBytes);
    }
  }

  // Coverage: every non-empty paragraph lands in exactly one group, in order.

  predicate NonEmptyText(p: string) { p != "" }

  /** The paragraphs a list of groups was made from. */
  function Paras(gs: seq<Group>): seq<string>
  {
    if gs == [] then []
    else Paras(gs[..|gs| - 1]) + (match gs[|gs| - 1] case Joined(ps) => ps case Hard(p) => [p])
  }

  lemma ParasSnoc(gs: seq<Group>, g: Group)
    ensures Paras(gs + [g]) == Paras(gs) + (match g case Joined(ps) => ps case Hard(p) => [p])
  {
    assert (gs + [g])[..|gs|] == gs;
  }

  lemma StepCovers(acc: Acc, p: string, maxBytes: nat)
    ensures Filter(Paras(Step(acc, p, maxBytes).done) + Step(acc, p, maxBytes).cur, NonEmptyText)
         == Filter(Paras(acc.done) + acc.cur, NonEmptyText) + Filter([p], NonEmptyText)
  {
    StepParas(acc, p, maxBytes);
    FilterAppend(Paras(acc.done) + acc.cur, [p], NonEmptyText);
  }

  /** A step appends its paragraph to the paragraphs held, except that it may drop an empty one. */
  lemma StepParas(acc: Acc, p: string, maxBytes: nat)
    ensures var next := Step(acc, p, maxBytes);
      || Paras(next.done) + next.cur == Paras(acc.done) + acc.cur + [p]
      || (p == "" && Paras(next.done) + next.cur == Paras(acc.done) + acc.cur)
  {
    var next := Step(acc, p, maxBytes);
    var before := Paras(acc.done) + acc.cur;
    var cand := if acc.cur != [] then Join(acc.cur) + "\n\n" + p else p;
    var flushed := if acc.cur != [] then acc.done + [Joined(acc.cur)] else acc.done;
    if acc.cur != [] {
      ParasSnoc(acc.done, Joined(acc.cur));
    }
    assert Paras(flushed) == before;
    if TextBytes(cand) <= maxBytes {
      if acc.cur != [] {
        assert Paras(next.done) + next.cur == before + [p];
      } else if p != "" {
        assert Paras(next.done) + next.cur == before + [p];
      }
    } else if TextBytes(p) <= maxBytes {
      if p != "" {
        assert Paras(next.done) + next.cur == before + [p];
      }
    } else {
      ParasSnoc(flushed, Hard(p));
      assert Paras(next.done) + next.cur == before + [p];
    }
  }

  lemma {:induction false} RunCovers(ps: seq<string>, maxBytes: nat)
    ensures Filter(Paras(Run(ps, maxBytes).done) + Run(ps, maxBytes).cur, NonEmptyText)
         == Filter(ps, NonEmptyText)
  {
    if ps != [] {
      var init, last := ps[..|ps| - 1], ps[|ps| - 1];
      assert ps == init + [last];
      RunCovers(init, maxBytes);
      StepCovers(Run(init, maxBytes), last, maxBytes);
      FilterAppend(init, [last], NonEmptyText);
    }
  }

  /**
   * Over-budget text: the groups hold, in order, exactly the non-empty paragraphs
   * of the text (the splitter drops an empty paragraph only when its buffer is empty),
   * a joined group becomes the chunk `paragraphs.join("\n\n")`, and the slices of a
   * hard-split paragraph concatenate to its bytes.
   */
  lemma SplitCovers(s: string, maxBytes: nat)
    requires maxBytes > 0 && TextBytes(s) > maxBytes
    ensures Filter(Paras(Groups(s, maxBytes)), NonEmptyText) == Filter(Paragraphs(s), NonEmptyText)
    ensures Split(s, maxBytes) == Chunks(Groups(s, maxBytes), maxBytes)
    ensures forall i :: 0 <= i < |Groups(s, maxBytes)| && Groups(s, maxBytes)[i].Hard? ==>
              Flatten(Batches(Encode(Groups(s, maxBytes)[i].para), maxBytes)) == Encode(Groups(s, maxBytes)[i].para)
  {
    var acc := Run(Paragraphs(s), maxBytes);
    RunCovers(Paragraphs(s), maxBytes);
    forall i | 0 <= i < |Groups(s, maxBytes)| && Groups(s, maxBytes)[i].Hard?
      ensures Flatten(Batches(Encode(Groups(s, maxBytes)[i].para), maxBytes)) == Encode(Groups(s, maxBytes)[i].para)
    {
      BatchesShape(Encode(Groups(s, maxBytes)[i].para), maxBytes);
    }
    if acc.cur != [] {
      ParasSnoc(acc.done, Joined(acc.cur));
    } else {
      assert Finish(acc) == acc.done;
      assert Paras(acc.done) + acc.cur == Paras(acc.done);
    }
  }

  // Greediness: a buffer is flushed only when the next paragraph would overflow it.

  /** The first paragraph of a group. */
  function First(g: Group): string
  {
    match g
    case Joined(ps) => if ps == [] then "" else ps[0]
    case Hard(p) => p
  }

  /** Appending a blank line and `q` to the joined paragraphs `ps` exceeds the budget. */
  predicate Overflows(ps: seq<string>, q: string, maxBytes: nat)
  {
    TextBytes(Join(ps) + "\n\n" + q) > maxBytes
  }

  predicate Greedy(gs: seq<Group>, maxBytes: nat)
  {
    forall i :: 0 <= i < |gs| - 1 && gs[i].Joined? ==> Overflows(gs[i].paras, First(gs[i + 1]), maxBytes)
  }

  /**
   * The splitter's state is greedy, and the buffer flushed last would overflow with
   * whatever paragraph starts the next group: the paragraph now in the buffer, or,
   * when the buffer is empty, even an empty one.
   */
  predicate AccGreedy(acc: Acc, maxBytes: nat)
  {
    && Greedy(acc.done, maxBytes)
    && (acc.done != [] && acc.done[|acc.done| - 1].Joined? ==>
          var last := acc.done[|acc.done| - 1].paras;
          Overflows(last, if acc.cur != [] then acc.cur[0] else "", maxBytes))
  }

  lemma OverflowsMonotone(ps: seq<string>, q: string, maxBytes: nat)
    requires Overflows(ps, "", maxBytes)
    ensures Overflows(ps, q, maxBytes)
  {
    EncodeAppend(Join(ps) + "\n\n", q);
    assert Join(ps) + "\n\n" + "" == Join(ps) + "\n\n";
  }

  /** Appending a group keeps the list greedy when the group before it overflows with the new one. */
  lemma GreedySnoc(gs: seq<Group>, g: Group, maxBytes: nat)
    requires Greedy(gs, maxBytes)
    requires gs != [] && gs[|gs| - 1].Joined? ==> Overflows(gs[|gs| - 1].paras, First(g), maxBytes)
    ensures Greedy(gs + [g], maxBytes)
  {
    var all := gs + [g];
    forall i | 0 <= i < |all| - 1 && all[i].Joined?
      ensures Overflows(all[i].paras, First(all[i + 1]), maxBytes)
    {
      if i < |gs| - 1 {
        assert all[i] == gs[i] && all[i + 1] == gs[i + 1];
      } else {
        assert all[i] == gs[|gs| - 1] && all[i + 1] == g;
      }
    }
  }

  lemma StepGreedy(acc: Acc, p: string, maxBytes: nat)
    requires AccGreedy(acc, maxBytes)
    ensures AccGreedy(Step(acc, p, maxBytes), maxBytes)
  {
    if TextBytes(if acc.cur != [] then Join(acc.cur) + "\n\n" + p else p) <= maxBytes {
      StepGreedyFits(acc, p, maxBytes);
    } else {
      StepGreedyFlush(acc, p, maxBytes);
    }
  }

  lemma StepGreedyFlush(acc: Acc, p: string, maxBytes: nat)
    requires AccGreedy(acc, maxBytes)
    requires TextBytes(if acc.cur != [] then Join(acc.cur) + "\n\n" + p else p) > maxBytes
    ensures AccGreedy(Step(acc, p, maxBytes), maxBytes)
  {
    if acc.cur != [] {
      StepGreedyFlushBuffer(acc, p, maxBytes);
    } else {
      StepGreedyHard(acc, p, maxBytes);
    }
  }

  /** With an empty buffer, `p` alone is over budget and is hard-split. */
  lemma StepGreedyHard(acc: Acc, p: string, maxBytes: nat)
    requires AccGreedy(acc, maxBytes) && acc.cur == []
    requires TextBytes(p) > maxBytes
    ensures AccGreedy(Step(acc, p, maxBytes), maxBytes)
  {
    var gs := acc.done + [Hard(p)];
    assert Greedy(gs, maxBytes) by {
      if acc.done != [] && acc.done[|acc.done| - 1].Joined? {
        OverflowsMonotone(acc.done[|acc.done| - 1].paras, p, maxBytes);
      }
      GreedySnoc(acc.done, Hard(p), maxBytes);
    }
    assert gs[|gs| - 1].Hard?;
    StepHard(acc, p, maxBytes);
  }

  lemma StepHard(acc: Acc, p: string, maxBytes: nat)
    requires acc.cur == [] && TextBytes(p) > maxBytes
    ensures Step(acc, p, maxBytes) == Acc(acc.done + [Hard(p)], [])
  {
  }

  /** The buffer is flushed because `p` does not fit after it. */
  lemma StepGreedyFlushBuffer(acc: Acc, p: string, maxBytes: nat)
    requires AccGreedy(acc, maxBytes) && acc.cur != []
    requires Overflows(acc.cur, p, maxBytes)
    ensures AccGreedy(Step(acc, p, maxBytes), maxBytes)
  {
    var flushed := acc.done + [Joined(acc.cur)];
    GreedySnoc(acc.done, Joined(acc.cur), maxBytes);
    if TextBytes(p) > maxBytes {
      GreedySnoc(flushed, Hard(p), maxBytes);
      assert Step(acc, p, maxBytes) == Acc(flushed + [Hard(p)], []);
    } else {
      assert Step(acc, p, maxBytes) == Acc(flushed, if p == "" then [] else [p]);
    }
  }

  lemma StepGreedyFits(acc: Acc, p: string, maxBytes: nat)
    requires AccGreedy(acc, maxBytes)
    requires TextBytes(if acc.cur != [] then Join(acc.cur) + "\n\n" + p else p) <= maxBytes
    ensures AccGreedy(Step(acc, p, maxBytes), maxBytes)
  {
    var cur' := if acc.cur != [] then acc.cur + [p] else if p == "" then [] else [p];
    assert Step(acc, p, maxBytes) == Acc(acc.done, cur');
    if acc.done != [] && acc.done[|acc.done| - 1].Joined? {
      if acc.cur != [] {
        assert cur'[0] == acc.cur[0];
      } else {
        OverflowsMonotone(acc.done[|acc.done| - 1].paras, p, maxBytes);
      }
    }
  }

  lemma {:induction false} RunGreedy(ps: seq<string>, maxBytes: nat)
    ensures AccGreedy(Run(ps, maxBytes), maxBytes)
  {
    if ps != [] {
      RunGreedy(ps[..|ps| - 1], maxBytes);
      StepGreedy(Run(ps[..|ps| - 1], maxBytes), ps[|ps| - 1], maxBytes);
    }
  }

  /** Every joined chunk is followed by a group whose first paragraph would not have fit after it. */
  lemma SplitGreedy(s: string, maxBytes: nat)
    ensures Greedy(Groups(s, maxBytes), maxBytes)
  {
    var acc := Run(Paragraphs(s), maxBytes);
    RunGreedy(Paragraphs(s), maxBytes);
    if acc.cur != [] {
      GreedySnoc(acc.done, Joined(acc.cur), maxBytes);
    } else {
      assert Groups(s, maxBytes) == acc.done;
    }
  }

  // ---------------------------------------------------------------------------
  // The splitter itself

  lemma SliceChunksAppend(a: seq<seq<byte>>, b: seq<seq<byte>>)
    ensures SliceChunks(a + b) == SliceChunks(a) + SliceChunks(b)
  {
  }

  /** The `while (start < bytes.length)` loop that hard-splits one over-budget paragraph. */
  method HardSplit(p: string, maxBytes: nat) returns (slices: seq<Chunk>)
    requires maxBytes > 0
    ensures slices == GroupChunks(Hard(p), maxBytes)
  {
    var bytes := Encode(p);
    var start := 0;
    slices := [];
    while start < |bytes|
      invariant 0 <= start <= |bytes|
      invariant slices + SliceChunks(Batches(bytes[start..], maxBytes)) == SliceChunks(Batches(bytes, maxBytes))
    {
      var end := if start + maxBytes < |bytes| then start + maxBytes else |bytes|;
      BatchesFrom(bytes, start, end, maxBytes);
      SliceChunksAppend([bytes[start..end]], Batches(bytes[end..], maxBytes));
      slices := slices + [Slice(bytes[start..end])];
      start := end;
    }
    assert bytes[start..] == [];
  }

  /** `buf` and `parts` are what the loop holds in the state `acc`. */
  predicate Tracks(acc: Acc, buf: string, parts: seq<Chunk>, maxBytes: nat)
    requires maxBytes > 0
  {
    && AccOk(acc, maxBytes)
    && buf == Join(acc.cur) && (buf != "" <==> acc.cur != [])
    && parts == Chunks(acc.done, maxBytes)
  }

  /**
   * One pass of the `for (const p of paras)` loop: given the buffer and the parts for
   * the state `acc`, it leaves the buffer and the parts for `Step(acc, p, maxBytes)`.
   */
  method FeedParagraph(ghost acc: Acc, buf: string, parts: seq<Chunk>, p: string, maxBytes: nat)
    returns (buf': string, parts': seq<Chunk>)
    requires maxBytes > 0 && Tracks(acc, buf, parts, maxBytes)
    ensures Tracks(Step(acc, p, maxBytes), buf', parts', maxBytes)
  {
    StepOk(acc, p, maxBytes);
    parts' := parts;
    var cand := if buf != "" then buf + "\n\n" + p else p;
    if TextBytes(cand) <= maxBytes {
      buf' := cand;
      if acc.cur != [] {
        JoinSnoc(acc.cur, p);
      }
    } else {
      if buf != "" {
        parts' := parts' + [Text(buf)];
        ChunksSnoc(acc.done, Joined(acc.cur), maxBytes);
      }
      ghost var flushed := if acc.cur != [] then acc.done + [Joined(acc.cur)] else acc.done;
      if TextBytes(p) <= maxBytes {
        buf' := p;
      } else {
        var slices := HardSplit(p, maxBytes);
        parts' := parts' + slices;
        ChunksSnoc(flushed, Hard(p), maxBytes);
        buf' := "";
      }
    }
  }

  /** `if (buf) parts.push(buf)`: flushing the last buffer gives the chunks of all groups. */
  method FlushBuffer(ghost acc: Acc, buf: string, parts: seq<Chunk>, maxBytes: nat) returns (parts': seq<Chunk>)
    requires maxBytes > 0 && Tracks(acc, buf, parts, maxBytes)
    ensures parts' == Chunks(Finish(acc), maxBytes)
  {
    if buf != "" {
      parts' := parts + [Text(buf)];
      ChunksSnoc(acc.done, Joined(acc.cur), maxBytes);
    } else {
      assert Finish(acc) == acc.done;
      parts' := parts;
    }
  }

  /** `splitByBytes(s, maxBytes)`; a budget of zero bytes would make the hard split loop forever. */
  method SplitByBytes(s: string, maxBytes: nat) returns (parts: seq<Chunk>)
    requires maxBytes > 0
    ensures parts == Split(s, maxBytes)
  {
    if TextBytes(s) <= maxBytes {
      return [Text(s)];
    }
    parts := PackParagraphs(Paragraphs(s), maxBytes);
  }

  /** The paragraph loop of `splitByBytes` and the final flush of the buffer. */
  method PackParagraphs(paras: seq<string>, maxBytes: nat) returns (parts: seq<Chunk>)
    requires maxBytes > 0
    ensures parts == Chunks(Finish(Run(paras, maxBytes)), maxBytes)
  {
    parts := [];
    var buf := "";
    ghost var acc := Acc([], []);
    for k := 0 to |paras|
      invariant acc == Run(paras[..k], maxBytes)
      invariant Tracks(acc, buf, parts, maxBytes)
    {
      assert paras[..k + 1][..k] == paras[..k];
      buf, parts := FeedParagraph(acc, buf, parts, paras[k], maxBytes);
      acc := Step(acc, paras[k], maxBytes);
    }
    assert paras[..|paras|] == paras;
    parts := FlushBuffer(acc, buf, parts, maxBytes);
  }
}
