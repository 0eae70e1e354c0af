/**
 * What the cell pass of `create_question` guarantees, proved on its reference definition
 * `QuestionSpec.Run`: the shape of the pending-solution slot, the growth and order of the kept
 * cells, the counters, the errors, the tip cells, and the contents of the rewritten cells.
 */
module Properties {
  import opened Wrappers
  import opened Text
  import opened Notebook
  import opened QuestionSpec

  // ---------------------------------------------------------------- one step at a time

  /** A run of the pass over `a + b` is a run over `a` followed by a run over `b`. */
  lemma {:induction false} RunAppend(t: Texts, a: seq<Cell>, b: seq<Cell>, p: PassState)
    ensures Run(t, a + b, p) == match Run(t, a, p) case Err(e) => Err(e) case Ok(q) => Run(t, b, q)
    decreases |a|
  {
    if a == [] {
      assert a + b == b;
    } else {
      assert (a + b)[0] == a[0] && (a + b)[1..] == a[1..] + b;
      match Step(t, p, a[0])
      case Err(_) =>
      case Ok(q) => RunAppend(t, a[1..], b, q);
    }
  }

  /** Stopping the pass after the first `i` cells: a successful run was successful up to there. */
  lemma RunPrefix(t: Texts, cells: seq<Cell>, i: nat, p: PassState)
    requires i <= |cells| && Run(t, cells, p).Ok?
    ensures Run(t, cells[..i], p).Ok?
    ensures Run(t, cells, p) == Run(t, cells[i..], Run(t, cells[..i], p).value)
  {
    assert cells == cells[..i] + cells[i..];
    RunAppend(t, cells[..i], cells[i..], p);
  }

  // ---------------------------------------------------------------- the pending slot

  /** The slot is empty, or holds a code cell whose source and outputs were blanked. */
  predicate SlotBlank(p: PassState) {
    p.solution.Some? ==>
      p.solution.value.kind == Code && p.solution.value.source == "" && p.solution.value.outputs == []
  }

  /** Only a plain `# @solution` cell fills the slot, and it takes the place of whatever was
      there without flushing it; a tip cell leaves the state as it is; every other step leaves
      the slot empty. */
  lemma SlotFilledOnlyByPlainSolution(t: Texts, p: PassState, c: Cell)
    requires Step(t, p, c).Ok?
    ensures var q := Step(t, p, c).value;
      q.solution.Some? ==>
        || (Classify(c) == HiddenSolution(false) && q.solution == Some(Blanked(c)) && q.kept == p.kept)
        || (Classify(c) == Tip && q == p)
  {
  }

  /** The blank shape of the slot holds after every successful run. */
  lemma {:induction false} RunKeepsSlotBlank(t: Texts, cells: seq<Cell>, p: PassState)
    requires SlotBlank(p) && Run(t, cells, p).Ok?
    ensures SlotBlank(Run(t, cells, p).value)
    decreases |cells|
  {
    if cells != [] {
      var c := cells[0];
      SlotFilledOnlyByPlainSolution(t, p, c);
      var q := Step(t, p, c).value;
      assert SlotBlank(q);
      RunKeepsSlotBlank(t, cells[1..], q);
    }
  }

  /** Since the slot only ever holds blanked cells, clearing its outputs before a flush (as an
      untagged cell does) makes no difference. */
  lemma ClearedFlushIsFlush(p: PassState)
    requires SlotBlank(p)
    ensures FlushedCleared(p) == Flushed(p)
  {
  }

  /** Two plain solution cells in a row: the first is lost, only the second stays pending. */
  lemma PlainSolutionOverwrites(t: Texts, p: PassState, first: Cell, second: Cell)
    requires Classify(first) == HiddenSolution(false) && Classify(second) == HiddenSolution(false)
    ensures Run(t, [first, second], p) == Ok(p.(solution := Some(Blanked(second))))
  {
    var q := p.(solution := Some(Blanked(first)));
    var r := p.(solution := Some(Blanked(second)));
    assert Step(t, p, first) == Ok(q);
    assert Step(t, q, second) == Ok(r);
    assert [second][1..] == [];
    assert Run(t, [second], q) == Run(t, [], r);
    assert [first, second][1..] == [second];
  }

  /** A plain solution cell at the very end is not lost: the last flush, after the loop, makes
      its blanked form the last cell of the question notebook. */
  lemma TrailingSolutionSurfaces(t: Texts, cells: seq<Cell>, c: Cell)
    requires Classify(c) == HiddenSolution(false) && Convert(t, cells).Ok?
    ensures Convert(t, cells + [c]).Ok?
    ensures var out := Convert(t, cells + [c]).value; |out| > 0 && out[|out| - 1] == Blanked(c)
  {
    RunAppend(t, cells, [c], Start);
    var p := Run(t, cells, Start).value;
    assert [c][1..] == [];
    assert Run(t, [c], p) == Run(t, [], p.(solution := Some(Blanked(c))));
  }

  // ---------------------------------------------------------------- the kept cells

  /** Whatever a flush appends after, the kept cells stay in front. */
  lemma FlushKeepsFront(p: PassState)
    ensures forall extra: seq<Cell> {:trigger Flushed(p) + extra} :: p.kept <= Flushed(p) + extra
    ensures forall extra: seq<Cell> {:trigger FlushedCleared(p) + extra} :: p.kept <= FlushedCleared(p) + extra
  {
    forall extra: seq<Cell> ensures p.kept <= Flushed(p) + extra {
      assert Flushed(p) + extra == p.kept + (Pending(p.solution) + extra);
    }
    forall extra: seq<Cell> ensures p.kept <= FlushedCleared(p) + extra {
      assert FlushedCleared(p) + extra
          == p.kept + ((if p.solution.Some? then [p.solution.value.(outputs := [])] else []) + extra);
    }
  }

  /** A step only appends to the kept cells. */
  lemma StepExtendsKept(t: Texts, p: PassState, c: Cell)
    requires Step(t, p, c).Ok?
    ensures p.kept <= Step(t, p, c).value.kept
  {
    FlushKeepsFront(p);
  }

  lemma {:induction false} RunExtendsKept(t: Texts, cells: seq<Cell>, p: PassState)
    requires Run(t, cells, p).Ok?
    ensures p.kept <= Run(t, cells, p).value.kept
    decreases |cells|
  {
    if cells != [] {
      StepExtendsKept(t, p, cells[0]);
      RunExtendsKept(t, cells[1..], Step(t, p, cells[0]).value);
    }
  }

  /** A cell that carries no tag (a code cell without `# @manage_solutions` or `# @solution`, a
      markdown cell with none of the four headings, a cell of any other type) is kept as it is. */
  lemma {:induction false} UntaggedCellsKept(t: Texts, cells: seq<Cell>, p: PassState, i: nat)
    requires Run(t, cells, p).Ok? && i < |cells| && Classify(cells[i]) == Untagged
    ensures cells[i] in Run(t, cells, p).value.kept
    decreases |cells|
  {
    var c := cells[0];
    var q := Step(t, p, c).value;
    if i == 0 {
      assert c in q.kept;
      RunExtendsKept(t, cells[1..], q);
    } else {
      UntaggedCellsKept(t, cells[1..], q, i - 1);
    }
  }

  // ---------------------------------------------------------------- errors

  /** A section or subsection cell must have a title after ' | '. */
  predicate Titled(c: Cell) {
    (Classify(c) == Section || Classify(c) == Subsection) ==> Contains(c.source, TitleDelimiter)
  }

  lemma StepFails(t: Texts, p: PassState, c: Cell)
    ensures Step(t, p, c).Ok? <==> Titled(c)
    ensures Step(t, p, c).Err? ==> Step(t, p, c).error == MissingTitleDelimiter
  {
  }

  /** The pass fails exactly when some section or subsection cell has no ' | ', and then with
      the missing-title error. */
  lemma {:induction false} RunFails(t: Texts, cells: seq<Cell>, p: PassState)
    ensures Run(t, cells, p).Ok? <==> forall i :: 0 <= i < |cells| ==> Titled(cells[i])
    ensures Run(t, cells, p).Err? ==> Run(t, cells, p).error == MissingTitleDelimiter
    decreases |cells|
  {
    if cells != [] {
      StepFails(t, p, cells[0]);
      if Step(t, p, cells[0]).Ok? {
        RunFails(t, cells[1..], Step(t, p, cells[0]).value);
        assert forall i :: 1 <= i < |cells| ==> cells[i] == cells[1..][i - 1];
      }
    }
  }

  // ---------------------------------------------------------------- tips

  /** The cells without the tip cells. */
  function WithoutTips(cells: seq<Cell>): (r: seq<Cell>)
    ensures |r| <= |cells|
    ensures forall c :: c in r ==> c in cells && Classify(c) != Tip
  {
    if cells == [] then []
    else if Classify(cells[0]) == Tip then WithoutTips(cells[1..])
    else [cells[0]] + WithoutTips(cells[1..])
  }

  /** Tip cells play no part: the pass gives the same result with them removed. */
  lemma {:induction false} TipsIgnored(t: Texts, cells: seq<Cell>, p: PassState)
    ensures Run(t, cells, p) == Run(t, WithoutTips(cells), p)
    decreases |cells|
  {
    if cells != [] {
      var c := cells[0];
      if Classify(c) == Tip {
        TipsIgnored(t, cells[1..], p);
      } else {
        var w := WithoutTips(cells);
        assert w[0] == c && w[1..] == WithoutTips(cells[1..]);
        match Step(t, p, c)
        case Err(_) =>
        case Ok(q) => TipsIgnored(t, cells[1..], q);
      }
    }
  }

  // ---------------------------------------------------------------- counters

  /** The three counters that only ever go up. */
  datatype Counter = Questions | Reveals | Sections

  /** The cells that move `k`. */
  predicate Moves(c: Cell, k: Counter) {
    match k
    case Questions => Classify(c) == Question
    case Reveals => Classify(c).RevealedSolution?
    case Sections => Classify(c) == Section
  }

  function Occurrences(cells: seq<Cell>, k: Counter): nat {
    if cells == [] then 0
    else (if Moves(cells[0], k) then 1 else 0) + Occurrences(cells[1..], k)
  }

  function CounterOf(p: PassState, k: Counter): nat {
    match k
    case Questions => p.questionNr
    case Reveals => p.revealNr
    case Sections => p.section
  }

  lemma {:induction false} OccurrencesAppend(a: seq<Cell>, b: seq<Cell>, k: Counter)
    ensures Occurrences(a + b, k) == Occurrences(a, k) + Occurrences(b, k)
    decreases |a|
  {
    if a == [] {
      assert a + b == b;
    } else {
      assert (a + b)[0] == a[0] && (a + b)[1..] == a[1..] + b;
      OccurrencesAppend(a[1..], b, k);
    }
  }

  /** Each counter goes up by one for each cell that moves it, and for nothing else. */
  lemma {:induction false} RunCounts(t: Texts, cells: seq<Cell>, p: PassState, k: Counter)
    requires Run(t, cells, p).Ok?
    ensures CounterOf(Run(t, cells, p).value, k) == CounterOf(p, k) + Occurrences(cells, k)
    decreases |cells|
  {
    if cells != [] {
      var q := Step(t, p, cells[0]).value;
      assert CounterOf(q, k) == CounterOf(p, k) + (if Moves(cells[0], k) then 1 else 0);
      RunCounts(t, cells[1..], q, k);
    }
  }

  /** As the pass reaches the cell at `i`, each counter counts the cells before it that move it. */
  lemma CounterBefore(t: Texts, cells: seq<Cell>, i: nat, k: Counter)
    requires Run(t, cells, Start).Ok? && i <= |cells|
    ensures Run(t, cells[..i], Start).Ok?
    ensures CounterOf(Run(t, cells[..i], Start).value, k) == Occurrences(cells[..i], k)
  {
    RunPrefix(t, cells, i, Start);
    RunCounts(t, cells[..i], Start, k);
  }

  /** The id a question or a solution is numbered by is the counter as the pass reaches its
      cell: a cell that moves a counter makes every later cell see a larger count, so the ids
      `f"{n:04d}"` given to two such cells never coincide. */
  lemma CounterIdsDistinct(t: Texts, cells: seq<Cell>, i: nat, j: nat, k: Counter)
    requires Run(t, cells, Start).Ok? && i < j <= |cells| && Moves(cells[i], k)
    ensures Run(t, cells[..i], Start).Ok? && Run(t, cells[..j], Start).Ok?
    ensures CounterOf(Run(t, cells[..i], Start).value, k) < CounterOf(Run(t, cells[..j], Start).value, k)
    ensures Pad4(CounterOf(Run(t, cells[..i], Start).value, k)) != Pad4(CounterOf(Run(t, cells[..j], Start).value, k))
  {
    CounterBefore(t, cells, i, k);
    CounterBefore(t, cells, j, k);
    var between := cells[i..j];
    assert cells[..j] == cells[..i] + between;
    OccurrencesAppend(cells[..i], between, k);
    assert between[0] == cells[i];
    var m, n := Occurrences(cells[..i], k), Occurrences(cells[..j], k);
    assert m < n;
    Pad4Injective(m, n);
  }

  // ---------------------------------------------------------------- subsections

  /** The index of the last section cell, if any. */
  function LastSection(cells: seq<Cell>): (r: Option<nat>)
    ensures r.Some? ==> r.value < |cells| && Classify(cells[r.value]) == Section
    ensures r.Some? ==> forall k :: r.value < k < |cells| ==> Classify(cells[k]) != Section
    ensures r.None? ==> forall k :: 0 <= k < |cells| ==> Classify(cells[k]) != Section
  {
    if cells == [] then None
    else
      var later := LastSection(cells[1..]);
      assert forall k :: 1 <= k < |cells| ==> cells[k] == cells[1..][k - 1];
      if later.Some? then Some(later.value + 1)
      else if Classify(cells[0]) == Section then Some(0)
      else None
  }

  /** The number of subsection cells. */
  function SubsectionsIn(cells: seq<Cell>): nat {
    if cells == [] then 0
    else (if Classify(cells[0]) == Subsection then 1 else 0) + SubsectionsIn(cells[1..])
  }

  /** The subsection counter counts the subsection cells since the last section cell; before
      any section cell it goes on from where it stood. The section counter, for its part, counts
      all section cells (`RunCounts`). */
  lemma {:induction false} RunSubsections(t: Texts, cells: seq<Cell>, p: PassState)
    requires Run(t, cells, p).Ok?
    ensures Run(t, cells, p).value.subsection ==
      match LastSection(cells)
      case None => p.subsection + SubsectionsIn(cells)
      case Some(i) => SubsectionsIn(cells[i + 1..])
    decreases |cells|
  {
    if cells != [] {
      var c := cells[0];
      var q := Step(t, p, c).value;
      var rest := cells[1..];
      assert q.subsection == if Classify(c) == Section then 0
                             else if Classify(c) == Subsection then p.subsection + 1
                             else p.subsection;
      RunSubsections(t, rest, q);
      match LastSection(rest)
      case Some(i) =>
        assert cells[i + 2..] == rest[i + 1..];
      case None =>
        if Classify(c) == Section {
          assert cells[1..] == rest;
        }
    }
  }
}
