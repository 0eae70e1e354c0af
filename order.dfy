/**
 * The pass keeps the order of the notebook. Each cell carries its position in the solution
 * notebook (`origin`); the converted cells come out with their positions in non-decreasing
 * order, and each of them stands at the position of some cell of the solution notebook.
 * Equal positions are a cell and the placeholder that follows it.
 */
module Order {
  import opened Wrappers
  import opened Notebook
  import opened QuestionSpec

  /** The positions the cells stand at. */
  function OriginsOf(cells: seq<Cell>): set<nat> {
    set x | x in cells :: x.origin
  }

  /** Positions strictly increase, as they do in a notebook read from a file. */
  predicate Ascending(cells: seq<Cell>) {
    forall i, j :: 0 <= i < j < |cells| ==> cells[i].origin < cells[j].origin
  }

  /** Positions never go back. */
  predicate Ordered(cells: seq<Cell>) {
    forall i, j :: 0 <= i < j < |cells| ==> cells[i].origin <= cells[j].origin
  }

  /** Appending cells that all stand at `o` after cells that all stand before `o`. */
  lemma AppendOrdered(base: seq<Cell>, extra: seq<Cell>, o: nat)
    requires Ordered(base) && (forall x :: x in base ==> x.origin < o)
    requires forall x :: x in extra ==> x.origin == o
    ensures Ordered(base + extra) && (forall x :: x in base + extra ==> x.origin <= o)
    ensures OriginsOf(base + extra) <= OriginsOf(base) + {o}
  {
    var s := base + extra;
    forall i, j | 0 <= i < j < |s| ensures s[i].origin <= s[j].origin {
      if j < |base| {
        assert s[i] == base[i] && s[j] == base[j];
      } else if i < |base| {
        assert s[i] in base && s[j] in extra;
      } else {
        assert s[i] in extra && s[j] in extra;
      }
    }
  }

  /** The kept cells are a prefix of the flushed ones. */
  lemma KeptPrefix(p: PassState)
    requires Ordered(Flushed(p))
    ensures Ordered(p.kept) && forall x :: x in p.kept ==> x in Flushed(p)
  {
    var f := Flushed(p);
    forall i, j | 0 <= i < j < |p.kept| ensures p.kept[i].origin <= p.kept[j].origin {
      assert p.kept[i] == f[i] && p.kept[j] == f[j];
    }
  }

  /** Clearing the outputs of the pending cell leaves every position where it was. */
  lemma ClearedOrigins(p: PassState)
    ensures |FlushedCleared(p)| == |Flushed(p)|
    ensures forall i :: 0 <= i < |Flushed(p)| ==> FlushedCleared(p)[i].origin == Flushed(p)[i].origin
    ensures forall x :: x in FlushedCleared(p) ==> exists y :: y in Flushed(p) && y.origin == x.origin
  {
    var a, b := FlushedCleared(p), Flushed(p);
    forall x | x in a ensures exists y :: y in b && y.origin == x.origin {
      var i :| 0 <= i < |a| && a[i] == x;
      assert b[i] in b && b[i].origin == x.origin;
    }
  }

  /** The steps that flush the slot as it is and then append: what they append stands at the
      position of their cell. */
  lemma StepAppends(t: Texts, p: PassState, c: Cell)
    requires Step(t, p, c).Ok?
    requires Classify(c) != Tip && Classify(c) != HiddenSolution(false) && Classify(c) != Untagged
    ensures var f := Flushed(Step(t, p, c).value);
      Flushed(p) <= f && forall x :: x in f[|Flushed(p)|..] ==> x.origin == c.origin
  {
    var q := Step(t, p, c).value;
    assert q.solution == None;
    assert Flushed(q) == q.kept;
  }

  /** After the flush and the step, every position is at most the step's cell's and the order
      still holds, given it held before and every position was before the cell's. */
  lemma StepOrdered(t: Texts, p: PassState, c: Cell)
    requires Step(t, p, c).Ok? && Ordered(Flushed(p))
    requires forall x :: x in Flushed(p) ==> x.origin < c.origin
    ensures var f := Flushed(Step(t, p, c).value);
      && Ordered(f) && (forall x :: x in f ==> x.origin <= c.origin)
      && OriginsOf(f) <= OriginsOf(Flushed(p)) + {c.origin}
  {
    var q := Step(t, p, c).value;
    if Classify(c) == Tip {
      assert q == p;
    } else if Classify(c) == HiddenSolution(false) {
      KeptPrefix(p);
      assert Flushed(q) == p.kept + [Blanked(c)];
      AppendOrdered(p.kept, [Blanked(c)], c.origin);
      assert OriginsOf(p.kept) <= OriginsOf(Flushed(p));
    } else if Classify(c) == Untagged {
      UntaggedOrdered(p, c);
    } else {
      StepAppends(t, p, c);
      var extra := Flushed(q)[|Flushed(p)|..];
      assert Flushed(q) == Flushed(p) + extra;
      AppendOrdered(Flushed(p), extra, c.origin);
    }
  }

  /** An untagged cell after the flush with cleared outputs. */
  lemma UntaggedOrdered(p: PassState, c: Cell)
    requires Ordered(Flushed(p)) && forall x :: x in Flushed(p) ==> x.origin < c.origin
    ensures var f := FlushedCleared(p) + [c];
      && Ordered(f) && (forall x :: x in f ==> x.origin <= c.origin)
      && OriginsOf(f) <= OriginsOf(Flushed(p)) + {c.origin}
  {
    var a := FlushedCleared(p);
    ClearedOrigins(p);
    forall i, j | 0 <= i < j < |a| ensures a[i].origin <= a[j].origin {
      assert a[i].origin == Flushed(p)[i].origin && a[j].origin == Flushed(p)[j].origin;
    }
    forall x | x in a ensures x.origin < c.origin && x.origin in OriginsOf(Flushed(p)) {
      var y :| y in Flushed(p) && y.origin == x.origin;
    }
    AppendOrdered(a, [c], c.origin);
  }

  /** The order holds over a whole run, and no position is made up. */
  lemma {:induction false} RunOrdered(t: Texts, cells: seq<Cell>, p: PassState)
    requires Ascending(cells) && Run(t, cells, p).Ok? && Ordered(Flushed(p))
    requires forall x, i :: x in Flushed(p) && 0 <= i < |cells| ==> x.origin < cells[i].origin
    ensures Ordered(Flushed(Run(t, cells, p).value))
    ensures OriginsOf(Flushed(Run(t, cells, p).value)) <= OriginsOf(Flushed(p)) + OriginsOf(cells)
    decreases |cells|
  {
    if cells != [] {
      var c := cells[0];
      StepOrdered(t, p, c);
      var q := Step(t, p, c).value;
      var rest := cells[1..];
      forall x, i | x in Flushed(q) && 0 <= i < |rest| ensures x.origin < rest[i].origin {
        assert rest[i] == cells[i + 1];
      }
      forall i, j | 0 <= i < j < |rest| ensures rest[i].origin < rest[j].origin {
        assert rest[i] == cells[i + 1] && rest[j] == cells[j + 1];
      }
      RunOrdered(t, rest, q);
      assert OriginsOf(rest) <= OriginsOf(cells);
    }
  }

  /** The cells of the question notebook keep the order of the solution notebook, and each
      stands at the position of one of its cells. */
  lemma ConvertOrdered(t: Texts, cells: seq<Cell>)
    requires Ascending(cells) && Convert(t, cells).Ok?
    ensures Ordered(Convert(t, cells).value)
    ensures OriginsOf(Convert(t, cells).value) <= OriginsOf(cells)
  {
    assert Flushed(Start) == [];
    RunOrdered(t, cells, Start);
  }
}
