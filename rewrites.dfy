/**
 * What each kind of tagged cell turns into: the output name, the revealed and hidden solutions,
 * the questions, the section headings and the subsection boxes. Each lemma looks at one step
 * of the pass (`QuestionSpec.Step`) and says which cells it appends and what they show.
 */
module Rewrites {
  import opened Wrappers
  import opened Text
  import opened Notebook
  import opened QuestionSpec

  // ---------------------------------------------------------------- the output name

  /** With the first `_Solution` at `i`, the question notebook is named by the text before it
      followed by the text after it up to the next `_Solution` (or to the end): a later
      `_Solution` and everything after it are lost. */
  lemma OutputNameParts(notebook: string, i: nat)
    requires OccursAt(notebook, SolutionMarker, i)
    requires forall k :: 0 <= k < i ==> !OccursAt(notebook, SolutionMarker, k)
    ensures var rest := notebook[i + |SolutionMarker|..];
      OutputName(notebook) ==
        Ok(notebook[..i] + match IndexOf(rest, SolutionMarker) case Some(j) => rest[..j] case None => rest)
  {
    SplitSecond(notebook, SolutionMarker, i);
    ContainsIndexOf(notebook, SolutionMarker);
  }

  /** A name with exactly one `_Solution` loses just the marker. */
  lemma OutputNameSingle(before: string, after: string)
    requires !Contains(before, SolutionMarker) && !Contains(after, SolutionMarker)
    ensures OutputName(before + SolutionMarker + after) == Ok(before + after)
  {
    var m := SolutionMarker;
    var name := before + m + after;
    var i := |before|;
    assert name[..i] == before && name[i..] == m + after;
    assert OccursAt(name, m, i);
    ContainsIff(before, m);
    assert m[0] == '_' && forall j :: 1 <= j < |m| ==> m[j] != '_';
    forall k | 0 <= k < i ensures !OccursAt(name, m, k) {
      if k + |m| <= i {
        // inside `before`, where the marker does not occur
        assert !OccursAt(before, m, k);
        assert name[k..][..|m|] == before[k..][..|m|];
      } else {
        // across the start of the marker: its `_` would have to reappear inside it
        var d := i - k;
        assert name[k..][d] == name[i] == '_' != m[d];
      }
    }
    ContainsIndexOf(after, m);
    assert name[i + |m|..] == after;
    OutputNameParts(name, i);
  }

  /** A text with no `_` has no `_Solution` in it. */
  lemma NoUnderscoreNoMarker(s: string)
    requires '_' !in s
    ensures !Contains(s, SolutionMarker)
  {
    ContainsIff(s, SolutionMarker);
    forall k | 0 <= k <= |s| ensures !OccursAt(s, SolutionMarker, k) {
      if k < |s| {
        assert s[k] in s && s[k..][0] == s[k];
      }
    }
  }

  /** A text shorter than `_Solution` does not contain it. */
  lemma ShortNoMarker(s: string)
    requires |s| < |SolutionMarker|
    ensures !Contains(s, SolutionMarker)
  {
    ContainsIff(s, SolutionMarker);
  }

  /** The usual case: `algo/ex1/ex1_Solution.ipynb` gives `algo/ex1/ex1.ipynb`. */
  lemma OutputNameExample()
    ensures OutputName("algo/ex1/ex1" + SolutionMarker + ".ipynb") == Ok("algo/ex1/ex1" + ".ipynb")
  {
    var before, after := "algo/ex1/ex1", ".ipynb";
    forall k | 0 <= k < |before| ensures before[k] != '_' {
    }
    NoUnderscoreNoMarker(before);
    ShortNoMarker(after);
    OutputNameSingle(before, after);
  }

  // ---------------------------------------------------------------- solutions

  /** A `<br>\n` repeated `n` times. */
  function Breaks(n: nat): (r: string)
    ensures |r| == n * |LineBreak|
  {
    if n == 0 then "" else LineBreak + Breaks(n - 1)
  }

  /** The loops on `startswith('<br>\n')` remove whole `<br>\n` from the front, and stop at the
      first point where no `<br>\n` starts. */
  lemma {:induction false} DropBreaksShape(s: string)
    ensures !(LineBreak <= DropBreaks(s))
    ensures exists n: nat :: s == Breaks(n) + DropBreaks(s)
    decreases |s|
  {
    if LineBreak <= s {
      var rest := s[|LineBreak|..];
      DropBreaksShape(rest);
      var n: nat :| rest == Breaks(n) + DropBreaks(rest);
      assert s == Breaks(n + 1) + DropBreaks(s);
    } else {
      assert s == Breaks(0) + DropBreaks(s);
    }
  }

  /** A revealed solution: after the flush, the cell is kept with the stdout hint as its only
      output; with `@keep_output` the placeholder carrying the cell's original outputs follows
      at once. The slot is left empty and only the reveal counter moves on. */
  lemma RevealedCell(t: Texts, p: PassState, c: Cell, keepOutput: bool)
    requires Classify(c) == RevealedSolution(keepOutput)
    ensures Step(t, p, c).Ok?
    ensures var q, n := Step(t, p, c).value, |Flushed(p)|;
      && |q.kept| == n + (if keepOutput then 2 else 1) && q.kept[..n] == Flushed(p)
      && q.kept[n].kind == Code && q.kept[n].origin == c.origin
      && q.kept[n].executionCount == c.executionCount
      && q.kept[n].outputs == [Stream(t.revealInfo)]
      && (keepOutput ==> q.kept[n + 1] == Placeholder(c.outputs, c.origin))
      && q.solution == None && q.revealNr == p.revealNr + 1
      && q.questionNr == p.questionNr && q.section == p.section && q.subsection == p.subsection
  {
    var shown := c.(source := Payload(RevealHtml(t, Pad4(p.revealNr), SolutionCode(c.source))),
                    outputs := [Stream(t.revealInfo)]);
    var kept := Flushed(p) + [shown];
    var q := RevealStep(t, p, c, keepOutput);
    assert Step(t, p, c) == Ok(q);
    assert q.kept == if keepOutput then kept + [Placeholder(c.outputs, c.origin)] else kept;
    assert q.kept[..|Flushed(p)|] == Flushed(p);
  }

  /** What the kept cell of a revealed solution displays when run: its code, as the solution
      code of the cell's source, behind the button numbered by the reveal counter. */
  lemma RevealedPayload(t: Texts, p: PassState, c: Cell, keepOutput: bool)
    requires Classify(c) == RevealedSolution(keepOutput)
    ensures Step(t, p, c).Ok? && |Step(t, p, c).value.kept| > |Flushed(p)|
    ensures Displayed(Step(t, p, c).value.kept[|Flushed(p)|].source)
         == Some(RevealHtml(t, Pad4(p.revealNr), SolutionCode(c.source)))
  {
    var html := RevealHtml(t, Pad4(p.revealNr), SolutionCode(c.source));
    var kept := Flushed(p) + [c.(source := Payload(html), outputs := [Stream(t.revealInfo)])];
    var q := RevealStep(t, p, c, keepOutput);
    assert Step(t, p, c) == Ok(q);
    assert q.kept[|Flushed(p)|] == kept[|Flushed(p)|];
    PayloadRoundTrip(html);
  }

  /** The code shown for a solution never starts with a `<br>\n`. */
  lemma SolutionCodeStart(source: string)
    ensures !(LineBreak <= SolutionCode(source))
  {
    var bare := Replace(Replace(Replace(source, SolutionTag, ""), RevealTag, ""), KeepOutputTag, "");
    DropBreaksShape(LStrip(Replace(bare, "\n", LineBreak), Whitespace));
  }

  /** `@keep_output`, with or without `@reveal`: the last kept cell is a placeholder carrying
      the solution's original outputs in the solution's place, and nothing is left pending. */
  lemma KeepOutputPlaceholder(t: Texts, p: PassState, c: Cell)
    requires Classify(c) == RevealedSolution(true) || Classify(c) == HiddenSolution(true)
    ensures Step(t, p, c).Ok?
    ensures var q := Step(t, p, c).value;
      && |q.kept| > |Flushed(p)| && q.kept[|q.kept| - 1] == Placeholder(c.outputs, c.origin)
      && q.solution == None
  {
  }

  /** `@keep_output` without `@reveal`: the solution's source is dropped; after the flush the
      placeholder is its only trace, and no counter moves. */
  lemma HiddenKeepOutput(t: Texts, p: PassState, c: Cell)
    requires Classify(c) == HiddenSolution(true)
    ensures Step(t, p, c) == Ok(p.(kept := Flushed(p) + [Placeholder(c.outputs, c.origin)], solution := None))
  {
  }

  // ---------------------------------------------------------------- questions

  /** The question text keeps no character of `## @question\n` at either end: `strip` takes
      the characters as a set, so the letters of the word "question" go too. */
  lemma QuestionTextTrimmed(source: string)
    ensures var q := QuestionText(source);
      q == [] || (q[0] !in QuestionChars && q[|q| - 1] !in QuestionChars)
  {
    StripEnds(Split(source, AnswerTag)[0], QuestionChars);
  }

  /** Because `strip` works on a set of characters, a question ending in "function" loses its
      last four letters, which all occur in `## @question\n`. */
  lemma QuestionStripExample()
    ensures Strip(QuestionTag + "A function", QuestionChars) == "A func"
  {
    var s := QuestionTag + "A function";
    var n := |QuestionTag|;
    forall k | 0 <= k < n ensures s[k] in QuestionChars {
      assert s[k] == QuestionTag[k];
    }
    assert s[n..] == "A function";
    assert 'A' !in QuestionChars && 'c' !in QuestionChars;
    StripAt(s, QuestionChars, n, n + 6);
    assert s[n..n + 6] == "A func";
  }

  /** With the first `## @answer\n` at `i`, the answer is the text after it up to the next
      `## @answer\n` (or to the end), and the question comes from the text before it. */
  lemma AnswerParts(source: string, i: nat)
    requires OccursAt(source, AnswerTag, i)
    requires forall k :: 0 <= k < i ==> !OccursAt(source, AnswerTag, k)
    ensures var rest := source[i + |AnswerTag|..];
      && AnswerText(source) == Some(match IndexOf(rest, AnswerTag) case Some(j) => rest[..j] case None => rest)
      && QuestionText(source) == Strip(source[..i], QuestionChars)
  {
    SplitSecond(source, AnswerTag, i);
  }

  /** A question cell: after the flush, the cell is kept once and the question counter moves on.
      With an answer it becomes a code cell with no execution count, whose payload displays
      the question with a button numbered by the counter; without one it stays a markdown cell
      around the question. */
  lemma QuestionCellShown(t: Texts, p: PassState, c: Cell)
    requires Classify(c) == Question
    ensures Step(t, p, c).Ok?
    ensures var q, n := Step(t, p, c).value, |Flushed(p)|;
      && |q.kept| == n + 1 && q.kept[..n] == Flushed(p) && q.kept[n].origin == c.origin
      && q.solution == None && q.questionNr == p.questionNr + 1
      && q.revealNr == p.revealNr && q.section == p.section && q.subsection == p.subsection
    ensures var x := Step(t, p, c).value.kept[|Flushed(p)|];
      Contains(c.source, AnswerTag) ==>
        && x.kind == Code && x.executionCount == None && x.outputs == [Stream(t.questionInfo)]
        && Displayed(x.source)
           == Some(QuestionHtml(t, QuestionText(c.source), Pad4(p.questionNr), AnswerText(c.source).value))
    ensures var x := Step(t, p, c).value.kept[|Flushed(p)|];
      !Contains(c.source, AnswerTag) ==>
        x == c.(source := QuestionOnlyHtml(t, QuestionText(c.source))) && x.kind == Markdown
  {
    if Contains(c.source, AnswerTag) {
      PayloadRoundTrip(QuestionHtml(t, QuestionText(c.source), Pad4(p.questionNr), AnswerText(c.source).value));
    }
  }

  // ---------------------------------------------------------------- sections

  /** A section cell whose first ' | ' is at `i`: after the flush it becomes the heading
      numbered by the incremented section counter, titled by everything after that ' | ', and
      the subsection counter starts again from zero. */
  lemma SectionHeading(t: Texts, p: PassState, c: Cell, i: nat)
    requires Classify(c) == Section
    requires OccursAt(c.source, TitleDelimiter, i)
    requires forall k :: 0 <= k < i ==> !OccursAt(c.source, TitleDelimiter, k)
    ensures Step(t, p, c) == Ok(p.(
      kept := Flushed(p) + [c.(source := SectionSource(p.section + 1, c.source[i + |TitleDelimiter|..]))],
      solution := None, section := p.section + 1, subsection := 0))
  {
    assert Step(t, p, c) == SectionStep(p, c);
    AfterFirst(c.source, TitleDelimiter, i);
  }

  /** A subsection cell whose first ' | ' is at `i`: after the flush it becomes the box numbered
      `section.subsection` with the incremented subsection counter, titled by everything after
      that ' | '. */
  lemma SubsectionBox(t: Texts, p: PassState, c: Cell, i: nat)
    requires Classify(c) == Subsection
    requires OccursAt(c.source, TitleDelimiter, i)
    requires forall k :: 0 <= k < i ==> !OccursAt(c.source, TitleDelimiter, k)
    ensures Step(t, p, c) == Ok(p.(
      kept := Flushed(p) + [c.(source := SubsectionSource(t, Logo(t, c.source), p.section,
                                                          p.subsection + 1, c.source[i + |TitleDelimiter|..]))],
      solution := None, subsection := p.subsection + 1))
  {
    assert Step(t, p, c) == SubsectionStep(t, p, c);
    AfterFirst(c.source, TitleDelimiter, i);
  }

  /** The box shows the R logo when `@r_code` appears, even beside `@python_code`; the Python
      logo when only `@python_code` appears; no logo when neither does. */
  lemma SubsectionLogo(t: Texts, source: string, section: nat, subsection: nat, title: string)
    ensures var box, heading := SubsectionSource(t, Logo(t, source), section, subsection, title),
                                "\t" + SubsectionTitle(section, subsection, title) + "\n</div>";
      && (Contains(source, RCodeTag) ==> box == t.successOpen + "\t" + t.rLogo + heading)
      && (!Contains(source, RCodeTag) && Contains(source, PythonCodeTag) ==>
            box == t.successOpen + "\t" + t.pythonLogo + heading)
      && (!Contains(source, RCodeTag) && !Contains(source, PythonCodeTag) ==>
            box == t.successOpen + heading)
  {
  }
}
