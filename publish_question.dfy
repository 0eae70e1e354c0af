/**
 * `create_question`: turns the cells of a solution notebook into those of its question
 * notebook in one forward pass, with a single pending-solution slot and four counters.
 * Reading and writing the notebook file are left to the caller; the cells are in memory.
 * The loop's variables (`cells_to_keep`, `solution`, `question_nr`, `reveal`, `section`,
 * `subsection`) travel together as one `PassState`; the body of the loop is `ConvertCell`,
 * which hands each kind of cell to a method of its own.
 */
module PublishQuestion {
  import opened Wrappers
  import opened Text
  import opened Notebook
  import opened QuestionSpec

  /** `while s.startswith('<br>\n'): s = s[5:]` */
  method StripLeadingBreaks(s: string) returns (r: string)
    ensures r == DropBreaks(s)
  {
    r := s;
    while LineBreak <= r
      invariant DropBreaks(r) == DropBreaks(s)
      decreases |r|
    {
      r := r[|LineBreak|..];
    }
  }

  /** `# @manage_solutions`: flush the slot, then keep the cell as the activation script. */
  method ActivationCell(t: Texts, p: PassState, c: Cell) returns (q: PassState)
    ensures q == ActivationStep(t, p, c)
  {
    var cellsToKeep, solution := p.kept, p.solution;
    if solution.Some? {
      cellsToKeep := cellsToKeep + [solution.value];
      solution := None;
    }
    var cell := c.(source := t.activation, outputs := [Stream(t.activationInfo)]);
    cellsToKeep := cellsToKeep + [cell];
    q := p.(kept := cellsToKeep, solution := solution);
  }

  /** `# @solution` with `@reveal`: flush the slot, keep the cell as a payload showing its code,
      then, with `@keep_output`, a placeholder carrying the cell's outputs. */
  method RevealCell(t: Texts, p: PassState, c: Cell) returns (q: PassState)
    ensures q == RevealStep(t, p, c, Contains(c.source, KeepOutputTag))
  {
    var cellsToKeep, solution, revealNr := p.kept, p.solution, p.revealNr;
    var source := c.source;
    if solution.Some? {
      cellsToKeep := cellsToKeep + [solution.value];
      solution := None;
    }
    assert cellsToKeep == Flushed(p);
    var code := Replace(Replace(Replace(source, SolutionTag, ""), RevealTag, ""), KeepOutputTag, "");
    code := LStrip(Replace(code, "\n", LineBreak), Whitespace);
    code := StripLeadingBreaks(code);
    assert code == SolutionCode(source);
    var html := RevealHtml(t, Pad4(revealNr), code);
    var cell := c.(source := Payload(html), outputs := [Stream(t.revealInfo)]);
    cellsToKeep := cellsToKeep + [cell];
    revealNr := revealNr + 1;
    if Contains(source, KeepOutputTag) {
      var placeholder := Placeholder(c.outputs, cell.origin);
      solution := Some(placeholder);
      cellsToKeep := cellsToKeep + [placeholder];
      solution := None;
    }
    q := p.(kept := cellsToKeep, solution := solution, revealNr := revealNr);
  }

  /** `# @solution` without `@reveal`: the blanked cell takes the slot or, with `@keep_output`,
      a placeholder is kept at once after a flush. */
  method HideCell(p: PassState, c: Cell) returns (q: PassState)
    ensures q == HideStep(p, c, Contains(c.source, KeepOutputTag))
  {
    var cellsToKeep, solution := p.kept, p.solution;
    var cell := c.(source := "");
    if Contains(c.source, KeepOutputTag) {
      if solution.Some? {
        cellsToKeep := cellsToKeep + [solution.value];
        solution := None;
      }
      solution := Some(Placeholder(cell.outputs, cell.origin));
      cellsToKeep := cellsToKeep + [solution.value];
      solution := None;
    } else {
      cell := cell.(outputs := []);
      solution := Some(cell);
    }
    q := p.(kept := cellsToKeep, solution := solution);
  }

  /** Any cell without a tag: flush the slot with its outputs cleared, then keep the cell. */
  method UntaggedCell(p: PassState, c: Cell) returns (q: PassState)
    ensures q == UntaggedStep(p, c)
  {
    var cellsToKeep, solution := p.kept, p.solution;
    if solution.Some? {
      cellsToKeep := cellsToKeep + [solution.value.(outputs := [])];
      solution := None;
    }
    cellsToKeep := cellsToKeep + [c];
    q := p.(kept := cellsToKeep, solution := solution);
  }

  /** `## @question\n`: flush the slot, then keep the question, as a payload cell when it has an
      answer part. */
  method QuestionCell(t: Texts, p: PassState, c: Cell) returns (q: PassState)
    ensures q == QuestionStep(t, p, c)
  {
    var cellsToKeep, solution, questionNr := p.kept, p.solution, p.questionNr;
    var cell := c;
    if solution.Some? {
      cellsToKeep := cellsToKeep + [solution.value];
    }
    solution := None;
    assert cellsToKeep == Flushed(p);
    var qa := Split(c.source, AnswerTag);
    var question := Strip(qa[0], QuestionChars);
    assert AnswerText(c.source) == if |qa| > 1 then Some(qa[1]) else None;
    if |qa| > 1 {
      var answer := qa[1];
      var html := QuestionHtml(t, question, Pad4(questionNr), answer);
      cell := cell.(source := Payload(html), kind := Code, executionCount := None,
                    outputs := [Stream(t.questionInfo)]);
    } else {
      cell := cell.(source := QuestionOnlyHtml(t, question));
    }
    cellsToKeep := cellsToKeep + [cell];
    questionNr := questionNr + 1;
    q := p.(kept := cellsToKeep, solution := solution, questionNr := questionNr);
  }

  /** `## @tip`: the tip box is built, but the cell is not kept and nothing else changes. */
  method TipCell(t: Texts, p: PassState, c: Cell) returns (q: PassState)
    ensures q == p
  {
    var tip := LStrip(Replace(Replace(c.source, TipDirective, ""), "\n", LineBreak), Whitespace);
    tip := StripLeadingBreaks(tip);
    var cell := c.(source := TipHtml(t, tip));
    q := p;
  }

  /** `## @section`: count the section, flush the slot, then keep the numbered heading; the
      title is what follows the first ' | ', and its absence is an error. */
  method SectionCell(p: PassState, c: Cell) returns (r: Result<PassState, Error>)
    ensures r == SectionStep(p, c)
  {
    var cellsToKeep, solution, section := p.kept, p.solution, p.section;
    section := section + 1;
    if solution.Some? {
      cellsToKeep := cellsToKeep + [solution.value];
    }
    solution := None;
    assert cellsToKeep == Flushed(p);
    var title := After(c.source, TitleDelimiter);
    if title.None? {
      return Err(MissingTitleDelimiter);
    }
    var cell := c.(source := SectionSource(section, title.value));
    cellsToKeep := cellsToKeep + [cell];
    r := Ok(p.(kept := cellsToKeep, solution := solution, section := section, subsection := 0));
  }

  /** `## @subsection`: count the subsection, flush the slot, then keep the numbered box with
      the kernel's logo; a missing ' | ' is an error. */
  method SubsectionCell(t: Texts, p: PassState, c: Cell) returns (r: Result<PassState, Error>)
    ensures r == SubsectionStep(t, p, c)
  {
    var cellsToKeep, solution, subsection := p.kept, p.solution, p.subsection;
    subsection := subsection + 1;
    if solution.Some? {
      cellsToKeep := cellsToKeep + [solution.value];
    }
    solution := None;
    assert cellsToKeep == Flushed(p);
    var logo: Option<string> := None;
    if Contains(c.source, RCodeTag) {
      logo := Some(t.rLogo);
    } else if Contains(c.source, PythonCodeTag) {
      logo := Some(t.pythonLogo);
    }
    var title := After(c.source, TitleDelimiter);
    if title.None? {
      return Err(MissingTitleDelimiter);
    }
    var cell := c.(source := SubsectionSource(t, logo, p.section, subsection, title.value));
    cellsToKeep := cellsToKeep + [cell];
    r := Ok(p.(kept := cellsToKeep, solution := solution, subsection := subsection));
  }

  /** One iteration of the loop: the first matching test, in the converter's order, decides
      what happens to the cell. */
  method ConvertCell(t: Texts, p: PassState, c: Cell) returns (r: Result<PassState, Error>)
    ensures r == Step(t, p, c)
  {
    var source := c.source;
    match c.kind
    case Code =>
      if Contains(source, ManageSolutionsTag) {
        assert Classify(c) == ManageSolutions;
        var q := ActivationCell(t, p, c);
        r := Ok(q);
      } else if Contains(source, SolutionTag) {
        if Contains(source, RevealTag) {
          assert Classify(c) == RevealedSolution(Contains(source, KeepOutputTag));
          var q := RevealCell(t, p, c);
          r := Ok(q);
        } else {
          assert Classify(c) == HiddenSolution(Contains(source, KeepOutputTag));
          var q := HideCell(p, c);
          r := Ok(q);
        }
      } else {
        assert Classify(c) == Untagged;
        var q := UntaggedCell(p, c);
        r := Ok(q);
      }
    case Markdown =>
      if Contains(source, QuestionTag) {
        assert Classify(c) == Question;
        var q := QuestionCell(t, p, c);
        r := Ok(q);
      } else if Contains(source, TipTag) {
        assert Classify(c) == Tip;
        var q := TipCell(t, p, c);
        r := Ok(q);
      } else if Contains(source, SectionTag) {
        assert Classify(c) == Section;
        r := SectionCell(p, c);
      } else if Contains(source, SubsectionTag) {
        assert Classify(c) == Subsection;
        r := SubsectionCell(t, p, c);
      } else {
        assert Classify(c) == Untagged;
        var q := UntaggedCell(p, c);
        r := Ok(q);
      }
    case Other =>
      var q := UntaggedCell(p, c);
      r := Ok(q);
  }

  /** The loop over the cells, then the last flush: the cells of the question notebook. */
  method ConvertCells(t: Texts, cells: seq<Cell>) returns (r: Result<seq<Cell>, Error>)
    ensures r == Convert(t, cells)
  {
    var state := Start;
    for k := 0 to |cells|
      invariant Run(t, cells, Start) == Run(t, cells[k..], state)
    {
      assert cells[k..][1..] == cells[k + 1..];
      var next := ConvertCell(t, state, cells[k]);
      if next.Err? {
        return Err(next.error);
      }
      state := next.value;
    }
    var cellsToKeep := state.kept;
    if state.solution.Some? {
      cellsToKeep := cellsToKeep + [state.solution.value];
    }
    assert cellsToKeep == Flushed(state);
    return Ok(cellsToKeep);
  }

  /** `create_question` on a notebook named `notebook` holding `cells`: the name is checked
      first, then the cells are converted with the converter's own texts. */
  method CreateQuestion(notebook: string, cells: seq<Cell>) returns (r: Result<Published, Error>)
    ensures r == QuestionNotebook(notebook, cells)
  {
    if !Contains(notebook, SolutionMarker) {
      return Err(MissingSolutionMarker);
    }
    var parts := Split(notebook, SolutionMarker);
    SplitSeveral(notebook, SolutionMarker);
    var outNotebook := parts[0] + parts[1];
    var converted := ConvertCells(SourceTexts, cells);
    match converted
    case Err(e) => r := Err(e);
    case Ok(out) => r := Ok(Published(outNotebook, out));
  }
}
