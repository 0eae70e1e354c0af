/**
 * The reference definition of `create_question`: the output file name, and the cell pass as a
 * fold of one step per cell over a state holding the kept cells, the pending-solution slot and
 * the four counters.
 */
module QuestionSpec {
  import opened Wrappers
  import opened Text
  import opened Notebook

  datatype Error =
    | MissingSolutionMarker   // the notebook name has no `_Solution`: the process exits with status 1
    | MissingTitleDelimiter   // a section or subsection cell has no ' | ': IndexError

  const SolutionMarker: string := "_Solution"

  /** The question notebook's name: the text before the first `_Solution` followed by the text
      between the first and the second one (to the end when there is no second one). */
  function OutputName(notebook: string): (r: Result<string, Error>)
    ensures r.Ok? <==> Contains(notebook, SolutionMarker)
  {
    if Contains(notebook, SolutionMarker) then
      var parts := Split(notebook, SolutionMarker);
      SplitSeveral(notebook, SolutionMarker);
      Ok(parts[0] + parts[1])
    else
      Err(MissingSolutionMarker)
  }

  // ---------------------------------------------------------------- classification

  /** What a cell is, decided as the converter decides it: by cell type, then by the first
      matching substring test in the converter's order. */
  datatype Tag =
    | ManageSolutions
    | RevealedSolution(keepOutput: bool)
    | HiddenSolution(keepOutput: bool)
    | Question
    | Tip
    | Section
    | Subsection
    | Untagged

  function Classify(c: Cell): Tag {
    var s := c.source;
    match c.kind
    case Code =>
      if Contains(s, ManageSolutionsTag) then ManageSolutions
      else if Contains(s, SolutionTag) then
        if Contains(s, RevealTag) then RevealedSolution(Contains(s, KeepOutputTag))
        else HiddenSolution(Contains(s, KeepOutputTag))
      else Untagged
    case Markdown =>
      if Contains(s, QuestionTag) then Question
      else if Contains(s, TipTag) then Tip
      else if Contains(s, SectionTag) then Section
      else if Contains(s, SubsectionTag) then Subsection
      else Untagged
    case Other => Untagged
  }

  // ---------------------------------------------------------------- text rewrites

  /** Repeatedly drop a leading `<br>\n`, as the `while ....startswith('<br>\n')` loops do. */
  function DropBreaks(s: string): (r: string)
    decreases |s|
  {
    if LineBreak <= s then DropBreaks(s[|LineBreak|..]) else s
  }

  /** A solution's code as shown in its disclosure block: the three directives removed, line
      breaks turned into `<br>\n`, leading whitespace and leading `<br>\n` dropped. */
  function SolutionCode(source: string): string {
    var bare := Replace(Replace(Replace(source, SolutionTag, ""), RevealTag, ""), KeepOutputTag, "");
    DropBreaks(LStrip(Replace(bare, "\n", LineBreak), Whitespace))
  }

  /** The question part of a question cell: the text before the first `## @answer\n`, with the
      characters of `## @question\n` stripped from both ends. */
  function QuestionText(source: string): string {
    Strip(Split(source, AnswerTag)[0], QuestionChars)
  }

  /** The answer part: the text between the first and the second `## @answer\n`, if any. */
  function AnswerText(source: string): (r: Option<string>)
    ensures r.Some? <==> Contains(source, AnswerTag)
  {
    var parts := Split(source, AnswerTag);
    SplitSeveral(source, AnswerTag);
    if |parts| > 1 then Some(parts[1]) else None
  }

  /** The kernel logo of a subsection: `@r_code` wins over `@python_code`. */
  function Logo(t: Texts, source: string): Option<string> {
    if Contains(source, RCodeTag) then Some(t.rLogo)
    else if Contains(source, PythonCodeTag) then Some(t.pythonLogo)
    else None
  }

  // ---------------------------------------------------------------- the pass

  /** The loop's state: `cells_to_keep`, the `solution` slot and the four counters. */
  datatype PassState = PassState(kept: seq<Cell>, solution: Option<Cell>,
                                 questionNr: nat, revealNr: nat, section: nat, subsection: nat)

  const Start: PassState := PassState([], None, 0, 0, 0, 0)

  /** The slot's cell, if any. */
  function Pending(slot: Option<Cell>): seq<Cell> {
    if slot.Some? then [slot.value] else []
  }

  /** The kept cells after flushing the slot as it is. */
  function Flushed(p: PassState): seq<Cell> {
    p.kept + Pending(p.solution)
  }

  /** The kept cells after flushing the slot with its outputs cleared first. */
  function FlushedCleared(p: PassState): seq<Cell> {
    p.kept + (if p.solution.Some? then [p.solution.value.(outputs := [])] else [])
  }

  /** The solution cell with its source blanked and its outputs dropped. */
  function Blanked(c: Cell): Cell {
    c.(source := "", outputs := [])
  }

  /** `# @manage_solutions`: flush, then the cell becomes the activation script. */
  function ActivationStep(t: Texts, p: PassState, c: Cell): PassState {
    var shown := c.(source := t.activation, outputs := [Stream(t.activationInfo)]);
    p.(kept := Flushed(p) + [shown], solution := None)
  }

  /** `# @solution` with `@reveal`: flush, keep the cell as a payload showing its code behind a
      button numbered by the reveal counter, then (with `@keep_output`) a placeholder carrying
      the cell's original outputs. */
  function RevealStep(t: Texts, p: PassState, c: Cell, keepOutput: bool): PassState {
    var html := RevealHtml(t, Pad4(p.revealNr), SolutionCode(c.source));
    var shown := c.(source := Payload(html), outputs := [Stream(t.revealInfo)]);
    var kept := Flushed(p) + [shown];
    p.(kept := if keepOutput then kept + [Placeholder(c.outputs, c.origin)] else kept,
       solution := None, revealNr := p.revealNr + 1)
  }

  /** `# @solution` without `@reveal`: with `@keep_output` the cell is replaced by a placeholder
      (after a flush); without it the blanked cell takes the slot, replacing what was there. */
  function HideStep(p: PassState, c: Cell, keepOutput: bool): PassState {
    if keepOutput then p.(kept := Flushed(p) + [Placeholder(c.outputs, c.origin)], solution := None)
    else p.(solution := Some(Blanked(c)))
  }

  /** `## @question\n`: flush; with an answer the cell becomes a code payload cell numbered by the
      question counter, without one it stays markdown around the question. */
  function QuestionStep(t: Texts, p: PassState, c: Cell): PassState {
    var question := QuestionText(c.source);
    var shown :=
      match AnswerText(c.source)
      case Some(answer) =>
        c.(kind := Code, source := Payload(QuestionHtml(t, question, Pad4(p.questionNr), answer)),
           executionCount := None, outputs := [Stream(t.questionInfo)])
      case None => c.(source := QuestionOnlyHtml(t, question));
    p.(kept := Flushed(p) + [shown], solution := None, questionNr := p.questionNr + 1)
  }

  /** `## @section`: flush, number the heading with the incremented section counter, reset the
      subsection counter. */
  function SectionStep(p: PassState, c: Cell): Result<PassState, Error> {
    match After(c.source, TitleDelimiter)
    case None => Err(MissingTitleDelimiter)
    case Some(title) =>
      var shown := c.(source := SectionSource(p.section + 1, title));
      Ok(p.(kept := Flushed(p) + [shown], solution := None, section := p.section + 1, subsection := 0))
  }

  /** `## @subsection`: flush, number the box `section.subsection` with the incremented
      subsection counter. */
  function SubsectionStep(t: Texts, p: PassState, c: Cell): Result<PassState, Error> {
    match After(c.source, TitleDelimiter)
    case None => Err(MissingTitleDelimiter)
    case Some(title) =>
      var shown := c.(source := SubsectionSource(t, Logo(t, c.source), p.section, p.subsection + 1, title));
      Ok(p.(kept := Flushed(p) + [shown], solution := None, subsection := p.subsection + 1))
  }

  /** Any other cell: flush with the slot's outputs cleared, then keep the cell as it is. */
  function UntaggedStep(p: PassState, c: Cell): PassState {
    p.(kept := FlushedCleared(p) + [c], solution := None)
  }

  /** One iteration of the loop over the cells. A tip cell changes nothing: it is never kept. */
  function Step(t: Texts, p: PassState, c: Cell): Result<PassState, Error> {
    match Classify(c)
    case ManageSolutions => Ok(ActivationStep(t, p, c))
    case RevealedSolution(keepOutput) => Ok(RevealStep(t, p, c, keepOutput))
    case HiddenSolution(keepOutput) => Ok(HideStep(p, c, keepOutput))
    case Question => Ok(QuestionStep(t, p, c))
    case Tip => Ok(p)
    case Section => SectionStep(p, c)
    case Subsection => SubsectionStep(t, p, c)
    case Untagged => Ok(UntaggedStep(p, c))
  }

  /** The loop from state `p` over `cells`; the first error ends it. */
  function Run(t: Texts, cells: seq<Cell>, p: PassState): Result<PassState, Error>
    decreases |cells|
  {
    if cells == [] then Ok(p)
    else
      match Step(t, p, cells[0])
      case Err(e) => Err(e)
      case Ok(q) => Run(t, cells[1..], q)
  }

  /** The cells of the question notebook: the loop from the start, then a last flush. */
  function Convert(t: Texts, cells: seq<Cell>): Result<seq<Cell>, Error> {
    match Run(t, cells, Start)
    case Err(e) => Err(e)
    case Ok(p) => Ok(Flushed(p))
  }

  /** What `create_question` produces: the new file name and the cells written to it. */
  datatype Published = Published(path: string, cells: seq<Cell>)

  /** `create_question` as a whole; the name is checked before any cell is read. */
  function QuestionNotebook(notebook: string, cells: seq<Cell>): Result<Published, Error> {
    match OutputName(notebook)
    case Err(e) => Err(e)
    case Ok(path) =>
      match Convert(SourceTexts, cells)
      case Err(e) => Err(e)
      case Ok(out) => Ok(Published(path, out))
  }
}
