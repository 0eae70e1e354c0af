# Publishing a question notebook

`create_question` in `publish_question.py` turns an instructor's solution notebook into a
student's question notebook. This project models that function in Dafny. It has two parts:

- **The output name.** The path of the question notebook is the solution notebook's path with
  `_Solution` taken out. A name without the marker ends the process with status 1, before any
  cell is read.
- **The cell pass.** One forward loop runs over the cells. It carries the kept cells
  (`cells_to_keep`), one pending-solution slot (`solution`) and four counters (`question_nr`,
  `reveal`, `section`, `subsection`). Each cell is classified by substring tests on its source.
  Then one of these happens to it:
  - it is kept as it is;
  - it is rewritten;
  - it is turned into a hidden HTML payload;
  - it is replaced by a placeholder holding the expected output;
  - it is parked in the slot;
  - it is dropped.

  Before a cell is kept, whatever is in the slot is kept first (a "flush"). After the loop, one
  last flush happens.

The model follows the code, including where the code surprises:

- A `## @tip` cell is rewritten but never kept. It does not flush the slot either.
- A second plain `# @solution` cell replaces the pending one without flushing it, so the first
  one is lost.
- `@keep_output` always keeps the placeholder at once. It is never left pending, with or
  without `@reveal`. Without `@reveal`, the solution cell itself is dropped.
- `strip('## @question\n')` removes any of the characters of `## @question\n` from both ends,
  not the prefix. A question ending in "function" therefore loses "tion".
- `rsplit('## @answer\n')` has no limit, so it splits at every separator. Only the text between
  the first and second separator becomes the answer.

Files:

- `wrappers.dfy`: `Option` and `Result`.
- `text.dfy`: the Python string operations the converter uses. These are `in`, `split`/`rsplit`,
  `split(sep, 1)`, `replace`, `strip(chars)`, `lstrip()`, `str(n)` and `f"{n:04d}"`.
- `codec.dfy`: UTF-8 and lowercase hex, with their round trips.
- `notebook.dfy`: cells, outputs, the tags, the fixed texts, and the hidden payload with what
  running it displays.
- `question_spec.dfy`: the reference definition. It holds the output name, the classification
  of cells, and the pass as a fold of one `Step` per cell.
- `publish_question.dfy`: the converter in its own imperative form. Each kind of cell has its
  own method, there is a loop over the cells, and a `while` loop strips leading `<br>\n`. Each
  method is proved equal to the reference definition.
- `properties.dfy`, `rewrites.dfy`, `order.dfy`: what the pass guarantees.

The fixed HTML and JavaScript texts are bundled in a `Texts` value. `SourceTexts` holds the
converter's texts character for character, and `CreateQuestion` uses them. The pass and its
properties are stated for any `Texts`, because nothing proved depends on what the texts say.

## Model

| member | source | states |
|---|---|---|
| QuestionSpec.OutputName | publish_question.py:13-18 | the name is produced exactly when `_Solution` occurs in it; otherwise the result is the exit error |
| Rewrites.OutputNameParts | publish_question.py:13-14 | with the first `_Solution` at `i`, the name is the text before it followed by the text after it up to the next `_Solution` (or the end) |
| Rewrites.OutputNameSingle | publish_question.py:13-14 | a name with exactly one `_Solution` loses exactly the marker |
| Rewrites.OutputNameExample | publish_question.py:13-14 | `algo/ex1/ex1_Solution.ipynb` gives `algo/ex1/ex1.ipynb` |
| PublishQuestion.CreateQuestion | publish_question.py:11-179 | the method gives the name and the converted cells of the reference definition; a missing marker fails before any cell is looked at |
| PublishQuestion.ConvertCells | publish_question.py:26-176 | the loop from the initial state over all cells, followed by the last flush, equals the reference fold `Convert`; the first missing title ends it with the error |
| PublishQuestion.ConvertCell | publish_question.py:32-171 | one iteration dispatches on cell type and tags in the converter's order and equals the reference `Step` |
| PublishQuestion.ActivationCell | publish_question.py:36-51 | a `# @manage_solutions` cell: flush, then the cell is kept with the activation script and its one stdout output |
| PublishQuestion.RevealCell | publish_question.py:53-81 | a revealed solution: flush, keep the payload cell numbered by the reveal counter, then the placeholder when `@keep_output` is present; the reveal counter moves on |
| PublishQuestion.HideCell | publish_question.py:82-95 | a plain solution: with `@keep_output`, flush and keep the placeholder only; otherwise the blanked cell replaces the slot's content |
| PublishQuestion.UntaggedCell | publish_question.py:96-101 | an untagged cell: flush with the slot's outputs cleared, then keep the cell as it is |
| PublishQuestion.QuestionCell | publish_question.py:103-125 | a question: flush, keep the payload (with an answer) or the markdown box (without one), advance the question counter |
| PublishQuestion.TipCell | publish_question.py:126-130 | a tip: the state is left exactly as it was |
| PublishQuestion.SectionCell | publish_question.py:131-140 | a section: flush, keep the numbered heading, reset the subsection counter; a missing title delimiter is the error |
| PublishQuestion.SubsectionCell | publish_question.py:141-159 | a subsection: flush, keep the numbered box with its logo; a missing title delimiter is the error |
| PublishQuestion.StripLeadingBreaks | publish_question.py:60-61 | the `while` loop computes `DropBreaks`, the repeated removal of a leading `<br>\n` |
| Rewrites.DropBreaksShape | publish_question.py:60-61 | what is left does not start with `<br>\n`, and the input is some number of `<br>\n` followed by it |
| Rewrites.SolutionCodeStart | publish_question.py:58-61 | the code shown for a solution never starts with `<br>\n` |
| Rewrites.RevealedCell | publish_question.py:53-81 | a revealed solution keeps the flushed cells in front, then the cell as code with the stdout hint as its only output, then the placeholder with the original outputs iff `@keep_output`; the slot is empty and only the reveal counter moves |
| Rewrites.RevealedPayload | publish_question.py:58-69 | running the kept payload displays the disclosure HTML built from the solution code and the reveal counter's `04d` id |
| Rewrites.KeepOutputPlaceholder | publish_question.py:77-92 | with `@keep_output`, revealed or not, the last kept cell is the placeholder carrying the original outputs, and the slot is empty |
| Rewrites.HiddenKeepOutput | publish_question.py:83-92 | with `@keep_output` and no `@reveal`, the whole step is a flush followed by the placeholder; the solution's own cell is dropped and no counter moves |
| Rewrites.QuestionTextTrimmed | publish_question.py:108 | the question text neither starts nor ends with a character of `## @question\n` |
| Rewrites.QuestionStripExample | publish_question.py:108 | `strip` takes a character set: `## @question\nA function` becomes `A func` |
| Rewrites.AnswerParts | publish_question.py:107-110 | with the first `## @answer\n` at `i`, the answer is the text after it up to the next separator, and the question is stripped from the text before it |
| QuestionSpec.AnswerText | publish_question.py:107-110 | there is an answer exactly when `## @answer\n` occurs in the source |
| Rewrites.QuestionCellShown | publish_question.py:103-125 | a question cell is kept once after the flush, and the question counter goes up by one whether or not there is an answer; with an answer it becomes a code cell with no execution count whose payload displays the question and answer with the counter's id; without one it stays markdown around the question |
| Rewrites.SectionHeading | publish_question.py:131-140 | with the first title delimiter at `i`, the step keeps the heading `***\n## {section+1}. {title}` after the flush, titles it with everything after the delimiter, and resets the subsection counter |
| Rewrites.SubsectionBox | publish_question.py:141-159 | with the first title delimiter at `i`, the step keeps the box numbered `section.subsection+1` after the flush, titled with everything after the delimiter |
| Rewrites.SubsectionLogo | publish_question.py:146-158 | `@r_code` gives the R logo even beside `@python_code`, `@python_code` alone gives the Python logo, neither gives no logo |
| Properties.RunAppend | publish_question.py:32-171 | running over `a + b` is running over `a` and then over `b` from where it stopped |
| Properties.RunPrefix | publish_question.py:32-171 | a successful run was successful at every point along the way |
| Properties.SlotFilledOnlyByPlainSolution | publish_question.py:83-95 | after a step the slot is filled only by a plain solution (as its blanked cell, kept cells unchanged) or left as it was by a tip |
| Properties.RunKeepsSlotBlank | publish_question.py:83-95 | the slot is always empty or holds a code cell with empty source and no outputs |
| Properties.ClearedFlushIsFlush | publish_question.py:97-99 | clearing the slot's outputs before a flush changes nothing, since its cell has none |
| Properties.PlainSolutionOverwrites | publish_question.py:93-95 | two plain solutions in a row leave only the second pending and keep nothing |
| Properties.TrailingSolutionSurfaces | publish_question.py:173-174 | a plain solution left pending at the end is the last cell of the question notebook |
| Properties.StepExtendsKept | publish_question.py:32-171 | a step only appends to the kept cells |
| Properties.RunExtendsKept | publish_question.py:32-171 | a run only appends to the kept cells |
| Properties.UntaggedCellsKept | publish_question.py:96-101 | every untagged cell is among the kept cells |
| Properties.StepFails | publish_question.py:131-159 | a step fails exactly for a section or subsection cell without the title delimiter, and then with that error |
| Properties.RunFails | publish_question.py:131-159 | the pass fails exactly when some section or subsection cell lacks the title delimiter, and then with that error |
| Properties.TipsIgnored | publish_question.py:126-130 | removing every tip cell gives the same result |
| Properties.RunCounts | publish_question.py:26-132 | the question, reveal and section counters each go up by one per cell that moves them and by nothing else |
| Properties.CounterBefore | publish_question.py:26-132 | when the pass reaches cell `i`, each counter equals the number of earlier cells that move it |
| Properties.CounterIdsDistinct | publish_question.py:63-112 | two question cells (or two revealed solutions, or two sections) get counters in increasing order, and their `04d` ids differ (the reveal ids at lines 63-66, the question ids at lines 111-112) |
| Properties.RunSubsections | publish_question.py:140-142 | the subsection counter counts the subsection cells since the last section cell |
| Order.StepOrdered | publish_question.py:32-171 | after a step the kept and pending cells stay in source order, and each added cell stands where the step's cell stood |
| Order.UntaggedOrdered | publish_question.py:96-101 | an untagged cell after a cleared flush keeps the order |
| Order.RunOrdered | publish_question.py:32-174 | over a run, the cells keep source order and each comes from some cell of the run or of the start |
| Order.ConvertOrdered | publish_question.py:26-176 | the question notebook's cells keep the order of the solution notebook, and each stands at the position of one of its cells |
| Notebook.PayloadRoundTrip | publish_question.py:68-69 | running a payload cell displays exactly the HTML it was built from |
| Codec.Utf8RoundTrip | publish_question.py:68-69 | decoding the UTF-8 bytes of a string gives the string back |
| Codec.Utf8DecodeInverse | publish_question.py:69 | any bytes the strict decoder accepts are the UTF-8 form of what it returns |
| Codec.HexRoundTrip | publish_question.py:68-69 | decoding the hex form of bytes gives the bytes back |
| Codec.HexEncodeDigits | publish_question.py:68 | the hex form uses only lowercase hex digits, two per byte |
| Text.SplitJoin | publish_question.py:58 | splitting and joining with the same separator gives the string back |
| Text.SplitSeveral | publish_question.py:107-109 | the split has more than one piece exactly when the separator occurs |
| Text.SplitPiecesFree | publish_question.py:107 | no piece of a split contains the separator |
| Text.AfterFirst | publish_question.py:137 | `split(sep, 1)[1]` is the text after the first separator |
| Text.StripEnds | publish_question.py:108 | what `strip(chars)` leaves neither starts nor ends with one of the characters |
| Text.StripAt | publish_question.py:108 | `strip(chars)` removes exactly the run of those characters at each end |
| Text.ContainsIff | publish_question.py:36 | `in` holds exactly when the text occurs at some index |
| Text.Pad4RoundTrip | publish_question.py:65 | `f"{n:04d}"` still denotes `n` |
| Text.Pad4Injective | publish_question.py:65 | distinct counters give distinct ids |
| Text.DecimalRoundTrip | publish_question.py:138 | `str(n)` denotes `n` |

## Left out

- Reading and writing the notebook file with nbformat (lines 23 and 178) are left out. The
  method takes the cells as a sequence and returns the cells to write along with the path.
- The git and shell steps that call `create_question` (lines 182-286) are left out. They are
  subprocess calls, globbing and repository side effects.
- `print`, `verbose` and the process exit are left out. The exit is modelled as the
  `MissingSolutionMarker` error, and the `IndexError` of a missing title delimiter as
  `MissingTitleDelimiter`.
- nbformat's cell ids and `pop('id')` (lines 79 and 90) are left out. The placeholder is built
  without an id.
- The tip box (line 130) is built by `TipCell` but thrown away, as in the code. The model has
  no cell field for the discarded rewrite.
- Output records other than the stdout streams the converter writes are opaque
  (`Captured(id)`). They are moved around but never inspected.
- Cell metadata and any cell fields other than type, source, outputs and execution count are
  left out. `Cell.origin` is not a notebook field: it is the cell's position in the solution
  notebook, added so that order can be stated.
- The code changes each cell's dictionary in place. The model builds a new cell value
  instead. No cell is changed after it has been kept or parked in the slot (the slot's outputs
  are cleared just before it is kept), so the cells written out are the same.
- Cell text is a sequence of Unicode scalar values. The `UnicodeEncodeError` that
  `codecs.encode(..., 'utf8')` raises at lines 68 and 114 on a lone surrogate is not modelled.
