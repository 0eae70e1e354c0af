/**
 * Notebook cells as the converter sees them, and the fixed texts it writes into them.
 * The HTML and JavaScript texts are kept character for character; only the counter,
 * the code, the question and the answer vary.
 */
module Notebook {
  import opened Wrappers
  import opened Text
  import opened Codec

  /** `cell_type`: 'code', 'markdown', or anything else (such as 'raw'). */
  datatype CellKind = Code | Markdown | Other

  /** One captured output record. The converter writes only stdout streams; any other
      record produced by an earlier run is carried along untouched and is opaque here. */
  datatype Output = Stream(text: string) | Captured(id: nat)

  /**
   * A cell: its type, `source`, `outputs` and `execution_count`. Markdown cells have no
   * outputs in the file format; here they carry an empty sequence. `origin` is not part of
   * the file format: it is the position of the cell in the solution notebook, kept so that
   * the order of the converted cells can be stated.
   */
  datatype Cell = Cell(kind: CellKind, source: string, outputs: seq<Output>,
                       executionCount: Option<nat>, origin: nat)

  // ---------------------------------------------------------------- tags searched for

  const ManageSolutionsTag: string := "# @manage_solutions"
  const SolutionTag: string := "# @solution"
  const RevealTag: string := "@reveal"
  const KeepOutputTag: string := "@keep_output"
  const QuestionTag: string := "## @question\n"
  const AnswerTag: string := "## @answer\n"
  const TipTag: string := "## @tip"
  const TipDirective: string := "# @tip"
  const SectionTag: string := "## @section"
  const SubsectionTag: string := "## @subsection"
  const TitleDelimiter: string := " | "
  const RCodeTag: string := "@r_code"
  const PythonCodeTag: string := "@python_code"
  const LineBreak: string := "<br>\n"

  /** The characters of the argument of `strip('## @question\n')`: a set, not a prefix. */
  const QuestionChars: set<char> := set c | c in QuestionTag

  // ---------------------------------------------------------------- fixed cell contents
  // Long texts are written as concatenations of short pieces, one line of the text (or part
  // of a line) per piece.

  /** The body given to the `# @manage_solutions` cell: a script that hides every input
      marked `# @hidden`. */
  const ActivationSource: string :=
    "# @info: Exécutez-moi pour activer les questions interactives\n"
    + "# -----------------------------------------------------------\n\n"
    + "from IPython.display import HTML\n"
    + "import codecs\n\n"
    + "# @hidden\n"
    + "HTML('''\n"
    + "<script>\n"
    + "code_show=true;\n"
    + "function code_toggle() {\n"
    + " if (code_show){\n"
    + "  $('.cm-comment:contains(@hidden)').closest('div.input').hide();\n"
    + " } else {\n"
    + "  $('.cm-comment:contains(@hidden)').closest('div.input').show();\n"
    + " }\n"
    + " code_show = !code_show\n"
    + "}\n"
    + "$( document ).ready(code_toggle);\n"
    + "</script>\n"
    + "<div># @info: Exécutez-moi pour activer les questions interactives"
    + " </div>\n"
    + "''')"

  const ActivationInfo: string := "# @info: Exécutez-moi pour cacher le code, puis sauvegardez le notebook\n"
  const RevealInfo: string := "# @info: Exécutez-moi pour accéder à l'aide interactive\n"
  const QuestionInfo: string := "# @info: Exécutez-moi pour afficher la question interactive\n"
  const PlaceholderSource: string := "# Résultat attendu ci-dessous..."

  /** `nbformat.v4.new_code_cell(source=PlaceholderSource, outputs=outputs)`: the cell that shows
      the expected result of a solution; it stands where the solution cell `origin` was. */
  function Placeholder(outputs: seq<Output>, origin: nat): Cell {
    Cell(Code, PlaceholderSource, outputs, None, origin)
  }

  // ---------------------------------------------------------------- HTML

  /** The opening of the yellow box that holds a question or a solution's explanation. */
  const WarningOpen: string := "<div class=\"alert alert-block alert-warning\">\n"
  const RevealIntro: string :=
    "\tSi vous être bloqué(e),\n"
    + "                    affichez une solution en pressant sur le bouton"
    + " ci-dessous.<br>\n"
    + "\tVeillez à <b>comprendre</b> la solution\n"
    + "                    et à la tester par vous-même.\n"
    + "</div> <br>\n\n"
    + "<button data-toggle=\"collapse\" data-target=\"#reveal_"
  const RevealButtonEnd: string :=
    "\">\n"
    + "                    Afficher le code</button>\n"
    + "<div id=\"reveal_"
  const RevealCodeOpen: string :=
    "\" class=\"collapse\">\n"
    + "<br><code>"
  const RevealClose: string :=
    "\n"
    + "</code>\n"
    + "</div>\n\n"
    + "                    "

  const QuestionButton: string :=
    "\n"
    + "</div> <br>\n"
    + "<button data-toggle=\"collapse\"\n"
    + "                    data-target=\"#question_"
  const QuestionButtonEnd: string :=
    "\">Afficher la réponse</button>\n\n"
    + "<div id=\"question_"
  const QuestionAnswerOpen: string :=
    "\"\n"
    + "                    class=\"collapse\">"
  const QuestionClose: string :=
    "\n"
    + "</div>\n"

  const TipOpen: string :=
    "<div class=\"alert alert-block alert-info\">\n"
    + "<b>Tip:</b> "

  const RLogo: string :=
    "<img align=\"right\""
    + " src=\"http://localhost:8888/kernelspecs/ir/logo-64x64.png\""
    + " width=\"24\"/>"
  const PythonLogo: string :=
    "<img align=\"right\""
    + " src=\"http://localhost:8888/kernelspecs/python3/logo-64x64.png\""
    + " width=\"24\"/>"

  const SuccessOpen: string := "<div class=\"alert alert-block alert-success\">\n"

  // ---------------------------------------------------------------- the texts together

  /**
   * The fixed texts, bundled so that the pass can be stated for any texts: what is proved about
   * the pass does not depend on what they say. `SourceTexts` holds the converter's own.
   */
  datatype Texts = Texts(
    activation: string,          // the body of the `# @manage_solutions` cell
    activationInfo: string,      // the stdout line attached to it
    revealInfo: string,          // the stdout line attached to a revealed solution
    questionInfo: string,        // the stdout line attached to a question with an answer
    warningOpen: string,
    revealIntro: string, revealButtonEnd: string, revealCodeOpen: string, revealClose: string,
    questionButton: string, questionButtonEnd: string, questionAnswerOpen: string,
    questionClose: string,
    tipOpen: string,
    rLogo: string, pythonLogo: string,
    successOpen: string)

  const SourceTexts: Texts :=
    Texts(ActivationSource, ActivationInfo, RevealInfo, QuestionInfo,
          WarningOpen, RevealIntro, RevealButtonEnd, RevealCodeOpen, RevealClose,
          QuestionButton, QuestionButtonEnd, QuestionAnswerOpen, QuestionClose,
          TipOpen, RLogo, PythonLogo, SuccessOpen)

  /** The disclosure block around a solution's code, keyed `reveal_<id>`. */
  function RevealHtml(t: Texts, id: string, code: string): string {
    t.warningOpen + t.revealIntro + id + t.revealButtonEnd + id + t.revealCodeOpen + code + t.revealClose
  }

  /** A question with a disclosure button revealing its answer, keyed `question_<id>`. */
  function QuestionHtml(t: Texts, question: string, id: string, answer: string): string {
    t.warningOpen + question + t.questionButton + id + t.questionButtonEnd + id
    + t.questionAnswerOpen + answer + t.questionClose
  }

  /** A question that has no answer part. */
  function QuestionOnlyHtml(t: Texts, question: string): string {
    t.warningOpen + question + "\n</div>"
  }

  /** The blue box that would replace a `## @tip` cell. */
  function TipHtml(t: Texts, tip: string): string {
    t.tipOpen + tip + "\n</div>"
  }

  /** The heading that replaces a `## @section` cell. */
  function SectionSource(section: nat, title: string): string {
    "***\n" + "## " + Decimal(section) + ". " + title
  }

  /** The numbered title inside a subsection box. */
  function SubsectionTitle(section: nat, subsection: nat, title: string): string {
    "<b>" + Decimal(section) + "." + Decimal(subsection) + " " + title + "</b>"
  }

  /** The box that replaces a `## @subsection` cell: the logo, when there is one, goes between
      the opening of the box and the title. */
  function SubsectionSource(t: Texts, logo: Option<string>, section: nat, subsection: nat, title: string): string {
    var head := if logo.Some? then t.successOpen + "\t" + logo.value else t.successOpen;
    head + "\t" + SubsectionTitle(section, subsection, title) + "\n</div>"
  }

  // ---------------------------------------------------------------- hidden payload

  const PayloadPrefix: string := "# @hidden\nsx=b'"
  const PayloadSuffix: string :=
    "'\n"
    + "HTML(codecs.decode(codecs.decode(sx,'hex'), 'utf8'))"

  /** The code cell that shows `html` when run: the UTF-8 bytes of `html`, hex-encoded into a
      bytes literal `sx`, decoded and displayed by the same statement. */
  function Payload(html: string): string {
    PayloadPrefix + HexEncode(Utf8Encode(html)) + PayloadSuffix
  }

  /** What running a payload cell displays: `codecs.decode(codecs.decode(sx, 'hex'), 'utf8')`;
      None when the source is not a payload cell or the decoding fails. */
  function Displayed(source: string): Option<string> {
    if |source| < |PayloadPrefix| + |PayloadSuffix|
       || source[..|PayloadPrefix|] != PayloadPrefix
       || source[|source| - |PayloadSuffix|..] != PayloadSuffix
    then None
    else
      match HexDecode(source[|PayloadPrefix|..|source| - |PayloadSuffix|])
      case None => None
      case Some(bytes) => Utf8Decode(bytes)
  }

  /** A payload cell displays exactly the HTML it was built from. */
  lemma PayloadRoundTrip(html: string)
    ensures Displayed(Payload(html)) == Some(html)
  {
    var hex := HexEncode(Utf8Encode(html));
    var src := Payload(html);
    assert src[..|PayloadPrefix|] == PayloadPrefix;
    assert src[|src| - |PayloadSuffix|..] == PayloadSuffix;
    assert src[|PayloadPrefix|..|src| - |PayloadSuffix|] == hex;
    HexRoundTrip(Utf8Encode(html));
    Utf8RoundTrip(html);
  }
}
