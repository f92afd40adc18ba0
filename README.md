# Exam reviewer core, modelled in Dafny

The application reads a teacher's exam (PDF or DOCX). It cuts the extracted
text into multiple-choice questions with `analyzeWithGrok`. It then checks the
exam against a fixed rubric with `analyzeProva`. The result is an `approved`
flag plus one Portuguese suggestion for every rule the exam breaks. This
project models those two functions of the script in `app.py`. It proves what
they compute and which suggestions they make.

- `wrappers.dfy`: `Option`.
- `text.dfy` (module `Text`): the JavaScript string built-ins the script relies on.
  - The `\s` character set and `\d`.
  - `trim`, `split` on one character and its inverse `join`.
  - `toLowerCase` for Basic Latin and Latin-1.
  - `length` in UTF-16 code units.
  - `${n}` rendering of a number and `split(/\s+/)`.
- `patterns.dfy` (module `Patterns`): the regular expressions of the script as predicates on strings.
  - The three question markers, with first-match-wins order.
  - The alternative label.
  - The case-insensitive `gráfico|imagem|figura` test.
  - `Classify`: the marker test first, then the alternative test.
- `segmenter.dfy` (module `Segmenter`): `analyzeWithGrok`.
  - The normalisation of app.py:82-83 as functions, proved to change none of the trimmed non-blank lines of `text.split('\n')`: the scan sees exactly those.
  - The line loop as the method `AnalyzeWithGrok`, with a loop invariant.
  - `Segmentation`, a reference definition: cut the lines into blocks at the marker lines, then read each block on its own. The loop is proved to compute it.
  - Lemmas about `Segmentation`.
- `rubric.dfy` (module `Rubric`): `analyzeProva`.
  - The outcome of the checks on one question is a `Checks` value.
  - A failed check is a `Finding`, with its suggestion text given by `Message`.
  - `Findings` is the list of all findings in reporting order.
  - The method `AnalyzeProva` is the loop of the script, proved to produce `Messages(Findings(...))` and to approve exactly when that list is empty.
- `rubric_properties.dfy` (module `RubricProperties`): what `Findings` promises.
  - Each finding fires exactly when its rule is broken.
  - Findings are ordered by question; within a question they follow the order of the checks.
  - The count finding comes first.
  - A question gets at most five findings, or six with grammar issues.
  - On the output of the segmenter, no "missing visual" finding can occur.

What the script checks, read from its code:
- **Contextualisation.**
  - The script has no list of contextualisation keywords. Only the test at app.py:175 applies: the statement must contain a space and have at least 50 UTF-16 code units.
  - A statement is also reported as too short when `split(/\s+/)` gives fewer than ten pieces (app.py:169). So a six-word statement of 43 code units, such as `Enunciado de teste com contexto suficiente.`, gets both the short-statement and the not-contextualised finding.
- **Visual words and markers.**
  - The visual words are only `gráfico`, `imagem` and `figura`.
  - The only labelled marker is `Questão`.
  - `hasImage` is set per question from those words (app.py:109, 121); it is not set from any page-level image detection.
- **Grammar service.** `checkGrammar` is a network call. It enters the model as the parameter `grammar`: the issues reported for each statement, in question order.

Strings are `seq<char>`, one element per code point. The 50-character test
counts UTF-16 code units, as JavaScript's `length` does.

## Model

| member | source | states |
|---|---|---|
| Text.Trim | app.py:98 | the result is a stretch of the line with only whitespace before and after it; it neither starts nor ends with whitespace, is empty exactly when the line is all whitespace, and leaves a trimmed string unchanged |
| Text.TrimIdempotent | app.py:98 | trimming twice is trimming once |
| Text.TrimUnique | app.py:98 | a stretch that neither starts nor ends with whitespace and has only whitespace around it is the trim of the text |
| Text.TrimConsWhitespace | app.py:98 | whitespace put in front of a text does not change its trim |
| Text.TrimSnocWhitespace | app.py:98 | whitespace put after a text does not change its trim |
| Text.Split | app.py:83 | `split('\n')` yields at least one piece and no piece holds the separator |
| Text.JoinSplit | app.py:83 | joining the pieces of `split` with the separator gives back the text |
| Text.SplitJoin | app.py:83 | splitting the join of separator-free pieces gives back the pieces |
| Text.SplitAroundSeparator | app.py:83 | the pieces of `u + sep + t` are the pieces of `u` followed by the pieces of `t` |
| Text.SplitSnoc | app.py:83 | a separator at the end adds an empty last piece; any other character joins the last piece |
| Text.SplitBlank | app.py:83 | every piece of a text of whitespace is whitespace |
| Text.ToLower | app.py:155 | `toLowerCase` keeps the length and maps every character by `LowerChar`, which leaves no ASCII capital and keeps whitespace whitespace |
| Text.Utf16Length | app.py:175 | `length` counts between one and two code units per character |
| Text.Utf16LengthAppend | app.py:175 | the length of a concatenation is the sum of the lengths |
| Text.Utf16LengthOfChar | app.py:175 | a character above U+FFFF counts two code units and any other character one |
| Text.Utf16LengthOfBasicPlane | app.py:175 | a string without characters above U+FFFF has as many code units as characters |
| Text.Decimal | app.py:150 | `${n}` renders at least one digit, all decimal, and no leading zero unless n is 0 |
| Text.DecimalRoundTrip | app.py:139 | the rendered digits read back as the number |
| Text.SplitOnWhitespaceWords | app.py:169 | no piece of `split(/\s+/)` holds whitespace |
| Text.SplitOnWhitespaceInnerPieces | app.py:169 | only the first and last pieces of `split(/\s+/)` can be empty |
| Text.SplitOnWhitespaceFirst | app.py:169 | the first piece is empty exactly when the text is empty or starts with whitespace |
| Text.SplitOnWhitespaceCount | app.py:169 | `split(/\s+/)` yields one piece more than the text has maximal whitespace runs |
| Patterns.LabelledMatchLongest | app.py:91 | `/^Questão\s+\d+/i` matches exactly when the line starts with the label in either case, whitespace and digits, and the match is the longest such prefix |
| Patterns.DottedMatchLongest | app.py:92 | `/^\d+\.\s*(?!\))/` matches exactly when the line starts with digits, a dot and whitespace not followed by `)`, and the match is the longest such prefix |
| Patterns.ParenthesisedMatchLongest | app.py:93 | `/^\d+\)\s*/` matches exactly when the line starts with digits, `)` and whitespace, and the match is the longest such prefix |
| Patterns.MatchMarker | app.py:101-107 | a line is a marker exactly when one of the three patterns matches; the kind is the first pattern in order that matches, the stripped statement is the line without exactly that pattern's match, and it is a proper suffix |
| Patterns.MarkerPatternsDisjoint | app.py:90-94 | no line matches two marker patterns, so the pattern order cannot change the strip |
| Patterns.MatchAlternative | app.py:95 | a line matches exactly when it starts with a letter A-E (either case), `)` or `.`, then whitespace; the match removes the letter, the mark and the whole whitespace run after them, and nothing else |
| Patterns.ClassifyKinds | app.py:101-121 | a line is a marker line exactly when a marker pattern matches and an alternative line exactly when the alternative pattern matches; a marker line keeps a proper suffix; the visual flag is the test on the whole line |
| Patterns.MarkerIsNotAlternative | app.py:101-112 | a marker line never passes the alternative test, so checking for a marker first changes no result |
| Patterns.MentionsVisualIgnoresCase | app.py:181 | the `i` flag makes the visual-word test blind to case: a text and its lower-cased form mention a visual alike |
| Patterns.MentionsVisualInSuffix | app.py:107-109 | a mention in a suffix of a line is a mention in the line |
| Patterns.MentionsVisualInPrefix | app.py:120-121 | a mention in a prefix of a text is a mention in the text |
| Patterns.MentionsVisualAcrossSpace | app.py:120-121 | a mention in `a + ' ' + b` lies wholly in `a` or in `b` |
| Patterns.MentionsVisualJoin | app.py:120-121 | the statement extended with `' ' + line` mentions a visual exactly when one of the two parts does |
| Patterns.MarkerKeepsMentions | app.py:107-109 | a marker line mentions a visual exactly when its stripped statement does |
| Patterns.ClassifyRecordsMentions | app.py:109-121 | the visual flag of a classified line is whether the text it contributes mentions a visual |
| Segmenter.ReplaceCrLf | app.py:82 | `replace(/\r\n/g, '\n')` only drops carriage returns and never lengthens the text |
| Segmenter.ReplaceCrLfLines | app.py:82 | `replace(/\r\n/g, '\n')` removes exactly one carriage return from the end of every line of `split('\n')` but the last, where there is one, and nothing else; the result is those lines joined by line feeds |
| Segmenter.CollapseStep | app.py:82 | one step of `replace(/\n\s*\n+/g, '\n\n')` either copies one character or writes two line feeds in place of a line feed, blank lines and the line feed that ends them; it consumes at least one character and only changes whitespace |
| Segmenter.CollapseBlankLines | app.py:82 | `replace(/\n\s*\n+/g, '\n\n')` only changes whitespace |
| Segmenter.CollapseKeepsLines | app.py:82-83 | `replace(/\n\s*\n+/g, '\n\n')` keeps the first line, and the non-blank lines after it, unchanged and in order; only blank lines go |
| Segmenter.NonBlank | app.py:83 | `filter(line => line.trim())` keeps a line exactly when it is not blank, and never yields more lines than it was given |
| Segmenter.NonBlankAppend | app.py:83 | filtering two lists of lines one after the other is filtering their concatenation, so order and repeats are kept |
| Segmenter.NonBlankSnoc | app.py:83 | one more line adds that line to the end of the result exactly when it is not blank |
| Segmenter.ClassifyLinesRecorded | app.py:98-121 | after every line is trimmed and classified, each line's visual flag says whether the text it contributes mentions a visual |
| Segmenter.Lines | app.py:82-83 | no normalised line holds a line feed or is blank |
| Segmenter.SameTrimsKeepLines | app.py:83 | two lists of lines that agree line by line once trimmed keep the same lines once filtered and trimmed |
| Segmenter.ChompKeepsLines | app.py:82-83 | dropping a carriage return from the end of lines changes no trimmed non-blank line |
| Segmenter.TrimKeepsLines | app.py:82-83 | trimming the whole text before `split('\n')` changes no trimmed non-blank line |
| Segmenter.LinesOfText | app.py:82-83 | once trimmed, the kept lines are exactly the trimmed non-blank lines of `text.split('\n')`, in order: replacing CR LF, collapsing blank lines and trimming the text change none of them |
| Segmenter.ScannedLinesOfText | app.py:82-98 | the scan classifies exactly the trimmed non-blank lines of `text.split('\n')`, in order |
| Segmenter.AnalyzeWithGrok | app.py:80-130 | the questions are `Segmentation` of the normalised, trimmed, classified lines |
| Segmenter.ScanLines | app.py:97-127 | the loop over the lines and the final push compute `Segmentation` |
| Segmenter.ConsumeLine | app.py:97-123 | one pass of the loop body keeps the scan state equal to the blocks of the lines seen so far |
| Segmenter.ScanMarker | app.py:102-111 | a marker line pushes the current question when it has an alternative and starts a new one that expects alternatives |
| Segmenter.ScanAlternative | app.py:112-117 | an expected alternative line is appended stripped, and alternatives stop being expected at the fifth |
| Segmenter.ScanStatement | app.py:118-121 | any other line is appended to the statement after a space and can set `hasImage` |
| Segmenter.ScanPreamble | app.py:118-122 | a line before the first marker changes nothing |
| Segmenter.FinishScan | app.py:125-127 | the final push completes `Segmentation` |
| Segmenter.PartitionCounts | app.py:112-117 | a block takes as many alternatives as there are alternative lines, up to five; each other line goes to the statement, so no line is lost |
| Segmenter.PartitionKeepsOrder | app.py:112-121 | the alternatives and the statement lines keep their order, and no line is lost |
| Segmenter.PartitionTakes | app.py:112-117 | alternative lines that fit in the free slots all become alternatives |
| Segmenter.SegmentationBounds | app.py:103-127 | there are no more questions than marker lines, and each has one to five alternatives |
| Segmenter.KeepBounds | app.py:125-127 | there are no more questions than blocks, and each has one to five alternatives |
| Segmenter.SegmentationAppend | app.py:102-105 | the questions of lines joined at a marker line are the questions of each part |
| Segmenter.PreambleIgnored | app.py:118-122 | lines before the first marker line do not change the questions |
| Segmenter.OneBlock | app.py:102-127 | a marker line without alternative lines after it is dropped; otherwise it yields one question |
| Segmenter.SixthAlternativeJoinsStatement | app.py:112-121 | after five alternatives, a sixth alternative line is appended to the statement after a space |
| Segmenter.HasImageIffMentioned | app.py:109-121 | on every question the segmenter builds, `hasImage` holds exactly when the statement mentions a visual |
| Rubric.CheckCount | app.py:137-141 | the count suggestion is made exactly when the count is out of range, and `approved` is then cleared |
| Rubric.CheckQuestion | app.py:149-181 | the checks on one question record the number of alternatives and the grammar issues; the repetition flag is set exactly when two alternatives are equal once lower-cased and trimmed, the short flag exactly when the statement has fewer than nine whitespace runs, the context flag exactly when there is no space or fewer than 50 code units, and the visual flag exactly when a visual is mentioned without an image |
| Rubric.CheckNext | app.py:144-162 | the checks on the next question extend those on the questions before it |
| Rubric.Report | app.py:148-184 | a question's suggestions are the messages of its failed checks, in order |
| Rubric.Suggest | app.py:149-152 | one `if (...) suggestions.push(...)` adds the message exactly when the check failed |
| Rubric.ReviewQuestion | app.py:144-186 | one pass of the loop appends the question's suggestions and keeps `approved` exactly when there is none so far |
| Rubric.AnalyzeProva | app.py:132-188 | the suggestions are the messages of `Findings`, and the exam is approved exactly when there is none |
| RubricProperties.FindingsOfMember | app.py:148-184 | a question's finding is one of the six, each reported exactly when its check fails |
| RubricProperties.FindingsOfOrdered | app.py:148-184 | a question's findings follow the order of the checks |
| RubricProperties.FindingsOfLength | app.py:148-184 | a question gets at most six findings, at most five without grammar issues |
| RubricProperties.FindingsOfSubject | app.py:146-184 | a question's findings carry its number |
| RubricProperties.AllFindingsMember | app.py:144-186 | the question findings are exactly those of some question, numbered from 1 |
| RubricProperties.AllFindingsSubject | app.py:144-146 | every question finding names a question between 1 and their count |
| RubricProperties.AllFindingsOrdered | app.py:144-186 | question findings are in ascending question order and in check order within a question |
| RubricProperties.FindingsMember | app.py:136-186 | a finding of `Findings` is the count finding when the count is out of range, or a finding of some question |
| RubricProperties.FindingsOrdered | app.py:136-186 | `Findings` lists all findings in reporting order: by question, then by check |
| RubricProperties.CountFindingFirst | app.py:137-141 | the count finding comes first exactly when the count is below 15 or above 20, and never later |
| Rubric.DistinctElements | app.py:155-156 | a list has as many distinct elements as entries exactly when no two entries are equal |
| Rubric.RepeatedIffEqualPair | app.py:155-156 | the normalised set is smaller than the list exactly when two alternatives normalise to the same text |
| RubricProperties.HeadingNames | app.py:150 | two headings `Questão ${i}: ` of which one starts the other name the same question |
| RubricProperties.MessageNamesQuestion | app.py:139-183 | a suggestion opens with the heading of question `i` exactly when it is about question `i`; the count suggestion opens with none |
| RubricProperties.AlternativeCountReported | app.py:149-152 | the alternative-count finding, with the number found, fires exactly when there are not five |
| RubricProperties.RepeatedReported | app.py:155-159 | the repetition finding fires exactly when two alternatives are equal once lower-cased and trimmed |
| RubricProperties.GrammarReported | app.py:162-166 | the grammar finding carries the service's issues and fires exactly when there are some |
| RubricProperties.ShortReported | app.py:169-172 | the short-statement finding fires exactly when the statement has fewer than nine whitespace runs |
| RubricProperties.ContextReported | app.py:175-178 | the context finding fires exactly when there is no space or fewer than 50 UTF-16 units; it always fires below 25 characters, and uses plain length without astral characters |
| RubricProperties.VisualReported | app.py:181-184 | the visual finding fires exactly when a visual is mentioned and `hasImage` is false |
| RubricProperties.QuestionFindingsLength | app.py:148-184 | each question adds at most six suggestions, five when the grammar service reports nothing |
| RubricProperties.WellFormedChecks | app.py:148-184 | a question whose `hasImage` matches its statement and that has one to five alternatives gets no missing-visual finding, and any alternative-count finding it gets reports one to four |
| RubricProperties.WellFormedFindings | app.py:136-186 | on an exam of such questions, with one grammar result per question, no finding is a missing visual and every alternative-count finding reports one to four |
| RubricProperties.SegmentedQuestionsWellFormed | app.py:103-127 | every question the segmenter builds has `hasImage` exactly when its statement mentions a visual, and one to five alternatives |
| RubricProperties.SegmentedTestFindings | app.py:56-58 | on segmenter output, whatever the grammar service reports, no missing-visual finding occurs and an alternative-count finding reports one to four |

## Left out

- `parsePDF` and `parseDOCX` (app.py:62-78) are not modelled: text extraction is done by third-party libraries. The model starts from the extracted text.
- The event handler, `displayResults` and the HTML page are not modelled: they are user interface. Of the handler, only the call chain of app.py:56-58 is used, in `SegmentedTestFindings`.
- `checkGrammar` (app.py:190-211) is not modelled: it is a network call to LanguageTool, including its error fallback. Its result enters as the parameter `grammar`. `Findings` and `AnalyzeProva` require one issue list per question; that is the shape of this abstraction, not a demand of the script.
- `async`/`await` are not modelled: the evaluation is sequential.
- Only the regular expressions the script uses are modelled, and each as its own predicate. There is no general regular-expression engine.
- `Text.ToLower`: only lower-cases Basic Latin and Latin-1 capitals. The other Unicode case mappings of `toLowerCase` are not modelled.
- Strings are sequences of code points. Lone UTF-16 surrogates cannot be written.
- Questions are values. The object the script mutates in place becomes the scan state `current`. Nothing else refers to that object, so no aliasing is lost.
- Text.SplitOnWhitespaceInnerPieces: does not state when the last piece of `split(/\s+/)` is empty.
