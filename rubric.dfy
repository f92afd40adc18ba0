/**
 * The rubric evaluator `analyzeProva` (app.py:132-188): the number of
 * questions is checked once, then each question in turn, and every failed
 * check adds one suggestion and clears `approved`.
 *
 * The grammar service is not part of this model: `checkGrammar` is given
 * as `grammar`, the list of issues it reports for each statement, in the
 * order of the questions. The outcome of the checks on one question is a
 * `Checks` value, a failed check a `Finding`, and `Message` renders a
 * finding in the wording of the script.
 */
module Rubric {
  import opened Text
  import opened Patterns
  import opened Segmenter

  /** One suggestion of the evaluator. Question numbers are 1-based. */
  datatype Finding =
    | QuestionCount(count: nat)
    | AlternativeCount(question: nat, found: nat)
    | RepeatedAlternatives(question: nat)
    | GrammarProblems(question: nat, issues: seq<string>)
    | ShortStatement(question: nat)
    | NotContextualised(question: nat)
    | MissingVisual(question: nat)

  /** The opening `Questão ${i}: ` of every suggestion about a question. */
  function Heading(i: nat): string {
    "Questão " + Decimal(i) + ": "
  }

  /** The suggestion text of a finding (app.py:140, 152, 159, 166, 171, 177, 183). */
  function Message(f: Finding): string {
    if f.QuestionCount? then
      "Número de questões inválido (" + Decimal(f.count) + "). Deve ter entre 15 e 20 questões."
    else Heading(f.question) + Complaint(f)
  }

  /** What a suggestion about a question says after its heading. */
  function Complaint(f: Finding): string
    requires !f.QuestionCount?
  {
    match f
    case AlternativeCount(_, n) => "Deve ter exatamente 5 alternativas (encontrado: " + Decimal(n) + ")."
    case RepeatedAlternatives(_) => "Contém alternativas repetidas ou idênticas."
    case GrammarProblems(_, issues) =>
      "Problemas de gramática/ortografia no enunciado: " + Join(issues, ", ") + "."
    case ShortStatement(_) => "Enunciado muito curto, pode não ser suficientemente contextualizado."
    case NotContextualised(_) => "Enunciado não parece contextualizado (muito curto ou sem detalhes)."
    case MissingVisual(_) => "Menciona gráfico/imagem, mas nenhum foi detectado."
  }

  function Messages(fs: seq<Finding>): (r: seq<string>)
    ensures |r| == |fs|
  {
    seq(|fs|, k requires 0 <= k < |fs| => Message(fs[k]))
  }

  lemma MessagesSnoc(fs: seq<Finding>, f: Finding)
    ensures Messages(fs + [f]) == Messages(fs) + [Message(f)]
  {
    MessagesAppend(fs, [f]);
    assert Messages([f]) == [Message(f)];
  }

  lemma MessagesAppend(a: seq<Finding>, b: seq<Finding>)
    ensures Messages(a + b) == Messages(a) + Messages(b)
  {
    var l, r := Messages(a + b), Messages(a) + Messages(b);
    forall k | 0 <= k < |l| ensures l[k] == r[k] {
      if k < |a| { assert (a + b)[k] == a[k]; } else { assert (a + b)[k] == b[k - |a|]; }
    }
  }

  // ---------------------------------------------------------------------
  // The checks (app.py:138, 150-181)
  // ---------------------------------------------------------------------

  /** app.py:138: the test must have 15 to 20 questions. */
  predicate CountOutOfRange(n: nat) {
    n < 15 || n > 20
  }

  /** `alt.toLowerCase().trim()` of app.py:155. */
  function Normalise(alt: string): string {
    Trim(ToLower(alt))
  }

  function NormalisedAll(alts: seq<string>): (r: seq<string>)
    ensures |r| == |alts|
  {
    seq(|alts|, k requires 0 <= k < |alts| => Normalise(alts[k]))
  }

  /** `new Set(list)`: the elements of a list. */
  function Elements(s: seq<string>): set<string> {
    set x | x in s
  }

  /** app.py:155-156: the set of normalised alternatives is smaller than the
      list of alternatives. */
  predicate Repeated(alts: seq<string>) {
    |Elements(NormalisedAll(alts))| != |alts|
  }

  /** Two entries of a list are equal. */
  predicate HasDuplicate(s: seq<string>) {
    exists j, k :: 0 <= j < k < |s| && s[j] == s[k]
  }

  /** A list has as many distinct elements as entries exactly when no two
      of its entries are equal. */
  lemma {:induction false} DistinctElements(s: seq<string>)
    ensures |Elements(s)| <= |s|
    ensures |Elements(s)| == |s| <==> !HasDuplicate(s)
    decreases |s|
  {
    if s != [] {
      var n := |s| - 1;
      var init := s[..n];
      DistinctElements(init);
      assert Elements(s) == Elements(init) + {s[n]} by {
        forall x ensures x in Elements(s) <==> x in Elements(init) + {s[n]} {
          if x in s {
            var k :| 0 <= k < |s| && s[k] == x;
            if k < n { assert init[k] == x; }
          }
          if x in init {
            var k :| 0 <= k < |init| && init[k] == x;
            assert s[k] == x;
          }
        }
      }
      if s[n] in Elements(init) {
        var j :| 0 <= j < n && init[j] == s[n];
        assert s[j] == s[n];
      } else {
        if HasDuplicate(s) {
          var j, k :| 0 <= j < k < |s| && s[j] == s[k];
          assert k < n && init[j] == init[k];
        }
        if HasDuplicate(init) {
          var j, k :| 0 <= j < k < |init| && init[j] == init[k];
          assert s[j] == s[k];
        }
      }
    }
  }

  /** The set of normalised alternatives is smaller than the list exactly
      when two alternatives normalise to the same text. */
  lemma RepeatedIffEqualPair(alts: seq<string>)
    ensures Repeated(alts) <==> exists j, k :: 0 <= j < k < |alts| && Normalise(alts[j]) == Normalise(alts[k])
  {
    var ns := NormalisedAll(alts);
    DistinctElements(ns);
    if HasDuplicate(ns) {
      var j, k :| 0 <= j < k < |ns| && ns[j] == ns[k];
      assert Normalise(alts[j]) == Normalise(alts[k]);
    }
    if exists j, k :: 0 <= j < k < |alts| && Normalise(alts[j]) == Normalise(alts[k]) {
      var j, k :| 0 <= j < k < |alts| && Normalise(alts[j]) == Normalise(alts[k]);
      assert ns[j] == ns[k];
    }
  }

  /** app.py:169: `split(/\s+/)` yields fewer than ten pieces. */
  predicate TooShort(statement: string) {
    |SplitOnWhitespace(statement)| < 10
  }

  /** app.py:175: no space at all, or fewer than 50 UTF-16 code units. */
  predicate Uncontextualised(statement: string) {
    ' ' !in statement || Utf16Length(statement) < 50
  }

  /** app.py:181: a visual is mentioned but none was detected. */
  predicate VisualMissing(q: Question) {
    MentionsVisual(q.statement) && !q.hasImage
  }

  /** The outcome of the checks on one question. */
  datatype Checks = Checks(
    alternatives: nat,       // q.alternativas.length
    repeated: bool,          // app.py:155-156
    issues: seq<string>,     // checkGrammar(q.enunciado)
    short: bool,             // app.py:169
    uncontextualised: bool,  // app.py:175
    visualMissing: bool)     // app.py:181

  function Judge(q: Question, issues: seq<string>): Checks {
    Checks(|q.alternatives|, Repeated(q.alternatives), issues, TooShort(q.statement),
           Uncontextualised(q.statement), VisualMissing(q))
  }

  /** The six checks on question number `i` in the order of app.py:150-184,
      each as whether it failed and the finding it then reports. */
  function Candidates(i: nat, c: Checks): seq<(bool, Finding)> {
    [ (c.alternatives != 5, AlternativeCount(i, c.alternatives)),
      (c.repeated, RepeatedAlternatives(i)),
      (c.issues != [], GrammarProblems(i, c.issues)),
      (c.short, ShortStatement(i)),
      (c.uncontextualised, NotContextualised(i)),
      (c.visualMissing, MissingVisual(i)) ]
  }

  /** The findings of the failed checks, in order. */
  function Failed(cands: seq<(bool, Finding)>): seq<Finding> {
    if cands == [] then []
    else
      var last := cands[|cands| - 1];
      Failed(cands[..|cands| - 1]) + (if last.0 then [last.1] else [])
  }

  /** The findings of question number `i`. */
  function FindingsOf(i: nat, c: Checks): seq<Finding> {
    Failed(Candidates(i, c))
  }

  /** The findings about one question of the test. */
  function QuestionFindings(i: nat, q: Question, issues: seq<string>): seq<Finding> {
    FindingsOf(i, Judge(q, issues))
  }

  /** `f` applied to the entries of two lists of the same length, pairwise. */
  function Map2<A, B, C>(f: (A, B) -> C, xs: seq<A>, ys: seq<B>): (r: seq<C>)
    requires |xs| == |ys|
    ensures |r| == |xs|
  {
    seq(|xs|, k requires 0 <= k < |xs| => f(xs[k], ys[k]))
  }

  lemma Map2Snoc<A, B, C>(f: (A, B) -> C, xs: seq<A>, ys: seq<B>, n: nat)
    requires |xs| == |ys| && n < |xs|
    ensures Map2(f, xs[..n + 1], ys[..n + 1]) == Map2(f, xs[..n], ys[..n]) + [f(xs[n], ys[n])]
  {
    var l := Map2(f, xs[..n + 1], ys[..n + 1]);
    var r := Map2(f, xs[..n], ys[..n]) + [f(xs[n], ys[n])];
    forall k | 0 <= k < |l| ensures l[k] == r[k] {
      assert xs[..n + 1][k] == xs[k] && ys[..n + 1][k] == ys[k];
      if k < n { assert xs[..n][k] == xs[k] && ys[..n][k] == ys[k]; }
    }
  }

  /** The checks on every question, in order. */
  function Judgements(qs: seq<Question>, grammar: seq<seq<string>>): (r: seq<Checks>)
    requires |grammar| == |qs|
    ensures |r| == |qs|
  {
    Map2(Judge, qs, grammar)
  }

  /** The findings of all questions, numbered from 1 in their order. */
  function AllFindings(cs: seq<Checks>): (r: seq<Finding>)
  {
    if cs == [] then [] else AllFindings(cs[..|cs| - 1]) + FindingsOf(|cs|, cs[|cs| - 1])
  }

  function CountFindings(n: nat): seq<Finding> {
    if CountOutOfRange(n) then [QuestionCount(n)] else []
  }

  /** All findings about a test, in the order they are reported. */
  function Findings(qs: seq<Question>, grammar: seq<seq<string>>): seq<Finding>
    requires |grammar| == |qs|
  {
    CountFindings(|qs|) + AllFindings(Judgements(qs, grammar))
  }

  // ---------------------------------------------------------------------
  // The evaluator of app.py:132-188
  // ---------------------------------------------------------------------

  /** One `if (...) suggestions.push(...)` of the script: check `k` of
      `cands`. */
  method Suggest(suggestions: seq<string>, cands: seq<(bool, Finding)>, k: nat)
    returns (suggestions': seq<string>)
    requires k < |cands| && suggestions == Messages(Failed(cands[..k]))
    ensures suggestions' == Messages(Failed(cands[..k + 1]))
  {
    assert cands[..k + 1][..k] == cands[..k];
    suggestions' := suggestions;
    if cands[k].0 {
      MessagesSnoc(Failed(cands[..k]), cands[k].1);
      suggestions' := suggestions + [Message(cands[k].1)];
    } else {
      assert Failed(cands[..k + 1]) == Failed(cands[..k]) + [];
    }
  }

  /** The suggestions for a question whose checks came out as `c`, in the
      order of app.py:150-184. */
  method Report(i: nat, c: Checks) returns (found: seq<string>)
    ensures found == Messages(FindingsOf(i, c))
  {
    var cands := Candidates(i, c);
    assert cands[..0] == [];
    found := Suggest([], cands, 0);
    found := Suggest(found, cands, 1);
    found := Suggest(found, cands, 2);
    found := Suggest(found, cands, 3);
    found := Suggest(found, cands, 4);
    found := Suggest(found, cands, 5);
    assert cands[..6] == cands;
  }

  /** The checks of app.py:150-181 on one question. */
  method CheckQuestion(q: Question, grammarIssues: seq<string>) returns (c: Checks)
    ensures c == Judge(q, grammarIssues)
    ensures c.alternatives == |q.alternatives| && c.issues == grammarIssues
    ensures c.repeated <==>
      exists j, k :: 0 <= j < k < |q.alternatives| && Normalise(q.alternatives[j]) == Normalise(q.alternatives[k])
    ensures c.short <==> WhitespaceRuns(q.statement) < 9
    ensures c.uncontextualised <==> ' ' !in q.statement || Utf16Length(q.statement) < 50
    ensures c.visualMissing <==> MentionsVisual(q.statement) && !q.hasImage
  {
    RepeatedIffEqualPair(q.alternatives);
    SplitOnWhitespaceCount(q.statement);
    var uniqueAlts := Elements(NormalisedAll(q.alternatives));
    var repeated := |uniqueAlts| != |q.alternatives|;
    var short := |SplitOnWhitespace(q.statement)| < 10;
    var uncontextualised := ' ' !in q.statement || Utf16Length(q.statement) < 50;
    var visualMissing := MentionsVisual(q.statement) && !q.hasImage;
    c := Checks(|q.alternatives|, repeated, grammarIssues, short, uncontextualised, visualMissing);
  }

  lemma JudgementsSnoc(qs: seq<Question>, grammar: seq<seq<string>>, n: nat)
    requires |grammar| == |qs| && n < |qs|
    ensures Judgements(qs[..n + 1], grammar[..n + 1]) == Judgements(qs[..n], grammar[..n]) + [Judge(qs[n], grammar[n])]
  {
    Map2Snoc(Judge, qs, grammar, n);
  }

  /** The checks on question `index` extend those on the questions before it. */
  method CheckNext(ghost cs: seq<Checks>, qs: seq<Question>, grammar: seq<seq<string>>, index: nat)
    returns (c: Checks)
    requires |grammar| == |qs| && index < |qs|
    requires cs == Judgements(qs[..index], grammar[..index])
    ensures cs + [c] == Judgements(qs[..index + 1], grammar[..index + 1])
  {
    c := CheckQuestion(qs[index], grammar[index]);
    JudgementsSnoc(qs, grammar, index);
  }

  /** The test of app.py:137-141 on the number of questions. */
  method CheckCount(numQuestions: nat) returns (suggestions: seq<string>, approved: bool)
    ensures suggestions == Messages(CountFindings(numQuestions))
    ensures approved <==> suggestions == []
  {
    suggestions := [];
    approved := true;
    if numQuestions < 15 || numQuestions > 20 {
      suggestions := suggestions + [Message(QuestionCount(numQuestions))];
      approved := false;
    }
    assert Messages([QuestionCount(numQuestions)]) == [Message(QuestionCount(numQuestions))];
  }

  /** The body of the loop at app.py:144-186 for question number `i`, whose
      checks came out as `c`. */
  method ReviewQuestion(ghost cs: seq<Checks>, ghost count: seq<Finding>, suggestions: seq<string>, approved: bool,
                        i: nat, c: Checks)
    returns (suggestions': seq<string>, approved': bool)
    requires i == |cs| + 1
    requires suggestions == Messages(count + AllFindings(cs)) && (approved <==> suggestions == [])
    ensures suggestions' == Messages(count + AllFindings(cs + [c]))
    ensures approved' <==> suggestions' == []
  {
    var found := Report(i, c);
    ghost var after := cs + [c];
    assert after[..|cs|] == cs;
    MessagesAppend(count + AllFindings(cs), FindingsOf(i, c));
    assert count + AllFindings(cs) + FindingsOf(i, c) == count + (AllFindings(cs) + FindingsOf(i, c));
    suggestions' := suggestions + found;
    approved' := approved;
    if found != [] {
      approved' := false;
    }
  }

  /** `analyzeProva`: `suggestions` are the messages of `Findings`, and the
      test is approved exactly when there is none. */
  method AnalyzeProva(questions: seq<Question>, grammar: seq<seq<string>>)
    returns (approved: bool, suggestions: seq<string>)
    requires |grammar| == |questions|
    ensures suggestions == Messages(Findings(questions, grammar))
    ensures approved <==> suggestions == []
    ensures approved <==> Findings(questions, grammar) == []
  {
    suggestions, approved := CheckCount(|questions|);
    ghost var count := CountFindings(|questions|);
    ghost var cs: seq<Checks> := [];
    assert count + AllFindings(cs) == count;
    assert questions[..0] == [] && grammar[..0] == [];
    var index := 0;
    while index < |questions|
      invariant 0 <= index <= |questions|
      invariant cs == Judgements(questions[..index], grammar[..index])
      invariant suggestions == Messages(count + AllFindings(cs))
      invariant approved <==> suggestions == []
    {
      var checks := CheckNext(cs, questions, grammar, index);
      suggestions, approved := ReviewQuestion(cs, count, suggestions, approved, index + 1, checks);
      cs := cs + [checks];
      index := index + 1;
    }
    assert questions[..index] == questions && grammar[..index] == grammar;
  }
}
