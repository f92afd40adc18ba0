/**
 * What the evaluator `analyzeProva` (app.py:132-188) promises about its
 * suggestions: which findings are reported, in which order, how many per
 * question, and what the evaluator can and cannot report on the questions
 * the segmenter builds.
 */
module RubricProperties {
  import opened Text
  import opened Patterns
  import opened Segmenter
  import opened Rubric

  // ---------------------------------------------------------------------
  // The order of the suggestions
  // ---------------------------------------------------------------------

  /** The question a finding is about; 0 for the count of questions. */
  function Subject(f: Finding): nat {
    if f.QuestionCount? then 0 else f.question
  }

  /** The position of a finding's check in the script (app.py:138-184). */
  function Rank(f: Finding): nat {
    match f
    case QuestionCount(_) => 0
    case AlternativeCount(_, _) => 1
    case RepeatedAlternatives(_) => 2
    case GrammarProblems(_, _) => 3
    case ShortStatement(_) => 4
    case NotContextualised(_) => 5
    case MissingVisual(_) => 6
  }

  /** `f` is reported before `g`: an earlier question, or the same question
      and an earlier check. */
  predicate Before(f: Finding, g: Finding) {
    Subject(f) < Subject(g) || (Subject(f) == Subject(g) && Rank(f) < Rank(g))
  }

  predicate Ordered(fs: seq<Finding>) {
    forall j, k :: 0 <= j < k < |fs| ==> Before(fs[j], fs[k])
  }

  // ---------------------------------------------------------------------
  // The suggestion texts
  // ---------------------------------------------------------------------

  /** Two headings that agree as far as the shorter one ends are the same
      heading: the number is followed by `:`, which is not a digit. */
  lemma HeadingNames(i: nat, j: nat, tail: string)
    requires Heading(i) <= Heading(j) + tail
    ensures i == j
  {
    var a, b := Decimal(i), Decimal(j);
    var h := Heading(j) + tail;
    HeadingChars(i);
    HeadingChars(j);
    assert forall k :: 0 <= k < |Heading(j)| ==> h[k] == Heading(j)[k];
    assert |a| == |b|;
    forall k | 0 <= k < |a| ensures a[k] == b[k] {
      assert Heading(i)[8 + k] == a[k] && h[8 + k] == b[k];
    }
    assert a == b;
    DecimalRoundTrip(i);
    DecimalRoundTrip(j);
  }

  /** The heading is `Questão `, the digits, then `: `. */
  lemma HeadingChars(i: nat)
    ensures |Heading(i)| == 8 + |Decimal(i)| + 2
    ensures forall k :: 0 <= k < |Decimal(i)| ==> Heading(i)[8 + k] == Decimal(i)[k]
    ensures Heading(i)[8 + |Decimal(i)|] == ':'
  {
  }

  /** Every suggestion about a question opens with `Questão ${i}: ` for its
      number, and the count suggestion opens with no such heading: the
      question a suggestion is about can be read back from its text. */
  lemma MessageNamesQuestion(f: Finding, i: nat)
    ensures Heading(i) <= Message(f) <==> !f.QuestionCount? && f.question == i
  {
    if f.QuestionCount? {
      CountMessageUnheaded(f.count, i);
    } else if Heading(i) <= Message(f) {
      HeadingNames(i, f.question, Complaint(f));
    }
  }

  lemma CountMessageUnheaded(n: nat, i: nat)
    ensures !(Heading(i) <= Message(QuestionCount(n)))
  {
    assert Heading(i)[0] == 'Q' && Message(QuestionCount(n))[0] == 'N';
  }

  // ---------------------------------------------------------------------
  // Failed: the findings of the checks that fail
  // ---------------------------------------------------------------------

  /** A finding is reported exactly when its check fails. */
  lemma {:induction false} FailedMember(cands: seq<(bool, Finding)>, f: Finding)
    ensures f in Failed(cands) <==> exists j :: 0 <= j < |cands| && cands[j] == (true, f)
    decreases |cands|
  {
    if cands != [] {
      var n := |cands| - 1;
      var init := cands[..n];
      FailedMember(init, f);
      if f in Failed(cands) {
        if f in Failed(init) {
          var j :| 0 <= j < |init| && init[j] == (true, f);
          assert cands[j] == (true, f);
        } else {
          assert cands[n] == (true, f);
        }
      }
      if exists j :: 0 <= j < |cands| && cands[j] == (true, f) {
        var j :| 0 <= j < |cands| && cands[j] == (true, f);
        if j < n {
          assert init[j] == (true, f);
        }
      }
    }
  }

  /** No more findings than checks, and fewer when a check passes. */
  lemma {:induction false} FailedLength(cands: seq<(bool, Finding)>)
    ensures |Failed(cands)| <= |cands|
    ensures (exists j :: 0 <= j < |cands| && !cands[j].0) ==> |Failed(cands)| < |cands|
    decreases |cands|
  {
    if cands != [] {
      var n := |cands| - 1;
      var init := cands[..n];
      FailedLength(init);
      if exists j :: 0 <= j < |cands| && !cands[j].0 {
        var j :| 0 <= j < |cands| && !cands[j].0;
        if j < n {
          assert !init[j].0;
        }
      }
    }
  }

  /** Failing checks keep the order of the checks. */
  lemma {:induction false} FailedOrdered(cands: seq<(bool, Finding)>)
    requires forall j, k :: 0 <= j < k < |cands| ==> Before(cands[j].1, cands[k].1)
    ensures Ordered(Failed(cands))
    decreases |cands|
  {
    if cands != [] {
      var n := |cands| - 1;
      var init := cands[..n];
      assert forall j, k :: 0 <= j < k < |init| ==> Before(init[j].1, init[k].1) by {
        forall j, k | 0 <= j < k < |init| ensures Before(init[j].1, init[k].1) {
          assert init[j] == cands[j] && init[k] == cands[k];
        }
      }
      FailedOrdered(init);
      var fs := Failed(init);
      if cands[n].0 {
        forall j | 0 <= j < |fs| ensures Before(fs[j], cands[n].1) {
          FailedMember(init, fs[j]);
          var m :| 0 <= m < |init| && init[m] == (true, fs[j]);
          assert cands[m] == init[m];
        }
        var r := Failed(cands);
        assert r == fs + [cands[n].1];
        forall j, k | 0 <= j < k < |r| ensures Before(r[j], r[k]) {
          assert r[j] == fs[j];
          if k < |fs| { assert r[k] == fs[k]; }
        }
      } else {
        assert Failed(cands) == fs + [];
      }
    }
  }

  // ---------------------------------------------------------------------
  // The findings about one question
  // ---------------------------------------------------------------------

  /** A finding about question `i` is reported exactly when its check fails
      (app.py:149-184). */
  lemma FindingsOfMember(i: nat, c: Checks, f: Finding)
    ensures f in FindingsOf(i, c) <==>
      || (f == AlternativeCount(i, c.alternatives) && c.alternatives != 5)
      || (f == RepeatedAlternatives(i) && c.repeated)
      || (f == GrammarProblems(i, c.issues) && c.issues != [])
      || (f == ShortStatement(i) && c.short)
      || (f == NotContextualised(i) && c.uncontextualised)
      || (f == MissingVisual(i) && c.visualMissing)
  {
    var cands := Candidates(i, c);
    FailedMember(cands, f);
    assert cands[0].1 == AlternativeCount(i, c.alternatives) && cands[1].1 == RepeatedAlternatives(i);
    assert cands[2].1 == GrammarProblems(i, c.issues) && cands[3].1 == ShortStatement(i);
    assert cands[4].1 == NotContextualised(i) && cands[5].1 == MissingVisual(i);
  }

  /** The findings about one question follow the order of the checks. */
  lemma FindingsOfOrdered(i: nat, c: Checks)
    ensures Ordered(FindingsOf(i, c))
  {
    var cands := Candidates(i, c);
    forall j, k | 0 <= j < k < |cands| ensures Before(cands[j].1, cands[k].1) {
      assert Subject(cands[j].1) == i == Subject(cands[k].1);
      assert Rank(cands[j].1) == j + 1 && Rank(cands[k].1) == k + 1;
    }
    FailedOrdered(cands);
  }

  /** At most six findings about a question, and at most five when the
      grammar service reports nothing. */
  lemma FindingsOfLength(i: nat, c: Checks)
    ensures |FindingsOf(i, c)| <= 6
    ensures c.issues == [] ==> |FindingsOf(i, c)| <= 5
  {
    var cands := Candidates(i, c);
    FailedLength(cands);
    if c.issues == [] {
      assert !cands[2].0;
    }
  }

  /** Every finding about question `i` names question `i`. */
  lemma FindingsOfSubject(i: nat, c: Checks, f: Finding)
    requires f in FindingsOf(i, c)
    ensures !f.QuestionCount? && f.question == i
  {
    FindingsOfMember(i, c, f);
  }

  // ---------------------------------------------------------------------
  // The findings about all questions
  // ---------------------------------------------------------------------

  /** The findings about the questions are those of each question in turn. */
  lemma AllFindingsMember(cs: seq<Checks>, f: Finding)
    ensures f in AllFindings(cs) <==> exists n :: 0 <= n < |cs| && f in FindingsOf(n + 1, cs[n])
  {
    if f in AllFindings(cs) {
      AllFindingsSource(cs, f);
    }
    if exists n :: 0 <= n < |cs| && f in FindingsOf(n + 1, cs[n]) {
      var n :| 0 <= n < |cs| && f in FindingsOf(n + 1, cs[n]);
      AllFindingsHas(cs, n, f);
    }
  }

  /** A finding about the questions is a finding of one of them. */
  lemma {:induction false} AllFindingsSource(cs: seq<Checks>, f: Finding)
    requires f in AllFindings(cs)
    ensures exists n :: 0 <= n < |cs| && f in FindingsOf(n + 1, cs[n])
    decreases |cs|
  {
    var m := |cs| - 1;
    var init := cs[..m];
    assert AllFindings(cs) == AllFindings(init) + FindingsOf(m + 1, cs[m]);
    if f in AllFindings(init) {
      AllFindingsSource(init, f);
      var n :| 0 <= n < |init| && f in FindingsOf(n + 1, init[n]);
      assert cs[n] == init[n];
    } else {
      assert f in FindingsOf(m + 1, cs[m]);
    }
  }

  /** A finding of question `n + 1` is among the findings about the questions. */
  lemma {:induction false} AllFindingsHas(cs: seq<Checks>, n: nat, f: Finding)
    requires n < |cs| && f in FindingsOf(n + 1, cs[n])
    ensures f in AllFindings(cs)
    decreases |cs|
  {
    var m := |cs| - 1;
    var init := cs[..m];
    assert AllFindings(cs) == AllFindings(init) + FindingsOf(m + 1, cs[m]);
    if n < m {
      assert init[n] == cs[n];
      AllFindingsHas(init, n, f);
    }
  }

  /** Every finding about the questions names one of them, numbered from 1. */
  lemma AllFindingsSubject(cs: seq<Checks>, f: Finding)
    requires f in AllFindings(cs)
    ensures !f.QuestionCount? && 1 <= f.question <= |cs|
  {
    AllFindingsMember(cs, f);
    var n :| 0 <= n < |cs| && f in FindingsOf(n + 1, cs[n]);
    FindingsOfSubject(n + 1, cs[n], f);
  }

  /** The findings come question by question, and within a question in the
      order of the checks. */
  lemma {:induction false} AllFindingsOrdered(cs: seq<Checks>)
    ensures Ordered(AllFindings(cs))
    decreases |cs|
  {
    if cs != [] {
      var m := |cs| - 1;
      var a := AllFindings(cs[..m]);
      var b := FindingsOf(m + 1, cs[m]);
      AllFindingsOrdered(cs[..m]);
      FindingsOfOrdered(m + 1, cs[m]);
      var r := AllFindings(cs);
      assert r == a + b;
      forall j, k | 0 <= j < k < |r| ensures Before(r[j], r[k]) {
        if k < |a| {
          assert r[j] == a[j] && r[k] == a[k];
        } else if j >= |a| {
          assert r[j] == b[j - |a|] && r[k] == b[k - |a|];
        } else {
          assert r[j] == a[j] && r[k] == b[k - |a|];
          AllFindingsSubject(cs[..m], a[j]);
          FindingsOfSubject(m + 1, cs[m], b[k - |a|]);
        }
      }
    }
  }

  // ---------------------------------------------------------------------
  // The suggestions of analyzeProva
  // ---------------------------------------------------------------------

  lemma JudgementsAt(qs: seq<Question>, grammar: seq<seq<string>>, n: nat)
    requires |grammar| == |qs| && n < |qs|
    ensures FindingsOf(n + 1, Judgements(qs, grammar)[n]) == QuestionFindings(n + 1, qs[n], grammar[n])
  {
  }

  /** A test gets the count finding when it has too few or too many
      questions, and otherwise exactly the findings of its questions. */
  lemma FindingsMember(qs: seq<Question>, grammar: seq<seq<string>>, f: Finding)
    requires |grammar| == |qs|
    ensures f in Findings(qs, grammar) <==>
      || (f == QuestionCount(|qs|) && CountOutOfRange(|qs|))
      || exists n :: 0 <= n < |qs| && f in QuestionFindings(n + 1, qs[n], grammar[n])
  {
    var cs := Judgements(qs, grammar);
    AllFindingsMember(cs, f);
    if f in AllFindings(cs) {
      var n :| 0 <= n < |cs| && f in FindingsOf(n + 1, cs[n]);
      JudgementsAt(qs, grammar, n);
    }
    if exists n :: 0 <= n < |qs| && f in QuestionFindings(n + 1, qs[n], grammar[n]) {
      var n :| 0 <= n < |qs| && f in QuestionFindings(n + 1, qs[n], grammar[n]);
      JudgementsAt(qs, grammar, n);
    }
    if f in AllFindings(cs) {
      AllFindingsSubject(cs, f);
    }
  }

  lemma CountThenQuestions(n: nat, cs: seq<Checks>)
    ensures Ordered(CountFindings(n) + AllFindings(cs))
  {
    var a := CountFindings(n);
    var b := AllFindings(cs);
    AllFindingsOrdered(cs);
    var r := a + b;
    forall j, k | 0 <= j < k < |r| ensures Before(r[j], r[k]) {
      if j >= |a| {
        assert r[j] == b[j - |a|] && r[k] == b[k - |a|];
      } else {
        assert r[j] == QuestionCount(n) && r[k] == b[k - |a|];
        AllFindingsSubject(cs, b[k - |a|]);
      }
    }
  }

  /** The suggestions come in the order of the script: the count first, then
      question by question in ascending order, and within a question check
      by check. */
  lemma FindingsOrdered(qs: seq<Question>, grammar: seq<seq<string>>)
    requires |grammar| == |qs|
    ensures Ordered(Findings(qs, grammar))
  {
    CountThenQuestions(|qs|, Judgements(qs, grammar));
  }

  /** The count finding is reported when the test has fewer than 15 or more
      than 20 questions, then as the first suggestion, and nowhere else. */
  lemma CountFindingFirst(qs: seq<Question>, grammar: seq<seq<string>>)
    requires |grammar| == |qs|
    ensures var fs := Findings(qs, grammar);
      CountOutOfRange(|qs|) <==> |fs| > 0 && fs[0] == QuestionCount(|qs|)
    ensures var fs := Findings(qs, grammar);
      forall k :: 0 < k < |fs| ==> !fs[k].QuestionCount?
  {
    var fs := Findings(qs, grammar);
    var cs := Judgements(qs, grammar);
    var b := AllFindings(cs);
    if |fs| > 0 && !CountOutOfRange(|qs|) {
      assert fs == b;
      AllFindingsSubject(cs, fs[0]);
    }
    forall k | 0 < k < |fs| ensures !fs[k].QuestionCount? {
      if !CountOutOfRange(|qs|) {
        assert fs[k] == b[k];
        AllFindingsSubject(cs, b[k]);
      } else {
        assert fs[k] == b[k - 1];
        AllFindingsSubject(cs, b[k - 1]);
      }
    }
  }

  // ---------------------------------------------------------------------
  // Each check on its own (app.py:149-184)
  // ---------------------------------------------------------------------

  /** app.py:149-152: the count finding about alternatives, with the number
      found, is reported exactly when a question does not have five. */
  lemma AlternativeCountReported(i: nat, q: Question, issues: seq<string>, n: nat)
    ensures AlternativeCount(i, n) in QuestionFindings(i, q, issues) <==> n == |q.alternatives| && n != 5
  {
    FindingsOfMember(i, Judge(q, issues), AlternativeCount(i, n));
  }

  /** app.py:155-159: repeated alternatives are reported exactly when two
      alternatives are equal once lower-cased and trimmed. */
  lemma RepeatedReported(i: nat, q: Question, issues: seq<string>)
    ensures RepeatedAlternatives(i) in QuestionFindings(i, q, issues) <==>
      exists j, k :: 0 <= j < k < |q.alternatives| && Normalise(q.alternatives[j]) == Normalise(q.alternatives[k])
  {
    FindingsOfMember(i, Judge(q, issues), RepeatedAlternatives(i));
    RepeatedIffEqualPair(q.alternatives);
  }

  /** app.py:162-166: the grammar finding carries the issues of the service
      and is reported exactly when there is at least one. */
  lemma GrammarReported(i: nat, q: Question, issues: seq<string>, reported: seq<string>)
    ensures GrammarProblems(i, reported) in QuestionFindings(i, q, issues) <==> reported == issues && issues != []
  {
    FindingsOfMember(i, Judge(q, issues), GrammarProblems(i, reported));
  }

  /** app.py:169-172: a statement is too short exactly when it has fewer
      than nine runs of whitespace, that is fewer than ten pieces. */
  lemma ShortReported(i: nat, q: Question, issues: seq<string>)
    ensures ShortStatement(i) in QuestionFindings(i, q, issues) <==> WhitespaceRuns(q.statement) < 9
  {
    FindingsOfMember(i, Judge(q, issues), ShortStatement(i));
    SplitOnWhitespaceCount(q.statement);
  }

  /** app.py:175-178: a statement without a space, or of fewer than 50
      UTF-16 code units, is reported as not contextualised. */
  lemma ContextReported(i: nat, q: Question, issues: seq<string>)
    ensures NotContextualised(i) in QuestionFindings(i, q, issues) <==>
      ' ' !in q.statement || Utf16Length(q.statement) < 50
    ensures |q.statement| < 25 ==> NotContextualised(i) in QuestionFindings(i, q, issues)
    ensures (forall k :: 0 <= k < |q.statement| ==> q.statement[k] as int <= 0xFFFF) ==>
      (NotContextualised(i) in QuestionFindings(i, q, issues) <==> ' ' !in q.statement || |q.statement| < 50)
  {
    FindingsOfMember(i, Judge(q, issues), NotContextualised(i));
    if forall k :: 0 <= k < |q.statement| ==> q.statement[k] as int <= 0xFFFF {
      Utf16LengthOfBasicPlane(q.statement);
    }
  }

  /** app.py:181-184: a missing visual is reported exactly when the
      statement mentions one and the question has none. */
  lemma VisualReported(i: nat, q: Question, issues: seq<string>)
    ensures MissingVisual(i) in QuestionFindings(i, q, issues) <==> MentionsVisual(q.statement) && !q.hasImage
  {
    FindingsOfMember(i, Judge(q, issues), MissingVisual(i));
  }

  /** Each question adds at most six suggestions, five when the grammar
      service reports nothing. */
  lemma QuestionFindingsLength(i: nat, q: Question, issues: seq<string>)
    ensures |QuestionFindings(i, q, issues)| <= 6
    ensures issues == [] ==> |QuestionFindings(i, q, issues)| <= 5
  {
    FindingsOfLength(i, Judge(q, issues));
  }

  // ---------------------------------------------------------------------
  // The evaluator on the segmenter's questions (app.py:56-58)
  // ---------------------------------------------------------------------

  /** The two facts the segmenter guarantees about each question it builds. */
  predicate WellFormed(q: Question) {
    && q.hasImage == MentionsVisual(q.statement)
    && 1 <= |q.alternatives| <= 5
  }

  /** No finding is a missing visual, and a count of alternatives it reports
      is between one and four. */
  predicate SegmentedShape(fs: seq<Finding>) {
    forall f :: f in fs ==> !f.MissingVisual? && (f.AlternativeCount? ==> 1 <= f.found <= 4)
  }

  /** The findings about well-formed questions have that shape. */
  lemma WellFormedFindings(qs: seq<Question>, grammar: seq<seq<string>>)
    requires |grammar| == |qs| && forall k :: 0 <= k < |qs| ==> WellFormed(qs[k])
    ensures SegmentedShape(Findings(qs, grammar))
  {
    forall f | f in Findings(qs, grammar)
      ensures !f.MissingVisual? && (f.AlternativeCount? ==> 1 <= f.found <= 4)
    {
      FindingsMember(qs, grammar, f);
      if !f.QuestionCount? {
        var n :| 0 <= n < |qs| && f in QuestionFindings(n + 1, qs[n], grammar[n]);
        WellFormedChecks(n + 1, qs[n], grammar[n]);
      }
    }
  }

  /** The findings of one well-formed question have that shape. */
  lemma WellFormedChecks(i: nat, q: Question, issues: seq<string>)
    requires WellFormed(q)
    ensures SegmentedShape(QuestionFindings(i, q, issues))
  {
    var c := Judge(q, issues);
    assert !c.visualMissing && 1 <= c.alternatives <= 5;
    forall f | f in FindingsOf(i, c)
      ensures !f.MissingVisual? && (f.AlternativeCount? ==> 1 <= f.found <= 4)
    {
      FindingsOfMember(i, c, f);
    }
  }

  /** The questions `analyzeWithGrok` builds are well formed. */
  lemma SegmentedQuestionsWellFormed(text: string)
    ensures forall k :: 0 <= k < |Segmentation(ScannedLines(text))| ==>
      WellFormed(Segmentation(ScannedLines(text))[k])
  {
    HasImageIffMentioned(text);
    SegmentationBounds(ScannedLines(text));
  }

  /** Whatever the grammar service reports, `analyzeProva` never reports a
      missing visual for the questions `analyzeWithGrok` builds, and a wrong
      number of alternatives it reports is between one and four. */
  lemma SegmentedTestFindings(text: string)
    ensures forall grammar: seq<seq<string>> :: |grammar| == |Segmentation(ScannedLines(text))| ==>
      SegmentedShape(Findings(Segmentation(ScannedLines(text)), grammar))
  {
    var qs := Segmentation(ScannedLines(text));
    SegmentedQuestionsWellFormed(text);
    forall grammar: seq<seq<string>> | |grammar| == |qs|
      ensures SegmentedShape(Findings(qs, grammar))
    {
      WellFormedFindings(qs, grammar);
    }
  }
}
