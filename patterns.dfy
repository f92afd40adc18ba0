/**
 * The regular expressions of the segmenter (app.py:90-95, 109), each written
 * out as the character test it amounts to under JavaScript's rules: `\s` is
 * `Text.IsWhitespace`, `\d` the ASCII digits, and the `i` flag (without `u`)
 * pairs each ASCII letter and each Latin-1 letter with its other case.
 */
module Patterns {
  import opened Wrappers
  import opened Text

  /** The other-case partner of a lower-case Basic Latin or Latin-1 letter. */
  function UpperPartner(p: char): char {
    if 'a' <= p <= 'z' || ('\U{E0}' <= p <= '\U{FE}' && p != '\U{F7}') then (p as int - 32) as char else p
  }

  /** `c` matches the lower-case pattern character `p` under the `i` flag. */
  predicate SameLetter(c: char, p: char) {
    c == p || c == UpperPartner(p)
  }

  /** `s` holds the lower-case word `w` at position `i`, ignoring case. */
  predicate WordAt(s: string, i: nat, w: string) {
    i + |w| <= |s| && forall j :: 0 <= j < |w| ==> SameLetter(s[i + j], w[j])
  }

  predicate ContainsWord(s: string, w: string) {
    exists i :: 0 <= i <= |s| && WordAt(s, i, w)
  }

  const Label: string := "questão"

  /** Which of the three question-marker patterns matched. */
  datatype MarkerKind =
    | Labelled       // /^Questão\s+\d+/i, as in "Questão 01"
    | Dotted         // /^\d+\.\s*(?!\))/, as in "1. "
    | Parenthesised  // /^\d+\)\s*/, as in "1) "

  /** A marker line: the pattern that matched first and the line with the
      matched text removed. */
  datatype Marker = Marker(kind: MarkerKind, rest: string)

  /** Length of the match of /^Questão\s+\d+/i at the start of `line`. */
  function LabelledMatch(line: string): (r: Option<nat>)
    ensures r.Some? ==> 8 < r.value <= |line|
  {
    if !WordAt(line, 0, Label) then None
    else
      var w := WhitespaceRun(line, |Label|);
      if w == 0 then None
      else
        var d := DigitRun(line, |Label| + w);
        if d == 0 then None else Some(|Label| + w + d)
  }

  /** Length of the match of /^\d+\.\s*(?!\))/ at the start of `line`. The
      greedy `\s*` gives back its last character when a `)` follows, so only
      "N.)" fails, while "N. )" matches and leaves " )". */
  function DottedMatch(line: string): (r: Option<nat>)
    ensures r.Some? ==> 1 < r.value <= |line|
  {
    var d := DigitRun(line, 0);
    if d == 0 || d == |line| || line[d] != '.' then None
    else
      var w := WhitespaceRun(line, d + 1);
      var e := d + 1 + w;
      if e < |line| && line[e] == ')' then (if w == 0 then None else Some(e - 1))
      else Some(e)
  }

  /** Length of the match of the pattern `^\d+\)\s*` at the start of `line`. */
  function ParenthesisedMatch(line: string): (r: Option<nat>)
    ensures r.Some? ==> 1 < r.value <= |line|
  {
    var d := DigitRun(line, 0);
    if d == 0 || d == |line| || line[d] != ')' then None
    else Some(d + 1 + WhitespaceRun(line, d + 1))
  }

  /** The question-marker test and strip of app.py:101 and 107: the first
      pattern that matches, with its match removed from the line. What is
      left is a proper suffix of the line. */
  function MatchMarker(line: string): (r: Option<Marker>)
    ensures r.Some? ==> |r.value.rest| < |line| && r.value.rest == line[|line| - |r.value.rest|..]
    ensures r.Some? <==> LabelledMatch(line).Some? || DottedMatch(line).Some? || ParenthesisedMatch(line).Some?
    ensures r.Some? && r.value.kind == Labelled ==> LabelledMatch(line) == Some(|line| - |r.value.rest|)
    ensures r.Some? && r.value.kind == Dotted ==>
      LabelledMatch(line).None? && DottedMatch(line) == Some(|line| - |r.value.rest|)
    ensures r.Some? && r.value.kind == Parenthesised ==>
      LabelledMatch(line).None? && DottedMatch(line).None? && ParenthesisedMatch(line) == Some(|line| - |r.value.rest|)
  {
    match LabelledMatch(line)
    case Some(n) => Some(Marker(Labelled, line[n..]))
    case None =>
      match DottedMatch(line)
      case Some(n) => Some(Marker(Dotted, line[n..]))
      case None =>
        match ParenthesisedMatch(line)
        case Some(n) => Some(Marker(Parenthesised, line[n..]))
        case None => None
  }

  /** The first `n` characters of `line` match /^Questão\s+\d+/i, with the
      whitespace ending at `m`. */
  predicate LabelledAt(line: string, m: nat, n: nat) {
    && WordAt(line, 0, Label) && |Label| < m < n <= |line|
    && (forall k :: |Label| <= k < m ==> IsWhitespace(line[k]))
    && (forall k :: m <= k < n ==> IsDigit(line[k]))
  }

  /** The first `n` characters of `line` match /^\d+\.\s*(?!\))/, with the
      dot at `d`: digits, the dot, whitespace, and no `)` right after. */
  predicate DottedAt(line: string, d: nat, n: nat) {
    && 0 < d < n <= |line|
    && (forall k :: 0 <= k < d ==> IsDigit(line[k]))
    && line[d] == '.'
    && (forall k :: d < k < n ==> IsWhitespace(line[k]))
    && (n == |line| || line[n] != ')')
  }

  /** The first `n` characters of `line` match `^\d+\)\s*`, with the
      parenthesis at `d`. */
  predicate ParenthesisedAt(line: string, d: nat, n: nat) {
    && 0 < d < n <= |line|
    && (forall k :: 0 <= k < d ==> IsDigit(line[k]))
    && line[d] == ')'
    && (forall k :: d < k < n ==> IsWhitespace(line[k]))
  }

  /** `LabelledMatch` finds a match exactly when the line starts with one,
      and then the longest, which is what the greedy `\s+` and `\d+` take. */
  lemma LabelledMatchLongest(line: string)
    ensures LabelledMatch(line).Some? ==> exists m :: LabelledAt(line, m, LabelledMatch(line).value)
    ensures forall m: nat, n: nat :: LabelledAt(line, m, n) ==> LabelledMatch(line).Some? && n <= LabelledMatch(line).value
  {
    if LabelledMatch(line).Some? {
      var w := WhitespaceRun(line, |Label|);
      assert LabelledAt(line, |Label| + w, LabelledMatch(line).value);
    }
    forall m: nat, n: nat | LabelledAt(line, m, n)
      ensures LabelledMatch(line).Some? && n <= LabelledMatch(line).value
    {
      LabelledAtBound(line, m, n);
    }
  }

  lemma LabelledAtBound(line: string, m: nat, n: nat)
    requires LabelledAt(line, m, n)
    ensures LabelledMatch(line).Some? && n <= LabelledMatch(line).value
  {
    WhitespaceRunLongest(line, |Label|, m);
    var w := WhitespaceRun(line, |Label|);
    assert IsDigit(line[m]) && !IsWhitespace(line[m]);
    assert m == |Label| + w;
    DigitRunLongest(line, m, n);
  }

  /** `DottedMatch` finds a match exactly when the line starts with one, and
      then the longest: the greedy `\s*` gives back only what the `(?!\))`
      needs. */
  lemma DottedMatchLongest(line: string)
    ensures DottedMatch(line).Some? ==> exists d :: DottedAt(line, d, DottedMatch(line).value)
    ensures forall d: nat, n: nat :: DottedAt(line, d, n) ==> DottedMatch(line).Some? && n <= DottedMatch(line).value
  {
    if DottedMatch(line).Some? {
      assert DottedAt(line, DigitRun(line, 0), DottedMatch(line).value);
    }
    forall d: nat, n: nat | DottedAt(line, d, n)
      ensures DottedMatch(line).Some? && n <= DottedMatch(line).value
    {
      DottedAtBound(line, d, n);
    }
  }

  lemma DottedAtBound(line: string, d: nat, n: nat)
    requires DottedAt(line, d, n)
    ensures DottedMatch(line).Some? && n <= DottedMatch(line).value
  {
    DigitRunLongest(line, 0, d);
    assert d == DigitRun(line, 0);
    WhitespaceRunLongest(line, d + 1, n);
  }

  /** `ParenthesisedMatch` finds a match exactly when the line starts with
      one, and then the longest. */
  lemma ParenthesisedMatchLongest(line: string)
    ensures ParenthesisedMatch(line).Some? ==> exists d :: ParenthesisedAt(line, d, ParenthesisedMatch(line).value)
    ensures forall d: nat, n: nat :: ParenthesisedAt(line, d, n) ==> ParenthesisedMatch(line).Some? && n <= ParenthesisedMatch(line).value
  {
    if ParenthesisedMatch(line).Some? {
      assert ParenthesisedAt(line, DigitRun(line, 0), ParenthesisedMatch(line).value);
    }
    forall d: nat, n: nat | ParenthesisedAt(line, d, n)
      ensures ParenthesisedMatch(line).Some? && n <= ParenthesisedMatch(line).value
    {
      ParenthesisedAtBound(line, d, n);
    }
  }

  lemma ParenthesisedAtBound(line: string, d: nat, n: nat)
    requires ParenthesisedAt(line, d, n)
    ensures ParenthesisedMatch(line).Some? && n <= ParenthesisedMatch(line).value
  {
    DigitRunLongest(line, 0, d);
    assert d == DigitRun(line, 0);
    WhitespaceRunLongest(line, d + 1, n);
  }

  predicate IsMarker(line: string) {
    MatchMarker(line).Some?
  }

  /** The three marker patterns exclude one another, so the order in which
      they are tried decides nothing. */
  lemma MarkerPatternsDisjoint(line: string)
    ensures !(LabelledMatch(line).Some? && DottedMatch(line).Some?)
    ensures !(LabelledMatch(line).Some? && ParenthesisedMatch(line).Some?)
    ensures !(DottedMatch(line).Some? && ParenthesisedMatch(line).Some?)
  {
    if LabelledMatch(line).Some? {
      assert SameLetter(line[0], Label[0]);
    }
  }

  predicate IsOptionLetter(c: char) {
    'A' <= c <= 'E' || 'a' <= c <= 'e'
  }

  /** The alternative test and strip of app.py:95, 112 and 114:
      /^[A-E][\)\.]\s+/i, and the line without the label, its punctuation
      and the whitespace after it. */
  function MatchAlternative(line: string): (r: Option<string>)
    ensures r.Some? ==> |r.value| + 3 <= |line| && r.value == line[|line| - |r.value|..]
    ensures r.Some? ==> IsOptionLetter(line[0]) && (line[1] == ')' || line[1] == '.') && IsWhitespace(line[2])
    ensures r.Some? ==> r.value == [] || !IsWhitespace(r.value[0])
    ensures r.Some? ==> forall k :: 2 <= k < |line| - |r.value| ==> IsWhitespace(line[k])
    ensures r.None? <==>
      !(3 <= |line| && IsOptionLetter(line[0]) && (line[1] == ')' || line[1] == '.') && IsWhitespace(line[2]))
  {
    if |line| < 3 || !IsOptionLetter(line[0]) || (line[1] != ')' && line[1] != '.') then None
    else
      var w := WhitespaceRun(line, 2);
      if w == 0 then None else Some(line[2 + w..])
  }

  /** A marker line never looks like an alternative: the marker test running
      first at app.py:102 takes nothing away from the alternative test. */
  lemma MarkerIsNotAlternative(line: string)
    requires IsMarker(line)
    ensures MatchAlternative(line).None?
  {
    if LabelledMatch(line).Some? {
      assert SameLetter(line[0], Label[0]);
    }
  }

  const VisualWords: seq<string> := ["gráfico", "imagem", "figura"]

  /** /(gráfico|imagem|figura)/i.test(s) (app.py:109, 121, 181). */
  predicate MentionsVisual(s: string) {
    ContainsWord(s, VisualWords[0]) || ContainsWord(s, VisualWords[1]) || ContainsWord(s, VisualWords[2])
  }

  /** The letters of a word matched case-insensitively. */
  predicate IsWordLetter(c: char) {
    'a' <= c <= 'z' || 'A' <= c <= 'Z' || c == 'á' || c == 'Á'
  }

  /** Only a letter matches a letter of the three visual words. */
  lemma VisualLetter(k: nat, j: nat, c: char)
    requires k < |VisualWords| && j < |VisualWords[k]|
    requires SameLetter(c, VisualWords[k][j])
    ensures IsWordLetter(c)
  {
  }

  lemma {:induction false} ContainsWordInSuffix(s: string, k: nat, w: string)
    requires k <= |s| && ContainsWord(s[k..], w)
    ensures ContainsWord(s, w)
  {
    var i :| 0 <= i <= |s[k..]| && WordAt(s[k..], i, w);
    forall j | 0 <= j < |w| ensures SameLetter(s[k + i + j], w[j]) {
      assert s[k..][i + j] == s[k + i + j];
    }
    assert WordAt(s, k + i, w);
  }

  lemma {:induction false} ContainsWordInPrefix(s: string, n: nat, w: string)
    requires n <= |s| && ContainsWord(s[..n], w)
    ensures ContainsWord(s, w)
  {
    var i :| 0 <= i <= n && WordAt(s[..n], i, w);
    forall j | 0 <= j < |w| ensures SameLetter(s[i + j], w[j]) {
      assert s[..n][i + j] == s[i + j];
    }
    assert WordAt(s, i, w);
  }

  /** An occurrence cannot run across a character that matches none of the
      word's letters: it lies wholly on one side. */
  lemma {:induction false} ContainsWordAcrossGap(a: string, c: char, b: string, w: string)
    requires forall j :: 0 <= j < |w| ==> !SameLetter(c, w[j])
    requires ContainsWord(a + [c] + b, w)
    ensures ContainsWord(a, w) || ContainsWord(b, w)
  {
    var s := a + [c] + b;
    var i :| 0 <= i <= |s| && WordAt(s, i, w);
    forall k | i <= k < i + |w| ensures s[k] != c {
      assert SameLetter(s[i + (k - i)], w[k - i]);
    }
    assert s[|a|] == c;
    if i + |w| <= |a| {
      forall j | 0 <= j < |w| ensures SameLetter(a[i + j], w[j]) {
        assert s[i + j] == a[i + j];
      }
      assert WordAt(a, i, w);
    } else {
      assert i > |a|;
      forall j | 0 <= j < |w| ensures SameLetter(b[i - |a| - 1 + j], w[j]) {
        assert s[i + j] == b[i - |a| - 1 + j];
      }
      assert WordAt(b, i - |a| - 1, w);
    }
  }

  /** A mention in a suffix (a marker line without its marker) is a mention in
      the whole line. */
  lemma MentionsVisualInSuffix(s: string, k: nat)
    requires k <= |s| && MentionsVisual(s[k..])
    ensures MentionsVisual(s)
  {
    forall n | 0 <= n < |VisualWords| && ContainsWord(s[k..], VisualWords[n]) ensures ContainsWord(s, VisualWords[n]) {
      ContainsWordInSuffix(s, k, VisualWords[n]);
    }
  }

  lemma MentionsVisualInPrefix(s: string, n: nat)
    requires n <= |s| && MentionsVisual(s[..n])
    ensures MentionsVisual(s)
  {
    forall m | 0 <= m < |VisualWords| && ContainsWord(s[..n], VisualWords[m]) ensures ContainsWord(s, VisualWords[m]) {
      ContainsWordInPrefix(s, n, VisualWords[m]);
    }
  }

  /** The visual words hold no space, so a mention in `a + " " + b` is a
      mention in `a` or in `b`: joining lines with a space creates none. */
  lemma MentionsVisualAcrossSpace(a: string, b: string)
    requires MentionsVisual(a + " " + b)
    ensures MentionsVisual(a) || MentionsVisual(b)
  {
    assert a + " " + b == a + [' '] + b;
    forall n | 0 <= n < |VisualWords| && ContainsWord(a + [' '] + b, VisualWords[n])
      ensures ContainsWord(a, VisualWords[n]) || ContainsWord(b, VisualWords[n])
    {
      forall j | 0 <= j < |VisualWords[n]| ensures !SameLetter(' ', VisualWords[n][j]) {
        if SameLetter(' ', VisualWords[n][j]) { VisualLetter(n, j, ' '); }
      }
      ContainsWordAcrossGap(a, ' ', b, VisualWords[n]);
    }
  }

  /** Joining two texts with a space neither creates nor hides a mention. */
  lemma MentionsVisualJoin(a: string, b: string)
    ensures MentionsVisual(a + " " + b) <==> MentionsVisual(a) || MentionsVisual(b)
  {
    var s := a + " " + b;
    if MentionsVisual(s) {
      MentionsVisualAcrossSpace(a, b);
    }
    if MentionsVisual(a) {
      assert s[..|a|] == a;
      MentionsVisualInPrefix(s, |a|);
    }
    if MentionsVisual(b) {
      assert s[|a| + 1..] == b;
      MentionsVisualInSuffix(s, |a| + 1);
    }
  }

  /** A letter of the visual words is a lower-case letter whose `i`-flag
      partners are itself and its capital, and `toLowerCase` maps both to it. */
  lemma SameLetterLower(c: char, p: char)
    requires 'a' <= p <= 'z' || p == 'á'
    ensures SameLetter(LowerChar(c), p) <==> SameLetter(c, p)
  {
  }

  /** Matching a lower-case word under the `i` flag does not depend on case:
      lower-casing the text first changes nothing. */
  lemma ContainsWordLower(s: string, w: string)
    requires forall j :: 0 <= j < |w| ==> 'a' <= w[j] <= 'z' || w[j] == 'á'
    ensures ContainsWord(ToLower(s), w) <==> ContainsWord(s, w)
  {
    var t := ToLower(s);
    forall i | 0 <= i <= |s| ensures WordAt(t, i, w) <==> WordAt(s, i, w) {
      if i + |w| <= |s| {
        forall j | 0 <= j < |w| ensures SameLetter(t[i + j], w[j]) <==> SameLetter(s[i + j], w[j]) {
          SameLetterLower(s[i + j], w[j]);
        }
      }
    }
    if ContainsWord(t, w) {
      var i :| 0 <= i <= |t| && WordAt(t, i, w);
      assert WordAt(s, i, w);
    }
    if ContainsWord(s, w) {
      var i :| 0 <= i <= |s| && WordAt(s, i, w);
      assert WordAt(t, i, w);
    }
  }

  /** The visual test ignores case: a text and its lower-cased form mention
      a visual alike. */
  lemma MentionsVisualIgnoresCase(s: string)
    ensures MentionsVisual(ToLower(s)) <==> MentionsVisual(s)
  {
    forall n | 0 <= n < |VisualWords| ensures ContainsWord(ToLower(s), VisualWords[n]) <==> ContainsWord(s, VisualWords[n]) {
      ContainsWordLower(s, VisualWords[n]);
    }
  }

  /** Removing a marker removes no mention: the matched text is "Questão", a
      digit run, `.`, `)` and whitespace, and none of these can take part in
      an occurrence of a visual word. */
  lemma MarkerKeepsMentions(line: string)
    requires IsMarker(line)
    ensures MentionsVisual(line) <==> MentionsVisual(MatchMarker(line).value.rest)
  {
    var rest := MatchMarker(line).value.rest;
    var n := |line| - |rest|;
    assert rest == line[n..];
    if MentionsVisual(rest) {
      MentionsVisualInSuffix(line, n);
    }
    if MentionsVisual(line) {
      forall m | 0 <= m < |VisualWords| && ContainsWord(line, VisualWords[m])
        ensures ContainsWord(rest, VisualWords[m])
      {
        var i :| 0 <= i <= |line| && WordAt(line, i, VisualWords[m]);
        MentionAfterMarker(line, m, i);
      }
    }
  }

  /** An occurrence of a visual word in a marker line lies in its statement. */
  lemma MentionAfterMarker(line: string, m: nat, i: nat)
    requires IsMarker(line) && m < |VisualWords| && WordAt(line, i, VisualWords[m])
    ensures ContainsWord(MatchMarker(line).value.rest, VisualWords[m])
  {
    var w := VisualWords[m];
    var rest := MatchMarker(line).value.rest;
    var n := |line| - |rest|;
    MatchStartsAtOrAfterMarker(line, m, i);
    forall j | 0 <= j < |w| ensures SameLetter(rest[i - n + j], w[j]) {
      assert rest[i - n + j] == line[i + j];
    }
    assert WordAt(rest, i - n, w);
  }

  lemma MatchStartsAtOrAfterMarker(line: string, m: nat, i: nat)
    requires IsMarker(line) && m < |VisualWords| && WordAt(line, i, VisualWords[m])
    ensures i >= |line| - |MatchMarker(line).value.rest|
  {
    var w := VisualWords[m];
    forall k | i <= k < i + |w| ensures IsWordLetter(line[k]) {
      assert SameLetter(line[i + (k - i)], w[k - i]);
      VisualLetter(m, k - i, line[k]);
    }
    assert SameLetter(line[i], w[0]) by { assert line[i + 0] == line[i]; }
    MarkerPrefixLetters(line);
  }

  /** Inside the matched text of a marker, only the letters of "Questão" are
      letters. */
  lemma MarkerPrefixLetters(line: string)
    requires IsMarker(line)
    ensures var n := |line| - |MatchMarker(line).value.rest|;
      if LabelledMatch(line).Some? then
        n > |Label| && (forall k :: 0 <= k < |Label| ==> SameLetter(line[k], Label[k]))
        && forall k :: |Label| <= k < n ==> !IsWordLetter(line[k])
      else
        forall k :: 0 <= k < n ==> !IsWordLetter(line[k])
  {
    var n := |line| - |MatchMarker(line).value.rest|;
    if LabelledMatch(line).Some? {
      assert n == LabelledMatch(line).value;
      LabelledPrefixLetters(line);
    } else if DottedMatch(line).Some? {
      assert n == DottedMatch(line).value;
      DottedPrefixLetters(line);
    } else {
      assert n == ParenthesisedMatch(line).value;
      ParenthesisedPrefixLetters(line);
    }
  }

  lemma LabelledPrefixLetters(line: string)
    requires LabelledMatch(line).Some?
    ensures var n := LabelledMatch(line).value;
      n > |Label| && (forall k :: 0 <= k < |Label| ==> SameLetter(line[k], Label[k]))
      && forall k :: |Label| <= k < n ==> !IsWordLetter(line[k])
  {
    forall k | 0 <= k < |Label| ensures SameLetter(line[k], Label[k]) {
      assert line[0 + k] == line[k];
    }
    var ws := WhitespaceRun(line, |Label|);
    assert LabelledMatch(line).value == |Label| + ws + DigitRun(line, |Label| + ws);
  }

  lemma DottedPrefixLetters(line: string)
    requires DottedMatch(line).Some?
    ensures forall k :: 0 <= k < DottedMatch(line).value ==> !IsWordLetter(line[k])
  {
    var d := DigitRun(line, 0);
    var w := WhitespaceRun(line, d + 1);
    assert DottedMatch(line).value <= d + 1 + w;
  }

  lemma ParenthesisedPrefixLetters(line: string)
    requires ParenthesisedMatch(line).Some?
    ensures forall k :: 0 <= k < ParenthesisedMatch(line).value ==> !IsWordLetter(line[k])
  {
    var d := DigitRun(line, 0);
    assert ParenthesisedMatch(line).value == d + 1 + WhitespaceRun(line, d + 1);
  }

  /** A trimmed line as the scan of app.py:101-122 sees it: a marker line
      (the line without its marker), an alternative line (the alternative's
      text and the whole line), or any other line. `visual` records whether
      the whole line mentions a visual. */
  datatype LineKind =
    | MarkerLine(rest: string, visual: bool)
    | AlternativeLine(text: string, line: string, visual: bool)
    | OtherLine(line: string, visual: bool)

  /** The text a line contributes to a statement. */
  function LineText(k: LineKind): string {
    match k
    case MarkerLine(rest, _) => rest
    case AlternativeLine(_, line, _) => line
    case OtherLine(line, _) => line
  }

  /** The marker test first, then the alternative test, as at app.py:101-112. */
  function Classify(line: string): LineKind {
    match MatchMarker(line)
    case Some(m) => MarkerLine(m.rest, MentionsVisual(line))
    case None =>
      match MatchAlternative(line)
      case Some(t) => AlternativeLine(t, line, MentionsVisual(line))
      case None => OtherLine(line, MentionsVisual(line))
  }

  /** A line is a marker line exactly when a marker pattern matches; it is an
      alternative line exactly when the alternative pattern matches, since no
      marker line does. The marker or label is removed from the front, and
      the visual flag is the test on the whole line. */
  lemma ClassifyKinds(line: string)
    ensures Classify(line).MarkerLine? <==> IsMarker(line)
    ensures Classify(line).AlternativeLine? <==> MatchAlternative(line).Some?
    ensures Classify(line).MarkerLine? ==>
      |Classify(line).rest| < |line| && Classify(line).rest == line[|line| - |Classify(line).rest|..]
    ensures Classify(line).AlternativeLine? ==>
      Classify(line).line == line && Classify(line).text == MatchAlternative(line).value
    ensures Classify(line).OtherLine? ==> Classify(line).line == line
    ensures Classify(line).visual == MentionsVisual(line)
  {
    if IsMarker(line) {
      MarkerIsNotAlternative(line);
    }
  }

  /** The `visual` flag of a classified line says whether the text it
      contributes mentions a visual; for a marker line this rests on
      `MarkerKeepsMentions`. */
  lemma ClassifyRecordsMentions(line: string)
    ensures Classify(line).visual == MentionsVisual(LineText(Classify(line)))
  {
    if IsMarker(line) {
      MarkerKeepsMentions(line);
    }
  }
}
