/**
 * The question segmenter `analyzeWithGrok` (app.py:80-130): the text is
 * normalised into non-blank lines, and a scan over the lines groups them
 * into questions with up to five alternatives each.
 *
 * `Segmentation` is a reference definition that first cuts the lines into
 * blocks at the marker lines and then reads each block on its own; the
 * method `AnalyzeWithGrok` is the line-by-line scan of the script, proved to
 * compute it.
 */
module Segmenter {
  import opened Wrappers
  import opened Text
  import opened Patterns

  /** A question as the script builds it: `enunciado`, `alternativas`, `hasImage`. */
  datatype Question = Question(statement: string, alternatives: seq<string>, hasImage: bool)

  // ---------------------------------------------------------------------
  // Normalisation (app.py:82-83)
  // ---------------------------------------------------------------------

  function WithoutCarriageReturns(s: string): string {
    if s == [] then [] else (if s[0] == '\r' then [] else [s[0]]) + WithoutCarriageReturns(s[1..])
  }

  /** `replace(/\r\n/g, '\n')`: each CR LF pair becomes LF, so the result
      differs from the text only in carriage returns that were dropped. */
  function ReplaceCrLf(s: string): (r: string)
    ensures |r| <= |s|
    ensures WithoutCarriageReturns(r) == WithoutCarriageReturns(s)
  {
    if |s| >= 2 && s[0] == '\r' && s[1] == '\n' then
      var r := "\n" + ReplaceCrLf(s[2..]);
      assert r[1..] == ReplaceCrLf(s[2..]);
      assert s[1..][1..] == s[2..];
      r
    else if s == [] then []
    else
      var r := [s[0]] + ReplaceCrLf(s[1..]);
      assert r[1..] == ReplaceCrLf(s[1..]);
      r
  }

  function WithoutWhitespace(s: string): string {
    if s == [] then [] else (if IsWhitespace(s[0]) then [] else [s[0]]) + WithoutWhitespace(s[1..])
  }

  /** Index of the last line feed in `s[lo..hi]`, if any. */
  function LastLineFeed(s: string, lo: nat, hi: nat): (r: Option<nat>)
    requires lo <= hi <= |s|
    ensures r.Some? ==> lo <= r.value < hi && s[r.value] == '\n'
    ensures r.None? ==> forall k :: lo <= k < hi ==> s[k] != '\n'
    decreases hi
  {
    if hi == lo then None
    else if s[hi - 1] == '\n' then Some(hi - 1)
    else LastLineFeed(s, lo, hi - 1)
  }

  lemma {:induction false} DropWhitespacePrefix(s: string, n: nat)
    requires n <= |s| && forall k :: 0 <= k < n ==> IsWhitespace(s[k])
    ensures WithoutWhitespace(s) == WithoutWhitespace(s[n..])
  {
    if n > 0 {
      DropWhitespacePrefix(s[1..], n - 1);
      assert s[1..][n - 1..] == s[n..];
    }
  }

  lemma {:induction false} WithoutWhitespaceAppend(a: string, b: string)
    ensures WithoutWhitespace(a + b) == WithoutWhitespace(a) + WithoutWhitespace(b)
  {
    if a == [] {
      assert a + b == b;
    } else {
      assert (a + b)[1..] == a[1..] + b;
      WithoutWhitespaceAppend(a[1..], b);
    }
  }

  /** One step of `replace(/\n\s*\n+/g, '\n\n')` at the front of `s`: what
      it writes and how many characters it consumes. From a line feed the
      greedy `\s*` backtracks to the last line feed of the whitespace run
      that follows, so a match runs from a line feed to that last line feed
      and the whitespace after it stays; anything else is copied. */
  function CollapseStep(s: string): (r: (string, nat))
    requires s != []
    ensures 1 <= r.1 <= |s|
    ensures r.1 == 1 ==> r.0 == [s[0]]
    ensures r.1 > 1 ==> r.0 == "\n\n" && s[0] == '\n' && s[r.1 - 1] == '\n' && AllWhitespace(s[1..r.1 - 1])
    ensures WithoutWhitespace(r.0) + WithoutWhitespace(s[r.1..]) == WithoutWhitespace(s)
  {
    if s[0] == '\n' then
      match LastLineFeed(s, 1, 1 + WhitespaceRun(s, 1))
      case Some(k) =>
        GapFacts(s, k);
        ("\n\n", k + 1)
      case None =>
        CopyFacts(s);
        ([s[0]], 1)
    else
      CopyFacts(s);
      ([s[0]], 1)
  }

  lemma CopyFacts(s: string)
    requires s != []
    ensures WithoutWhitespace([s[0]]) + WithoutWhitespace(s[1..]) == WithoutWhitespace(s)
  {
    assert [s[0]][1..] == [];
  }

  lemma GapFacts(s: string, k: nat)
    requires 1 <= k < |s| && s[0] == '\n' && s[k] == '\n'
    requires forall i :: 1 <= i < k ==> IsWhitespace(s[i])
    ensures AllWhitespace(s[1..k])
    ensures WithoutWhitespace("\n\n") + WithoutWhitespace(s[k + 1..]) == WithoutWhitespace(s)
  {
    forall i | 0 <= i < k - 1 ensures IsWhitespace(s[1..k][i]) { assert s[1..k][i] == s[1 + i]; }
    DropWhitespacePrefix(s, k + 1);
    assert "\n\n"[1..][1..] == [];
  }

  /** `replace(/\n\s*\n+/g, '\n\n')`: the steps of `CollapseStep` one after
      the other. Only whitespace changes. */
  function CollapseBlankLines(s: string): (r: string)
    ensures WithoutWhitespace(r) == WithoutWhitespace(s)
    decreases |s|
  {
    if s == [] then []
    else
      var step := CollapseStep(s);
      assert WithoutWhitespace(step.0 + CollapseBlankLines(s[step.1..])) == WithoutWhitespace(s) by {
        WithoutWhitespaceAppend(step.0, CollapseBlankLines(s[step.1..]));
      }
      step.0 + CollapseBlankLines(s[step.1..])
  }

  /** `filter(line => line.trim())`: the lines that are not all whitespace,
      in their order. */
  function NonBlank(ls: seq<string>): (r: seq<string>)
    ensures |r| <= |ls|
    ensures forall k :: 0 <= k < |r| ==> !AllWhitespace(r[k]) && r[k] in ls
    ensures forall x :: x in ls && !AllWhitespace(x) ==> x in r
  {
    if ls == [] then []
    else
      var rest := NonBlank(ls[1..]);
      assert forall k :: 1 <= k < |ls| ==> ls[k] == ls[1..][k - 1];
      (if AllWhitespace(ls[0]) then [] else [ls[0]]) + rest
  }
  /** Filtering a concatenation filters each part: `NonBlank` keeps the
      order and the multiplicity of the lines it keeps. */
  lemma {:induction false} NonBlankAppend(a: seq<string>, b: seq<string>)
    ensures NonBlank(a + b) == NonBlank(a) + NonBlank(b)
  {
    if a == [] {
      assert a + b == b;
    } else {
      assert (a + b)[1..] == a[1..] + b;
      NonBlankAppend(a[1..], b);
    }
  }

  /** One more line is appended to the result exactly when it is not blank. */
  lemma NonBlankSnoc(ls: seq<string>, l: string)
    ensures NonBlank(ls + [l]) == NonBlank(ls) + (if AllWhitespace(l) then [] else [l])
  {
    NonBlankAppend(ls, [l]);
    assert [l][1..] == [];
  }

  /** app.py:82-83: the non-blank lines of the normalised text, not yet
      trimmed. No line holds a line feed and none is blank. */
  function Lines(text: string): (r: seq<string>)
    ensures forall k :: 0 <= k < |r| ==> '\n' !in r[k] && !AllWhitespace(r[k])
  {
    NonBlank(Split(Trim(CollapseBlankLines(ReplaceCrLf(text))), '\n'))
  }

  /** app.py:98: each line trimmed, then classified by the tests of
      app.py:101 and 112. */
  function ClassifyLines(ls: seq<string>): (r: seq<LineKind>)
    ensures |r| == |ls|
  {
    seq(|ls|, k requires 0 <= k < |ls| => Classify(Trim(ls[k])))
  }

  /** The lines of `text` as the scan meets them: normalised, trimmed and classified. */
  function ScannedLines(text: string): seq<LineKind> {
    ClassifyLines(Lines(text))
  }

  // ---------------------------------------------------------------------
  // What the normalisation keeps
  // ---------------------------------------------------------------------

  /** One carriage return removed from the end of a piece, if it has one. */
  function Chomp(p: string): string {
    if p != [] && p[|p| - 1] == '\r' then p[..|p| - 1] else p
  }

  /** Every piece but the last loses the carriage return at its end: the
      pieces of a text once each CR LF pair has become a line feed. */
  function ChompAll(ps: seq<string>): (r: seq<string>)
    ensures |r| == |ps|
  {
    seq(|ps|, k requires 0 <= k < |ps| => if k < |ps| - 1 then Chomp(ps[k]) else ps[k])
  }

  lemma {:induction false} ChompAllCons(p: string, ps: seq<string>)
    requires |ps| >= 1
    ensures ChompAll([p] + ps) == [Chomp(p)] + ChompAll(ps)
  {
    assert forall k :: 1 <= k < |ps| + 1 ==> ([p] + ps)[k] == ps[k - 1];
  }

  /** `replace(/\r\n/g, '\n')` removes exactly one carriage return: the one
      at the end of each line of `split('\n')` but the last. Joined again
      with line feeds, those lines give the whole result. */
  lemma ReplaceCrLfLines(s: string)
    ensures Split(ReplaceCrLf(s), '\n') == ChompAll(Split(s, '\n'))
    ensures ReplaceCrLf(s) == Join(ChompAll(Split(s, '\n')), "\n")
  {
    ReplaceCrLfSplit(s);
    JoinSplit(ReplaceCrLf(s), '\n');
  }

  lemma {:induction false} ReplaceCrLfSplit(s: string)
    ensures Split(ReplaceCrLf(s), '\n') == ChompAll(Split(s, '\n'))
    decreases |s|
  {
    if |s| >= 2 && s[0] == '\r' && s[1] == '\n' {
      ReplaceCrLfSplit(s[2..]);
      CrLfPairStep(s);
    } else if s != [] {
      ReplaceCrLfSplit(s[1..]);
      CrLfCopyStep(s);
    }
  }

  /** A CR LF pair becomes one line feed, and the line it ends loses its
      carriage return. */
  lemma CrLfPairStep(s: string)
    requires |s| >= 2 && s[0] == '\r' && s[1] == '\n'
    requires Split(ReplaceCrLf(s[2..]), '\n') == ChompAll(Split(s[2..], '\n'))
    ensures Split(ReplaceCrLf(s), '\n') == ChompAll(Split(s, '\n'))
  {
    CrLfPair(s);
    PairPieces(s[2..], ReplaceCrLf(s[2..]));
  }

  lemma CrLfPair(s: string)
    requires |s| >= 2 && s[0] == '\r' && s[1] == '\n'
    ensures ReplaceCrLf(s) == "\n" + ReplaceCrLf(s[2..])
    ensures s == ['\r'] + (['\n'] + s[2..])
  {
  }

  /** The line structure of `CrLfPairStep`. */
  lemma PairPieces(t: string, rt: string)
    requires Split(rt, '\n') == ChompAll(Split(t, '\n'))
    ensures Split("\n" + rt, '\n') == ChompAll(Split(['\r'] + (['\n'] + t), '\n'))
  {
    SplitCons('\n', rt, '\n');
    SplitCons('\n', t, '\n');
    SplitCons('\r', ['\n'] + t, '\n');
    assert ['\r'] + Split(['\n'] + t, '\n')[0] == "\r";
    assert Split(['\n'] + t, '\n')[1..] == Split(t, '\n');
    ChompAllCons("\r", Split(t, '\n'));
    assert Chomp("\r") == "";
  }

  /** Any other character is copied. */
  lemma CrLfCopyStep(s: string)
    requires s != [] && !(|s| >= 2 && s[0] == '\r' && s[1] == '\n')
    requires Split(ReplaceCrLf(s[1..]), '\n') == ChompAll(Split(s[1..], '\n'))
    ensures Split(ReplaceCrLf(s), '\n') == ChompAll(Split(s, '\n'))
  {
    CrLfCopies(s);
    CopyPieces(s[0], s[1..], ReplaceCrLf(s[1..]));
  }

  /** The line structure of `CrLfCopyStep`. */
  lemma CopyPieces(c: char, t: string, rt: string)
    requires c == '\r' ==> t == [] || t[0] != '\n'
    requires Split(rt, '\n') == ChompAll(Split(t, '\n'))
    ensures Split([c] + rt, '\n') == ChompAll(Split([c] + t, '\n'))
  {
    SplitCons(c, rt, '\n');
    SplitCons(c, t, '\n');
    if c == '\n' {
      ChompAllCons("", Split(t, '\n'));
    } else {
      if c == '\r' {
        SplitFirstNonEmpty(t, '\n');
      }
      ChompAllJoinsFirst(c, Split(t, '\n'));
    }
  }

  lemma CrLfCopies(s: string)
    requires s != [] && !(|s| >= 2 && s[0] == '\r' && s[1] == '\n')
    ensures ReplaceCrLf(s) == [s[0]] + ReplaceCrLf(s[1..])
    ensures s == [s[0]] + s[1..]
  {
  }

  /** A character that is not a line feed joins the first piece, and the
      chomping of that piece is unaffected unless it is a lone carriage
      return in front of another piece. */
  lemma ChompAllJoinsFirst(c: char, ys: seq<string>)
    requires |ys| >= 1 && c != '\n'
    requires c == '\r' ==> |ys| == 1 || ys[0] != ""
    ensures ChompAll([[c] + ys[0]] + ys[1..]) == [[c] + ChompAll(ys)[0]] + ChompAll(ys)[1..]
  {
    if |ys| == 1 {
      assert ChompAll(ys) == ys;
      assert ys[1..] == [];
    } else {
      assert ys == [ys[0]] + ys[1..];
      ChompAllCons([c] + ys[0], ys[1..]);
      ChompAllCons(ys[0], ys[1..]);
      if ys[0] != "" {
        assert ([c] + ys[0])[..|[c] + ys[0]| - 1] == [c] + ys[0][..|ys[0]| - 1];
      }
    }
  }

  /** `x` has the first line of `y` and, after it, the same non-blank lines. */
  predicate KeepsLines(x: string, y: string) {
    && Split(x, '\n')[0] == Split(y, '\n')[0]
    && NonBlank(Split(x, '\n')[1..]) == NonBlank(Split(y, '\n')[1..])
  }

  /** `CollapseBlankLines` keeps the first line and the non-blank lines after
      it: it only turns runs of blank lines into one empty line. */
  lemma CollapseKeepsLines(s: string)
    ensures Split(CollapseBlankLines(s), '\n')[0] == Split(s, '\n')[0]
    ensures NonBlank(Split(CollapseBlankLines(s), '\n')[1..]) == NonBlank(Split(s, '\n')[1..])
    ensures NonBlank(Split(CollapseBlankLines(s), '\n')) == NonBlank(Split(s, '\n'))
  {
    CollapseKeepsFirst(s);
    FirstAndRest(Split(CollapseBlankLines(s), '\n'));
    FirstAndRest(Split(s, '\n'));
  }

  lemma {:induction false} CollapseKeepsFirst(s: string)
    ensures KeepsLines(CollapseBlankLines(s), s)
    decreases |s|
  {
    if s != [] {
      CollapseKeepsFirst(s[CollapseStep(s).1..]);
      StepKeepsLines(s);
    }
  }

  /** One step of the collapse keeps the lines, given that the rest does. */
  lemma StepKeepsLines(s: string)
    requires s != []
    requires KeepsLines(CollapseBlankLines(s[CollapseStep(s).1..]), s[CollapseStep(s).1..])
    ensures KeepsLines(CollapseBlankLines(s), s)
  {
    var step := CollapseStep(s);
    var t, ct := s[step.1..], CollapseBlankLines(s[step.1..]);
    assert CollapseBlankLines(s) == step.0 + ct;
    if step.1 == 1 {
      assert s == [s[0]] + t;
      if s[0] == '\n' {
        LineFeedStep(t, ct);
      } else {
        CharStep(s[0], t, ct);
      }
    } else {
      GapShape(s, step.1);
      GapStep(s[1..step.1 - 1], t, ct);
    }
  }

  /** The line structure of a character other than a line feed, copied. */
  lemma CharStep(c: char, t: string, ct: string)
    requires c != '\n' && KeepsLines(ct, t)
    ensures KeepsLines([c] + ct, [c] + t)
  {
    SplitCons(c, ct, '\n');
    SplitCons(c, t, '\n');
  }

  /** The line structure of a line feed that is copied. */
  lemma LineFeedStep(t: string, ct: string)
    requires KeepsLines(ct, t)
    ensures KeepsLines("\n" + ct, "\n" + t)
  {
    FirstAndRest(Split(ct, '\n'));
    FirstAndRest(Split(t, '\n'));
    SplitCons('\n', ct, '\n');
    SplitCons('\n', t, '\n');
  }

  /** The line structure of a line feed, blank lines `u` and the line feed
      that ends them, collapsed to two line feeds. */
  lemma GapStep(u: string, t: string, ct: string)
    requires AllWhitespace(u) && KeepsLines(ct, t)
    ensures KeepsLines("\n\n" + ct, "\n" + (u + ['\n'] + t))
  {
    FirstAndRest(Split(ct, '\n'));
    FirstAndRest(Split(t, '\n'));
    var x := u + ['\n'] + t;
    assert Split("\n\n" + ct, '\n') == [""] + ([""] + Split(ct, '\n')) by {
      assert "\n\n" + ct == "\n" + ("\n" + ct);
      SplitCons('\n', "\n" + ct, '\n');
      SplitCons('\n', ct, '\n');
    }
    assert Split("\n" + x, '\n') == [""] + Split(x, '\n') by {
      SplitCons('\n', x, '\n');
    }
    assert NonBlank([""] + Split(ct, '\n')) == NonBlank(Split(ct, '\n')) by {
      NonBlankAppend([""], Split(ct, '\n'));
    }
    BlankGap(u, t);
  }

  lemma GapShape(s: string, n: nat)
    requires 2 <= n <= |s| && s[0] == '\n' && s[n - 1] == '\n'
    ensures s == "\n" + (s[1..n - 1] + ['\n'] + s[n..])
  {
    assert s == s[..1] + (s[1..n - 1] + s[n - 1..n] + s[n..]);
  }

  /** Lines of whitespace between two line feeds add no non-blank line. */
  lemma BlankGap(u: string, t: string)
    requires AllWhitespace(u)
    ensures NonBlank(Split(u + ['\n'] + t, '\n')) == NonBlank(Split(t, '\n'))
  {
    SplitAroundSeparator(u, t, '\n');
    NonBlankAppend(Split(u, '\n'), Split(t, '\n'));
    SplitBlank(u, '\n');
    NonBlankOfBlank(Split(u, '\n'));
  }

  /** Blank lines only: nothing is kept. */
  lemma NonBlankOfBlank(ls: seq<string>)
    requires forall k :: 0 <= k < |ls| ==> AllWhitespace(ls[k])
    ensures NonBlank(ls) == []
  {
  }

  lemma {:induction false} FirstAndRest(ls: seq<string>)
    requires |ls| >= 1
    ensures NonBlank(ls) == NonBlank([ls[0]]) + NonBlank(ls[1..])
  {
    assert ls == [ls[0]] + ls[1..];
    NonBlankAppend([ls[0]], ls[1..]);
  }

  /** Each line trimmed. */
  function TrimAll(ls: seq<string>): (r: seq<string>)
    ensures |r| == |ls|
  {
    seq(|ls|, k requires 0 <= k < |ls| => Trim(ls[k]))
  }

  /** Two lists of lines that agree line by line once trimmed. */
  predicate SameTrims(xs: seq<string>, ys: seq<string>) {
    |xs| == |ys| && forall k :: 0 <= k < |xs| ==> Trim(xs[k]) == Trim(ys[k])
  }

  /** Lines that agree once trimmed are blank together, so filtering and then
      trimming gives the same lines. */
  lemma {:induction false} SameTrimsKeepLines(xs: seq<string>, ys: seq<string>)
    requires SameTrims(xs, ys)
    ensures TrimAll(NonBlank(xs)) == TrimAll(NonBlank(ys))
  {
    if xs != [] {
      assert SameTrims(xs[1..], ys[1..]) by {
        forall k | 0 <= k < |xs[1..]| ensures Trim(xs[1..][k]) == Trim(ys[1..][k]) {
          assert xs[1..][k] == xs[k + 1] && ys[1..][k] == ys[k + 1];
        }
      }
      SameTrimsKeepLines(xs[1..], ys[1..]);
      assert Trim(xs[0]) == Trim(ys[0]);
      var hx := if AllWhitespace(xs[0]) then [] else [xs[0]];
      var hy := if AllWhitespace(ys[0]) then [] else [ys[0]];
      assert TrimAll(hx) == TrimAll(hy);
      TrimAllAppend(hx, NonBlank(xs[1..]));
      TrimAllAppend(hy, NonBlank(ys[1..]));
    }
  }

  lemma TrimAllAppend(a: seq<string>, b: seq<string>)
    ensures TrimAll(a + b) == TrimAll(a) + TrimAll(b)
  {
    assert forall k :: |a| <= k < |a| + |b| ==> (a + b)[k] == b[k - |a|];
  }

  /** The lines, trimmed and without the blank ones. */
  function TrimmedLines(s: string): seq<string> {
    TrimAll(NonBlank(Split(s, '\n')))
  }

  /** Whitespace in front of a text adds or changes no trimmed line: a line
      feed opens an empty line, anything else joins the first line. */
  lemma {:induction false} ConsBlank(w: char, y: string)
    requires IsWhitespace(w)
    ensures TrimmedLines([w] + y) == TrimmedLines(y)
  {
    var ys := Split(y, '\n');
    SplitCons(w, y, '\n');
    if w == '\n' {
      NonBlankAppend([""], ys);
    } else {
      TrimConsWhitespace(w, ys[0]);
      assert SameTrims([[w] + ys[0]] + ys[1..], ys);
      SameTrimsKeepLines([[w] + ys[0]] + ys[1..], ys);
    }
  }

  /** Whitespace after a text adds or changes no trimmed line. */
  lemma {:induction false} SnocBlank(y: string, w: char)
    requires IsWhitespace(w)
    ensures TrimmedLines(y + [w]) == TrimmedLines(y)
  {
    var ys := Split(y, '\n');
    SplitSnoc(y, w, '\n');
    if w == '\n' {
      NonBlankSnoc(ys, "");
    } else {
      var n := |ys|;
      assert ys == ys[..n - 1] + [ys[n - 1]];
      LastGrowsKeepsLines(ys[..n - 1], ys[n - 1], w);
    }
  }

  /** Whitespace added to the last line changes no trimmed line. */
  lemma {:induction false} LastGrowsKeepsLines(ps: seq<string>, l: string, w: char)
    requires IsWhitespace(w)
    ensures TrimAll(NonBlank(ps + [l + [w]])) == TrimAll(NonBlank(ps + [l]))
  {
    TrimSnocWhitespace(l, w);
    var hw := if AllWhitespace(l + [w]) then [] else [l + [w]];
    var h := if AllWhitespace(l) then [] else [l];
    assert TrimAll(hw) == TrimAll(h);
    NonBlankSnoc(ps, l + [w]);
    NonBlankSnoc(ps, l);
    TrimAllAppend(NonBlank(ps), hw);
    TrimAllAppend(NonBlank(ps), h);
  }





  lemma {:induction false} DropLeadingBlank(u: string, y: string)
    requires AllWhitespace(u)
    ensures TrimmedLines(u + y) == TrimmedLines(y)
  {
    if u == [] {
      assert u + y == y;
    } else {
      assert TrimmedLines(u[1..] + y) == TrimmedLines(y) by {
        assert AllWhitespace(u[1..]) by {
          forall k | 0 <= k < |u[1..]| ensures IsWhitespace(u[1..][k]) { assert u[1..][k] == u[k + 1]; }
        }
        DropLeadingBlank(u[1..], y);
      }
      assert TrimmedLines(u + y) == TrimmedLines(u[1..] + y) by {
        ConsAssoc(u, y);
        ConsBlank(u[0], u[1..] + y);
      }
    }
  }

  lemma {:induction false} DropTrailingBlank(y: string, u: string)
    requires AllWhitespace(u)
    ensures TrimmedLines(y + u) == TrimmedLines(y)
  {
    if u == [] {
      assert y + u == y;
    } else {
      var v := u[..|u| - 1];
      assert TrimmedLines(y + v) == TrimmedLines(y) by {
        assert AllWhitespace(v) by {
          forall k | 0 <= k < |v| ensures IsWhitespace(v[k]) { assert v[k] == u[k]; }
        }
        DropTrailingBlank(y, v);
      }
      assert TrimmedLines(y + u) == TrimmedLines(y + v) by {
        SnocAssoc(y, u);
        SnocBlank(y + v, u[|u| - 1]);
      }
    }
  }

  lemma ConsAssoc(u: string, y: string)
    requires u != []
    ensures u + y == [u[0]] + (u[1..] + y)
  {
  }

  lemma SnocAssoc(y: string, u: string)
    requires u != []
    ensures y + u == (y + u[..|u| - 1]) + [u[|u| - 1]]
  {
  }

  lemma SpanAssoc(y: string, a: nat, r: string)
    requires a + |r| <= |y| && r == y[a..a + |r|]
    ensures y == y[..a] + (r + y[a + |r|..])
  {
  }

  /** app.py:83: trimming the whole text before `split('\n')` changes no
      trimmed non-blank line. */
  lemma TrimKeepsLines(y: string)
    ensures TrimAll(NonBlank(Split(Trim(y), '\n'))) == TrimAll(NonBlank(Split(y, '\n')))
  {
    var r := Trim(y);
    var a: nat :| TrimmedSpan(y, a, r);
    var lead, trail := y[..a], y[a + |r|..];
    assert TrimmedLines(y) == TrimmedLines(r + trail) by {
      SpanAssoc(y, a, r);
      DropLeadingBlank(lead, r + trail);
    }
    assert TrimmedLines(r + trail) == TrimmedLines(r) by {
      DropTrailingBlank(r, trail);
    }
  }

  /** A carriage return at the end of a line is whitespace, so chomping the
      lines changes no trimmed line. */
  lemma ChompKeepsLines(ps: seq<string>)
    ensures TrimAll(NonBlank(ChompAll(ps))) == TrimAll(NonBlank(ps))
  {
    forall k | 0 <= k < |ps| ensures Trim(ChompAll(ps)[k]) == Trim(ps[k]) {
      ChompTrim(ps[k]);
    }
    SameTrimsKeepLines(ChompAll(ps), ps);
  }

  lemma ChompTrim(p: string)
    ensures Trim(Chomp(p)) == Trim(p)
  {
    if p != [] && p[|p| - 1] == '\r' {
      assert p == p[..|p| - 1] + ['\r'];
      TrimSnocWhitespace(p[..|p| - 1], '\r');
    }
  }

  /** app.py:82-83: once trimmed, the lines the script keeps are the trimmed
      non-blank lines of `text.split('\n')`. Replacing CR LF, collapsing
      blank lines and trimming the whole text change none of them. */
  lemma LinesOfText(text: string)
    ensures TrimAll(Lines(text)) == TrimAll(NonBlank(Split(text, '\n')))
  {
    var s1 := ReplaceCrLf(text);
    var s2 := CollapseBlankLines(s1);
    TrimKeepsLines(s2);
    CollapseKeepsLines(s1);
    ReplaceCrLfLines(text);
    ChompKeepsLines(Split(text, '\n'));
  }

  /** app.py:82-98: the scan classifies exactly the trimmed non-blank lines of
      `text.split('\n')`, in their order. */
  lemma ScannedLinesOfText(text: string)
    ensures ScannedLines(text) == ClassifyLines(NonBlank(Split(text, '\n')))
  {
    var a, b := Lines(text), NonBlank(Split(text, '\n'));
    LinesOfText(text);
    assert |a| == |TrimAll(a)| == |TrimAll(b)| == |b|;
    forall k | 0 <= k < |a| ensures Trim(a[k]) == Trim(b[k]) {
      assert Trim(a[k]) == TrimAll(a)[k] && Trim(b[k]) == TrimAll(b)[k];
    }
  }

  // ---------------------------------------------------------------------
  // Reference definition: blocks at marker lines
  // ---------------------------------------------------------------------

  /** A marker line (without its marker, and whether the whole marker line
      mentions a visual) and the lines after it up to the next marker line. */
  datatype Block = Block(rest: string, visual: bool, body: seq<LineKind>)

  function MarkerCount(ks: seq<LineKind>): nat {
    if ks == [] then 0 else (if ks[0].MarkerLine? then 1 else 0) + MarkerCount(ks[1..])
  }

  /** The lines before the first marker line. */
  function Body(ks: seq<LineKind>): (r: seq<LineKind>)
    ensures |r| <= |ks| && r == ks[..|r|]
    ensures forall k :: 0 <= k < |r| ==> !r[k].MarkerLine?
    ensures |r| == |ks| || ks[|r|].MarkerLine?
  {
    if ks == [] || ks[0].MarkerLine? then [] else [ks[0]] + Body(ks[1..])
  }

  /** One block per marker line, in document order; lines before the first
      marker belong to no block. */
  function Blocks(ks: seq<LineKind>): (r: seq<Block>)
    ensures |r| == MarkerCount(ks)
  {
    if ks == [] then []
    else if ks[0].MarkerLine? then [Block(ks[0].rest, ks[0].visual, Body(ks[1..]))] + Blocks(ks[1..])
    else Blocks(ks[1..])
  }

  function AlternativeLines(ks: seq<LineKind>): nat {
    if ks == [] then 0 else (if ks[0].AlternativeLine? then 1 else 0) + AlternativeLines(ks[1..])
  }

  function Min(a: nat, b: nat): nat {
    if a <= b then a else b
  }

  /** The lines of a block body split into alternatives (label removed) and
      statement lines: the first `slots` alternative lines are alternatives;
      every other line belongs to the statement, the alternative lines that
      come after the slots are used up included. */
  function Partition(body: seq<LineKind>, slots: nat): (r: (seq<string>, seq<LineKind>))
    ensures |r.0| <= slots
  {
    if body == [] then ([], [])
    else
      var take := body[0].AlternativeLine? && slots > 0;
      var p := Partition(body[1..], if take then slots - 1 else slots);
      if take then ([body[0].text] + p.0, p.1) else (p.0, [body[0]] + p.1)
  }

  /** The alternatives are as many as the slots allow; every other
      alternative line ends up among the statement lines. */
  lemma {:induction false} PartitionCounts(body: seq<LineKind>, slots: nat)
    ensures var p := Partition(body, slots);
      && |p.0| == Min(slots, AlternativeLines(body))
      && |p.0| + |p.1| == |body|
      && AlternativeLines(p.1) == AlternativeLines(body) - |p.0|
  {
    if body != [] {
      var take := body[0].AlternativeLine? && slots > 0;
      PartitionCounts(body[1..], if take then slots - 1 else slots);
      var p := Partition(body[1..], if take then slots - 1 else slots);
      if !take {
        assert ([body[0]] + p.1)[1..] == p.1;
      }
    }
  }

  /** The statement lines, each after the single space of
      `enunciado += ' ' + line` (app.py:120). */
  function Continuation(ks: seq<LineKind>): string {
    if ks == [] then "" else " " + LineText(ks[0]) + Continuation(ks[1..])
  }

  predicate AnyVisual(ks: seq<LineKind>) {
    exists k :: 0 <= k < |ks| && ks[k].visual
  }

  /** The question a block yields: the marker line without its marker and the
      statement lines after it, the first five alternatives, and `hasImage`
      set by the marker line or a statement line (app.py:106-121). */
  function BlockQuestion(b: Block): Question {
    var p := Partition(b.body, 5);
    Question(b.rest + Continuation(p.1), p.0, b.visual || AnyVisual(p.1))
  }

  /** The questions of the blocks that collected an alternative
      (app.py:103-105, 125-127); the other blocks are dropped. */
  function Keep(bs: seq<Block>): seq<Question> {
    if bs == [] then []
    else
      var q := BlockQuestion(bs[0]);
      (if |q.alternatives| > 0 then [q] else []) + Keep(bs[1..])
  }

  /** The questions of a sequence of classified lines. */
  function Segmentation(ks: seq<LineKind>): seq<Question> {
    Keep(Blocks(ks))
  }

  // ---------------------------------------------------------------------
  // The scan of app.py:97-127
  // ---------------------------------------------------------------------

  /** What the scan holds after the lines `ks`: the questions closed so
      far, the question being built (the last block) and whether it still
      takes alternatives. */
  predicate ScanState(ks: seq<LineKind>, questions: seq<Question>, current: Option<Question>, expectingAlternatives: bool) {
    var bs := Blocks(ks);
    if bs == [] then current.None? && questions == []
    else
      && current == Some(BlockQuestion(bs[|bs| - 1]))
      && questions == Keep(bs[..|bs| - 1])
      && expectingAlternatives == (|current.value.alternatives| < 5)
  }

  /** The body of the loop at app.py:97-123 for one classified line. */
  method ConsumeLine(ghost ks: seq<LineKind>, questions: seq<Question>, current: Option<Question>,
                  expectingAlternatives: bool, kind: LineKind)
    returns (questions': seq<Question>, current': Option<Question>, expectingAlternatives': bool)
    requires ScanState(ks, questions, current, expectingAlternatives)
    ensures ScanState(ks + [kind], questions', current', expectingAlternatives')
  {
    questions', current', expectingAlternatives' := questions, current, expectingAlternatives;
    if kind.MarkerLine? {
      if current.Some? && |current.value.alternatives| > 0 {
        questions' := questions + [current.value];
      }
      current' := Some(Question(kind.rest, [], kind.visual));
      expectingAlternatives' := true;
      ScanMarker(ks, questions, current, expectingAlternatives, kind);
    } else if current.Some? && kind.AlternativeLine? && expectingAlternatives {
      var q := current.value;
      current' := Some(q.(alternatives := q.alternatives + [kind.text]));
      if |current'.value.alternatives| == 5 {
        expectingAlternatives' := false;
      }
      ScanAlternative(ks, questions, current, expectingAlternatives, kind);
    } else if current.Some? {
      var q := current.value;
      current' := Some(q.(statement := q.statement + " " + LineText(kind), hasImage := q.hasImage || kind.visual));
      ScanStatement(ks, questions, current, expectingAlternatives, kind);
    } else {
      ScanPreamble(ks, questions, current, expectingAlternatives, kind);
    }
  }

  /** A marker line closes the question being built and opens a new one. */
  lemma ScanMarker(ks: seq<LineKind>, questions: seq<Question>, current: Option<Question>,
                   expectingAlternatives: bool, kind: LineKind)
    requires ScanState(ks, questions, current, expectingAlternatives) && kind.MarkerLine?
    ensures ScanState(ks + [kind],
      if current.Some? && |current.value.alternatives| > 0 then questions + [current.value] else questions,
      Some(Question(kind.rest, [], kind.visual)), true)
  {
    BlocksSnocMarker(ks, kind);
    KeepClosed(ks, questions, current, expectingAlternatives);
    FreshBlock(kind);
    var nb := Blocks(ks + [kind]);
    assert nb[..|nb| - 1] == Blocks(ks);
  }

  /** The blocks so far keep the questions pushed so far and the current
      question when it has an alternative. */
  lemma KeepClosed(ks: seq<LineKind>, questions: seq<Question>, current: Option<Question>,
                   expectingAlternatives: bool)
    requires ScanState(ks, questions, current, expectingAlternatives)
    ensures Keep(Blocks(ks)) ==
      if current.Some? && |current.value.alternatives| > 0 then questions + [current.value] else questions
  {
    var bs := Blocks(ks);
    if bs != [] {
      KeepSnoc(bs[..|bs| - 1], bs[|bs| - 1]);
      assert bs[..|bs| - 1] + [bs[|bs| - 1]] == bs;
    }
  }

  /** A block with no lines after its marker yields the marker line alone. */
  lemma FreshBlock(kind: LineKind)
    requires kind.MarkerLine?
    ensures BlockQuestion(Block(kind.rest, kind.visual, [])) == Question(kind.rest, [], kind.visual)
  {
    assert kind.rest + Continuation([]) == kind.rest;
  }

  /** An alternative line while alternatives are expected becomes one. */
  lemma ScanAlternative(ks: seq<LineKind>, questions: seq<Question>, current: Option<Question>,
                        expectingAlternatives: bool, kind: LineKind)
    requires ScanState(ks, questions, current, expectingAlternatives)
    requires current.Some? && kind.AlternativeLine? && expectingAlternatives
    ensures var q := current.value;
      ScanState(ks + [kind], questions, Some(q.(alternatives := q.alternatives + [kind.text])),
                |q.alternatives| + 1 != 5)
  {
    var bs := Blocks(ks);
    BlocksSnocOther(ks, kind);
    var nb := Blocks(ks + [kind]);
    BlockQuestionSnoc(bs[|bs| - 1], kind);
    assert nb[..|nb| - 1] == bs[..|bs| - 1];
  }

  /** Any other line after a marker line joins the statement. */
  lemma ScanStatement(ks: seq<LineKind>, questions: seq<Question>, current: Option<Question>,
                      expectingAlternatives: bool, kind: LineKind)
    requires ScanState(ks, questions, current, expectingAlternatives)
    requires current.Some? && !kind.MarkerLine? && !(kind.AlternativeLine? && expectingAlternatives)
    ensures var q := current.value;
      ScanState(ks + [kind], questions,
                Some(q.(statement := q.statement + " " + LineText(kind), hasImage := q.hasImage || kind.visual)),
                expectingAlternatives)
  {
    var bs := Blocks(ks);
    BlocksSnocOther(ks, kind);
    var nb := Blocks(ks + [kind]);
    BlockQuestionSnoc(bs[|bs| - 1], kind);
    assert nb[..|nb| - 1] == bs[..|bs| - 1];
  }

  /** Lines before the first marker line change nothing. */
  lemma ScanPreamble(ks: seq<LineKind>, questions: seq<Question>, current: Option<Question>,
                     expectingAlternatives: bool, kind: LineKind)
    requires ScanState(ks, questions, current, expectingAlternatives)
    requires current.None? && !kind.MarkerLine?
    ensures ScanState(ks + [kind], questions, current, expectingAlternatives)
  {
    BlocksSnocOther(ks, kind);
  }

  /** The end of the scan (app.py:124-127): the question being built is
      kept if it has an alternative. */
  method FinishScan(ghost ks: seq<LineKind>, questions: seq<Question>, current: Option<Question>, expectingAlternatives: bool)
    returns (result: seq<Question>)
    requires ScanState(ks, questions, current, expectingAlternatives)
    ensures result == Segmentation(ks)
  {
    result := questions;
    if current.Some? && |current.value.alternatives| > 0 {
      result := questions + [current.value];
    }
    ghost var bs := Blocks(ks);
    if bs != [] {
      KeepSnoc(bs[..|bs| - 1], bs[|bs| - 1]);
      assert bs[..|bs| - 1] + [bs[|bs| - 1]] == bs;
    }
  }

  lemma TakeOneMore<T>(s: seq<T>, i: nat)
    requires i < |s|
    ensures s[..i + 1] == s[..i] + [s[i]]
  {
  }

  /** `analyzeWithGrok`: scans the normalised lines once, keeping the
      question being built and the `expectingAlternatives` flag. */
  method AnalyzeWithGrok(text: string) returns (questions: seq<Question>)
    ensures questions == Segmentation(ScannedLines(text))
  {
    var lines := Lines(text);
    questions := ScanLines(lines);
  }

  /** The loop of app.py:97-123 and the final push of app.py:125-127 over
      the normalised lines. */
  method ScanLines(lines: seq<string>) returns (questions: seq<Question>)
    ensures questions == Segmentation(ClassifyLines(lines))
  {
    ghost var scanned := ClassifyLines(lines);
    questions := [];
    var current: Option<Question> := None;
    var expectingAlternatives := false;
    var i := 0;
    while i < |lines|
      invariant 0 <= i <= |lines| == |scanned|
      invariant ScanState(scanned[..i], questions, current, expectingAlternatives)
    {
      var kind := Classify(Trim(lines[i]));
      TakeOneMore(scanned, i);
      questions, current, expectingAlternatives := ConsumeLine(scanned[..i], questions, current, expectingAlternatives, kind);
      i := i + 1;
    }
    assert scanned[..|lines|] == scanned;
    questions := FinishScan(scanned, questions, current, expectingAlternatives);
  }

  // ---------------------------------------------------------------------
  // Appending one line to the reference definition
  // ---------------------------------------------------------------------

  lemma {:induction false} BodySnoc(ks: seq<LineKind>, l: LineKind)
    ensures Body(ks + [l]) == if |Body(ks)| < |ks| || l.MarkerLine? then Body(ks) else ks + [l]
  {
    if ks != [] {
      BodySnoc(ks[1..], l);
      assert (ks + [l])[1..] == ks[1..] + [l];
    }
  }

  /** Without a marker line there are no blocks, and the body runs to the end. */
  lemma {:induction false} NoBlocksNoMarkers(ks: seq<LineKind>)
    ensures Blocks(ks) == [] <==> |Body(ks)| == |ks|
  {
    if ks != [] && !ks[0].MarkerLine? {
      NoBlocksNoMarkers(ks[1..]);
    }
  }

  /** A marker line opens a new, empty block. */
  lemma {:induction false} BlocksSnocMarker(ks: seq<LineKind>, l: LineKind)
    requires l.MarkerLine?
    ensures Blocks(ks + [l]) == Blocks(ks) + [Block(l.rest, l.visual, [])]
  {
    var nb := Block(l.rest, l.visual, []);
    if ks == [] {
      assert [] + [l] == [l] && [l][1..] == [];
    } else {
      var h, t := ks[0], ks[1..];
      assert (ks + [l])[0] == h && (ks + [l])[1..] == t + [l];
      BlocksSnocMarker(t, l);
      if h.MarkerLine? {
        BodySnoc(t, l);
        var b0 := Block(h.rest, h.visual, Body(t));
        assert Blocks(ks + [l]) == [b0] + (Blocks(t) + [nb]);
        assert [b0] + (Blocks(t) + [nb]) == ([b0] + Blocks(t)) + [nb];
      }
    }
  }

  /** The blocks after appending a line that is not a marker line. */
  function GrownBlocks(bs: seq<Block>, l: LineKind): seq<Block> {
    if bs == [] then [] else bs[..|bs| - 1] + [bs[|bs| - 1].(body := bs[|bs| - 1].body + [l])]
  }

  /** Any other line joins the body of the last block, if there is one. */
  lemma {:induction false} BlocksSnocOther(ks: seq<LineKind>, l: LineKind)
    requires !l.MarkerLine?
    ensures Blocks(ks + [l]) == GrownBlocks(Blocks(ks), l)
  {
    if ks == [] {
      assert [] + [l] == [l] && [l][1..] == [];
    } else {
      var h, t := ks[0], ks[1..];
      assert (ks + [l])[0] == h && (ks + [l])[1..] == t + [l];
      BlocksSnocOther(t, l);
      if h.MarkerLine? {
        BlocksSnocAfterMarker(h, t, l);
        assert ks == [h] + t;
      } else {
        assert Blocks(ks + [l]) == Blocks(t + [l]) && Blocks(ks) == Blocks(t);
      }
    }
  }

  lemma BlocksSnocAfterMarker(h: LineKind, t: seq<LineKind>, l: LineKind)
    requires h.MarkerLine? && !l.MarkerLine?
    requires Blocks(t + [l]) == GrownBlocks(Blocks(t), l)
    ensures Blocks([h] + t + [l]) == GrownBlocks(Blocks([h] + t), l)
  {
    var ks := [h] + t;
    assert ks[0] == h && ks[1..] == t;
    assert (ks + [l])[0] == h && (ks + [l])[1..] == t + [l];
    BodySnoc(t, l);
    NoBlocksNoMarkers(t);
    var b0 := Block(h.rest, h.visual, Body(t));
    assert Blocks(ks) == [b0] + Blocks(t);
    if Blocks(t) == [] {
      assert Body(t) == t && Body(t + [l]) == t + [l];
      assert Blocks(t + [l]) == [];
      assert Blocks(ks + [l]) == [b0.(body := b0.body + [l])];
      GrowOnlyBlock(b0, l);
    } else {
      assert Blocks(ks + [l]) == [b0] + GrownBlocks(Blocks(t), l);
      GrowLaterBlock(b0, Blocks(t), l);
    }
  }

  lemma GrowOnlyBlock(b0: Block, l: LineKind)
    ensures GrownBlocks([b0], l) == [b0.(body := b0.body + [l])]
  {
    assert [b0][..0] == [];
  }

  lemma GrowLaterBlock(b0: Block, bt: seq<Block>, l: LineKind)
    requires bt != []
    ensures [b0] + GrownBlocks(bt, l) == GrownBlocks([b0] + bt, l)
  {
    var bs := [b0] + bt;
    var last := bt[|bt| - 1].(body := bt[|bt| - 1].body + [l]);
    assert bs[..|bs| - 1] == [b0] + bt[..|bt| - 1];
    assert bs[|bs| - 1] == bt[|bt| - 1];
    assert [b0] + (bt[..|bt| - 1] + [last]) == ([b0] + bt[..|bt| - 1]) + [last];
  }

  lemma {:induction false} KeepSnoc(bs: seq<Block>, b: Block)
    ensures Keep(bs + [b]) == Keep(bs) + (if |BlockQuestion(b).alternatives| > 0 then [BlockQuestion(b)] else [])
  {
    if bs == [] {
      assert [] + [b] == [b];
    } else {
      assert (bs + [b])[1..] == bs[1..] + [b];
      KeepSnoc(bs[1..], b);
    }
  }

  lemma {:induction false} PartitionSnoc(body: seq<LineKind>, slots: nat, l: LineKind)
    ensures var p := Partition(body, slots);
      Partition(body + [l], slots) ==
        if l.AlternativeLine? && |p.0| < slots then (p.0 + [l.text], p.1)
        else (p.0, p.1 + [l])
  {
    if body == [] {
      assert [] + [l] == [l] && [l][1..] == [];
      if l.AlternativeLine? && slots > 0 {
        assert Partition([], slots - 1) == ([], []);
        assert [l.text] + [] == [l.text] && [] + [l.text] == [l.text];
      } else {
        assert Partition([], slots) == ([], []);
        assert [l] + [] == [l];
      }
    } else {
      var h := body[0];
      var take := h.AlternativeLine? && slots > 0;
      var slots' := if take then slots - 1 else slots;
      assert (body + [l])[0] == h;
      assert (body + [l])[1..] == body[1..] + [l];
      PartitionSnoc(body[1..], slots', l);
      var p' := Partition(body[1..], slots');
      var q' := Partition(body[1..] + [l], slots');
      assert Partition(body + [l], slots) == if take then ([h.text] + q'.0, q'.1) else (q'.0, [h] + q'.1);
      if take {
        assert Partition(body, slots) == ([h.text] + p'.0, p'.1);
        if l.AlternativeLine? {
          assert [h.text] + (p'.0 + [l.text]) == ([h.text] + p'.0) + [l.text];
        }
      } else {
        assert Partition(body, slots) == (p'.0, [h] + p'.1);
        assert [h] + (p'.1 + [l]) == ([h] + p'.1) + [l];
      }
    }
  }

  lemma {:induction false} ContinuationSnoc(ks: seq<LineKind>, l: LineKind)
    ensures Continuation(ks + [l]) == Continuation(ks) + " " + LineText(l)
  {
    if ks != [] {
      assert (ks + [l])[1..] == ks[1..] + [l];
      ContinuationSnoc(ks[1..], l);
    }
  }

  lemma BlockQuestionSnoc(b: Block, l: LineKind)
    ensures var q := BlockQuestion(b);
      BlockQuestion(b.(body := b.body + [l])) ==
        if l.AlternativeLine? && |q.alternatives| < 5 then q.(alternatives := q.alternatives + [l.text])
        else q.(statement := q.statement + " " + LineText(l), hasImage := q.hasImage || l.visual)
  {
    var p := Partition(b.body, 5);
    PartitionSnoc(b.body, 5, l);
    if !(l.AlternativeLine? && |p.0| < 5) {
      ContinuationSnoc(p.1, l);
      AnyVisualSnoc(p.1, l);
      assert b.rest + (Continuation(p.1) + " " + LineText(l)) == b.rest + Continuation(p.1) + " " + LineText(l);
    }
  }

  lemma AnyVisualSnoc(ks: seq<LineKind>, l: LineKind)
    ensures AnyVisual(ks + [l]) == (AnyVisual(ks) || l.visual)
  {
    var o := ks + [l];
    assert o[|ks|] == l;
    assert forall k :: 0 <= k < |ks| ==> o[k] == ks[k];
  }

  // ---------------------------------------------------------------------
  // Properties of the segmentation
  // ---------------------------------------------------------------------

  lemma {:induction false} KeepBounds(bs: seq<Block>)
    ensures |Keep(bs)| <= |bs|
    ensures forall k :: 0 <= k < |Keep(bs)| ==> 1 <= |Keep(bs)[k].alternatives| <= 5
  {
    if bs != [] {
      KeepBounds(bs[1..]);
      var q := BlockQuestion(bs[0]);
      var head: seq<Question> := if |q.alternatives| > 0 then [q] else [];
      assert Keep(bs) == head + Keep(bs[1..]);
      assert forall k :: |head| <= k < |Keep(bs)| ==> Keep(bs)[k] == Keep(bs[1..])[k - |head|];
    }
  }

  /** Every question has one to five alternatives, and there are no more
      questions than marker lines. */
  lemma SegmentationBounds(ks: seq<LineKind>)
    ensures |Segmentation(ks)| <= MarkerCount(ks)
    ensures forall k :: 0 <= k < |Segmentation(ks)| ==> 1 <= |Segmentation(ks)[k].alternatives| <= 5
  {
    KeepBounds(Blocks(ks));
  }

  /** A marker line ends the body that runs into it. */
  lemma {:induction false} BodyBeforeMarker(a: seq<LineKind>, b: seq<LineKind>)
    requires b == [] || b[0].MarkerLine?
    ensures Body(a + b) == Body(a)
  {
    if a == [] {
      assert [] + b == b;
    } else {
      assert (a + b)[0] == a[0];
      assert (a + b)[1..] == a[1..] + b;
      BodyBeforeMarker(a[1..], b);
    }
  }

  lemma {:induction false} BlocksAppend(a: seq<LineKind>, b: seq<LineKind>)
    requires b == [] || b[0].MarkerLine?
    ensures Blocks(a + b) == Blocks(a) + Blocks(b)
  {
    if a == [] {
      assert [] + b == b;
    } else {
      assert (a + b)[0] == a[0];
      assert (a + b)[1..] == a[1..] + b;
      BlocksAppend(a[1..], b);
      if a[0].MarkerLine? {
        BlocksAppendAtMarker(a, b);
      }
    }
  }

  lemma BlocksAppendAtMarker(a: seq<LineKind>, b: seq<LineKind>)
    requires a != [] && a[0].MarkerLine? && (b == [] || b[0].MarkerLine?)
    requires (a + b)[0] == a[0] && (a + b)[1..] == a[1..] + b
    requires Blocks(a[1..] + b) == Blocks(a[1..]) + Blocks(b)
    ensures Blocks(a + b) == Blocks(a) + Blocks(b)
  {
    BodyBeforeMarker(a[1..], b);
    var b0 := Block(a[0].rest, a[0].visual, Body(a[1..]));
    assert [b0] + (Blocks(a[1..]) + Blocks(b)) == ([b0] + Blocks(a[1..])) + Blocks(b);
  }

  lemma {:induction false} KeepAppend(x: seq<Block>, y: seq<Block>)
    ensures Keep(x + y) == Keep(x) + Keep(y)
  {
    if x == [] {
      assert [] + y == y;
    } else {
      assert (x + y)[0] == x[0];
      assert (x + y)[1..] == x[1..] + y;
      KeepAppend(x[1..], y);
      var q := BlockQuestion(x[0]);
      var head: seq<Question> := if |q.alternatives| > 0 then [q] else [];
      assert head + (Keep(x[1..]) + Keep(y)) == (head + Keep(x[1..])) + Keep(y);
    }
  }

  /** Cutting the lines just before a marker line cuts the questions there:
      the questions come in document order, each made from its own lines. */
  lemma SegmentationAppend(a: seq<LineKind>, b: seq<LineKind>)
    requires b == [] || b[0].MarkerLine?
    ensures Segmentation(a + b) == Segmentation(a) + Segmentation(b)
  {
    BlocksAppend(a, b);
    KeepAppend(Blocks(a), Blocks(b));
  }

  /** Lines before the first marker line take no part in any question. */
  lemma {:induction false} PreambleIgnored(pre: seq<LineKind>, ks: seq<LineKind>)
    requires forall k :: 0 <= k < |pre| ==> !pre[k].MarkerLine?
    ensures Segmentation(pre + ks) == Segmentation(ks)
  {
    if pre != [] {
      assert (pre + ks)[0] == pre[0];
      assert (pre + ks)[1..] == pre[1..] + ks;
      assert Blocks(pre + ks) == Blocks(pre[1..] + ks);
      assert forall k :: 0 <= k < |pre[1..]| ==> pre[1..][k] == pre[k + 1];
      PreambleIgnored(pre[1..], ks);
    } else {
      assert pre + ks == ks;
    }
  }

  lemma {:induction false} NoMarkerBody(ks: seq<LineKind>)
    requires forall k :: 0 <= k < |ks| ==> !ks[k].MarkerLine?
    ensures Body(ks) == ks && Blocks(ks) == []
  {
    if ks != [] {
      NoMarkerBody(ks[1..]);
    }
  }

  /** A marker line and the lines up to the next marker line make one
      question if at least one of them is an alternative line, and none
      otherwise: a marker without alternatives is dropped. */
  lemma OneBlock(m: LineKind, body: seq<LineKind>)
    requires m.MarkerLine?
    requires forall k :: 0 <= k < |body| ==> !body[k].MarkerLine?
    ensures Segmentation([m] + body) ==
      if AlternativeLines(body) == 0 then [] else [BlockQuestion(Block(m.rest, m.visual, body))]
  {
    var ks := [m] + body;
    assert ks[0] == m && ks[1..] == body;
    NoMarkerBody(body);
    PartitionCounts(body, 5);
    var q := BlockQuestion(Block(m.rest, m.visual, body));
    assert Keep([Block(m.rest, m.visual, body)]) == (if |q.alternatives| > 0 then [q] else []) + Keep([]);
  }

  /** The texts of the alternative lines, label removed, in order. */
  function AlternativeTexts(ks: seq<LineKind>): (r: seq<string>)
    ensures |r| == AlternativeLines(ks)
  {
    if ks == [] then [] else (if ks[0].AlternativeLine? then [ks[0].text] else []) + AlternativeTexts(ks[1..])
  }

  /** The lines that are not alternative lines, in order. */
  function OtherLines(ks: seq<LineKind>): seq<LineKind> {
    if ks == [] then [] else (if ks[0].AlternativeLine? then [] else [ks[0]]) + OtherLines(ks[1..])
  }

  /** The alternatives are the first alternative lines of the block in their
      order; the later alternative lines, and all other lines in their order,
      go to the statement. */
  lemma {:induction false} PartitionKeepsOrder(body: seq<LineKind>, slots: nat)
    ensures var p := Partition(body, slots);
      && p.0 + AlternativeTexts(p.1) == AlternativeTexts(body)
      && OtherLines(p.1) == OtherLines(body)
  {
    if body != [] {
      var take := body[0].AlternativeLine? && slots > 0;
      var p := Partition(body[1..], if take then slots - 1 else slots);
      PartitionKeepsOrder(body[1..], if take then slots - 1 else slots);
      if take {
        assert [body[0].text] + p.0 + AlternativeTexts(p.1) == [body[0].text] + (p.0 + AlternativeTexts(p.1));
      } else {
        var o := [body[0]] + p.1;
        assert o[0] == body[0] && o[1..] == p.1;
        if body[0].AlternativeLine? {
          assert p.0 == [];
          assert AlternativeTexts(o) == [body[0].text] + AlternativeTexts(p.1);
        }
      }
    }
  }

  /** Alternative lines that fit in the slots all become alternatives. */
  lemma {:induction false} PartitionTakes(alts: seq<LineKind>, rest: seq<LineKind>, slots: nat)
    requires forall k :: 0 <= k < |alts| ==> alts[k].AlternativeLine?
    requires |alts| <= slots
    ensures Partition(alts + rest, slots) ==
      (AlternativeTexts(alts) + Partition(rest, slots - |alts|).0, Partition(rest, slots - |alts|).1)
  {
    if alts != [] {
      PartitionTakes(alts[1..], rest, slots - 1);
      assert |alts[1..]| == |alts| - 1;
      PartitionTakesStep(alts, rest, slots, Partition(rest, slots - |alts|));
    } else {
      var p := Partition(rest, slots);
      assert alts + rest == rest && AlternativeTexts(alts) + p.0 == p.0;
    }
  }

  /** One step of `PartitionTakes`: the first alternative line is taken. */
  lemma PartitionTakesStep(alts: seq<LineKind>, rest: seq<LineKind>, slots: nat,
                           q: (seq<string>, seq<LineKind>))
    requires alts != [] && alts[0].AlternativeLine? && |alts| <= slots
    requires Partition(alts[1..] + rest, slots - 1) == (AlternativeTexts(alts[1..]) + q.0, q.1)
    ensures Partition(alts + rest, slots) == (AlternativeTexts(alts) + q.0, q.1)
  {
    var s := alts + rest;
    assert s[0] == alts[0] && s[1..] == alts[1..] + rest;
    assert Partition(s, slots) == ([s[0].text] + Partition(s[1..], slots - 1).0, Partition(s[1..], slots - 1).1);
    assert AlternativeTexts(alts) == [alts[0].text] + AlternativeTexts(alts[1..]);
    assert [alts[0].text] + (AlternativeTexts(alts[1..]) + q.0) == AlternativeTexts(alts) + q.0;
  }

  /** The question of a marker line, five alternative lines and one more
      alternative line. */
  lemma SixthAlternativeBlock(b: Block, alts: seq<LineKind>, extra: LineKind)
    requires extra.AlternativeLine? && b.body == alts + [extra]
    requires |alts| == 5 && forall k :: 0 <= k < |alts| ==> alts[k].AlternativeLine?
    ensures BlockQuestion(b) == Question(b.rest + " " + extra.line, AlternativeTexts(alts), b.visual || extra.visual)
  {
    PartitionTakes(alts, [extra], 5);
    var none: seq<LineKind> := [];
    assert [extra][1..] == none && [extra] + none == [extra];
    assert Partition(none, 0) == ([], none);
    assert Partition([extra], 0) == ([], [extra]);
    assert AlternativeTexts(alts) + [] == AlternativeTexts(alts);
    assert Continuation([extra]) == " " + extra.line;
    assert AnyVisual([extra]) == extra.visual by {
      if extra.visual { assert [extra][0].visual; }
    }
  }

  /** After the fifth alternative, a line that looks like an alternative is
      appended to the statement after a space (app.py:112-121). */
  lemma SixthAlternativeJoinsStatement(m: LineKind, alts: seq<LineKind>, extra: LineKind)
    requires m.MarkerLine? && extra.AlternativeLine?
    requires |alts| == 5 && forall k :: 0 <= k < |alts| ==> alts[k].AlternativeLine?
    ensures Segmentation([m] + alts + [extra]) ==
      [Question(m.rest + " " + extra.line, AlternativeTexts(alts), m.visual || extra.visual)]
  {
    var body := alts + [extra];
    assert [m] + alts + [extra] == [m] + body;
    var b := Block(m.rest, m.visual, body);
    OneBlock(m, body);
    SixthAlternativeBlock(b, alts, extra);
    assert AlternativeLines(body) > 0 by { PartitionCounts(body, 5); }
  }

  // ---------------------------------------------------------------------
  // hasImage on the segmenter's own output
  // ---------------------------------------------------------------------

  /** The `visual` flag of a line says whether its text mentions a visual. */
  predicate Recorded(k: LineKind) {
    k.visual == MentionsVisual(LineText(k))
  }

  predicate AllRecorded(ks: seq<LineKind>) {
    forall k :: 0 <= k < |ks| ==> Recorded(ks[k])
  }

  lemma ClassifyLinesRecorded(ls: seq<string>)
    ensures AllRecorded(ClassifyLines(ls))
  {
    forall k | 0 <= k < |ls| ensures Recorded(ClassifyLines(ls)[k]) {
      ClassifyRecordsMentions(Trim(ls[k]));
    }
  }

  lemma {:induction false} ContinuationMentions(a: string, ks: seq<LineKind>)
    requires AllRecorded(ks)
    ensures MentionsVisual(a + Continuation(ks)) <==> MentionsVisual(a) || AnyVisual(ks)
    decreases ks
  {
    if ks == [] {
      assert a + "" == a;
    } else {
      var a' := a + " " + LineText(ks[0]);
      assert a + Continuation(ks) == a' + Continuation(ks[1..]);
      AllRecordedTail(ks);
      ContinuationMentions(a', ks[1..]);
      MentionsVisualJoin(a, LineText(ks[0]));
      assert Recorded(ks[0]);
      AnyVisualCons(ks);
    }
  }

  lemma AllRecordedTail(ks: seq<LineKind>)
    requires ks != [] && AllRecorded(ks)
    ensures AllRecorded(ks[1..])
  {
    forall k | 0 <= k < |ks[1..]| ensures Recorded(ks[1..][k]) {
      assert ks[1..][k] == ks[k + 1];
    }
  }

  lemma AnyVisualCons(ks: seq<LineKind>)
    requires ks != []
    ensures AnyVisual(ks) == (ks[0].visual || AnyVisual(ks[1..]))
  {
    if AnyVisual(ks[1..]) {
      var k :| 0 <= k < |ks[1..]| && ks[1..][k].visual;
      assert ks[k + 1].visual;
    }
    if AnyVisual(ks) && !ks[0].visual {
      var k :| 0 <= k < |ks| && ks[k].visual;
      assert ks[1..][k - 1].visual;
    }
  }

  lemma {:induction false} PartitionRecorded(body: seq<LineKind>, slots: nat)
    requires AllRecorded(body)
    ensures AllRecorded(Partition(body, slots).1)
  {
    if body != [] {
      var take := body[0].AlternativeLine? && slots > 0;
      assert AllRecorded(body[1..]) by {
        forall k | 0 <= k < |body[1..]| ensures Recorded(body[1..][k]) {
          assert body[1..][k] == body[k + 1];
        }
      }
      PartitionRecorded(body[1..], if take then slots - 1 else slots);
      var p := Partition(body[1..], if take then slots - 1 else slots);
      if !take {
        var o := [body[0]] + p.1;
        forall k | 0 <= k < |o| ensures Recorded(o[k]) {
          if k > 0 { assert o[k] == p.1[k - 1]; }
        }
      }
    }
  }

  /** A block whose marker and lines record their mentions. */
  predicate BlockRecorded(b: Block) {
    b.visual == MentionsVisual(b.rest) && AllRecorded(b.body)
  }

  lemma {:induction false} BlocksRecorded(ks: seq<LineKind>)
    requires AllRecorded(ks)
    ensures forall k :: 0 <= k < |Blocks(ks)| ==> BlockRecorded(Blocks(ks)[k])
  {
    if ks != [] {
      assert AllRecorded(ks[1..]) by {
        forall k | 0 <= k < |ks[1..]| ensures Recorded(ks[1..][k]) {
          assert ks[1..][k] == ks[k + 1];
        }
      }
      BlocksRecorded(ks[1..]);
      if ks[0].MarkerLine? {
        var body := Body(ks[1..]);
        assert Recorded(ks[0]);
        forall k | 0 <= k < |body| ensures Recorded(body[k]) {
          assert body[k] == ks[1..][k];
        }
        var bs := Blocks(ks);
        assert bs == [Block(ks[0].rest, ks[0].visual, body)] + Blocks(ks[1..]);
        forall k | 0 <= k < |bs| ensures BlockRecorded(bs[k]) {
          if k > 0 { assert bs[k] == Blocks(ks[1..])[k - 1]; }
        }
      }
    }
  }

  lemma BlockQuestionRecorded(b: Block)
    requires BlockRecorded(b)
    ensures BlockQuestion(b).hasImage == MentionsVisual(BlockQuestion(b).statement)
  {
    PartitionRecorded(b.body, 5);
    ContinuationMentions(b.rest, Partition(b.body, 5).1);
  }

  lemma {:induction false} KeepRecorded(bs: seq<Block>)
    requires forall k :: 0 <= k < |bs| ==> BlockRecorded(bs[k])
    ensures forall k :: 0 <= k < |Keep(bs)| ==> Keep(bs)[k].hasImage == MentionsVisual(Keep(bs)[k].statement)
  {
    if bs != [] {
      KeepRecorded(bs[1..]);
      BlockQuestionRecorded(bs[0]);
      var q := BlockQuestion(bs[0]);
      var head: seq<Question> := if |q.alternatives| > 0 then [q] else [];
      assert Keep(bs) == head + Keep(bs[1..]);
      assert forall k :: |head| <= k < |Keep(bs)| ==> Keep(bs)[k] == Keep(bs[1..])[k - |head|];
    }
  }

  /** On the questions the segmenter builds, `hasImage` is set exactly when
      the statement mentions "gráfico", "imagem" or "figura". */
  lemma HasImageIffMentioned(text: string)
    ensures var qs := Segmentation(ScannedLines(text));
      forall k :: 0 <= k < |qs| ==> qs[k].hasImage == MentionsVisual(qs[k].statement)
  {
    var ks := ScannedLines(text);
    ClassifyLinesRecorded(Lines(text));
    BlocksRecorded(ks);
    KeepRecorded(Blocks(ks));
  }
}
