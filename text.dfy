/**
 * The JavaScript string built-ins the exam checker relies on, over `seq<char>`:
 * the `\s` class and `trim`, `split` on one character and on `/\s+/`, `join`,
 * `toLowerCase`, `length` in UTF-16 code units and the decimal rendering of a
 * count inside a template literal.
 */
module Text {

  /** The ECMAScript WhiteSpace and LineTerminator code points: exactly what `\s`
      matches and what `String.prototype.trim` removes. */
  predicate IsWhitespace(c: char) {
    if c <= ' ' then c == ' ' || '\t' <= c <= '\r'
    else
      '\U{A0}' <= c && (c == '\U{A0}' || c == '\U{1680}' || ('\U{2000}' <= c <= '\U{200A}')
      || c == '\U{2028}' || c == '\U{2029}' || c == '\U{202F}' || c == '\U{205F}'
      || c == '\U{3000}' || c == '\U{FEFF}')
  }

  /** `\d`: the ASCII digits only. */
  predicate IsDigit(c: char) {
    '0' <= c <= '9'
  }

  predicate AllWhitespace(s: string) {
    forall k :: 0 <= k < |s| ==> IsWhitespace(s[k])
  }

  /** `s` neither starts nor ends with whitespace. */
  predicate IsTrimmed(s: string) {
    s == [] || (!IsWhitespace(s[0]) && !IsWhitespace(s[|s| - 1]))
  }

  /** Length of the longest run of whitespace starting at `i`. */
  function WhitespaceRun(s: string, i: nat): (n: nat)
    requires i <= |s|
    ensures i + n <= |s|
    ensures forall k :: i <= k < i + n ==> IsWhitespace(s[k])
    ensures i + n == |s| || !IsWhitespace(s[i + n])
    decreases |s| - i
  {
    if i < |s| && IsWhitespace(s[i]) then 1 + WhitespaceRun(s, i + 1) else 0
  }

  /** No run of whitespace at `i` is longer than `WhitespaceRun(s, i)`. */
  lemma WhitespaceRunLongest(s: string, i: nat, j: nat)
    requires i <= j <= |s| && forall k :: i <= k < j ==> IsWhitespace(s[k])
    ensures j <= i + WhitespaceRun(s, i)
  {
  }

  /** Length of the longest run of digits starting at `i`. */
  function DigitRun(s: string, i: nat): (n: nat)
    requires i <= |s|
    ensures i + n <= |s|
    ensures forall k :: i <= k < i + n ==> IsDigit(s[k])
    ensures i + n == |s| || !IsDigit(s[i + n])
    decreases |s| - i
  {
    if i < |s| && IsDigit(s[i]) then 1 + DigitRun(s, i + 1) else 0
  }

  /** No run of digits at `i` is longer than `DigitRun(s, i)`. */
  lemma DigitRunLongest(s: string, i: nat, j: nat)
    requires i <= j <= |s| && forall k :: i <= k < j ==> IsDigit(s[k])
    ensures j <= i + DigitRun(s, i)
  {
  }

  /** Length of the longest run of whitespace ending just before `j`. */
  function TrailingWhitespace(s: string, j: nat): (n: nat)
    requires j <= |s|
    ensures n <= j
    ensures forall k :: j - n <= k < j ==> IsWhitespace(s[k])
    ensures n == j || !IsWhitespace(s[j - n - 1])
  {
    if j > 0 && IsWhitespace(s[j - 1]) then 1 + TrailingWhitespace(s, j - 1) else 0
  }

  /** `r` is the part of `s` from `a` on, with only whitespace around it. */
  predicate TrimmedSpan(s: string, a: nat, r: string) {
    && a + |r| <= |s| && r == s[a..a + |r|]
    && AllWhitespace(s[..a]) && AllWhitespace(s[a + |r|..])
  }

  /** `String.prototype.trim`: the leading and the trailing run of whitespace
      removed. */
  function Trim(s: string): (r: string)
    ensures IsTrimmed(r)
    ensures |r| <= |s|
    ensures r == [] <==> AllWhitespace(s)
    ensures IsTrimmed(s) ==> r == s
    ensures exists a: nat :: TrimmedSpan(s, a, r)
  {
    var lead := WhitespaceRun(s, 0);
    if lead == |s| then
      assert TrimmedSpan(s, 0, []);
      []
    else
      var trail := TrailingWhitespace(s, |s|);
      assert !IsWhitespace(s[lead]);
      assert TrimmedSpan(s, lead, s[lead..|s| - trail]);
      s[lead..|s| - trail]
  }

  lemma TrimIdempotent(s: string)
    ensures Trim(Trim(s)) == Trim(s)
  {
  }

  /** The one trimmed stretch with only whitespace around it is the result
      of `trim`. */
  lemma TrimUnique(s: string, a: nat, r: string)
    requires TrimmedSpan(s, a, r) && IsTrimmed(r)
    ensures Trim(s) == r
  {
    if r == [] {
      forall k | 0 <= k < |s| ensures IsWhitespace(s[k]) {
        if k < a { assert s[..a][k] == s[k]; } else { assert s[a..][k - a] == s[k]; }
      }
    } else {
      var lead, trail := TrimBounds(s, a, r);
      assert s[lead..|s| - trail] == r;
    }
  }

  /** Around a non-empty trimmed stretch, the whitespace runs that `trim`
      removes are exactly the ones outside it. */
  lemma TrimBounds(s: string, a: nat, r: string) returns (lead: nat, trail: nat)
    requires TrimmedSpan(s, a, r) && IsTrimmed(r) && r != []
    ensures lead == WhitespaceRun(s, 0) == a
    ensures trail == TrailingWhitespace(s, |s|) == |s| - a - |r|
  {
    assert s[a] == r[0] && s[a + |r| - 1] == r[|r| - 1];
    forall k | 0 <= k < a ensures IsWhitespace(s[k]) { assert s[..a][k] == s[k]; }
    WhitespaceRunLongest(s, 0, a);
    forall k | a + |r| <= k < |s| ensures IsWhitespace(s[k]) { assert s[a + |r|..][k - a - |r|] == s[k]; }
    TrailingWhitespaceLongest(s, |s|, |s| - a - |r|);
    lead, trail := a, |s| - a - |r|;
  }

  /** No run of whitespace ending before `j` is longer than
      `TrailingWhitespace(s, j)`. */
  lemma TrailingWhitespaceLongest(s: string, j: nat, m: nat)
    requires m <= j <= |s| && forall k :: j - m <= k < j ==> IsWhitespace(s[k])
    ensures m <= TrailingWhitespace(s, j)
  {
  }

  /** Whitespace in front of a text does not change its trim. */
  lemma TrimConsWhitespace(w: char, p: string)
    requires IsWhitespace(w)
    ensures Trim([w] + p) == Trim(p)
  {
    var r := Trim(p);
    var a: nat :| TrimmedSpan(p, a, r);
    TrimmedSpanCons(w, p, a, r);
    TrimUnique([w] + p, a + 1, r);
  }

  /** A whitespace character in front moves the kept span one place on. */
  lemma TrimmedSpanCons(w: char, p: string, a: nat, r: string)
    requires IsWhitespace(w) && TrimmedSpan(p, a, r)
    ensures TrimmedSpan([w] + p, a + 1, r)
  {
    var s := [w] + p;
    assert s[..a + 1] == [w] + p[..a];
    assert s[a + 1..a + 1 + |r|] == p[a..a + |r|];
    assert s[a + 1 + |r|..] == p[a + |r|..];
  }

  /** Whitespace after a text does not change its trim. */
  lemma TrimSnocWhitespace(p: string, w: char)
    requires IsWhitespace(w)
    ensures Trim(p + [w]) == Trim(p)
  {
    var r := Trim(p);
    var a: nat :| TrimmedSpan(p, a, r);
    TrimmedSpanSnoc(p, w, a, r);
    TrimUnique(p + [w], a, r);
  }

  /** A whitespace character at the end leaves the kept span where it is. */
  lemma TrimmedSpanSnoc(p: string, w: char, a: nat, r: string)
    requires IsWhitespace(w) && TrimmedSpan(p, a, r)
    ensures TrimmedSpan(p + [w], a, r)
  {
    var s := p + [w];
    assert s[..a] == p[..a];
    assert s[a..a + |r|] == p[a..a + |r|];
    assert s[a + |r|..] == p[a + |r|..] + [w];
  }

  /** `String.prototype.split(sep)` for a one-character separator: the pieces
      between consecutive separators, an empty piece where two separators touch
      or the string starts or ends with one. */
  function Split(s: string, sep: char): (r: seq<string>)
    ensures |r| >= 1
    ensures forall k :: 0 <= k < |r| ==> sep !in r[k]
  {
    if s == [] then [""]
    else
      var rest := Split(s[1..], sep);
      if s[0] == sep then [""] + rest
      else [[s[0]] + rest[0]] + rest[1..]
  }

  /** Joining the pieces with the separator gives back the string: `split`
      loses nothing. */
  lemma {:induction false} JoinSplit(s: string, sep: char)
    ensures Join(Split(s, sep), [sep]) == s
  {
    if s != [] {
      var rest := Split(s[1..], sep);
      JoinSplit(s[1..], sep);
      if s[0] == sep {
        JoinEmptyFirst(rest, [sep]);
      } else {
        JoinLongerFirst(s[0], rest, [sep]);
      }
      assert s == [s[0]] + s[1..];
    }
  }

  lemma JoinEmptyFirst(ps: seq<string>, sep: string)
    requires |ps| >= 1
    ensures Join([""] + ps, sep) == sep + Join(ps, sep)
  {
    var r := [""] + ps;
    assert r[1..] == ps;
  }

  lemma JoinLongerFirst(c: char, ps: seq<string>, sep: string)
    requires |ps| >= 1
    ensures Join([[c] + ps[0]] + ps[1..], sep) == [c] + Join(ps, sep)
  {
    var r := [[c] + ps[0]] + ps[1..];
    assert r[1..] == ps[1..];
    if |ps| > 1 {
      assert Join(ps, sep) == ps[0] + sep + Join(ps[1..], sep);
      assert [c] + ps[0] + sep + Join(ps[1..], sep) == [c] + (ps[0] + sep + Join(ps[1..], sep));
    }
  }

  /** `Array.prototype.join(sep)`: an empty array joins to the empty string. */
  function Join(ps: seq<string>, sep: string): string {
    if ps == [] then ""
    else if |ps| == 1 then ps[0]
    else ps[0] + sep + Join(ps[1..], sep)
  }

  /** Joining pieces that do not contain the separator and splitting again gives
      back the pieces: `split` and `join` are inverse on such pieces. */
  lemma {:induction false} SplitJoin(ps: seq<string>, sep: char)
    requires |ps| >= 1
    requires forall k :: 0 <= k < |ps| ==> sep !in ps[k]
    ensures Split(Join(ps, [sep]), sep) == ps
  {
    if |ps| == 1 {
      SplitNoSeparator(ps[0], sep);
    } else {
      SplitJoin(ps[1..], sep);
      SplitAfterPiece(ps[0], Join(ps[1..], [sep]), sep);
      assert Join(ps, [sep]) == ps[0] + [sep] + Join(ps[1..], [sep]);
      assert ps == [ps[0]] + ps[1..];
    }
  }

  lemma {:induction false} SplitNoSeparator(w: string, sep: char)
    requires sep !in w
    ensures Split(w, sep) == [w]
  {
    if w != [] {
      SplitNoSeparator(w[1..], sep);
      assert [w[0]] + w[1..] == w;
    }
  }

  lemma {:induction false} SplitAfterPiece(w: string, t: string, sep: char)
    requires sep !in w
    ensures Split(w + [sep] + t, sep) == [w] + Split(t, sep)
  {
    if w == [] {
      assert w + [sep] + t == [sep] + t;
      assert ([sep] + t)[1..] == t;
    } else {
      var u := w + [sep] + t;
      SplitAfterPiece(w[1..], t, sep);
      assert u[0] == w[0] != sep && u[1..] == w[1..] + [sep] + t;
      var rest := Split(u[1..], sep);
      assert rest[0] == w[1..] && rest[1..] == Split(t, sep);
      assert Split(u, sep) == [[w[0]] + rest[0]] + rest[1..];
      assert [w[0]] + w[1..] == w;
    }
  }

  /** One character in front of a text joins its first piece, or opens an
      empty piece when it is the separator. */
  lemma SplitCons(c: char, y: string, sep: char)
    ensures Split([c] + y, sep) ==
      if c == sep then [""] + Split(y, sep) else [[c] + Split(y, sep)[0]] + Split(y, sep)[1..]
  {
    assert ([c] + y)[1..] == y;
  }

  /** A text that does not start with the separator has a non-empty first
      piece, or only one piece. */
  lemma SplitFirstNonEmpty(t: string, sep: char)
    requires t == [] || t[0] != sep
    ensures |Split(t, sep)| == 1 || Split(t, sep)[0] != ""
  {
  }

  /** A text of whitespace splits into pieces of whitespace. */
  lemma {:induction false} SplitBlank(u: string, sep: char)
    requires AllWhitespace(u)
    ensures forall k :: 0 <= k < |Split(u, sep)| ==> AllWhitespace(Split(u, sep)[k])
  {
    if u != [] {
      assert AllWhitespace(u[1..]) by {
        forall k | 0 <= k < |u[1..]| ensures IsWhitespace(u[1..][k]) { assert u[1..][k] == u[k + 1]; }
      }
      SplitBlank(u[1..], sep);
      assert u == [u[0]] + u[1..];
      SplitCons(u[0], u[1..], sep);
      var y := Split(u[1..], sep);
      if u[0] != sep {
        assert AllWhitespace([u[0]] + y[0]) by {
          forall k | 0 <= k < |[u[0]] + y[0]| ensures IsWhitespace(([u[0]] + y[0])[k]) {
            if k > 0 { assert ([u[0]] + y[0])[k] == y[0][k - 1]; }
          }
        }
      }
    }
  }

  /** A separator between two texts puts the pieces of one after the pieces
      of the other. */
  lemma {:induction false} SplitAroundSeparator(u: string, t: string, sep: char)
    ensures Split(u + [sep] + t, sep) == Split(u, sep) + Split(t, sep)
  {
    if u == [] {
      assert u + [sep] + t == [sep] + t;
      SplitCons(sep, t, sep);
    } else {
      assert u + [sep] + t == [u[0]] + (u[1..] + [sep] + t);
      SplitAroundSeparator(u[1..], t, sep);
      SplitCons(u[0], u[1..] + [sep] + t, sep);
      SplitCons(u[0], u[1..], sep);
      assert u == [u[0]] + u[1..];
      SplitConsAppend(u[0], Split(u[1..], sep), Split(t, sep), sep);
    }
  }

  /** The list step of `SplitAroundSeparator`: a first character acts on the
      first piece only. */
  lemma SplitConsAppend(d: char, us: seq<string>, ts: seq<string>, sep: char)
    requires |us| >= 1
    ensures (if d == sep then [""] + (us + ts) else [[d] + (us + ts)[0]] + (us + ts)[1..]) ==
      (if d == sep then [""] + us else [[d] + us[0]] + us[1..]) + ts
  {
    if d != sep {
      assert (us + ts)[0] == us[0] && (us + ts)[1..] == us[1..] + ts;
    }
  }

  /** One character after a text extends its last piece, or opens an empty
      last piece when it is the separator. */
  lemma SplitSnoc(y: string, c: char, sep: char)
    ensures c == sep ==> Split(y + [c], sep) == Split(y, sep) + [""]
    ensures c != sep ==>
      Split(y + [c], sep) == Split(y, sep)[..|Split(y, sep)| - 1] + [Split(y, sep)[|Split(y, sep)| - 1] + [c]]
  {
    if c == sep {
      assert y + [c] == y + [sep] + [];
      SplitAroundSeparator(y, [], sep);
    } else {
      SplitSnocOther(y, c, sep);
    }
  }

  lemma {:induction false} SplitSnocOther(y: string, c: char, sep: char)
    requires c != sep
    ensures Split(y + [c], sep) ==
      Split(y, sep)[..|Split(y, sep)| - 1] + [Split(y, sep)[|Split(y, sep)| - 1] + [c]]
  {
    if y == [] {
      assert y + [c] == [c] + [];
      SplitCons(c, [], sep);
    } else {
      var y', d := y[1..], y[0];
      var ys, zs := Split(y', sep), Split(y' + [c], sep);
      assert Split(y, sep) == if d == sep then [""] + ys else [[d] + ys[0]] + ys[1..] by {
        assert y == [d] + y';
        SplitCons(d, y', sep);
      }
      assert Split(y + [c], sep) == if d == sep then [""] + zs else [[d] + zs[0]] + zs[1..] by {
        assert y + [c] == [d] + (y' + [c]);
        SplitCons(d, y' + [c], sep);
      }
      SplitSnocOther(y', c, sep);
      SplitSnocStep(d, ys, zs, Split(y, sep), c, sep);
    }
  }

  /** The list step of `SplitSnocOther`: a first character and a growing last
      piece commute. */
  lemma SplitSnocStep(d: char, ys: seq<string>, zs: seq<string>, xs: seq<string>, c: char, sep: char)
    requires |ys| >= 1 && zs == ys[..|ys| - 1] + [ys[|ys| - 1] + [c]]
    requires xs == if d == sep then [""] + ys else [[d] + ys[0]] + ys[1..]
    ensures (if d == sep then [""] + zs else [[d] + zs[0]] + zs[1..]) == xs[..|xs| - 1] + [xs[|xs| - 1] + [c]]
  {
    if d == sep {
      assert xs[..|xs| - 1] == [""] + ys[..|ys| - 1];
    } else if |ys| == 1 {
      assert zs == [ys[0] + [c]];
      assert [d] + (ys[0] + [c]) == ([d] + ys[0]) + [c];
    } else {
      assert zs[0] == ys[0];
      assert zs[1..] == ys[1..|ys| - 1] + [ys[|ys| - 1] + [c]];
      assert xs[..|xs| - 1] == [[d] + ys[0]] + ys[1..|ys| - 1];
    }
  }

  /** `String.prototype.toLowerCase` for the Basic Latin and Latin-1 letters. */
  function LowerChar(c: char): (r: char)
    ensures !('A' <= r <= 'Z')
    ensures IsWhitespace(r) <==> IsWhitespace(c)
  {
    if 'A' <= c <= 'Z' || ('\U{C0}' <= c <= '\U{DE}' && c != '\U{D7}')
    then (c as int + 32) as char
    else c
  }

  function ToLower(s: string): (r: string)
    ensures |r| == |s|
    ensures forall k :: 0 <= k < |s| ==> r[k] == LowerChar(s[k])
  {
    if s == [] then [] else [LowerChar(s[0])] + ToLower(s[1..])
  }

  /** `length` of a JavaScript string: code points above U+FFFF take two UTF-16
      code units. */
  function Utf16Length(s: string): (n: nat)
    ensures |s| <= n <= 2 * |s|
  {
    if s == [] then 0 else (if s[0] as int > 0xFFFF then 2 else 1) + Utf16Length(s[1..])
  }

  /** `length` is additive: the code units of a concatenation are those of
      its parts. */
  lemma {:induction false} Utf16LengthAppend(a: string, b: string)
    ensures Utf16Length(a + b) == Utf16Length(a) + Utf16Length(b)
  {
    if a != [] {
      assert (a + b)[1..] == a[1..] + b;
      Utf16LengthAppend(a[1..], b);
    } else {
      assert a + b == b;
    }
  }

  /** A character above U+FFFF is a surrogate pair, two code units; any other
      character is one. */
  lemma Utf16LengthOfChar(c: char)
    ensures Utf16Length([c]) == if c as int > 0xFFFF then 2 else 1
  {
    assert [c][1..] == [];
  }

  lemma {:induction false} Utf16LengthOfBasicPlane(s: string)
    requires forall k :: 0 <= k < |s| ==> s[k] as int <= 0xFFFF
    ensures Utf16Length(s) == |s|
  {
    if s != [] { Utf16LengthOfBasicPlane(s[1..]); }
  }

  function DigitChar(d: nat): (c: char)
    requires d < 10
    ensures IsDigit(c)
  {
    ('0' as int + d) as char
  }

  /** `${n}` for a non-negative integer: its decimal digits, without leading zeros. */
  function Decimal(n: nat): (r: string)
    ensures |r| >= 1
    ensures forall k :: 0 <= k < |r| ==> IsDigit(r[k])
    ensures r[0] == '0' ==> n == 0
  {
    if n < 10 then [DigitChar(n)] else Decimal(n / 10) + [DigitChar(n % 10)]
  }

  function DigitsValue(s: string): nat
    requires forall k :: 0 <= k < |s| ==> IsDigit(s[k])
  {
    if s == [] then 0
    else
      assert IsDigit(s[|s| - 1]);
      10 * DigitsValue(s[..|s| - 1]) + (s[|s| - 1] as int - '0' as int)
  }

  /** Reading the rendered digits back gives the number: the rendering loses nothing. */
  lemma {:induction false} DecimalRoundTrip(n: nat)
    ensures DigitsValue(Decimal(n)) == n
  {
    if n >= 10 {
      DecimalRoundTrip(n / 10);
      var r := Decimal(n);
      assert r[..|r| - 1] == Decimal(n / 10);
    }
  }

  /** Length of the longest prefix of `s` free of whitespace. */
  function WordRun(s: string, i: nat): (n: nat)
    requires i <= |s|
    ensures i + n <= |s|
    ensures forall k :: i <= k < i + n ==> !IsWhitespace(s[k])
    ensures i + n == |s| || IsWhitespace(s[i + n])
    decreases |s| - i
  {
    if i < |s| && !IsWhitespace(s[i]) then 1 + WordRun(s, i + 1) else 0
  }

  /** `s.split(/\s+/)`: the pieces between maximal runs of whitespace. */
  function SplitOnWhitespace(s: string): (r: seq<string>)
    ensures |r| >= 1
    decreases |s|
  {
    var w := WordRun(s, 0);
    if w == |s| then [s]
    else
      var gap := WhitespaceRun(s, w);
      [s[..w]] + SplitOnWhitespace(s[w + gap..])
  }

  /** `s` holds no whitespace. */
  predicate IsWord(s: string) {
    forall k :: 0 <= k < |s| ==> !IsWhitespace(s[k])
  }

  /** The first `w` characters of `s` form a word. */
  lemma WordPrefix(s: string, w: nat)
    requires w <= |s| && forall k :: 0 <= k < w ==> !IsWhitespace(s[k])
    ensures IsWord(s[..w])
  {
    assert forall k :: 0 <= k < w ==> s[..w][k] == s[k];
  }

  /** Every piece of `[w] + rest` is a word when `w` and every piece of `rest` are. */
  lemma WordsCons(w: string, rest: seq<string>)
    requires IsWord(w) && forall k :: 0 <= k < |rest| ==> IsWord(rest[k])
    ensures forall k :: 0 <= k < |[w] + rest| ==> IsWord(([w] + rest)[k])
  {
    assert forall k :: 1 <= k < |[w] + rest| ==> ([w] + rest)[k] == rest[k - 1];
  }

  /** No piece of `split(/\s+/)` holds whitespace. */
  lemma {:induction false} SplitOnWhitespaceWords(s: string)
    ensures forall k :: 0 <= k < |SplitOnWhitespace(s)| ==> IsWord(SplitOnWhitespace(s)[k])
    decreases |s|
  {
    var w := WordRun(s, 0);
    WordPrefix(s, w);
    if w == |s| {
      assert s[..w] == s;
    } else {
      var gap := WhitespaceRun(s, w);
      var t := s[w + gap..];
      SplitOnWhitespaceWords(t);
      var rest := SplitOnWhitespace(t);
      assert SplitOnWhitespace(s) == [s[..w]] + rest;
      WordsCons(s[..w], rest);
    }
  }

  /** Only the first and the last piece can be empty when `rest`'s first piece is not. */
  lemma InnerCons(w: string, rest: seq<string>)
    requires |rest| >= 1 && rest[0] != []
    requires forall k :: 0 < k < |rest| - 1 ==> rest[k] != []
    ensures forall k :: 0 < k < |[w] + rest| - 1 ==> ([w] + rest)[k] != []
  {
    assert forall k :: 1 <= k < |[w] + rest| ==> ([w] + rest)[k] == rest[k - 1];
  }

  /** Only the first and the last piece of `split(/\s+/)` can be empty. */
  lemma {:induction false} SplitOnWhitespaceInnerPieces(s: string)
    ensures forall k :: 0 < k < |SplitOnWhitespace(s)| - 1 ==> SplitOnWhitespace(s)[k] != []
    decreases |s|
  {
    var w := WordRun(s, 0);
    if w < |s| {
      var gap := WhitespaceRun(s, w);
      var t := s[w + gap..];
      var rest := SplitOnWhitespace(t);
      assert SplitOnWhitespace(s) == [s[..w]] + rest;
      SplitOnWhitespaceInnerPieces(t);
      if t != [] {
        assert t[0] == s[w + gap];
        SplitOnWhitespaceFirst(t);
        InnerCons(s[..w], rest);
      }
    }
  }

  /** The first piece is empty exactly when `s` is empty or starts with
      whitespace. */
  lemma SplitOnWhitespaceFirst(s: string)
    ensures SplitOnWhitespace(s)[0] == [] <==> s == [] || IsWhitespace(s[0])
  {
    var w := WordRun(s, 0);
    assert SplitOnWhitespace(s)[0] == s[..w];
  }

  /** Number of maximal whitespace runs in `s`. */
  function WhitespaceRuns(s: string): nat {
    if s == [] then 0
    else (if IsWhitespace(s[0]) && (|s| == 1 || !IsWhitespace(s[1])) then 1 else 0) + WhitespaceRuns(s[1..])
  }

  /** `split(/\s+/)` yields one piece more than there are whitespace runs. */
  lemma {:induction false} SplitOnWhitespaceCount(s: string)
    ensures |SplitOnWhitespace(s)| == WhitespaceRuns(s) + 1
    decreases |s|
  {
    var w := WordRun(s, 0);
    if w == |s| {
      RunsOfWord(s, w);
    } else {
      var gap := WhitespaceRun(s, w);
      assert SplitOnWhitespace(s) == [s[..w]] + SplitOnWhitespace(s[w + gap..]);
      SplitOnWhitespaceCount(s[w + gap..]);
      RunsOfStep(s, w, gap);
    }
  }

  /** A string without whitespace has no run. */
  lemma RunsOfWord(s: string, w: nat)
    requires w == WordRun(s, 0) == |s|
    ensures WhitespaceRuns(s) == 0
  {
    assert s[0..] == s;
    RunsDropWord(s, 0, w);
    assert s[w..] == [];
  }

  /** A leading word and the whitespace run after it count as one run. */
  lemma RunsOfStep(s: string, w: nat, gap: nat)
    requires w == WordRun(s, 0) < |s| && gap == WhitespaceRun(s, w)
    ensures WhitespaceRuns(s) == 1 + WhitespaceRuns(s[w + gap..])
  {
    assert s[0..] == s;
    RunsDropWord(s, 0, w);
    RunsDropGap(s, w, gap);
  }

  /** A word at `i` adds no run. */
  lemma {:induction false} RunsDropWord(s: string, i: nat, w: nat)
    requires i + w <= |s| && forall k :: i <= k < i + w ==> !IsWhitespace(s[k])
    ensures WhitespaceRuns(s[i..]) == WhitespaceRuns(s[i + w..])
    decreases w
  {
    if w > 0 {
      RunsDropWord(s, i + 1, w - 1);
      assert s[i..][1..] == s[i + 1..];
    }
  }

  /** A maximal run of whitespace at `i` adds one run. */
  lemma {:induction false} RunsDropGap(s: string, i: nat, gap: nat)
    requires 1 <= gap && i + gap <= |s| && forall k :: i <= k < i + gap ==> IsWhitespace(s[k])
    requires i + gap == |s| || !IsWhitespace(s[i + gap])
    ensures WhitespaceRuns(s[i..]) == 1 + WhitespaceRuns(s[i + gap..])
    decreases gap
  {
    assert s[i..][1..] == s[i + 1..];
    if gap > 1 {
      RunsDropGap(s, i + 1, gap - 1);
    }
  }
}
