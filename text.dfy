/** Character classes and the Python `str` operations the three extraction scripts rely on.

    Assumptions about Unicode, stated once:
    - whitespace (`\s`, `str.strip()`, `str.split()`) is the six ASCII whitespace characters;
    - a digit (`\d`) is an ASCII digit or a Devanagari digit U+0966..U+096F;
    - `str.upper()` / `str.lower()` change ASCII letters only. */
module Text {

  datatype Option<T> = None | Some(value: T)

  predicate IsSpace(c: char) {
    c == ' ' || c == '\t' || c == '\n' || c == '\r' || c == '\U{000B}' || c == '\U{000C}'
  }

  predicate IsAsciiDigit(c: char) { '0' <= c <= '9' }

  predicate IsDevanagariDigit(c: char) { '\U{0966}' <= c <= '\U{096F}' }

  predicate IsDigit(c: char) { IsAsciiDigit(c) || IsDevanagariDigit(c) }

  predicate IsAsciiUpper(c: char) { 'A' <= c <= 'Z' }

  predicate IsAsciiLower(c: char) { 'a' <= c <= 'z' }

  predicate IsAsciiLetter(c: char) { IsAsciiUpper(c) || IsAsciiLower(c) }

  /** Every character of `s` satisfies `p`. */
  predicate All(s: string, p: char -> bool) {
    forall i :: 0 <= i < |s| ==> p(s[i])
  }

  lemma AllSuffix(s: string, n: nat, p: char -> bool)
    requires All(s, p) && n <= |s|
    ensures All(s[n..], p)
  {
    assert forall i :: 0 <= i < |s| - n ==> s[n..][i] == s[n + i];
  }

  lemma AllPrefix(s: string, n: nat, p: char -> bool)
    requires All(s, p) && n <= |s|
    ensures All(s[..n], p)
  {
    assert forall i :: 0 <= i < n ==> s[..n][i] == s[i];
  }

  lemma AllConcat(a: string, b: string, p: char -> bool)
    ensures All(a + b, p) <==> All(a, p) && All(b, p)
  {
    if All(a, p) && All(b, p) {
      forall i | 0 <= i < |a + b| ensures p((a + b)[i]) {
        if i >= |a| { assert (a + b)[i] == b[i - |a|]; }
      }
    }
    if All(a + b, p) {
      forall i | 0 <= i < |a| ensures p(a[i]) { assert a[i] == (a + b)[i]; }
      forall i | 0 <= i < |b| ensures p(b[i]) { assert b[i] == (a + b)[|a| + i]; }
    }
  }

  // ---------------------------------------------------------------- case mapping

  function ToUpper(c: char): (r: char)
    ensures !IsAsciiLower(r)
    ensures !IsAsciiLower(c) ==> r == c
  {
    if IsAsciiLower(c) then (c as int - 32) as char else c
  }

  function ToLower(c: char): (r: char)
    ensures !IsAsciiUpper(r)
    ensures !IsAsciiUpper(c) ==> r == c
  {
    if IsAsciiUpper(c) then (c as int + 32) as char else c
  }

  /** `str.upper()` */
  function Upper(s: string): (r: string)
    ensures |r| == |s|
    ensures forall i :: 0 <= i < |s| ==> r[i] == ToUpper(s[i])
  {
    if s == [] then [] else [ToUpper(s[0])] + Upper(s[1..])
  }

  /** `str.lower()` */
  function Lower(s: string): (r: string)
    ensures |r| == |s|
    ensures forall i :: 0 <= i < |s| ==> r[i] == ToLower(s[i])
  {
    if s == [] then [] else [ToLower(s[0])] + Lower(s[1..])
  }

  // ---------------------------------------------------------------- stripping

  /** `s.lstrip(chars)` where `drop` tells which characters are stripped. */
  function LStripWhere(s: string, drop: char -> bool): (r: string)
    ensures |r| <= |s| && r == s[|s| - |r|..]
    ensures r == [] || !drop(r[0])
    ensures forall i :: 0 <= i < |s| - |r| ==> drop(s[i])
  {
    if s != [] && drop(s[0]) then LStripWhere(s[1..], drop) else s
  }

  /** `s.rstrip(chars)` */
  function RStripWhere(s: string, drop: char -> bool): (r: string)
    ensures |r| <= |s| && r == s[..|r|]
    ensures r == [] || !drop(r[|r| - 1])
    ensures forall i :: |r| <= i < |s| ==> drop(s[i])
  {
    if s != [] && drop(s[|s| - 1]) then RStripWhere(s[..|s| - 1], drop) else s
  }

  /** `r` is the slice of `s` from `a`, and every character of `s` outside it satisfies `drop`. */
  predicate MiddleAt(s: string, r: string, a: nat, drop: char -> bool) {
    a + |r| <= |s| && r == s[a..a + |r|] &&
    (forall i :: 0 <= i < a ==> drop(s[i])) && (forall i :: a + |r| <= i < |s| ==> drop(s[i]))
  }

  /** `s.strip(chars)` */
  function StripWhere(s: string, drop: char -> bool): (r: string)
    ensures r == [] || (!drop(r[0]) && !drop(r[|r| - 1]))
  {
    RStripWhere(LStripWhere(s, drop), drop)
  }

  /** Stripping removes only characters `drop` matches, and only at the ends: the result is a
      slice of the input with every character outside it dropped. */
  lemma StripWhereSlice(s: string, drop: char -> bool)
    ensures exists a :: MiddleAt(s, StripWhere(s, drop), a, drop)
  {
    var l := LStripWhere(s, drop);
    var r := RStripWhere(l, drop);
    var a := |s| - |l|;
    assert l == s[a..] && r == l[..|r|];
    assert r == s[a..a + |r|];
    assert forall i :: a + |r| <= i < |s| ==> s[i] == l[i - a];
    assert MiddleAt(s, r, a, drop);
    assert StripWhere(s, drop) == r;
  }

  function LStrip(s: string): (r: string)
    ensures s != [] && IsSpace(s[0]) ==> |r| < |s|
  {
    LStripWhere(s, IsSpace)
  }

  function RStrip(s: string): string { RStripWhere(s, IsSpace) }

  /** `str.strip()` with no argument. */
  function Strip(s: string): string { StripWhere(s, IsSpace) }

  /** Nothing `drop` matches at either end: stripping removes nothing. */
  lemma StripWhereNoop(s: string, drop: char -> bool)
    requires s == [] || (!drop(s[0]) && !drop(s[|s| - 1]))
    ensures StripWhere(s, drop) == s
  {
  }

  lemma StripAll(s: string, p: char -> bool)
    requires All(s, p)
    ensures All(Strip(s), p)
  {
    var l := LStripWhere(s, IsSpace);
    AllSuffix(s, |s| - |l|, p);
    var r := RStripWhere(l, IsSpace);
    AllPrefix(l, |r|, p);
  }

  // ---------------------------------------------------------------- words

  /** The length of the leading run of non-whitespace characters. */
  function WordLen(s: string): (n: nat)
    ensures n <= |s|
    ensures forall i :: 0 <= i < n ==> !IsSpace(s[i])
    ensures n == |s| || IsSpace(s[n])
  {
    if s == [] || IsSpace(s[0]) then 0 else 1 + WordLen(s[1..])
  }

  predicate IsWord(w: string) {
    w != [] && forall i :: 0 <= i < |w| ==> !IsSpace(w[i])
  }

  /** `str.split()` with no argument: the maximal runs of non-whitespace characters. */
  function Words(s: string): (r: seq<string>)
    ensures forall k :: 0 <= k < |r| ==> IsWord(r[k])
    decreases |s|
  {
    if s == [] then []
    else if IsSpace(s[0]) then Words(s[1..])
    else [s[..WordLen(s)]] + Words(s[WordLen(s)..])
  }

  /** `' '.join(ws)` */
  function Join(ws: seq<string>): string {
    if |ws| == 0 then [] else if |ws| == 1 then ws[0] else ws[0] + " " + Join(ws[1..])
  }

  /** The only whitespace is a single ' ' between two non-whitespace characters:
      no leading or trailing whitespace, no runs, no tabs or newlines. */
  predicate SingleSpaced(r: string) {
    forall i :: 0 <= i < |r| && IsSpace(r[i]) ==> r[i] == ' ' && 0 < i < |r| - 1 && !IsSpace(r[i + 1])
  }

  lemma WordsOfSpaceFirst(s: string)
    requires s != [] && IsSpace(s[0])
    ensures Words(s) == Words(s[1..])
  {
  }

  lemma WordsOfLStrip(s: string)
    ensures Words(LStrip(s)) == Words(s)
    decreases |s|
  {
    if s != [] && IsSpace(s[0]) {
      WordsOfLStrip(s[1..]);
    }
  }

  lemma WordLenOfWordThen(w: string, t: string)
    requires IsWord(w) && (t == [] || IsSpace(t[0]))
    ensures WordLen(w + t) == |w|
    decreases |w|
  {
    if |w| > 1 {
      assert (w + t)[1..] == w[1..] + t;
      WordLenOfWordThen(w[1..], t);
    }
  }

  /** Splitting a join of words gives the words back. */
  lemma {:induction false} WordsOfJoin(ws: seq<string>)
    requires forall k :: 0 <= k < |ws| ==> IsWord(ws[k])
    ensures Words(Join(ws)) == ws
    decreases |ws|
  {
    if |ws| == 1 {
      var w := ws[0];
      WordsOfWordThen(w, []);
      assert w + [] == w;
    } else if |ws| > 1 {
      var w, t := ws[0], " " + Join(ws[1..]);
      assert Join(ws) == w + t;
      WordsOfWordThen(w, t);
      WordsOfSpaceFirst(t);
      assert t[1..] == Join(ws[1..]);
      WordsOfJoin(ws[1..]);
    }
  }

  /** A word followed by nothing or by whitespace splits off as the first word. */
  lemma WordsOfWordThen(w: string, t: string)
    requires IsWord(w) && (t == [] || IsSpace(t[0]))
    ensures Words(w + t) == [w] + Words(t)
  {
    WordLenOfWordThen(w, t);
    assert (w + t)[..|w|] == w;
    assert (w + t)[|w|..] == t;
  }

  lemma {:induction false} JoinSingleSpaced(ws: seq<string>)
    requires forall k :: 0 <= k < |ws| ==> IsWord(ws[k])
    ensures SingleSpaced(Join(ws))
    ensures |ws| > 0 ==> Join(ws) != [] && !IsSpace(Join(ws)[0]) && !IsSpace(Join(ws)[|Join(ws)| - 1])
    decreases |ws|
  {
    if |ws| > 1 {
      JoinSingleSpaced(ws[1..]);
      var w, j := ws[0], Join(ws[1..]);
      var r := w + " " + j;
      assert Join(ws) == r;
      assert forall i :: 0 <= i < |w| ==> r[i] == w[i];
      forall i | 0 <= i < |r| && IsSpace(r[i])
        ensures r[i] == ' ' && 0 < i < |r| - 1 && !IsSpace(r[i + 1])
      {
        if i > |w| {
          assert r[i] == j[i - |w| - 1];
          if i + 1 < |r| { assert r[i + 1] == j[i - |w|]; }
        } else if i == |w| {
          assert r[i + 1] == j[0];
        }
      }
      assert r[|r| - 1] == j[|j| - 1];
    }
  }

  lemma {:induction false} JoinAll(ws: seq<string>, p: char -> bool)
    requires p(' ')
    requires forall k :: 0 <= k < |ws| ==> All(ws[k], p)
    ensures All(Join(ws), p)
    decreases |ws|
  {
    if |ws| > 1 {
      JoinAll(ws[1..], p);
      AllConcat(ws[0], " ", p);
      AllConcat(ws[0] + " ", Join(ws[1..]), p);
    }
  }

  lemma {:induction false} WordsAll(s: string, p: char -> bool)
    requires All(s, p)
    ensures forall k :: 0 <= k < |Words(s)| ==> All(Words(s)[k], p)
    decreases |s|
  {
    if s != [] {
      if IsSpace(s[0]) {
        WordsAll(s[1..], p);
      } else {
        var n := WordLen(s);
        WordsAll(s[n..], p);
      }
    }
  }

  // ---------------------------------------------------------------- collapsing whitespace runs

  /** `re.sub(r'\s+', ' ', s)`: every maximal whitespace run becomes one ' '. */
  function Collapse(s: string): string
    decreases |s|
  {
    if s == [] then []
    else if IsSpace(s[0]) then " " + Collapse(LStrip(s))
    else [s[0]] + Collapse(s[1..])
  }

  lemma {:induction false} CollapseAll(s: string, p: char -> bool)
    requires All(s, p) && p(' ')
    ensures All(Collapse(s), p)
    decreases |s|
  {
    if s != [] {
      if IsSpace(s[0]) {
        var t := LStrip(s);
        AllSuffix(s, |s| - |t|, p);
        CollapseAll(t, p);
        AllConcat(" ", Collapse(t), p);
      } else {
        CollapseAll(s[1..], p);
        AllConcat([s[0]], Collapse(s[1..]), p);
      }
    }
  }

  lemma CollapseWord(w: string, t: string)
    requires forall i :: 0 <= i < |w| ==> !IsSpace(w[i])
    ensures Collapse(w + t) == w + Collapse(t)
    decreases |w|
  {
    if w != [] {
      assert (w + t)[0] == w[0];
      assert (w + t)[1..] == w[1..] + t;
      CollapseWord(w[1..], t);
      assert [w[0]] + w[1..] == w;
    } else {
      assert w + t == t;
    }
  }

  lemma CollapseFirst(s: string)
    ensures Collapse(s) == [] || !IsSpace(Collapse(s)[0]) || IsSpace(s[0])
  {
  }

  lemma RStripAppend(a: string, b: string)
    requires b != [] && !IsSpace(b[|b| - 1])
    ensures RStrip(a + b) == a + b
  {
  }

  lemma RStripWordThen(w: string, t: string)
    requires forall i :: 0 <= i < |w| ==> !IsSpace(w[i])
    requires forall i :: 0 <= i < |t| ==> IsSpace(t[i])
    ensures RStrip(w + t) == w
    decreases |t|
  {
    if t != [] {
      assert (w + t)[..|w + t| - 1] == w + t[..|t| - 1];
      RStripWordThen(w, t[..|t| - 1]);
    } else {
      assert w + t == w;
    }
  }

  lemma RStripKeepsPrefix(a: string, b: string)
    requires RStrip(b) != []
    ensures RStrip(a + b) == a + RStrip(b)
    decreases |b|
  {
    if b != [] && IsSpace(b[|b| - 1]) {
      assert (a + b)[..|a + b| - 1] == a + b[..|b| - 1];
      RStripKeepsPrefix(a, b[..|b| - 1]);
    }
  }

  /** A text that starts with a word is that word followed by the rest. */
  lemma SplitFirstWord(s: string)
    requires s != [] && !IsSpace(s[0])
    ensures var n := WordLen(s);
      && Collapse(s) == s[..n] + Collapse(s[n..])
      && Words(s) == [s[..n]] + Words(s[n..])
      && (s[n..] == [] || IsSpace(s[n..][0]))
  {
    var n := WordLen(s);
    assert s == s[..n] + s[n..];
    CollapseWord(s[..n], s[n..]);
  }

  /** A text that starts with whitespace collapses to one ' ' before the rest. */
  lemma SplitFirstSpace(s: string)
    requires s != [] && IsSpace(s[0])
    ensures Collapse(s) == " " + Collapse(LStrip(s))
    ensures Words(s) == Words(LStrip(s))
    ensures LStrip(s) == [] || !IsSpace(LStrip(s)[0])
  {
    WordsOfLStrip(s);
  }

  lemma JoinCons(w: string, ws: seq<string>)
    requires ws != []
    ensures Join([w] + ws) == w + " " + Join(ws)
  {
    assert ([w] + ws)[1..] == ws;
  }

  /** One step of `RStripCollapse`: a word, a separating ' ', and a collapsed tail that has words. */
  lemma RStripCollapseStep(w: string, t: string)
    requires IsWord(w) && t != [] && !IsSpace(t[0])
    requires RStrip(Collapse(t)) == Join(Words(t))
    ensures RStrip((w + " ") + Collapse(t)) == Join([w] + Words(t))
  {
    NonEmptyWords(t);
    JoinSingleSpaced(Words(t));
    RStripKeepsPrefix(w + " ", Collapse(t));
    JoinCons(w, Words(t));
  }

  /** For text that does not start with whitespace, trimming the end of the collapsed text
      is joining its words. */
  lemma {:induction false} RStripCollapse(s: string)
    requires s == [] || !IsSpace(s[0])
    ensures RStrip(Collapse(s)) == Join(Words(s))
    decreases |s|
  {
    if s != [] {
      var n := WordLen(s);
      var rest := s[n..];
      if rest != [] && LStrip(rest) != [] {
        SplitFirstSpace(rest);
        RStripCollapse(LStrip(rest));
      }
      RStripCollapseCases(s);
    }
  }

  lemma RStripCollapseCases(s: string)
    requires s != [] && !IsSpace(s[0])
    requires var rest := s[WordLen(s)..];
      rest != [] && LStrip(rest) != [] ==> RStrip(Collapse(LStrip(rest))) == Join(Words(LStrip(rest)))
    ensures RStrip(Collapse(s)) == Join(Words(s))
  {
    var n := WordLen(s);
    SplitFirstWord(s);
    RStripCollapseTail(s[..n], s[n..], Collapse(s), Words(s));
  }

  /** The collapse `c` and the words `ws` of a first word `w` followed by a text `rest`. */
  lemma RStripCollapseTail(w: string, rest: string, c: string, ws: seq<string>)
    requires IsWord(w) && (rest == [] || IsSpace(rest[0]))
    requires c == w + Collapse(rest) && ws == [w] + Words(rest)
    requires rest != [] && LStrip(rest) != [] ==> RStrip(Collapse(LStrip(rest))) == Join(Words(LStrip(rest)))
    ensures RStrip(c) == Join(ws)
  {
    if rest == [] {
      assert c == w + [];
      assert ws == [w] + [];
      LastWord(w, rest, c, ws);
    } else {
      SplitFirstSpace(rest);
      var t := LStrip(rest);
      assert c == (w + " ") + Collapse(t);
      assert ws == [w] + Words(t);
      if t == [] {
        assert c == w + " " + [];
        assert ws == [w] + [];
        LastWord(w, " ", c, ws);
      } else {
        RStripCollapseStep(w, t);
      }
    }
  }

  /** The last word: its collapse is the word and perhaps one trailing ' '. */
  lemma LastWord(w: string, tail: string, c: string, ws: seq<string>)
    requires IsWord(w) && (tail == [] || tail == " ")
    requires c == w + tail && ws == [w]
    ensures RStrip(c) == Join(ws)
  {
    RStripWordThen(w, tail);
  }

  lemma NonEmptyWords(t: string)
    requires t != [] && !IsSpace(t[0])
    ensures Words(t) != []
  {
    assert WordLen(t) > 0;
  }

  /** `re.sub(r'\s+', ' ', s).strip()` is `' '.join(s.split())`. */
  lemma {:induction false} StripCollapse(s: string)
    ensures Strip(Collapse(s)) == Join(Words(s))
  {
    var t := LStrip(s);
    WordsOfLStrip(s);
    RStripCollapse(t);
    if s != [] && IsSpace(s[0]) {
      assert Collapse(s) == " " + Collapse(t);
      CollapseFirst(t);
      if Collapse(t) != [] {
        assert !IsSpace(Collapse(t)[0]);
      }
      assert LStrip(" " + Collapse(t)) == Collapse(t) by {
        assert (" " + Collapse(t))[1..] == Collapse(t);
      }
    } else {
      CollapseFirst(s);
      assert LStrip(Collapse(s)) == Collapse(s);
    }
  }

  // ---------------------------------------------------------------- searching and replacing

  predicate OccursAt(s: string, w: string, i: nat) {
    i + |w| <= |s| && s[i..i + |w|] == w
  }

  /** `w in s` */
  predicate Contains(s: string, w: string) {
    exists i :: 0 <= i <= |s| && OccursAt(s, w, i)
  }

  /** `s.find(w, from)`: the first occurrence at or after `from`. */
  function Find(s: string, w: string, from: nat): (r: Option<nat>)
    requires from <= |s|
    ensures r.Some? ==> from <= r.value <= |s| && OccursAt(s, w, r.value)
    ensures r.Some? ==> forall j :: from <= j < r.value ==> !OccursAt(s, w, j)
    ensures r.None? ==> forall j :: from <= j <= |s| ==> !OccursAt(s, w, j)
    decreases |s| - from
  {
    if OccursAt(s, w, from) then Some(from)
    else if from == |s| then None
    else Find(s, w, from + 1)
  }

  /** `s.replace(target, repl)`: non-overlapping occurrences, left to right. */
  function Replace(s: string, target: string, repl: string): string
    requires target != []
    decreases |s|
  {
    if |s| < |target| then s
    else if s[..|target|] == target then repl + Replace(s[|target|..], target, repl)
    else [s[0]] + Replace(s[1..], target, repl)
  }

  /** Replacing a string that does not occur changes nothing. */
  lemma {:induction false} ReplaceAbsent(s: string, target: string, repl: string)
    requires target != [] && !Contains(s, target)
    ensures Replace(s, target, repl) == s
    decreases |s|
  {
    if |s| >= |target| {
      assert !OccursAt(s, target, 0);
      assert s[..|target|] != target;
      assert !Contains(s[1..], target) by {
        forall i | 0 <= i <= |s[1..]| ensures !OccursAt(s[1..], target, i) {
          assert !OccursAt(s, target, i + 1);
          if i + |target| <= |s[1..]| { assert s[1..][i..i + |target|] == s[i + 1..i + 1 + |target|]; }
        }
      }
      ReplaceAbsent(s[1..], target, repl);
    }
  }

  /** `s.replace(w, w)` is the identity. */
  lemma {:induction false} ReplaceSame(s: string, w: string)
    requires w != []
    ensures Replace(s, w, w) == s
    decreases |s|
  {
    if |s| >= |w| {
      if s[..|w|] == w {
        ReplaceSame(s[|w|..], w);
        assert s == s[..|w|] + s[|w|..];
      } else {
        ReplaceSame(s[1..], w);
      }
    }
  }

  /** Replacing one character by another is a character-wise map. */
  lemma {:induction false} ReplaceChar(s: string, a: char, b: char)
    ensures |Replace(s, [a], [b])| == |s|
    ensures forall i :: 0 <= i < |s| ==> Replace(s, [a], [b])[i] == (if s[i] == a then b else s[i])
    decreases |s|
  {
    if s != [] {
      ReplaceChar(s[1..], a, b);
      assert s[..1] == [s[0]];
      assert s[1..] == s[|[a]|..];
    }
  }

  /** `r` ends `s` and is preceded in `s` by an occurrence of `k`. */
  predicate FollowsOccurrence(s: string, k: string, r: string) {
    |r| + |k| <= |s| && OccursAt(s, k, |s| - |r| - |k|)
  }

  /** The piece after the last separator: `s.split(k)[-1]`. Python's split scans from the left
      and does not let two separators overlap; the contract fixes the piece only for a `k` that
      does not overlap itself (for "aaa" split on "aa" the piece is "a", yet "" also follows an
      occurrence). None of the keywords the scripts split on overlaps itself. */
  function LastPiece(s: string, k: string): (r: string)
    requires k != []
    ensures |r| <= |s| && r == s[|s| - |r|..]
    ensures !Contains(r, k)
    ensures !Contains(s, k) ==> r == s
    ensures Contains(s, k) ==> FollowsOccurrence(s, k, r)
    decreases |s|
  {
    match Find(s, k, 0)
    case None =>
      assert !Contains(s, k);
      s
    case Some(i) =>
      var r := LastPiece(s[i + |k|..], k);
      LastPieceStep(s, k, i, r);
      r
  }

  /** The step of `LastPiece` past the first occurrence at `i`: what holds of the piece `r` of
      the rest holds of it as a piece of the whole. */
  lemma LastPieceStep(s: string, k: string, i: nat, r: string)
    requires k != [] && OccursAt(s, k, i)
    requires var t := s[i + |k|..];
      |r| <= |t| && r == t[|t| - |r|..] &&
      (!Contains(t, k) ==> r == t) &&
      (Contains(t, k) ==> FollowsOccurrence(t, k, r))
    ensures |r| <= |s| && r == s[|s| - |r|..]
    ensures Contains(s, k) && FollowsOccurrence(s, k, r)
  {
    var t := s[i + |k|..];
    assert |t| == |s| - i - |k|;
    assert t[|t| - |r|..] == s[|s| - |r|..];
    if Contains(t, k) {
      var j := |t| - |r| - |k|;
      OccursShift(s, k, i + |k|, j);
      assert i + |k| + j == |s| - |r| - |k|;
    } else {
      assert |s| - |r| - |k| == i;
    }
  }

  /** An occurrence in a suffix is an occurrence in the whole text. */
  lemma OccursShift(s: string, k: string, off: nat, j: nat)
    requires off <= |s| && OccursAt(s[off..], k, j)
    ensures OccursAt(s, k, off + j)
  {
    assert s[off..][j..j + |k|] == s[off + j..off + j + |k|];
  }

  /** The index of the first element satisfying `p`. */
  function IndexWhere<T>(s: seq<T>, p: T -> bool): (r: Option<nat>)
    ensures r.Some? ==> r.value < |s| && p(s[r.value]) && forall j :: 0 <= j < r.value ==> !p(s[j])
    ensures r.None? ==> forall j :: 0 <= j < |s| ==> !p(s[j])
  {
    if s == [] then None
    else if p(s[0]) then Some(0)
    else match IndexWhere(s[1..], p)
      case None => None
      case Some(j) => Some(j + 1)
  }

  /** `s.split(sep)` for a one-character separator. */
  function SplitOn(s: string, sep: char): (r: seq<string>)
    ensures |r| >= 1
    ensures forall k :: 0 <= k < |r| ==> sep !in r[k]
    decreases |s|
  {
    match IndexWhere(s, c => c == sep)
    case None => [s]
    case Some(i) => [s[..i]] + SplitOn(s[i + 1..], sep)
  }

  /** `sep.join(ps)` */
  function JoinWith(ps: seq<string>, sep: char): string {
    if |ps| == 0 then [] else if |ps| == 1 then ps[0] else ps[0] + [sep] + JoinWith(ps[1..], sep)
  }

  /** Splitting on a separator and joining with it again gives the text back. */
  lemma {:induction false} SplitOnJoin(s: string, sep: char)
    ensures JoinWith(SplitOn(s, sep), sep) == s
    decreases |s|
  {
    match IndexWhere(s, c => c == sep)
    case None =>
    case Some(i) =>
      SplitOnJoin(s[i + 1..], sep);
      assert s == s[..i] + [sep] + s[i + 1..];
  }

  /** `IndexWhere` is determined by its first hit. */
  lemma IndexWhereIs<T>(s: seq<T>, p: T -> bool, i: nat)
    requires i < |s| && p(s[i]) && forall j :: 0 <= j < i ==> !p(s[j])
    ensures IndexWhere(s, p) == Some(i)
  {
    match IndexWhere(s, p)
    case None =>
    case Some(k) =>
  }

  /** `del xs[i]` */
  function Delete<T>(xs: seq<T>, i: nat): (r: seq<T>)
    requires i < |xs|
    ensures |r| == |xs| - 1
    ensures forall j :: 0 <= j < i ==> r[j] == xs[j]
    ensures forall j :: i <= j < |r| ==> r[j] == xs[j + 1]
  {
    xs[..i] + xs[i + 1..]
  }

  /** The characters of `s` that satisfy `keep`, in order. */
  function Filter(s: string, keep: char -> bool): (r: string)
    ensures |r| <= |s|
    ensures All(r, keep)
  {
    if s == [] then [] else (if keep(s[0]) then [s[0]] else []) + Filter(s[1..], keep)
  }

  /** Every character `keep` accepts survives as often as it occurs; every other one is gone. */
  lemma {:induction false} FilterCounts(s: string, keep: char -> bool)
    ensures forall c :: multiset(Filter(s, keep))[c] == if keep(c) then multiset(s)[c] else 0
    decreases |s|
  {
    if s != [] {
      FilterCounts(s[1..], keep);
      assert s == [s[0]] + s[1..];
    }
  }

  /** Filtering keeps the order: filtering a concatenation filters each part. */
  lemma {:induction false} FilterAppend(s: string, t: string, keep: char -> bool)
    ensures Filter(s + t, keep) == Filter(s, keep) + Filter(t, keep)
    decreases |s|
  {
    if s != [] {
      var u := s + t;
      assert u[0] == s[0] && u[1..] == s[1..] + t;
      FilterAppend(s[1..], t, keep);
      var x := if keep(s[0]) then [s[0]] else [];
      var a, b := Filter(s[1..], keep), Filter(t, keep);
      assert Filter(u, keep) == x + (a + b);
      assert Filter(s, keep) == x + a;
      assert x + (a + b) == (x + a) + b;
    } else {
      assert s + t == t;
    }
  }
}
