/** The fragment of Python's `re` that the extraction scripts use: character classes, literals,
    bounded and unbounded greedy repetition, and ordered alternation (`(?:a|b)`, `(?:a)?`).

    A pattern is a sequence of atoms. `AtomEnds` lists the positions where an atom can stop,
    in the order a backtracking matcher tries them (the longest repetition first, the left
    branch of an alternation before the right one). `MatchAt` is the first successful path,
    one span per top-level atom, which is what `re.search(...).group(n)` reads. */
module Regex {
  import opened Text

  datatype Class =
    | Space                  // \s
    | Digit                  // \d and [\d०-९]
    | AsciiDigit             // [0-9]
    | AsciiUpper             // [A-Z]
    | AsciiLetter            // [A-Za-z]
    | AnyButNewline          // .
    | Chars(cs: string)      // [...] listing characters
    | Not(neg: Class)        // [^...]
    | Union(a: Class, b: Class)

  predicate In(c: char, k: Class) {
    match k
    case Space => IsSpace(c)
    case Digit => IsDigit(c)
    case AsciiDigit => IsAsciiDigit(c)
    case AsciiUpper => IsAsciiUpper(c)
    case AsciiLetter => IsAsciiLetter(c)
    case AnyButNewline => c != '\n'
    case Chars(cs) => c in cs
    case Not(n) => !In(c, n)
    case Union(a, b) => In(c, a) || In(c, b)
  }

  datatype Limit = Finite(n: nat) | Unbounded

  datatype Atom =
    | Lit(w: string)
    | Rep(k: Class, lo: nat, hi: Limit)
    | Alt(left: seq<Atom>, right: seq<Atom>)

  function Plus(k: Class): Atom { Rep(k, 1, Unbounded) }
  function Star(k: Class): Atom { Rep(k, 0, Unbounded) }
  function Maybe(k: Class): Atom { Rep(k, 0, Finite(1)) }
  function One(k: Class): Atom { Rep(k, 1, Finite(1)) }
  /** `(?:body)?` */
  function Opt(body: seq<Atom>): Atom { Alt(body, []) }

  function Size(a: Atom): nat {
    match a
    case Alt(l, r) => 1 + SizeOf(l) + SizeOf(r)
    case _ => 1
  }

  function SizeOf(ps: seq<Atom>): nat {
    if ps == [] then 0 else Size(ps[0]) + SizeOf(ps[1..])
  }

  /** The end of the longest run of `k` characters starting at `i`. */
  function RunEnd(k: Class, s: string, i: nat): (j: nat)
    requires i <= |s|
    ensures i <= j <= |s|
    ensures forall x :: i <= x < j ==> In(s[x], k)
    ensures j < |s| ==> !In(s[j], k)
    decreases |s| - i
  {
    if i < |s| && In(s[i], k) then RunEnd(k, s, i + 1) else i
  }

  /** `hi, hi - 1, ..., lo` */
  function Down(hi: nat, lo: nat): (r: seq<nat>)
    requires lo <= hi
    ensures |r| == hi - lo + 1
    ensures forall x :: 0 <= x < |r| ==> r[x] == hi - x
    decreases hi - lo
  {
    if hi == lo then [lo] else [hi] + Down(hi - 1, lo)
  }

  /** The end positions of `a` from `i`, in backtracking order. */
  function AtomEnds(a: Atom, s: string, i: nat): (r: seq<nat>)
    requires i <= |s|
    ensures forall x :: 0 <= x < |r| ==> i <= r[x] <= |s|
    ensures forall e :: e in r ==> i <= e <= |s|
    decreases Size(a), 0, 0
  {
    match a
    case Lit(w) => if i + |w| <= |s| && s[i..i + |w|] == w then [i + |w|] else []
    case Rep(k, lo, hi) =>
      var run := RunEnd(k, s, i);
      var top := if hi.Finite? && i + hi.n < run then i + hi.n else run;
      if i + lo <= top then Down(top, i + lo) else []
    case Alt(l, r) => SeqEnds(l, s, i) + SeqEnds(r, s, i)
  }

  /** The end positions of the sequence `ps` from `i`, in backtracking order. */
  function SeqEnds(ps: seq<Atom>, s: string, i: nat): (r: seq<nat>)
    requires i <= |s|
    ensures forall x :: 0 <= x < |r| ==> i <= r[x] <= |s|
    decreases SizeOf(ps), 1, 0
  {
    if ps == [] then [i] else ThenAll(ps[1..], s, AtomEnds(ps[0], s, i), i)
  }

  /** The ends of `qs` from each of the starts `es` in turn. */
  function ThenAll(qs: seq<Atom>, s: string, es: seq<nat>, lo: nat): (r: seq<nat>)
    requires forall x :: 0 <= x < |es| ==> lo <= es[x] <= |s|
    ensures forall x :: 0 <= x < |r| ==> lo <= r[x] <= |s|
    decreases SizeOf(qs), 2, |es|
  {
    if es == [] then [] else SeqEnds(qs, s, es[0]) + ThenAll(qs, s, es[1..], lo)
  }

  datatype Span = Span(start: nat, end: nat)

  /** `r` is a path of `ps` from `i`: one span per atom, each ending where the atom can end. */
  predicate Chain(ps: seq<Atom>, s: string, i: nat, r: seq<Span>)
    decreases |ps|
  {
    |r| == |ps| &&
    (ps != [] ==>
      r[0].start == i && i <= |s| && r[0].end in AtomEnds(ps[0], s, i) &&
      Chain(ps[1..], s, r[0].end, r[1..]))
  }

  /** Where a path from `i` ends. */
  function End(i: nat, r: seq<Span>): nat {
    if r == [] then i else r[|r| - 1].end
  }

  /** The first path of `ps` from `i` that a backtracking matcher finds. */
  function MatchAt(ps: seq<Atom>, s: string, i: nat): (r: Option<seq<Span>>)
    requires i <= |s|
    ensures r.Some? ==> Chain(ps, s, i, r.value)
    decreases |ps|, 1, 0
  {
    if ps == [] then Some([]) else TryEnds(ps, s, i, AtomEnds(ps[0], s, i))
  }

  function TryEnds(ps: seq<Atom>, s: string, i: nat, es: seq<nat>): (r: Option<seq<Span>>)
    requires ps != [] && i <= |s|
    requires forall x :: 0 <= x < |es| ==> es[x] in AtomEnds(ps[0], s, i)
    ensures r.Some? ==> Chain(ps, s, i, r.value)
    decreases |ps|, 0, |es|
  {
    if es == [] then None
    else
      assert es[0] in AtomEnds(ps[0], s, i);
      match MatchAt(ps[1..], s, es[0])
      case Some(rest) =>
        var r := [Span(i, es[0])] + rest;
        assert r[1..] == rest;
        Some(r)
      case None => TryEnds(ps, s, i, es[1..])
  }

  /** The first path found is the first entry of the full backtracking order, and there is
      one exactly when the pattern can match at `i` at all. */
  lemma {:induction false} MatchAtFirst(ps: seq<Atom>, s: string, i: nat)
    requires i <= |s|
    ensures MatchAt(ps, s, i).Some? <==> SeqEnds(ps, s, i) != []
    ensures MatchAt(ps, s, i).Some? ==> End(i, MatchAt(ps, s, i).value) == SeqEnds(ps, s, i)[0]
    decreases |ps|, 1, 0
  {
    if ps != [] {
      TryEndsFirst(ps, s, i, AtomEnds(ps[0], s, i));
    }
  }

  lemma {:induction false} TryEndsFirst(ps: seq<Atom>, s: string, i: nat, es: seq<nat>)
    requires ps != [] && i <= |s|
    requires forall x :: 0 <= x < |es| ==> es[x] in AtomEnds(ps[0], s, i)
    ensures TryEnds(ps, s, i, es).Some? <==> ThenAll(ps[1..], s, es, i) != []
    ensures TryEnds(ps, s, i, es).Some? ==>
      End(i, TryEnds(ps, s, i, es).value) == ThenAll(ps[1..], s, es, i)[0]
    decreases |ps|, 0, |es|
  {
    if es != [] {
      var e := es[0];
      MatchAtFirst(ps[1..], s, e);
      match MatchAt(ps[1..], s, e)
      case Some(rest) =>
        var r := [Span(i, e)] + rest;
        assert End(i, r) == End(e, rest);
      case None =>
        TryEndsFirst(ps, s, i, es[1..]);
    }
  }

  // ---------------------------------------------------------------- what a span means

  /** The text of one span is what its atom describes (alternations are not unfolded). */
  predicate Matches(a: Atom, s: string, sp: Span)
    requires sp.start <= sp.end <= |s|
  {
    match a
    case Lit(w) => s[sp.start..sp.end] == w
    case Rep(k, lo, hi) =>
      lo <= sp.end - sp.start && (hi.Finite? ==> sp.end - sp.start <= hi.n) &&
      forall x :: sp.start <= x < sp.end ==> In(s[x], k)
    case Alt(_, _) => true
  }

  lemma AtomEndsSound(a: Atom, s: string, i: nat, e: nat)
    requires i <= |s| && e in AtomEnds(a, s, i)
    ensures i <= e <= |s| && Matches(a, s, Span(i, e))
  {
    if a.Rep? {
      var run := RunEnd(a.k, s, i);
      var top := if a.hi.Finite? && i + a.hi.n < run then i + a.hi.n else run;
      var ds := Down(top, i + a.lo);
      var x :| 0 <= x < |ds| && ds[x] == e;
    }
  }

  /** A path, spelled out span by span: spans are contiguous, in bounds and each matches its atom. */
  predicate Fits(ps: seq<Atom>, s: string, i: nat, r: seq<Span>) {
    |r| == |ps| &&
    (forall m :: 0 <= m < |r| ==> r[m].start <= r[m].end <= |s| && Matches(ps[m], s, r[m])) &&
    (|r| > 0 ==> r[0].start == i) &&
    (forall m :: 0 <= m < |r| - 1 ==> r[m].end == r[m + 1].start)
  }

  lemma {:induction false} ChainFits(ps: seq<Atom>, s: string, i: nat, r: seq<Span>)
    requires Chain(ps, s, i, r)
    ensures Fits(ps, s, i, r)
    decreases |ps|
  {
    if ps != [] {
      AtomEndsSound(ps[0], s, i, r[0].end);
      ChainFits(ps[1..], s, r[0].end, r[1..]);
      assert forall m :: 1 <= m < |r| ==> r[m] == r[1..][m - 1] && ps[m] == ps[1..][m - 1];
    }
  }

  /** In a path the spans follow one another, so the whole path ends no earlier than any span. */
  lemma {:induction false} FitsEnd(ps: seq<Atom>, s: string, i: nat, r: seq<Span>, m: nat)
    requires Fits(ps, s, i, r) && m < |r|
    ensures r[m].end <= End(i, r) <= |s|
    decreases |r| - m
  {
    if m + 1 < |r| {
      FitsEnd(ps, s, i, r, m + 1);
    }
  }

  // ---------------------------------------------------------------- re.search

  datatype Found = Found(at: nat, spans: seq<Span>)

  /** `re.search` from position `j`: the leftmost position where the pattern matches. */
  function SearchFrom(ps: seq<Atom>, s: string, j: nat): (r: Option<Found>)
    requires j <= |s|
    ensures r.Some? ==> j <= r.value.at <= |s| && MatchAt(ps, s, r.value.at) == Some(r.value.spans)
    ensures r.Some? ==> Fits(ps, s, r.value.at, r.value.spans)
    ensures r.Some? ==> forall k :: j <= k < r.value.at ==> MatchAt(ps, s, k).None?
    ensures r.None? ==> forall k :: j <= k <= |s| ==> MatchAt(ps, s, k).None?
    decreases |s| - j
  {
    match MatchAt(ps, s, j)
    case Some(spans) => ChainFits(ps, s, j, spans); Some(Found(j, spans))
    case None => if j == |s| then None else SearchFrom(ps, s, j + 1)
  }

  /** `re.search(pattern, s)` */
  function Search(ps: seq<Atom>, s: string): (r: Option<Found>)
    ensures r.Some? ==> r.value.at <= |s| && MatchAt(ps, s, r.value.at) == Some(r.value.spans)
    ensures r.Some? ==> Fits(ps, s, r.value.at, r.value.spans)
    ensures r.Some? ==> forall k :: 0 <= k < r.value.at ==> MatchAt(ps, s, k).None?
    ensures r.None? ==> forall k :: 0 <= k <= |s| ==> MatchAt(ps, s, k).None?
  {
    SearchFrom(ps, s, 0)
  }

  /** The text of span `m` of a match: `m.group(n)` for a group that is one atom. */
  function Group(s: string, f: Found, m: nat): (g: string)
    requires m < |f.spans| && f.spans[m].start <= f.spans[m].end <= |s|
    ensures |g| == f.spans[m].end - f.spans[m].start
  {
    s[f.spans[m].start..f.spans[m].end]
  }

  /** The whole text matched by a path. */
  function Whole(s: string, f: Found): string
    requires f.at <= End(f.at, f.spans) <= |s|
  {
    s[f.at..End(f.at, f.spans)]
  }

  // ---------------------------------------------------------------- re.sub

  /** The first atom always consumes a character, so no match is empty. */
  predicate NeverEmpty(ps: seq<Atom>) {
    ps != [] &&
    match ps[0]
    case Lit(w) => w != []
    case Rep(_, lo, _) => lo >= 1
    case Alt(_, _) => false
  }

  lemma MatchAdvances(ps: seq<Atom>, s: string, i: nat, r: seq<Span>)
    requires NeverEmpty(ps) && i <= |s| && Chain(ps, s, i, r)
    ensures i < End(i, r) <= |s|
  {
    ChainFits(ps, s, i, r);
    FitsEnd(ps, s, i, r, 0);
    if ps[0].Lit? {
      assert |s[r[0].start..r[0].end]| == |ps[0].w|;
    }
  }

  /** `re.sub(pattern, repl, s[i..])` for a pattern whose matches are never empty. */
  function SubFrom(ps: seq<Atom>, repl: string, s: string, i: nat): string
    requires NeverEmpty(ps) && i <= |s|
    decreases |s| - i
  {
    if i == |s| then []
    else
      match MatchAt(ps, s, i)
      case Some(r) => MatchAdvances(ps, s, i, r); repl + SubFrom(ps, repl, s, End(i, r))
      case None => [s[i]] + SubFrom(ps, repl, s, i + 1)
  }

  /** `re.sub(pattern, repl, s)` */
  function Sub(ps: seq<Atom>, repl: string, s: string): string
    requires NeverEmpty(ps)
  {
    SubFrom(ps, repl, s, 0)
  }

  /** Substitution only brings in characters of the text and of the replacement. */
  lemma {:induction false} SubAll(ps: seq<Atom>, repl: string, s: string, i: nat, p: char -> bool)
    requires NeverEmpty(ps) && i <= |s|
    requires All(s, p) && All(repl, p)
    ensures All(SubFrom(ps, repl, s, i), p)
    decreases |s| - i
  {
    if i < |s| {
      match MatchAt(ps, s, i)
      case Some(r) =>
        MatchAdvances(ps, s, i, r);
        SubAll(ps, repl, s, End(i, r), p);
        AllConcat(repl, SubFrom(ps, repl, s, End(i, r)), p);
      case None =>
        SubAll(ps, repl, s, i + 1, p);
        AllConcat([s[i]], SubFrom(ps, repl, s, i + 1), p);
    }
  }

  // ---------------------------------------------------------------- reference definitions

  /** Each character of class `k` replaced by `repl`, the others kept. */
  function MapClass(s: string, k: Class, repl: string): string {
    if s == [] then [] else (if In(s[0], k) then repl else [s[0]]) + MapClass(s[1..], k, repl)
  }

  /** A one-atom pattern takes the first end its atom offers. */
  lemma SingleMatch(a: Atom, s: string, i: nat)
    requires i <= |s|
    ensures MatchAt([a], s, i) ==
      if AtomEnds(a, s, i) == [] then None else Some([Span(i, AtomEnds(a, s, i)[0])])
  {
    var es := AtomEnds(a, s, i);
    assert [a][1..] == [];
    if es != [] {
      assert MatchAt([], s, es[0]) == Some([]);
      assert [Span(i, es[0])] + [] == [Span(i, es[0])];
    }
  }

  lemma OneEnds(k: Class, s: string, i: nat)
    requires i <= |s|
    ensures AtomEnds(One(k), s, i) == if i < |s| && In(s[i], k) then [i + 1] else []
  {
    if i < |s| && In(s[i], k) {
      assert RunEnd(k, s, i) >= i + 1;
    }
  }

  lemma OneMatch(k: Class, s: string, i: nat)
    requires i <= |s|
    ensures MatchAt([One(k)], s, i) == if i < |s| && In(s[i], k) then Some([Span(i, i + 1)]) else None
  {
    OneEnds(k, s, i);
    SingleMatch(One(k), s, i);
  }

  /** `re.sub('[...]', repl, s)` with a one-character class is a character-wise map. */
  lemma {:induction false} SubOne(k: Class, repl: string, s: string, i: nat)
    requires i <= |s|
    ensures SubFrom([One(k)], repl, s, i) == MapClass(s[i..], k, repl)
    decreases |s| - i
  {
    if i < |s| {
      OneMatch(k, s, i);
      SubOne(k, repl, s, i + 1);
      assert s[i..][1..] == s[i + 1..];
    } else {
      assert s[i..] == [];
    }
  }

  /** `LStrip` of a suffix drops exactly the whitespace run found by the matcher. */
  lemma {:induction false} LStripRun(s: string, i: nat)
    requires i <= |s|
    ensures LStrip(s[i..]) == s[RunEnd(Space, s, i)..]
    decreases |s| - i
  {
    if i < |s| && IsSpace(s[i]) {
      LStripRun(s, i + 1);
      assert s[i..][1..] == s[i + 1..];
    }
  }

  lemma PlusSpaceMatch(s: string, i: nat)
    requires i < |s| && IsSpace(s[i])
    ensures MatchAt([Plus(Space)], s, i) == Some([Span(i, RunEnd(Space, s, i))])
  {
    assert AtomEnds(Plus(Space), s, i)[0] == RunEnd(Space, s, i);
    SingleMatch(Plus(Space), s, i);
  }

  lemma PlusSpaceNoMatch(s: string, i: nat)
    requires i <= |s| && (i == |s| || !IsSpace(s[i]))
    ensures MatchAt([Plus(Space)], s, i) == None
  {
    SingleMatch(Plus(Space), s, i);
  }

  /** `re.sub(r'\s+', ' ', s)` is `Collapse`: each whitespace run becomes one ' '. */
  lemma {:induction false} SubCollapse(s: string, i: nat)
    requires i <= |s|
    ensures SubFrom([Plus(Space)], " ", s, i) == Collapse(s[i..])
    decreases |s| - i
  {
    if i < |s| {
      assert s[i..][0] == s[i];
      if IsSpace(s[i]) {
        PlusSpaceMatch(s, i);
        var e := RunEnd(Space, s, i);
        assert End(i, [Span(i, e)]) == e;
        LStripRun(s, i);
        SubCollapse(s, e);
      } else {
        PlusSpaceNoMatch(s, i);
        SubCollapse(s, i + 1);
        assert s[i..][1..] == s[i + 1..];
      }
    } else {
      assert s[i..] == [];
    }
  }

  /** A single-atom literal pattern is found exactly when the literal occurs: `re.search('w', s)`
      is `'w' in s`. */
  lemma SearchLiteral(w: string, s: string)
    ensures Search([Lit(w)], s).Some? <==> Contains(s, w)
  {
    if Contains(s, w) {
      var i :| 0 <= i <= |s| && OccursAt(s, w, i);
      SingleMatch(Lit(w), s, i);
    }
    if Search([Lit(w)], s).Some? {
      var f := Search([Lit(w)], s).value;
      SingleMatch(Lit(w), s, f.at);
      assert OccursAt(s, w, f.at);
    }
  }

  /** `re.search('[k]+', s)`: the first character of class `k` and the longest run from it. */
  lemma SearchPlus(k: Class, s: string)
    ensures Search([Plus(k)], s).Some? <==> exists x :: 0 <= x < |s| && In(s[x], k)
    ensures Search([Plus(k)], s).Some? ==> IsFirstRun(k, s, Search([Plus(k)], s).value)
  {
    var r := Search([Plus(k)], s);
    if x :| 0 <= x < |s| && In(s[x], k) {
      SingleMatch(Plus(k), s, x);
    }
    if r.Some? {
      SearchPlusFound(k, s, r.value);
    }
  }

  /** `f` is the leftmost run of class `k` in `s`, taken whole. */
  predicate IsFirstRun(k: Class, s: string, f: Found) {
    f.at < |s| && In(s[f.at], k) && (forall x :: 0 <= x < f.at ==> !In(s[x], k)) &&
    f.spans == [Span(f.at, RunEnd(k, s, f.at))]
  }

  lemma SearchPlusFound(k: Class, s: string, f: Found)
    requires f.at <= |s| && MatchAt([Plus(k)], s, f.at) == Some(f.spans)
    requires forall x :: 0 <= x < f.at ==> MatchAt([Plus(k)], s, x).None?
    ensures IsFirstRun(k, s, f)
  {
    forall x | 0 <= x < f.at ensures !In(s[x], k) {
      SingleMatch(Plus(k), s, x);
    }
    SingleMatch(Plus(k), s, f.at);
  }

  /** The length of the run of `k` characters that `s` starts with. */
  function LeadLen(k: Class, s: string): (n: nat)
    ensures n <= |s|
  {
    if s != [] && In(s[0], k) then 1 + LeadLen(k, s[1..]) else 0
  }

  /** The first maximal run of `k` characters in `s`, by a plain left-to-right scan. */
  function RunOf(k: Class, s: string): string {
    if s == [] then [] else if In(s[0], k) then s[..LeadLen(k, s)] else RunOf(k, s[1..])
  }

  lemma {:induction false} LeadLenRunEnd(k: Class, s: string, i: nat)
    requires i <= |s|
    ensures LeadLen(k, s[i..]) == RunEnd(k, s, i) - i
    decreases |s| - i
  {
    if i < |s| && In(s[i], k) {
      LeadLenRunEnd(k, s, i + 1);
      assert s[i..][1..] == s[i + 1..];
    }
  }

  lemma {:induction false} RunOfSkip(k: Class, s: string, i: nat)
    requires i <= |s| && forall x :: 0 <= x < i ==> !In(s[x], k)
    ensures RunOf(k, s) == RunOf(k, s[i..])
    decreases i
  {
    if i > 0 {
      RunOfSkip(k, s[1..], i - 1);
      assert s[1..][i - 1..] == s[i..];
    }
  }

  lemma {:induction false} RunOfNone(k: Class, s: string)
    requires forall x :: 0 <= x < |s| ==> !In(s[x], k)
    ensures RunOf(k, s) == []
  {
    RunOfSkip(k, s, |s|);
  }

  /** `re.search('[k]+', s).group(0)` is the first run found by the plain scan. */
  lemma SearchRun(k: Class, s: string)
    ensures Search([Plus(k)], s).None? <==> RunOf(k, s) == []
    ensures Search([Plus(k)], s).Some? ==> Group(s, Search([Plus(k)], s).value, 0) == RunOf(k, s)
  {
    SearchPlus(k, s);
    match Search([Plus(k)], s)
    case None =>
      RunOfNone(k, s);
    case Some(f) =>
      FirstRunGroup(k, s, f);
  }

  /** The group of the leftmost whole run is the run the plain scan finds, and is not empty. */
  lemma FirstRunGroup(k: Class, s: string, f: Found)
    requires IsFirstRun(k, s, f)
    ensures RunEnd(k, s, f.at) <= |s|
    ensures Group(s, f, 0) == RunOf(k, s) && RunOf(k, s) != []
  {
    var a, e := f.at, RunEnd(k, s, f.at);
    var t := s[a..];
    RunOfSkip(k, s, a);
    LeadLenRunEnd(k, s, a);
    assert t[0] == s[a];
    assert RunOf(k, t) == t[..e - a];
    assert t[..e - a] == s[a..e];
    assert Group(s, f, 0) == s[a..e];
  }

  /** What `MapClass` keeps and brings in: if every kept character and the replacement satisfy
      `q`, so does the result. */
  lemma {:induction false} MapClassAll(s: string, k: Class, repl: string, q: char -> bool)
    requires forall i :: 0 <= i < |s| && !In(s[i], k) ==> q(s[i])
    requires All(repl, q)
    ensures All(MapClass(s, k, repl), q)
  {
    if s != [] {
      MapClassAll(s[1..], k, repl, q);
      AllConcat(if In(s[0], k) then repl else [s[0]], MapClass(s[1..], k, repl), q);
    }
  }

  /** The first run consists of `k` characters only, and it is empty exactly when no character
      of `s` is of class `k`. */
  lemma {:induction false} RunOfClass(k: Class, s: string)
    ensures forall x :: 0 <= x < |RunOf(k, s)| ==> In(RunOf(k, s)[x], k)
    ensures RunOf(k, s) == [] <==> forall x :: 0 <= x < |s| ==> !In(s[x], k)
  {
    if s != [] {
      if In(s[0], k) {
        LeadLenAll(k, s);
      } else {
        RunOfClass(k, s[1..]);
        assert forall x :: 1 <= x < |s| ==> s[x] == s[1..][x - 1];
      }
    }
  }

  lemma {:induction false} LeadLenAll(k: Class, s: string)
    ensures forall x :: 0 <= x < LeadLen(k, s) ==> In(s[x], k)
  {
    if s != [] && In(s[0], k) {
      LeadLenAll(k, s[1..]);
      assert forall x :: 1 <= x < LeadLen(k, s) ==> s[x] == s[1..][x - 1];
    }
  }

  /** The text of the last group of a match: `m.group(n)` for a pattern ending in its group. */
  function LastGroup(ps: seq<Atom>, s: string, f: Found): string
    requires Fits(ps, s, f.at, f.spans)
  {
    if f.spans == [] then [] else Group(s, f, |f.spans| - 1)
  }

  /** A pattern that opens with a literal finds nothing in a text without that literal. */
  lemma SearchNeedsLit(ps: seq<Atom>, s: string)
    requires ps != [] && ps[0].Lit?
    ensures Search(ps, s).Some? ==> Contains(s, ps[0].w)
  {
    if Search(ps, s).Some? {
      var f := Search(ps, s).value;
      assert Matches(ps[0], s, f.spans[0]);
      assert OccursAt(s, ps[0].w, f.at);
    }
  }
}
