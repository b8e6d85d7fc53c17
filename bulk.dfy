/** The text engine of `bulk_extract.py`: OCR-confusable repair for card IDs and registration
    numbers, its own field cleaners, an ordered table of OCR misreadings, and a parser that reads
    each field as the text after a keyword. */
module Bulk {
  import opened Text
  import opened Regex
  import opened Digits
  import Cleaners
  import CardParser

  // ---------------------------------------------------------------- normalize_ocr_id

  /** `[A-Z0-9/]`: what `normalize_ocr_id` keeps. */
  predicate IsOcrIdChar(c: char) {
    IsAsciiUpper(c) || IsAsciiDigit(c) || c == '/'
  }

  /** The letters OCR confuses with digits, and the digit each one is replaced by. */
  const Confusables: string := "OILBSG"
  const Replacements: string := "011856"

  /** `s.replace(from[0], to[0])`, then `s.replace(from[1], to[1])`, and so on. */
  function ReplaceEach(s: string, from: string, to: string): string
    requires |from| == |to|
    decreases |from|
  {
    if from == [] then s else ReplaceEach(Replace(s, [from[0]], [to[0]]), from[1..], to[1..])
  }

  /** What the chain of one-letter replacements does to a single character. */
  function SwapEach(c: char, from: string, to: string): char
    requires |from| == |to|
    decreases |from|
  {
    if from == [] then c else SwapEach(if c == from[0] then to[0] else c, from[1..], to[1..])
  }

  /** A chain of one-letter replacements is a character-wise map. */
  lemma {:induction false} ReplaceEachAt(s: string, from: string, to: string)
    requires |from| == |to|
    ensures |ReplaceEach(s, from, to)| == |s|
    ensures forall i :: 0 <= i < |s| ==> ReplaceEach(s, from, to)[i] == SwapEach(s[i], from, to)
    decreases |from|
  {
    if from != [] {
      var t := Replace(s, [from[0]], [to[0]]);
      ReplaceChar(s, from[0], to[0]);
      ReplaceEachAt(t, from[1..], to[1..]);
    }
  }

  /** After the six replacements no confusable letter is left, and a character that is not
      one of them is kept. */
  lemma SwapConfusables(c: char)
    ensures SwapEach(c, Confusables, Replacements) !in Confusables
    ensures c !in Confusables ==> SwapEach(c, Confusables, Replacements) == c
    ensures IsOcrIdChar(c) ==> IsOcrIdChar(SwapEach(c, Confusables, Replacements))
  {
  }

  /** Each confusable letter becomes the digit at its own position: O to 0, I and L to 1,
      B to 8, S to 5, G to 6. */
  lemma ConfusableDigits()
    ensures forall j :: 0 <= j < |Confusables| ==>
      SwapEach(Confusables[j], Confusables, Replacements) == Replacements[j]
  {
  }

  /** Each character put through the replacement chain on its own. */
  function Swapped(t: string): (u: string)
    ensures |u| == |t| && forall i :: 0 <= i < |t| ==> u[i] == SwapEach(t[i], Confusables, Replacements)
  {
    seq(|t|, i requires 0 <= i < |t| => SwapEach(t[i], Confusables, Replacements))
  }

  /** The repair before the filter: upper case, then the confusables replaced. */
  function Repaired(s: string): string {
    ReplaceEach(Upper(s), Confusables, Replacements)
  }

  /** `normalize_ocr_id`: upper case, each confusable letter turned into its digit
      (O I L B S G into 0 1 1 8 5 6), then only `[A-Z0-9/]` kept, in order. */
  function NormalizeOcrId(s: string): (r: string)
    ensures s == [] ==> r == []
    ensures All(r, IsOcrIdChar)
    ensures forall i :: 0 <= i < |r| ==> r[i] !in Confusables
    ensures s != [] ==> r == Filter(Swapped(Upper(s)), IsOcrIdChar)
  {
    if s == [] then ""
    else
      var t := Repaired(s);
      RepairedFree(s);
      ReplaceEachAt(Upper(s), Confusables, Replacements);
      assert t == Swapped(Upper(s));
      FilterAll(t, IsOcrIdChar, NotConfusable);
      Filter(t, IsOcrIdChar)
  }

  predicate NotConfusable(c: char) {
    c !in Confusables
  }

  lemma RepairedFree(s: string)
    ensures All(Repaired(s), NotConfusable)
  {
    ReplaceEachAt(Upper(s), Confusables, Replacements);
    forall i | 0 <= i < |s| ensures NotConfusable(Repaired(s)[i]) {
      SwapConfusables(Upper(s)[i]);
    }
  }

  /** Filtering keeps only characters of the text. */
  lemma {:induction false} FilterAll(s: string, keep: char -> bool, q: char -> bool)
    requires All(s, q)
    ensures All(Filter(s, keep), q)
  {
    if s != [] {
      FilterAll(s[1..], keep, q);
      AllConcat(if keep(s[0]) then [s[0]] else [], Filter(s[1..], keep), q);
    }
  }

  /** Filtering a text whose every character is kept is the identity. */
  lemma {:induction false} FilterKeepsAll(s: string, keep: char -> bool)
    requires All(s, keep)
    ensures Filter(s, keep) == s
  {
    if s != [] {
      FilterKeepsAll(s[1..], keep);
    }
  }

  /** An upper-case, confusable-free ID is left as it is. */
  lemma OcrIdFixed(s: string)
    requires All(s, IsOcrIdChar) && forall i :: 0 <= i < |s| ==> s[i] !in Confusables
    ensures NormalizeOcrId(s) == s
  {
    if s != [] {
      assert Upper(s) == s;
      ReplaceEachAt(s, Confusables, Replacements);
      forall i | 0 <= i < |s| ensures Repaired(s)[i] == s[i] {
        SwapConfusables(s[i]);
      }
      assert Repaired(s) == s;
      FilterKeepsAll(s, IsOcrIdChar);
    }
  }

  /** `normalize_ocr_id` is idempotent. */
  lemma OcrIdIdempotent(s: string)
    ensures NormalizeOcrId(NormalizeOcrId(s)) == NormalizeOcrId(s)
  {
    OcrIdFixed(NormalizeOcrId(s));
  }

  // ---------------------------------------------------------------- extract_card_id / extract_reg_no

  /** `[A-Z]{2,4}[0-9A-Z]{6,10}` */
  const CardIdPattern: seq<Atom> :=
    [Rep(AsciiUpper, 2, Finite(4)), Rep(Union(AsciiDigit, AsciiUpper), 6, Finite(10))]

  /** `[0-9]{1,3}/[0-9]{1,3}/[0-9]{1,5}` */
  const RegNoPattern: seq<Atom> :=
    [Rep(AsciiDigit, 1, Finite(3)), Lit("/"), Rep(AsciiDigit, 1, Finite(3)), Lit("/"),
     Rep(AsciiDigit, 1, Finite(5))]

  /** A card ID whose letter prefix has length `k`: `k` capitals, then six to ten capitals or
      digits. */
  predicate CardIdAt(r: string, k: nat) {
    k + 6 <= |r| <= k + 10 &&
    (forall i :: 0 <= i < k ==> IsAsciiUpper(r[i])) &&
    (forall i :: k <= i < |r| ==> IsAsciiUpper(r[i]) || IsAsciiDigit(r[i]))
  }

  /** A card ID: two to four capitals, then six to ten capitals or digits. */
  predicate CardIdLike(r: string) {
    exists k :: 2 <= k <= 4 && CardIdAt(r, k)
  }

  /** `extract_card_id` */
  function ExtractCardId(text: string): (r: string)
    ensures r == [] <==> Search(CardIdPattern, NormalizeOcrId(text)).None?
    ensures r == [] || CardIdLike(r)
    ensures r != [] ==> var t := NormalizeOcrId(text); var f := Search(CardIdPattern, t).value;
      r == t[f.at..f.spans[1].end]
  {
    var t := NormalizeOcrId(text);
    match Search(CardIdPattern, t)
    case None => ""
    case Some(f) =>
      var m := CardIdText(t, f);
      OcrIdFixed(m);
      NormalizeOcrId(m)
  }

  /** What the card-ID pattern matched in a normalised text: a card ID, still normalised. */
  function CardIdText(t: string, f: Found): (m: string)
    requires Fits(CardIdPattern, t, f.at, f.spans)
    requires All(t, IsOcrIdChar) && forall i :: 0 <= i < |t| ==> t[i] !in Confusables
    ensures CardIdLike(m)
    ensures All(m, IsOcrIdChar) && forall i :: 0 <= i < |m| ==> m[i] !in Confusables
    ensures m == t[f.at..f.spans[1].end]
  {
    var sp := f.spans;
    assert Matches(CardIdPattern[0], t, sp[0]) && Matches(CardIdPattern[1], t, sp[1]);
    var m := t[f.at..sp[1].end];
    assert forall i :: 0 <= i < |m| ==> m[i] == t[f.at + i];
    assert CardIdAt(m, sp[0].end - sp[0].start);
    m
  }

  /** A registration number: one to three digits, '/', one to three digits, '/', one to five
      digits, with the slashes at `x` and `y`. */
  predicate RegNoAt(r: string, x: nat, y: nat)
    requires x < y < |r|
  {
    r[x] == '/' && r[y] == '/' && 1 <= x <= 3 && 1 <= y - x - 1 <= 3 && 1 <= |r| - y - 1 <= 5 &&
    forall i :: 0 <= i < |r| && i != x && i != y ==> IsAsciiDigit(r[i])
  }

  predicate RegNoLike(r: string) {
    exists x: nat, y: nat :: x < y < |r| && RegNoAt(r, x, y)
  }

  /** `extract_reg_no` */
  function ExtractRegNo(text: string): (r: string)
    ensures r == [] <==> Search(RegNoPattern, NormalizeOcrId(text)).None?
    ensures r == [] || RegNoLike(r)
    ensures r != [] ==> r == RegNoText(NormalizeOcrId(text), Search(RegNoPattern, NormalizeOcrId(text)).value)
  {
    var t := NormalizeOcrId(text);
    match Search(RegNoPattern, t)
    case None => ""
    case Some(f) => RegNoText(t, f)
  }

  function RegNoText(t: string, f: Found): (m: string)
    requires Fits(RegNoPattern, t, f.at, f.spans)
    ensures RegNoLike(m)
    ensures m == t[f.at..f.spans[4].end]
  {
    var ps, sp := RegNoPattern, f.spans;
    assert Matches(ps[0], t, sp[0]) && Matches(ps[1], t, sp[1]) && Matches(ps[2], t, sp[2]);
    assert Matches(ps[3], t, sp[3]) && Matches(ps[4], t, sp[4]);
    assert sp[0].end == sp[1].start && sp[1].end == sp[2].start;
    assert sp[2].end == sp[3].start && sp[3].end == sp[4].start;
    var a := f.at;
    var m := t[a..sp[4].end];
    var x, y := sp[1].start - a, sp[3].start - a;
    assert t[sp[1].start..sp[1].end] == "/" && t[sp[3].start..sp[3].end] == "/";
    assert m[x] == t[sp[1].start] && m[y] == t[sp[3].start];
    assert forall i :: 0 <= i < |m| ==> m[i] == t[a + i];
    assert RegNoAt(m, x, y);
    m
  }

  // ---------------------------------------------------------------- the cleaners

  /** `clean_voter_name` / `clean_relative_name`: separators become spaces, whitespace runs
      collapse, the ends are stripped and the first `cap` words are kept. */
  function CleanName(raw: string, cap: nat): string {
    var s := Strip(Sub([Plus(Space)], " ", Sub([One(Cleaners.Separators)], " ", raw)));
    var ws := Words(s);
    Join(ws[..Cleaners.Min(cap, |ws|)])
  }

  /** A cleaned name is the first `cap` words of the text with separators made spaces, joined
      by single spaces, with no separator left. */
  lemma CleanNameSpec(raw: string, cap: nat)
    ensures var ws := Words(MapClass(raw, Cleaners.Separators, " "));
      Words(CleanName(raw, cap)) == Cleaners.Capped(ws, cap)
    ensures |Words(CleanName(raw, cap))| <= cap
    ensures SingleSpaced(CleanName(raw, cap)) && All(CleanName(raw, cap), Cleaners.NotSeparator)
  {
    var d := MapClass(raw, Cleaners.Separators, " ");
    SeparatorsBlanked(raw);
    SubCollapse(d, 0);
    assert d[0..] == d;
    StripCollapse(d);
    var ws := Words(d);
    WordsOfJoin(ws);
    assert Words(Strip(Sub([Plus(Space)], " ", d))) == ws;
    KeptNameWords(d, Cleaners.Min(cap, |ws|));
  }

  /** The separator substitution blanks each separator, leaving none. */
  lemma SeparatorsBlanked(raw: string)
    ensures Sub([One(Cleaners.Separators)], " ", raw) == MapClass(raw, Cleaners.Separators, " ")
    ensures All(MapClass(raw, Cleaners.Separators, " "), Cleaners.NotSeparator)
  {
    SubOne(Cleaners.Separators, " ", raw, 0);
    assert raw[0..] == raw;
    Cleaners.CleanSpace();
    MapClassAll(raw, Cleaners.Separators, " ", Cleaners.NotSeparator);
  }

  /** The first `n` words of a text without separators, joined, give those words back, single
      spaced and still without separators. */
  lemma KeptNameWords(d: string, n: nat)
    requires All(d, Cleaners.NotSeparator) && n <= |Words(d)|
    ensures var r := Join(Words(d)[..n]);
      Words(r) == Words(d)[..n] && SingleSpaced(r) && All(r, Cleaners.NotSeparator)
  {
    var ws := Words(d);
    var kept := ws[..n];
    WordsOfJoin(kept);
    JoinSingleSpaced(kept);
    WordsAll(d, Cleaners.NotSeparator);
    forall k | 0 <= k < |kept| ensures All(kept[k], Cleaners.NotSeparator) {
      assert kept[k] == ws[k];
    }
    Cleaners.CleanSpace();
    JoinAll(kept, Cleaners.NotSeparator);
  }

  /** `clean_voter_name`: at most four words. */
  function CleanVoterName(raw: string): (r: string)
    ensures var ws := Words(MapClass(raw, Cleaners.Separators, " ")); Words(r) == ws[..Cleaners.Min(4, |ws|)]
    ensures |Words(r)| <= 4 && SingleSpaced(r) && All(r, Cleaners.NotSeparator)
  {
    CleanNameSpec(raw, 4);
    CleanName(raw, 4)
  }

  /** `clean_relative_name`: at most three words. */
  function CleanRelativeName(raw: string): (r: string)
    ensures var ws := Words(MapClass(raw, Cleaners.Separators, " ")); Words(r) == ws[..Cleaners.Min(3, |ws|)]
    ensures |Words(r)| <= 3 && SingleSpaced(r) && All(r, Cleaners.NotSeparator)
  {
    CleanNameSpec(raw, 3);
    CleanName(raw, 3)
  }

  /** `normalize_digits` with the script's tables. */
  function Latin(t: string): (r: string)
    ensures |r| == |t|
    ensures forall i :: 0 <= i < |t| ==> (IsDigit(t[i]) <==> IsAsciiDigit(r[i]))
    ensures forall i :: 0 <= i < |t| && !IsDevanagariDigit(t[i]) ==> r[i] == t[i]
  {
    StandardNormalize(t);
    NormalizeDigits(DevDigits, EngDigits, t)
  }

  /** `re.search(r"[0-9]+", normalize_digits(t))` finds a run exactly when `t` has a digit, and
      the run it finds is the first run of Latin digits, which is not empty. */
  lemma DigitRun(t: string)
    ensures var n := Latin(t);
      (Search([Plus(AsciiDigit)], n).None? <==> forall i :: 0 <= i < |t| ==> !IsDigit(t[i])) &&
      (Search([Plus(AsciiDigit)], n).Some? ==>
        Group(n, Search([Plus(AsciiDigit)], n).value, 0) == RunOf(AsciiDigit, n) &&
        RunOf(AsciiDigit, n) != [] && All(RunOf(AsciiDigit, n), IsAsciiDigit))
  {
    var n := Latin(t);
    SearchRun(AsciiDigit, n);
    RunOfClass(AsciiDigit, n);
  }

  /** `clean_house`: "NA" when the text has no digit (an empty text included); otherwise the
      first run of Latin digits after translating Devanagari digits. */
  function CleanHouse(t: string): (r: string)
    ensures r == "NA" <==> forall i :: 0 <= i < |t| ==> !IsDigit(t[i])
    ensures r != "NA" ==> r == RunOf(AsciiDigit, Latin(t)) && r != [] && All(r, IsAsciiDigit)
  {
    if t == [] then "NA"
    else
      DigitRun(t);
      match Search([Plus(AsciiDigit)], Latin(t))
      case Some(f) => assert Group(Latin(t), f, 0)[0] != 'N'; Group(Latin(t), f, 0)
      case None => "NA"
  }

  /** `clean_age`: "" when the text has no digit; otherwise the first run of Latin digits after
      translating Devanagari digits. */
  function CleanAge(t: string): (r: string)
    ensures r == [] <==> forall i :: 0 <= i < |t| ==> !IsDigit(t[i])
    ensures r != [] ==> r == RunOf(AsciiDigit, Latin(t)) && All(r, IsAsciiDigit)
  {
    if t == [] then ""
    else
      DigitRun(t);
      match Search([Plus(AsciiDigit)], Latin(t))
      case Some(f) => Group(Latin(t), f, 0)
      case None => ""
  }

  // ---------------------------------------------------------------- normalize_marathi

  /** One entry of the correction table: the right spelling and the misreadings replaced by it,
      in order. */
  datatype Fix = Fix(correct: string, wrongs: seq<string>)

  /** The entries of the table, one per right spelling. */
  const VoterFix := Fix("मतदार", ["मतरार", "मतदर", "मतदाराचे", "मतदाराचे पूर्ण"])
  const PatiFix := Fix("पती", ["पति", "पंत", "पवी"])
  const VadilFix := Fix("वडिल", ["वडील", "वडिळ", "वडी"])
  const AaiFix := Fix("आई", ["अई", "अइ", "ऐ"])
  const HouseFix := Fix("घर क्रमांक", ["घर क्र", "घर न", "घर क्र.", "घर क्रम"])
  const AgeFix := Fix("वय", ["य", "वय:", "वम"])
  const GenderFix := Fix("लिंग", ["लिग", "लिं", "लखग"])

  /** The table, in the order the dictionary is written (Python dictionaries keep that order). */
  const MarathiFixes: seq<Fix> := [VoterFix, PatiFix, VadilFix, AaiFix, HouseFix, AgeFix, GenderFix]

  /** The five entries before the age entry. */
  const HeadFixes: seq<Fix> := [VoterFix, PatiFix, VadilFix, AaiFix, HouseFix]

  /** No misreading is empty (`str.replace` with an empty target would insert everywhere). */
  predicate ValidFixes(fixes: seq<Fix>) {
    forall i, j :: 0 <= i < |fixes| && 0 <= j < |fixes[i].wrongs| ==> fixes[i].wrongs[j] != []
  }

  lemma MarathiFixesValid()
    ensures ValidFixes(MarathiFixes)
  {
  }

  /** The inner loop: each misreading of one entry replaced in turn. */
  function ApplyWrongs(s: string, correct: string, wrongs: seq<string>): string
    requires forall j :: 0 <= j < |wrongs| ==> wrongs[j] != []
    decreases |wrongs|
  {
    if wrongs == [] then s else ApplyWrongs(Replace(s, wrongs[0], correct), correct, wrongs[1..])
  }

  /** The outer loop: the entries in order. */
  function ApplyFixes(s: string, fixes: seq<Fix>): string
    requires ValidFixes(fixes)
    decreases |fixes|
  {
    if fixes == [] then s
    else
      assert forall j :: 0 <= j < |fixes[0].wrongs| ==> fixes[0].wrongs[j] != [];
      ApplyFixes(ApplyWrongs(s, fixes[0].correct, fixes[0].wrongs), fixes[1..])
  }

  /** `normalize_marathi` over a correction table, as the fold its loops compute. */
  function Normalize(fixes: seq<Fix>, text: string): string
    requires ValidFixes(fixes)
  {
    if text == [] then "" else ApplyFixes(text, fixes)
  }

  /** A text with none of the misreadings is left as it is. */
  lemma {:induction false} WrongsAbsent(s: string, correct: string, wrongs: seq<string>)
    requires forall j :: 0 <= j < |wrongs| ==> wrongs[j] != [] && !Contains(s, wrongs[j])
    ensures ApplyWrongs(s, correct, wrongs) == s
    decreases |wrongs|
  {
    if wrongs != [] {
      ReplaceAbsent(s, wrongs[0], correct);
      WrongsAbsent(s, correct, wrongs[1..]);
    }
  }

  lemma {:induction false} FixesAbsent(s: string, fixes: seq<Fix>)
    requires ValidFixes(fixes)
    requires forall i, j :: 0 <= i < |fixes| && 0 <= j < |fixes[i].wrongs| ==> !Contains(s, fixes[i].wrongs[j])
    ensures ApplyFixes(s, fixes) == s
    decreases |fixes|
  {
    if fixes != [] {
      WrongsAbsent(s, fixes[0].correct, fixes[0].wrongs);
      FixesAbsent(s, fixes[1..]);
    }
  }

  /** A line that holds no misreading of the table comes out of `normalize_marathi` unchanged. */
  lemma NormalizeAbsent(fixes: seq<Fix>, text: string)
    requires ValidFixes(fixes)
    requires forall i, j :: 0 <= i < |fixes| && 0 <= j < |fixes[i].wrongs| ==>
      !Contains(text, fixes[i].wrongs[j])
    ensures Normalize(fixes, text) == text
  {
    if text != [] {
      FixesAbsent(text, fixes);
    }
  }

  /** The nested loops of `normalize_marathi`, reassigning `text` once per misreading. */
  method NormalizeMarathi(fixes: seq<Fix>, text: string) returns (r: string)
    requires ValidFixes(fixes)
    ensures r == Normalize(fixes, text)
  {
    if text == [] {
      return "";
    }
    r := text;
    var i := 0;
    while i < |fixes|
      invariant i <= |fixes|
      invariant ApplyFixes(r, fixes[i..]) == Normalize(fixes, text)
    {
      var correct, wrongs := fixes[i].correct, fixes[i].wrongs;
      assert forall j :: 0 <= j < |wrongs| ==> wrongs[j] != [];
      ghost var before := r;
      var j := 0;
      while j < |wrongs|
        invariant j <= |wrongs|
        invariant ApplyWrongs(r, correct, wrongs[j..]) == ApplyWrongs(before, correct, wrongs)
      {
        assert wrongs[j..][1..] == wrongs[j + 1..];
        r := Replace(r, wrongs[j], correct);
        j := j + 1;
      }
      assert wrongs[j..] == [];
      assert fixes[i..][1..] == fixes[i + 1..];
      i := i + 1;
    }
    assert fixes[i..] == [];
  }

  /** The first five entries leave a run of व closed by य alone. */
  lemma Untouched(s: string)
    requires s == "वय" || s == "ववय"
    ensures ApplyWrongs(s, VoterFix.correct, VoterFix.wrongs) == s
    ensures ApplyWrongs(s, PatiFix.correct, PatiFix.wrongs) == s
    ensures ApplyWrongs(s, VadilFix.correct, VadilFix.wrongs) == s
    ensures ApplyWrongs(s, AaiFix.correct, AaiFix.wrongs) == s
    ensures ApplyWrongs(s, HouseFix.correct, HouseFix.wrongs) == s
  {
    LongWrongs(s, VoterFix.correct, VoterFix.wrongs);
    LongWrongs(s, HouseFix.correct, HouseFix.wrongs);
    PatiUntouched(s);
    VadilUntouched(s);
    AaiUntouched(s);
  }

  /** Misreadings longer than the text cannot occur in it. */
  lemma {:induction false} LongWrongs(s: string, correct: string, wrongs: seq<string>)
    requires forall j :: 0 <= j < |wrongs| ==> |wrongs[j]| > |s|
    ensures forall j :: 0 <= j < |wrongs| ==> wrongs[j] != []
    ensures ApplyWrongs(s, correct, wrongs) == s
    decreases |wrongs|
  {
    if wrongs != [] {
      LongWrongs(s, correct, wrongs[1..]);
    }
  }

  lemma PatiUntouched(s: string)
    requires s == "वय" || s == "ववय"
    ensures ApplyWrongs(s, PatiFix.correct, PatiFix.wrongs) == s
  {
    assert "ववय"[1..] == "वय" && "वय"[1..] == "य";
    assert "ववय"[..3][0] == 'व' != 'प' == "पति"[0] == "पंत"[0] == "पवी"[0];
    assert Replace("वय", "पति", "पती") == "वय" && Replace("ववय", "पति", "पती") == "ववय";
    assert Replace("वय", "पंत", "पती") == "वय" && Replace("ववय", "पंत", "पती") == "ववय";
    assert Replace("वय", "पवी", "पती") == "वय" && Replace("ववय", "पवी", "पती") == "ववय";
  }

  lemma VadilUntouched(s: string)
    requires s == "वय" || s == "ववय"
    ensures ApplyWrongs(s, VadilFix.correct, VadilFix.wrongs) == s
  {
    assert "ववय"[1..] == "वय" && "वय"[1..] == "य";
    assert "ववय"[..3][1] == 'व' != 'ड' == "वडी"[1];
    assert Replace("वय", "वडी", "वडिल") == "वय";
    assert Replace("ववय", "वडी", "वडिल") == "ववय";
  }

  lemma AaiUntouched(s: string)
    requires s == "वय" || s == "ववय"
    ensures ApplyWrongs(s, AaiFix.correct, AaiFix.wrongs) == s
  {
    assert "ववय"[1..] == "वय" && "वय"[1..] == "य";
    assert Replace("य", "ऐ", "आई") == "य";
    assert Replace("वय", "ऐ", "आई") == "वय";
    assert Replace("ववय", "ऐ", "आई") == "ववय";
  }

  /** The age entry's first misreading is the bare letter य, so each pass puts one more व
      in front of it. */
  lemma YaGrows(s: string)
    requires s == "वय" || s == "ववय"
    ensures ApplyWrongs(s, AgeFix.correct, AgeFix.wrongs) == "व" + s
  {
    assert "वववय"[1..] == "ववय" && "ववय"[1..] == "वय" && "वय"[1..] == "य";
    assert Replace("य", "य", "वय") == "वय";
    assert Replace("वय", "य", "वय") == "ववय";
    assert Replace("ववय", "य", "वय") == "वववय";
    assert Replace("वय", "वय:", "वय") == "वय";
    assert Replace("ववय", "वय:", "वय") == "ववय";
    assert Replace("वववय", "वय:", "वय") == "वववय";
    assert Replace("य", "वम", "वय") == "य";
    assert Replace("वय", "वम", "वय") == "वय";
    assert Replace("ववय", "वम", "वय") == "ववय";
    assert Replace("वववय", "वम", "वय") == "वववय";
  }

  /** The gender entry leaves such a run alone too. */
  lemma GenderUntouched(s: string)
    requires s == "ववय" || s == "वववय"
    ensures ApplyWrongs(s, GenderFix.correct, GenderFix.wrongs) == s
  {
    assert "वववय"[1..] == "ववय" && "ववय"[1..] == "वय" && "वय"[1..] == "य";
    assert Replace("ववय", "लिग", "लिंग") == "ववय";
    assert Replace("वववय", "लिग", "लिंग") == "वववय";
    assert Replace("ववय", "लिं", "लिंग") == "ववय";
    assert Replace("वववय", "लिं", "लिंग") == "वववय";
    assert Replace("ववय", "लखग", "लिंग") == "ववय";
    assert Replace("वववय", "लखग", "लिंग") == "वववय";
  }

  /** The passes over `a + b` are those over `a`, then those over `b`. */
  lemma {:induction false} ApplyFixesAppend(s: string, a: seq<Fix>, b: seq<Fix>)
    requires ValidFixes(a) && ValidFixes(b)
    ensures ValidFixes(a + b)
    ensures ApplyFixes(s, a + b) == ApplyFixes(ApplyFixes(s, a), b)
    decreases |a|
  {
    if a == [] {
      assert a + b == b;
    } else {
      assert (a + b)[0] == a[0] && (a + b)[1..] == a[1..] + b;
      assert forall j :: 0 <= j < |a[0].wrongs| ==> a[0].wrongs[j] != [];
      ApplyFixesAppend(ApplyWrongs(s, a[0].correct, a[0].wrongs), a[1..], b);
    }
  }

  /** Entries that each leave `s` alone leave it alone together. */
  lemma {:induction false} ApplyFixesFixed(s: string, fixes: seq<Fix>)
    requires ValidFixes(fixes)
    requires forall i :: 0 <= i < |fixes| ==> ApplyWrongs(s, fixes[i].correct, fixes[i].wrongs) == s
    ensures ApplyFixes(s, fixes) == s
    decreases |fixes|
  {
    if fixes != [] {
      assert forall j :: 0 <= j < |fixes[0].wrongs| ==> fixes[0].wrongs[j] != [];
      assert forall i :: 0 <= i < |fixes| - 1 ==> fixes[1..][i] == fixes[i + 1];
      ApplyFixesFixed(s, fixes[1..]);
    }
  }

  /** The five entries before the age entry, as one step. */
  lemma HeadFixed(s: string)
    requires s == "वय" || s == "ववय"
    ensures ValidFixes(HeadFixes)
    ensures ApplyFixes(s, HeadFixes) == s
  {
    Untouched(s);
    ApplyFixesFixed(s, HeadFixes);
  }

  /** The age entry, as one step. */
  lemma AgeStep(s: string)
    requires s == "वय" || s == "ववय"
    ensures ValidFixes([AgeFix])
    ensures ApplyFixes(s, [AgeFix]) == "व" + s
  {
    YaGrows(s);
    var f := [AgeFix];
    assert f[1..] == [];
  }

  /** The gender entry, as one step. */
  lemma GenderStep(s: string)
    requires s == "ववय" || s == "वववय"
    ensures ValidFixes([GenderFix])
    ensures ApplyFixes(s, [GenderFix]) == s
  {
    GenderUntouched(s);
    ApplyFixesFixed(s, [GenderFix]);
  }

  /** `normalize_marathi` on the age label "वय" puts a व in front of it, and does again on
      its own output: the pass is not idempotent. */
  lemma NormalizeGrows(s: string)
    requires s == "वय" || s == "ववय"
    ensures ValidFixes(MarathiFixes)
    ensures Normalize(MarathiFixes, s) == "व" + s
  {
    MarathiFixesValid();
    var head, age, gender := HeadFixes, [AgeFix], [GenderFix];
    assert MarathiFixes == head + age + gender;
    HeadFixed(s);
    AgeStep(s);
    GenderStep("व" + s);
    ApplyFixesAppend(s, head, age);
    ApplyFixesAppend(s, head + age, gender);
  }

  /** Normalising twice is not normalising once: the age label "वय" becomes "ववय", then
      "वववय". */
  lemma NormalizeNotIdempotent(w: string)
    requires w == "वय"
    ensures ValidFixes(MarathiFixes)
    ensures Normalize(MarathiFixes, w) == "व" + w
    ensures Normalize(MarathiFixes, Normalize(MarathiFixes, w)) == "वव" + w
  {
    NormalizeGrows(w);
    NormalizeGrows("व" + w);
    assert "व" + ("व" + w) == "वव" + w;
  }

  // ---------------------------------------------------------------- extract_after_keyword

  predicate SpaceOrColon(c: char) {
    c == ' ' || c == ':'
  }

  predicate NonEmptyKeys(keys: seq<string>) {
    forall j :: 0 <= j < |keys| ==> keys[j] != []
  }

  /** A table of keywords, none of them empty. */
  type KeyList = keys: seq<string> | NonEmptyKeys(keys)

  /** The first of `keys` that occurs in `n`. */
  function FirstKey(n: string, keys: seq<string>): (r: Option<nat>)
    ensures r.Some? ==> r.value < |keys| && Contains(n, keys[r.value])
    ensures r.Some? ==> forall j :: 0 <= j < r.value ==> !Contains(n, keys[j])
    ensures r.None? ==> forall j :: 0 <= j < |keys| ==> !Contains(n, keys[j])
  {
    if keys == [] then None
    else if Contains(n, keys[0]) then Some(0)
    else match FirstKey(n, keys[1..])
      case None => None
      case Some(j) => Some(j + 1)
  }

  /** `n.split(k)[-1].strip(" :")`: the whole line when it lacks the key, otherwise the text
      after an occurrence of the key that has no occurrence after it; in both cases with the
      ' ' and ':' at either end removed and nothing else. As with `LastPiece`, the contract
      names one piece only for keys that do not overlap themselves, which none of the keyword
      tables holds. */
  function Tail(n: string, k: string): (r: string)
    requires k != []
    ensures r == [] || (!SpaceOrColon(r[0]) && !SpaceOrColon(r[|r| - 1]))
    ensures !Contains(n, k) ==> exists a :: MiddleAt(n, r, a, SpaceOrColon)
    ensures Contains(n, k) ==> exists p :: TailFrom(n, k, p, r)
  {
    var piece := LastPiece(n, k);
    var p := |n| - |piece|;
    var r := StripWhere(piece, SpaceOrColon);
    StripWhereSlice(piece, SpaceOrColon);
    assert piece == n[p..];
    assert Contains(n, k) ==> TailFrom(n, k, p, r);
    r
  }

  /** `r` is the text after the key ending at `p`, with no later key, stripped of ' ' and ':'. */
  ghost predicate TailFrom(n: string, k: string, p: nat, r: string) {
    |k| <= p <= |n| && OccursAt(n, k, p - |k|) && !Contains(n[p..], k) &&
    exists a :: MiddleAt(n[p..], r, a, SpaceOrColon)
  }

  /** The scan of `extract_after_keyword` over lines already normalised: the first line that
      holds one of the keys, the first such key in it, and the stripped text after that key's
      last occurrence; "" when no line holds a key. */
  function KeywordTail(ns: seq<string>, keys: seq<string>): (r: string)
    requires NonEmptyKeys(keys)
    ensures r == [] || (!SpaceOrColon(r[0]) && !SpaceOrColon(r[|r| - 1]))
  {
    if ns == [] then ""
    else
      match FirstKey(ns[0], keys)
      case Some(j) => Tail(ns[0], keys[j])
      case None => KeywordTail(ns[1..], keys)
  }

  /** Each line through `normalize_marathi`. */
  function NormalizedLines(fixes: seq<Fix>, lines: seq<string>): (ns: seq<string>)
    requires ValidFixes(fixes)
    ensures |ns| == |lines| && forall i :: 0 <= i < |lines| ==> ns[i] == Normalize(fixes, lines[i])
  {
    seq(|lines|, i requires 0 <= i < |lines| => Normalize(fixes, lines[i]))
  }

  /** `extract_after_keyword` */
  function AfterKeyword(fixes: seq<Fix>, lines: seq<string>, keys: seq<string>): string
    requires ValidFixes(fixes) && NonEmptyKeys(keys)
  {
    KeywordTail(NormalizedLines(fixes, lines), keys)
  }

  /** With no key in any line the result is "". */
  lemma {:induction false} KeywordTailNone(ns: seq<string>, keys: seq<string>)
    requires NonEmptyKeys(keys)
    requires forall i :: 0 <= i < |ns| ==> FirstKey(ns[i], keys).None?
    ensures KeywordTail(ns, keys) == ""
  {
    if ns != [] {
      assert forall i :: 1 <= i < |ns| ==> ns[1..][i - 1] == ns[i];
      KeywordTailNone(ns[1..], keys);
    }
  }

  /** Otherwise the first line with a key decides, and within it the first key. */
  lemma {:induction false} KeywordTailFirst(ns: seq<string>, keys: seq<string>, i: nat)
    requires NonEmptyKeys(keys) && i < |ns|
    requires FirstKey(ns[i], keys).Some?
    requires forall i' :: 0 <= i' < i ==> FirstKey(ns[i'], keys).None?
    ensures KeywordTail(ns, keys) == Tail(ns[i], keys[FirstKey(ns[i], keys).value])
  {
    if i > 0 {
      assert FirstKey(ns[0], keys).None?;
      assert KeywordTail(ns, keys) == KeywordTail(ns[1..], keys);
      assert forall i' :: 0 <= i' < i - 1 ==> ns[1..][i'] == ns[i' + 1];
      assert ns[1..][i - 1] == ns[i];
      KeywordTailFirst(ns[1..], keys, i - 1);
    } else {
      match FirstKey(ns[0], keys)
      case Some(j) =>
        assert KeywordTail(ns, keys) == Tail(ns[0], keys[j]);
    }
  }

  /** A line holding a key with nothing after it yields "", like a line without the key:
      the house label घर followed by a colon, which no entry of the correction table
      touches. */
  lemma KeyWithoutValue()
    ensures Normalize(MarathiFixes, "घर:") == "घर:"
    ensures Contains("घर:", HouseKeys[2])
    ensures AfterKeyword(MarathiFixes, ["घर:"], HouseKeys) == ""
  {
    var n := "घर:";
    var k := HouseKeys[2];
    assert n == k + ":";
    HouseLabelUntouched();
    KeyPrefixOccurs(n, k);
    TooLong(n, HouseKeys[0]);
    TooLong(n, HouseKeys[1]);
    FirstKeyIs(n, HouseKeys, 2);
    BareKeyTail(n, k);
    MarathiFixesValid();
    FixedLine(MarathiFixes, n);
  }

  /** A line the table leaves alone is the whole of its normalised lines. */
  lemma FixedLine(fixes: seq<Fix>, n: string)
    requires ValidFixes(fixes) && Normalize(fixes, n) == n
    ensures NormalizedLines(fixes, [n]) == [n]
  {
  }

  /** A word whose first letter the text lacks does not occur in it. */
  lemma Absent(s: string, w: string)
    requires w != [] && forall i :: 0 <= i < |s| ==> s[i] != w[0]
    ensures !Contains(s, w)
  {
    forall i | 0 <= i <= |s| && i + |w| <= |s|
      ensures !OccursAt(s, w, i)
    {
      assert s[i..i + |w|][0] == s[i];
    }
  }

  /** Nor does a word longer than the text. */
  lemma TooLong(s: string, w: string)
    requires |w| > |s|
    ensures !Contains(s, w)
  {
  }

  /** None of the misreadings occurs in "घर:". */
  lemma HouseLabelUntouched()
    ensures Normalize(MarathiFixes, "घर:") == "घर:"
  {
    var n := "घर:";
    forall i, j | 0 <= i < |MarathiFixes| && 0 <= j < |MarathiFixes[i].wrongs|
      ensures !Contains(n, MarathiFixes[i].wrongs[j])
    {
      var w := MarathiFixes[i].wrongs[j];
      if |w| > |n| {
        TooLong(n, w);
      } else {
        Absent(n, w);
      }
    }
    NormalizeAbsent(MarathiFixes, n);
  }

  lemma KeyPrefixOccurs(n: string, k: string)
    requires n == k + ":"
    ensures Contains(n, k)
  {
    assert n[..|k|] == k;
    assert OccursAt(n, k, 0);
  }

  /** A key of two or more characters followed only by a colon leaves nothing after it. */
  lemma BareKeyTail(n: string, k: string)
    requires |k| >= 2 && n == k + ":"
    ensures Tail(n, k) == ""
  {
    assert n[..|k|] == k && n[|k|..] == ":";
    assert OccursAt(n, k, 0);
    assert Find(n, k, 0) == Some(0);
    var rest := n[|k|..];
    assert Find(rest, k, 0) == None;
    assert LastPiece(n, k) == rest;
    assert StripWhere(rest, SpaceOrColon) == "";
  }

  /** The loop over the lines and, inside it, over the keys, returning on the first hit. */
  method ExtractAfterKeyword(fixes: seq<Fix>, lines: seq<string>, keys: seq<string>) returns (r: string)
    requires ValidFixes(fixes) && NonEmptyKeys(keys)
    ensures r == AfterKeyword(fixes, lines, keys)
  {
    ghost var ns := NormalizedLines(fixes, lines);
    var i := 0;
    while i < |lines|
      invariant i <= |lines|
      invariant KeywordTail(ns[i..], keys) == KeywordTail(ns, keys)
    {
      var n := NormalizeMarathi(fixes, lines[i]);
      assert n == ns[i..][0];
      var j := 0;
      while j < |keys|
        invariant j <= |keys|
        invariant forall j' :: 0 <= j' < j ==> !Contains(n, keys[j'])
      {
        if Contains(n, keys[j]) {
          FirstKeyIs(n, keys, j);
          assert KeywordTail(ns[i..], keys) == Tail(n, keys[j]);
          return Tail(n, keys[j]);
        }
        j := j + 1;
      }
      assert FirstKey(n, keys).None?;
      assert KeywordTail(ns[i..], keys) == KeywordTail(ns[i..][1..], keys);
      assert ns[i..][1..] == ns[i + 1..];
      i := i + 1;
    }
    return "";
  }

  lemma FirstKeyIs(n: string, keys: seq<string>, j: nat)
    requires j < |keys| && Contains(n, keys[j]) && forall j' :: 0 <= j' < j ==> !Contains(n, keys[j'])
    ensures FirstKey(n, keys) == Some(j)
  {
  }

  // ---------------------------------------------------------------- parse_card

  /** The record the bulk `parse_card` fills. */
  datatype Record = Record(
    cardId: string,
    regNo: string,
    voterName: string,
    relationName: string,
    house: string,
    age: string,
    genderFull: string)

  const Blank: Record := Record("", "", "", "", "NA", "", "")

  const VoterKeys: KeyList := ["मतदाराचे पूर्ण", "मतदाराचे", "नाव"]
  const RelationKeys: KeyList := ["पतीचे नाव", "वडिलांचे नाव", "आईचे नाव", "तीचे नाव", "पालक"]
  const HouseKeys: KeyList := ["घर क्रमांक", "घर क्र", "घर"]
  const AgeKeys: KeyList := ["वय"]
  const GenderKeys: KeyList := ["लिंग"]

  const Masculine: string := "पुरुष"
  const Feminine: string := "महिला"

  /** A text holding a word holds each prefix of it. */
  lemma ContainsPrefix(g: string, w: string, p: string)
    requires |p| <= |w| && w[..|p|] == p && Contains(g, w)
    ensures Contains(g, p)
  {
    var i :| 0 <= i <= |g| && OccursAt(g, w, i);
    assert g[i..i + |p|] == g[i..i + |w|][..|p|];
    assert OccursAt(g, p, i);
  }

  lemma MasculineMarker(g: string)
    ensures Contains(g, "पुरुष") ==> Contains(g, "पु")
  {
    if Contains(g, "पुरुष") {
      ContainsPrefix(g, "पुरुष", "पु");
    }
  }

  /** `"पुरुष" if "पु" in g or "पुरुष" in g else "महिला"`: masculine exactly when the gender text
      holds पु, feminine otherwise. */
  function GenderFull(g: string): (r: string)
    ensures r == Masculine <==> Contains(g, "पु")
    ensures r == Masculine || r == Feminine
  {
    MasculineMarker(g);
    if Contains(g, "पु") || Contains(g, "पुरुष") then Masculine else Feminine
  }

  /** The lines `parse_card` hands to the keyword scans: stripped, non-blank, normalised. */
  function CardLines(text: string): seq<string> {
    MarathiFixesValid();
    NormalizedLines(MarathiFixes, CardParser.Lines(text))
  }

  /** A field: the text after the first key found, under `normalize_marathi` once more. */
  function Field(lines: seq<string>, keys: seq<string>): string
    requires NonEmptyKeys(keys)
  {
    MarathiFixesValid();
    AfterKeyword(MarathiFixes, lines, keys)
  }

  /** The lines each keyword scan of `parse_card` reads: the card lines, normalised again. */
  function FieldLines(text: string): (ns: seq<string>)
    ensures |ns| == |CardLines(text)|
  {
    MarathiFixesValid();
    NormalizedLines(MarathiFixes, CardLines(text))
  }

  /** `parse_card` */
  function Parse(text: string): (c: Record)
    ensures text == [] ==> c == Blank
    ensures text != [] ==> c.cardId == ExtractCardId(text) && c.regNo == ExtractRegNo(text)
    ensures text != [] ==> c.voterName == CleanVoterName(Field(CardLines(text), VoterKeys))
    ensures text != [] ==> c.relationName == CleanRelativeName(Field(CardLines(text), RelationKeys))
    ensures text != [] ==> c.house == CleanHouse(Field(CardLines(text), HouseKeys))
    ensures text != [] ==> c.age == CleanAge(Field(CardLines(text), AgeKeys))
    ensures text != [] ==> (c.genderFull == Masculine || c.genderFull == Feminine)
    ensures text != [] ==>
      (c.genderFull == Masculine <==> Contains(Field(CardLines(text), GenderKeys), "पु"))
    ensures c.cardId == [] || CardIdLike(c.cardId)
    ensures c.regNo == [] || RegNoLike(c.regNo)
    ensures |Words(c.voterName)| <= 4 && SingleSpaced(c.voterName)
    ensures |Words(c.relationName)| <= 3 && SingleSpaced(c.relationName)
    ensures c.house == "NA" || (c.house != [] && All(c.house, IsAsciiDigit))
    ensures c.age == [] || All(c.age, IsAsciiDigit)
  {
    if text == [] then Blank
    else
      var lines := CardLines(text);
      Record(ExtractCardId(text), ExtractRegNo(text),
             CleanVoterName(Field(lines, VoterKeys)), CleanRelativeName(Field(lines, RelationKeys)),
             CleanHouse(Field(lines, HouseKeys)), CleanAge(Field(lines, AgeKeys)),
             GenderFull(Field(lines, GenderKeys)))
  }

  /** A field is read from the first of the field lines holding one of its keys, after the
      first of its keys found in that line. */
  lemma FieldFirst(text: string, keys: seq<string>, i: nat)
    requires NonEmptyKeys(keys) && i < |FieldLines(text)|
    requires FirstKey(FieldLines(text)[i], keys).Some?
    requires forall i' :: 0 <= i' < i ==> FirstKey(FieldLines(text)[i'], keys).None?
    ensures Field(CardLines(text), keys) ==
      Tail(FieldLines(text)[i], keys[FirstKey(FieldLines(text)[i], keys).value])
  {
    KeywordTailFirst(FieldLines(text), keys, i);
  }

  /** A field none of whose keys is on the card is "". */
  lemma FieldNone(text: string, keys: seq<string>)
    requires NonEmptyKeys(keys)
    requires forall i :: 0 <= i < |FieldLines(text)| ==> FirstKey(FieldLines(text)[i], keys).None?
    ensures Field(CardLines(text), keys) == ""
  {
    KeywordTailNone(FieldLines(text), keys);
  }

  /** The house number is the first ASCII digit run after the first house key on the first
      line holding one, and "NA" when that text holds no digit. */
  lemma ParseHouseFirst(text: string, i: nat)
    requires text != [] && i < |FieldLines(text)|
    requires FirstKey(FieldLines(text)[i], HouseKeys).Some?
    requires forall i' :: 0 <= i' < i ==> FirstKey(FieldLines(text)[i'], HouseKeys).None?
    ensures Parse(text).house ==
      CleanHouse(Tail(FieldLines(text)[i], HouseKeys[FirstKey(FieldLines(text)[i], HouseKeys).value]))
  {
    FieldFirst(text, HouseKeys, i);
  }

  /** The age likewise, after the age key, and "" when that text holds no digit. */
  lemma ParseAgeFirst(text: string, i: nat)
    requires text != [] && i < |FieldLines(text)|
    requires FirstKey(FieldLines(text)[i], AgeKeys).Some?
    requires forall i' :: 0 <= i' < i ==> FirstKey(FieldLines(text)[i'], AgeKeys).None?
    ensures Parse(text).age == CleanAge(Tail(FieldLines(text)[i], AgeKeys[0]))
  {
    FieldFirst(text, AgeKeys, i);
  }

  /** A card without any house key gets house "NA"; one without the age key gets age "". */
  lemma ParseFieldsMissing(text: string)
    requires text != []
    ensures (forall i :: 0 <= i < |FieldLines(text)| ==> FirstKey(FieldLines(text)[i], HouseKeys).None?)
      ==> Parse(text).house == "NA"
    ensures (forall i :: 0 <= i < |FieldLines(text)| ==> FirstKey(FieldLines(text)[i], AgeKeys).None?)
      ==> Parse(text).age == ""
  {
    if forall i :: 0 <= i < |FieldLines(text)| ==> FirstKey(FieldLines(text)[i], HouseKeys).None? {
      FieldNone(text, HouseKeys);
    }
    if forall i :: 0 <= i < |FieldLines(text)| ==> FirstKey(FieldLines(text)[i], AgeKeys).None? {
      FieldNone(text, AgeKeys);
    }
  }

  /** `parse_card`, field by field, with the keyword scans as loops. */
  method ParseCard(text: string) returns (c: Record)
    ensures c == Parse(text)
  {
    if text == [] {
      return Blank;
    }
    MarathiFixesValid();
    var lines := CardLines(text);
    var nm := ExtractAfterKeyword(MarathiFixes, lines, VoterKeys);
    var rel := ExtractAfterKeyword(MarathiFixes, lines, RelationKeys);
    var house := ExtractAfterKeyword(MarathiFixes, lines, HouseKeys);
    var age := ExtractAfterKeyword(MarathiFixes, lines, AgeKeys);
    var g := ExtractAfterKeyword(MarathiFixes, lines, GenderKeys);
    c := Record(ExtractCardId(text), ExtractRegNo(text), CleanVoterName(nm), CleanRelativeName(rel),
                CleanHouse(house), CleanAge(age), GenderFull(g));
  }
}
