/** The field cleaners of the single-sheet scripts (`api.py` and `text-extract.py` carry identical
    copies): voter and relative names, house number, age and gender code. */
module Cleaners {
  import opened Text
  import opened Regex
  import opened Digits

  // ---------------------------------------------------------------- names

  /** `[|¦\\\/<>]`: separators OCR reads off the card's ruling, turned into spaces. */
  const Separators: Class := Chars("|¦\\/<>")

  /** `[=z&*]`: noise characters, deleted. */
  const Noise: Class := Chars("=z&*")

  /** `\s+[A-Za-z]{1,3}\s*`: a whitespace run, one to three Latin letters, more whitespace. */
  const LatinFragment: seq<Atom> := [Plus(Space), Rep(AsciiLetter, 1, Finite(3)), Star(Space)]

  /** Neither a separator nor a noise character. */
  predicate Clean(c: char) {
    !In(c, Separators) && !In(c, Noise)
  }

  predicate NotSeparator(c: char) {
    !In(c, Separators)
  }

  /** The first three substitutions of the name cleaners. */
  function Denoise(raw: string): string {
    var s1 := Sub([One(Separators)], " ", raw);
    var s2 := Sub(LatinFragment, " ", s1);
    Sub([One(Noise)], "", s2)
  }

  /** After denoising no separator and no noise character is left. */
  lemma DenoiseClean(raw: string)
    ensures All(Denoise(raw), Clean)
  {
    var s1 := Sub([One(Separators)], " ", raw);
    SubOne(Separators, " ", raw, 0);
    assert raw[0..] == raw;
    MapClassAll(raw, Separators, " ", NotSeparator);
    var s2 := Sub(LatinFragment, " ", s1);
    SubAll(LatinFragment, " ", s1, 0, NotSeparator);
    SubOne(Noise, "", s2, 0);
    assert s2[0..] == s2;
    MapClassAll(s2, Noise, "", Clean);
  }

  /** The shared body of `clean_voter_name` / `clean_relative_name`, with the word cap. */
  function CleanName(raw: string, cap: nat): string {
    var s := Strip(Sub([Plus(Space)], " ", Denoise(raw)));
    var parts := Words(s);
    if |parts| > cap then Join(parts[..cap]) else s
  }

  function Min(a: nat, b: nat): nat { if a < b then a else b }

  /** The first `cap` items, or all of them when there are fewer. */
  function Capped<T>(xs: seq<T>, cap: nat): seq<T> {
    xs[..Min(cap, |xs|)]
  }

  /** Collapsing, stripping and capping a clean text keeps the first `cap` words, single-spaced. */
  lemma CapWords(d: string, cap: nat, s: string, r: string)
    requires All(d, Clean)
    requires s == Strip(Collapse(d))
    requires r == if |Words(s)| > cap then Join(Words(s)[..cap]) else s
    ensures var ws := Words(d);
      Words(r) == ws[..Min(cap, |ws|)] && |Words(r)| <= cap && SingleSpaced(r) && All(r, Clean)
  {
    var ws := Words(d);
    StripCollapse(d);
    WordsOfJoin(ws);
    var n := Min(cap, |ws|);
    assert r == Join(ws[..n]) by {
      if |ws| <= cap { assert ws[..n] == ws; }
    }
    KeptWords(d, n);
  }

  lemma KeptWords(d: string, n: nat)
    requires All(d, Clean) && n <= |Words(d)|
    ensures var r := Join(Words(d)[..n]);
      Words(r) == Words(d)[..n] && SingleSpaced(r) && All(r, Clean)
  {
    WordsOfJoin(Words(d)[..n]);
    JoinSingleSpaced(Words(d)[..n]);
    PrefixWordsClean(d, n);
  }

  lemma CleanSpace()
    ensures Clean(' ')
  {
    assert ' ' !in "|¦\\/<>";
    assert ' ' !in "=z&*";
  }

  /** The first `n` words of a clean text, joined, are clean. */
  lemma PrefixWordsClean(d: string, n: nat)
    requires All(d, Clean) && n <= |Words(d)|
    ensures All(Join(Words(d)[..n]), Clean)
  {
    var ws := Words(d);
    WordsAll(d, Clean);
    var kept := ws[..n];
    forall k | 0 <= k < |kept| ensures All(kept[k], Clean) {
      assert kept[k] == ws[k];
    }
    CleanSpace();
    JoinAll(kept, Clean);
  }

  /** A cleaned name is the first `cap` words of the denoised text joined by single spaces. */
  lemma CleanNameSpec(raw: string, cap: nat)
    ensures var r := CleanName(raw, cap); var ws := Words(Denoise(raw));
      Words(r) == ws[..Min(cap, |ws|)] && |Words(r)| <= cap && SingleSpaced(r) && All(r, Clean)
  {
    var d := Denoise(raw);
    SubCollapse(d, 0);
    assert d[0..] == d;
    DenoiseClean(raw);
    var s := Strip(Sub([Plus(Space)], " ", d));
    CapWords(d, cap, s, CleanName(raw, cap));
  }

  /** `clean_voter_name`: at most four words. */
  function CleanVoterName(raw: string): (r: string)
    ensures var ws := Words(Denoise(raw)); Words(r) == ws[..Min(4, |ws|)]
    ensures |Words(r)| <= 4 && SingleSpaced(r) && All(r, Clean)
  {
    CleanNameSpec(raw, 4);
    CleanName(raw, 4)
  }

  /** `clean_relative_name`: at most three words. */
  function CleanRelativeName(raw: string): (r: string)
    ensures var ws := Words(Denoise(raw)); Words(r) == ws[..Min(3, |ws|)]
    ensures |Words(r)| <= 3 && SingleSpaced(r) && All(r, Clean)
  {
    CleanNameSpec(raw, 3);
    CleanName(raw, 3)
  }

  // ---------------------------------------------------------------- house number

  /** `[\d०-९NAna/]`: what `clean_house` keeps. */
  const HouseChars: Class := Union(Digit, Chars("NAna/"))

  predicate IsHouseChar(c: char) {
    In(c, HouseChars)
  }

  /** `clean_house` */
  function CleanHouse(text: string): string {
    HouseDigits(Strip(Replace(Sub([One(Not(HouseChars))], "", text), "NA", "NA")))
  }

  /** The last two steps of `clean_house`: "NA" for an empty or "NA" text, else the first digit run. */
  function HouseDigits(t: string): string {
    if t == [] || t == "NA" then "NA"
    else
      match Search([Plus(Digit)], t)
      case Some(f) => Group(t, f, 0)
      case None => "NA"
  }

  lemma {:induction false} DropIsFilter(s: string)
    ensures MapClass(s, Not(HouseChars), "") == Filter(s, IsHouseChar)
  {
    if s != [] {
      DropIsFilter(s[1..]);
    }
  }

  lemma {:induction false} FilterKeepsDigit(s: string, i: nat)
    requires i < |s| && IsDigit(s[i])
    ensures exists x :: 0 <= x < |Filter(s, IsHouseChar)| && IsDigit(Filter(s, IsHouseChar)[x])
  {
    if i == 0 {
      assert IsHouseChar(s[0]);
      assert Filter(s, IsHouseChar)[0] == s[0];
    } else {
      FilterKeepsDigit(s[1..], i - 1);
      var t := Filter(s[1..], IsHouseChar);
      var x :| 0 <= x < |t| && IsDigit(t[x]);
      var pre := if IsHouseChar(s[0]) then [s[0]] else [];
      assert Filter(s, IsHouseChar)[|pre| + x] == t[x];
    }
  }

  lemma FilterNoDigit(s: string)
    requires forall i :: 0 <= i < |s| ==> !IsDigit(s[i])
    ensures forall x :: 0 <= x < |Filter(s, IsHouseChar)| ==> !IsDigit(Filter(s, IsHouseChar)[x])
    decreases |s|
  {
    if s != [] {
      FilterNoDigit(s[1..]);
    }
  }

  /** `clean_house` gives "NA" exactly when the text has no digit; otherwise the first digit run
      of the text with everything but digits, N, A, n, a and '/' deleted. Devanagari digits are
      kept as they are (५५ stays ५५). */
  lemma CleanHouseSpec(text: string)
    ensures CleanHouse(text) == "NA" <==> forall i :: 0 <= i < |text| ==> !IsDigit(text[i])
    ensures CleanHouse(text) != "NA" ==>
      CleanHouse(text) == RunOf(Digit, Filter(text, IsHouseChar)) &&
      CleanHouse(text) != [] && All(CleanHouse(text), IsDigit)
  {
    var f := Filter(text, IsHouseChar);
    HouseFiltered(text);
    assert CleanHouse(text) == HouseDigits(f);
    if i :| 0 <= i < |text| && IsDigit(text[i]) {
      FilterKeepsDigit(text, i);
      HouseWithDigit(f);
    } else {
      FilterNoDigit(text);
      HouseWithoutDigit(f);
    }
  }

  /** The first three steps of `clean_house` are a filter: `replace('NA', 'NA')` changes
      nothing and nothing kept is whitespace. */
  lemma HouseFiltered(text: string)
    ensures Strip(Replace(Sub([One(Not(HouseChars))], "", text), "NA", "NA")) == Filter(text, IsHouseChar)
  {
    var f := Filter(text, IsHouseChar);
    SubOne(Not(HouseChars), "", text, 0);
    assert text[0..] == text;
    DropIsFilter(text);
    ReplaceSame(f, "NA");
    forall x | 0 <= x < |f| ensures !IsSpace(f[x]) {
      HouseCharNotSpace(f[x]);
    }
    StripWhereNoop(f, IsSpace);
  }

  lemma HouseCharNotSpace(c: char)
    requires IsHouseChar(c)
    ensures !IsSpace(c)
  {
    if c in "NAna/" {
      assert c == 'N' || c == 'A' || c == 'n' || c == 'a' || c == '/';
    }
  }

  lemma NoDigitInNA()
    ensures forall y :: 0 <= y < |"NA"| ==> !IsDigit("NA"[y]) && !In("NA"[y], Digit)
  {
  }

  /** With a digit present the house number is the first digit run, which is not "NA". */
  lemma HouseWithDigit(f: string)
    requires exists x :: 0 <= x < |f| && IsDigit(f[x])
    ensures HouseDigits(f) == RunOf(Digit, f) && HouseDigits(f) != "NA"
    ensures HouseDigits(f) != [] && All(HouseDigits(f), IsDigit)
  {
    var x :| 0 <= x < |f| && IsDigit(f[x]);
    NoDigitInNA();
    assert f != [] && f != "NA";
    DigitRunFound(f, x);
    var run := RunOf(Digit, f);
    assert run != "NA" by {
      assert In(run[0], Digit);
    }
  }

  /** A digit at `x` makes the digit search succeed, its group being the first digit run. */
  lemma DigitRunFound(f: string, x: nat)
    requires x < |f| && IsDigit(f[x])
    ensures RunOf(Digit, f) != [] && All(RunOf(Digit, f), IsDigit)
    ensures Search([Plus(Digit)], f).Some?
    ensures Group(f, Search([Plus(Digit)], f).value, 0) == RunOf(Digit, f)
  {
    SearchRun(Digit, f);
    RunOfClass(Digit, f);
    assert In(f[x], Digit);
  }

  lemma HouseWithoutDigit(f: string)
    requires forall x :: 0 <= x < |f| ==> !IsDigit(f[x])
    ensures HouseDigits(f) == "NA"
  {
    SearchRun(Digit, f);
    RunOfClass(Digit, f);
  }

  // ---------------------------------------------------------------- age

  /** `clean_age` */
  function CleanAge(text: string): string {
    match Search([Plus(Digit)], text)
    case None => ""
    case Some(f) => NormalizeDigits(DevDigits, EngDigits, Group(text, f, 0))
  }

  /** `clean_age` gives "" exactly when the text has no digit; otherwise the first digit run,
      of the same length, with each Devanagari digit replaced by the Latin digit of equal value. */
  lemma CleanAgeSpec(text: string)
    ensures CleanAge(text) == "" <==> forall i :: 0 <= i < |text| ==> !IsDigit(text[i])
    ensures var run := RunOf(Digit, text); var r := CleanAge(text);
      |r| == |run| && All(r, IsAsciiDigit) &&
      (forall i :: 0 <= i < |run| && IsDevanagariDigit(run[i]) ==>
        r[i] == ('0' as int + (run[i] as int - 0x966)) as char) &&
      (forall i :: 0 <= i < |run| && !IsDevanagariDigit(run[i]) ==> r[i] == run[i])
  {
    var run := RunOf(Digit, text);
    SearchRun(Digit, text);
    RunOfClass(Digit, text);
    StandardNormalize(run);
    var r := NormalizeDigits(DevDigits, EngDigits, run);
    forall i | 0 <= i < |run| && IsDevanagariDigit(run[i])
      ensures r[i] == ('0' as int + (run[i] as int - 0x966)) as char
    {
      NormalizeDigitsAt(DevDigits, EngDigits, run, i);
      StandardDigitValue(run[i]);
    }
    if run == [] {
      assert CleanAge(text) == [];
    }
  }

  // ---------------------------------------------------------------- gender

  datatype Gender = Gender(code: string, full: string)

  const Female: Gender := Gender("स्त्री", "महिला")
  const Male: Gender := Gender("पु", "पुरुष")

  /** The feminine markers `clean_gender` looks for: जी, स्त्री, स्री. */
  const Markers: seq<string> := ["जी", "स्त्री", "स्री"]

  predicate HasMarker(s: string) {
    exists m :: 0 <= m < |Markers| && Contains(s, Markers[m])
  }

  /** `clean_gender` */
  function CleanGender(code: string): Gender {
    var c := Lower(Strip(code));
    if Contains(c, "जी") || Contains(c, "स्त्री") || Contains(c, "स्री") then Female else Male
  }

  /** Neither whitespace nor a Latin letter: what stripping and lower-casing cannot touch. */
  predicate Inert(c: char) {
    !IsSpace(c) && !IsAsciiLetter(c)
  }

  lemma MarkersInert()
    ensures forall m :: 0 <= m < |Markers| ==> Markers[m] != [] && All(Markers[m], Inert)
  {
  }

  /** Lower-casing keeps and creates no occurrence of a word without Latin letters. */
  lemma ContainsLower(t: string, w: string)
    requires All(w, Inert)
    ensures Contains(Lower(t), w) <==> Contains(t, w)
  {
    var l := Lower(t);
    forall i | 0 <= i <= |t| ensures OccursAt(l, w, i) <==> OccursAt(t, w, i) {
      if i + |w| <= |t| {
        if OccursAt(t, w, i) {
          forall x | 0 <= x < |w| ensures l[i + x] == w[x] {
            assert t[i + x] == w[x];
          }
          assert l[i..i + |w|] == w;
        }
        if OccursAt(l, w, i) {
          forall x | 0 <= x < |w| ensures t[i + x] == w[x] {
            assert l[i + x] == w[x];
          }
          assert t[i..i + |w|] == w;
        }
      }
    }
  }

  /** Stripping keeps and creates no occurrence of a non-empty word without whitespace. */
  lemma ContainsStrip(t: string, w: string)
    requires w != [] && All(w, Inert)
    ensures Contains(Strip(t), w) <==> Contains(t, w)
  {
    var l := LStripWhere(t, IsSpace);
    var r := RStripWhere(l, IsSpace);
    var a := |t| - |l|;
    assert Strip(t) == r;
    assert forall x :: 0 <= x < |r| ==> r[x] == t[a + x];
    if Contains(t, w) {
      var i :| 0 <= i <= |t| && OccursAt(t, w, i);
      OccursInside(t, w, a, r, i);
    }
    if Contains(r, w) {
      var j :| 0 <= j <= |r| && OccursAt(r, w, j);
      OccursOutside(t, w, a, r, j);
    }
  }

  lemma OccursOutside(t: string, w: string, a: nat, r: string, j: nat)
    requires OccursAt(r, w, j)
    requires a + |r| <= |t| && forall x :: 0 <= x < |r| ==> r[x] == t[a + x]
    ensures Contains(t, w)
  {
    assert t[a + j..a + j + |w|] == r[j..j + |w|];
    assert OccursAt(t, w, a + j);
  }

  /** An occurrence of a word without whitespace lies inside the stripped part `r = t[a..a+|r|]`. */
  lemma OccursInside(t: string, w: string, a: nat, r: string, i: nat)
    requires w != [] && All(w, Inert) && OccursAt(t, w, i)
    requires a + |r| <= |t| && forall x :: 0 <= x < |r| ==> r[x] == t[a + x]
    requires forall x :: 0 <= x < a ==> IsSpace(t[x])
    requires forall x :: a + |r| <= x < |t| ==> IsSpace(t[x])
    ensures a <= i && OccursAt(r, w, i - a)
  {
    assert t[i] == w[0];
    assert t[i + |w| - 1] == w[|w| - 1];
    assert r[i - a..i - a + |w|] == t[i..i + |w|];
  }

  /** `clean_gender` answers feminine exactly when the code holds one of the markers. */
  lemma CleanGenderSpec(code: string)
    ensures CleanGender(code) == Female <==> HasMarker(code)
    ensures CleanGender(code) != Female ==> CleanGender(code) == Male
  {
    MarkersInert();
    forall m | 0 <= m < |Markers|
      ensures Contains(Lower(Strip(code)), Markers[m]) <==> Contains(code, Markers[m])
    {
      ContainsLower(Strip(code), Markers[m]);
      ContainsStrip(code, Markers[m]);
    }
    assert Markers[0] == "जी" && Markers[1] == "स्त्री" && Markers[2] == "स्री";
  }
}
