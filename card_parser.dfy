/** `parse_card` of the single-sheet scripts: an ordered cascade over the stripped, non-blank
    lines of one card's OCR text. The ID is read from the first line, the voter's name from the
    first line with the voter label (else from a fallback line holding नाव), the relative's name
    from the first line with either relative label. Each step deletes the line it used, so a
    later step never reads it again. House number, age and gender are then searched in the
    whole original text. */
module CardParser {
  import opened Text
  import opened Regex
  import opened Cleaners
  import opened Variants

  /** The record `parse_card` fills. */
  datatype Card = Card(
    id: string,
    voterName: string,
    relationLabel: string,
    relationName: string,
    house: string,
    age: string,
    genderCode: string,
    genderFull: string)

  /** The record before any step has written to it. */
  const Defaults: Card := Card("", "", "", "", "NA", "", "", "")

  const PatiLabel: string := "पतीचे नाव"
  const VadilLabel: string := "वडिलांचे नाव"

  // ---------------------------------------------------------------- lines

  /** `[l.strip() for l in text.split('\n') if l.strip()]` */
  function Lines(text: string): (ls: seq<string>)
    ensures forall k :: 0 <= k < |ls| ==> Trimmed(ls[k])
    ensures ls == [] <==> AllBlank(SplitOn(text, '\n'))
  {
    var ps := SplitOn(text, '\n');
    NonBlankEmpty(ps);
    NonBlank(ps)
  }

  /** A piece that strips to nothing. */
  predicate Blank(p: string) {
    Strip(p) == []
  }

  predicate AllBlank(ps: seq<string>) {
    forall k :: 0 <= k < |ps| ==> Blank(ps[k])
  }

  /** What one piece contributes: its stripped text, or nothing when it is blank. */
  function Kept(p: string): (ls: seq<string>)
    ensures |ls| <= 1 && (ls == [] <==> Blank(p))
    ensures forall k :: 0 <= k < |ls| ==> Trimmed(ls[k]) && ls[k] == Strip(p)
  {
    if Blank(p) then [] else [Strip(p)]
  }

  /** The stripped pieces, blank ones dropped, in order. */
  function NonBlank(ps: seq<string>): (ls: seq<string>)
    ensures |ls| <= |ps|
    ensures forall k :: 0 <= k < |ls| ==> Trimmed(ls[k])
  {
    if ps == [] then [] else Kept(ps[0]) + NonBlank(ps[1..])
  }

  /** No line is left exactly when every piece is blank. */
  lemma NonBlankEmpty(ps: seq<string>)
    ensures NonBlank(ps) == [] <==> AllBlank(ps)
  {
    if AllBlank(ps) {
      AllBlankDropped(ps);
    } else {
      var j :| 0 <= j < |ps| && !Blank(ps[j]);
      NonBlankKeeps(ps, j);
    }
  }

  lemma {:induction false} AllBlankDropped(ps: seq<string>)
    requires AllBlank(ps)
    ensures NonBlank(ps) == []
  {
    if ps != [] {
      assert Blank(ps[0]);
      forall k | 0 <= k < |ps| - 1
        ensures Blank(ps[1..][k])
      {
        assert ps[1..][k] == ps[k + 1];
      }
      AllBlankDropped(ps[1..]);
    }
  }

  lemma {:induction false} NonBlankKeeps(ps: seq<string>, j: nat)
    requires j < |ps| && !Blank(ps[j])
    ensures NonBlank(ps) != []
  {
    assert NonBlank(ps) == Kept(ps[0]) + NonBlank(ps[1..]);
    if j > 0 {
      assert ps[1..][j - 1] == ps[j];
      NonBlankKeeps(ps[1..], j - 1);
    } else {
      assert Kept(ps[0]) != [];
    }
  }

  /** Pieces glued together give their kept lines glued together, so the order is kept. */
  lemma {:induction false} NonBlankAppend(ps: seq<string>, qs: seq<string>)
    ensures NonBlank(ps + qs) == NonBlank(ps) + NonBlank(qs)
  {
    if ps == [] {
      assert ps + qs == qs;
    } else {
      assert (ps + qs)[0] == ps[0] && (ps + qs)[1..] == ps[1..] + qs;
      NonBlankAppend(ps[1..], qs);
    }
  }

  /** One piece gives its stripped text, or nothing when it is blank. */
  lemma NonBlankOne(p: string)
    ensures NonBlank([p]) == if Blank(p) then [] else [Strip(p)]
  {
  }

  /** The first line is the first non-blank piece, stripped. */
  lemma {:induction false} NonBlankFirst(ps: seq<string>, j: nat)
    requires j < |ps| && !Blank(ps[j])
    requires forall k :: 0 <= k < j ==> Blank(ps[k])
    ensures NonBlank(ps) != [] && NonBlank(ps)[0] == Strip(ps[j])
  {
    if j > 0 {
      assert Blank(ps[0]);
      assert NonBlank(ps) == NonBlank(ps[1..]);
      forall k | 0 <= k < j - 1
        ensures Blank(ps[1..][k])
      {
        assert ps[1..][k] == ps[k + 1];
      }
      NonBlankFirst(ps[1..], j - 1);
    } else {
      assert NonBlank(ps) == Kept(ps[0]) + NonBlank(ps[1..]);
    }
  }

  /** The first card line is the first piece of `text.split('\n')` that is not blank, stripped. */
  lemma LinesFirst(text: string, j: nat)
    requires j < |SplitOn(text, '\n')| && !Blank(SplitOn(text, '\n')[j])
    requires forall k :: 0 <= k < j ==> Blank(SplitOn(text, '\n')[k])
    ensures Lines(text) != [] && Lines(text)[0] == Strip(SplitOn(text, '\n')[j])
  {
    NonBlankFirst(SplitOn(text, '\n'), j);
  }

  /** A non-blank line with no whitespace at either end. */
  predicate Trimmed(l: string) {
    l != [] && !IsSpace(l[0]) && !IsSpace(l[|l| - 1])
  }

  // ---------------------------------------------------------------- picking a line

  /** The three line tests of the cascade. */
  datatype LineTest =
    | Voter(ps: seq<Atom>)               // the voter label matches
    | Fallback                           // the voter-name fallback accepts the line
    | Relative(pati: seq<Atom>, vadil: seq<Atom>)   // either relative label matches

  predicate Labelled(ps: seq<Atom>, l: string) {
    Search(ps, l).Some?
  }

  /** One of the words occurs in the line: `re.search(r"(w1|w2|...)", line)`. */
  predicate HasAny(l: string, ws: seq<string>) {
    exists k :: 0 <= k < |ws| && Contains(l, ws[k])
  }

  /** The fallback takes a line with नाव that names no relative and no other field. */
  predicate FallbackLine(l: string) {
    !HasAny(l, KinWords) && Contains(l, "नाव") && !HasAny(l, FieldWords)
  }

  predicate Passes(t: LineTest, l: string) {
    match t
    case Voter(ps) => Labelled(ps, l)
    case Fallback => FallbackLine(l)
    case Relative(p, v) => Labelled(p, l) || Labelled(v, l)
  }

  /** The position of the first line passing the test: where the `for ... break` loop stops. */
  function First(t: LineTest, lines: seq<string>): (r: Option<nat>)
    ensures r.Some? ==> r.value < |lines| && Passes(t, lines[r.value])
    ensures r.Some? ==> forall j :: 0 <= j < r.value ==> !Passes(t, lines[j])
    ensures r.None? <==> forall j :: 0 <= j < |lines| ==> !Passes(t, lines[j])
  {
    if lines == [] then None
    else if Passes(t, lines[0]) then Some(0)
    else match First(t, lines[1..])
      case None => None
      case Some(j) => Some(j + 1)
  }

  lemma FirstIs(t: LineTest, lines: seq<string>, i: nat)
    requires i < |lines| && Passes(t, lines[i])
    requires forall j :: 0 <= j < i ==> !Passes(t, lines[j])
    ensures First(t, lines) == Some(i)
  {
    match First(t, lines)
    case None =>
    case Some(k) =>
  }

  /** The text of a label's name group. */
  function Label(ps: seq<Atom>, l: string): string
    requires Labelled(ps, l)
  {
    LastGroup(ps, l, Search(ps, l).value)
  }

  // ---------------------------------------------------------------- the shape of an ID

  /** A count within the bounds of `{lo,hi}`. */
  predicate Within(n: nat, b: Bound) {
    b.lo <= n && (b.hi.Finite? ==> n <= b.hi.n)
  }

  /** `d` is day '/' month '/' year with the slashes at `x` and `y` and digit groups of the
      configured lengths. */
  predicate DateAt(cfg: Config, d: string, x: nat, y: nat)
    requires x < y < |d|
  {
    d[x] == '/' && d[y] == '/' &&
    Within(x, cfg.day) && Within(y - x - 1, cfg.month) && Within(|d| - y - 1, cfg.year) &&
    forall i :: 0 <= i < |d| && i != x && i != y ==> IsDigit(d[i])
  }

  predicate DateLike(cfg: Config, d: string) {
    exists x: nat, y: nat :: x < y < |d| && DateAt(cfg, d, x, y)
  }

  /** `id` is a token of at least `idMin` characters of `[A-Z0-9]`, a space at `n`, and a date. */
  predicate IdAt(cfg: Config, id: string, n: nat)
    requires n < |id|
  {
    id[n] == ' ' && cfg.idMin <= n && (forall i :: 0 <= i < n ==> In(id[i], IdChar)) &&
    DateLike(cfg, id[n + 1..])
  }

  predicate IdLike(cfg: Config, id: string) {
    exists n: nat :: n < |id| && IdAt(cfg, id, n)
  }

  /** What the ID pattern matched, written out as the record stores it, has the shape of an ID. */
  lemma IdTextShape(cfg: Config, l: string, f: Found)
    requires Fits(IdPattern(cfg), l, f.at, f.spans)
    ensures IdLike(cfg, IdText(cfg, l, f))
  {
    var ps, sp := IdPattern(cfg), f.spans;
    assert Matches(ps[0], l, sp[0]);
    assert sp[2].end == sp[3].start && sp[3].end == sp[4].start;
    assert sp[4].end == sp[5].start && sp[5].end == sp[6].start;
    var t := Group(l, f, 0);
    var d := l[sp[2].start..sp[6].end];
    var id := t + " " + d;
    assert id == IdText(cfg, l, f);
    var n := |t|;
    assert id[n + 1..] == d;
    DateShape(cfg, l, sp);
    assert IdAt(cfg, id, n);
  }

  lemma DateShape(cfg: Config, l: string, sp: seq<Span>)
    requires |sp| == 7
    requires forall m :: 0 <= m < 7 ==> sp[m].start <= sp[m].end <= |l| && Matches(IdPattern(cfg)[m], l, sp[m])
    requires forall m :: 0 <= m < 6 ==> sp[m].end == sp[m + 1].start
    requires sp[2].start <= sp[6].end
    ensures DateLike(cfg, l[sp[2].start..sp[6].end])
  {
    var ps := IdPattern(cfg);
    var a := sp[2].start;
    var d := l[a..sp[6].end];
    assert Matches(ps[2], l, sp[2]) && Matches(ps[3], l, sp[3]) && Matches(ps[4], l, sp[4]);
    assert Matches(ps[5], l, sp[5]) && Matches(ps[6], l, sp[6]);
    var x, y := sp[3].start - a, sp[5].start - a;
    assert l[sp[3].start..sp[3].end] == "/" && l[sp[5].start..sp[5].end] == "/";
    assert d[x] == l[sp[3].start];
    assert d[y] == l[sp[5].start];
    forall i | 0 <= i < |d| && i != x && i != y ensures IsDigit(d[i]) {
      assert d[i] == l[a + i];
    }
    assert DateAt(cfg, d, x, y);
  }

  // ---------------------------------------------------------------- the steps

  /** One step of the cascade: the value it read, the position of the line it read it from,
      and the lines left for the next step. */
  datatype Taken = Taken(value: string, at: Option<nat>, rest: seq<string>)

  /** `f"{m.group(1)} {m.group(2)}"`: the token, a space, and the date from day to year. */
  function IdText(cfg: Config, l: string, f: Found): string
    requires Fits(IdPattern(cfg), l, f.at, f.spans)
  {
    assert f.spans[2].end == f.spans[3].start && f.spans[3].end == f.spans[4].start;
    assert f.spans[4].end == f.spans[5].start && f.spans[5].end == f.spans[6].start;
    Group(l, f, 0) + " " + l[f.spans[2].start..f.spans[6].end]
  }

  /** The ID, from the first line only; the line is dropped when it holds one. */
  function IdStep(cfg: Config, lines: seq<string>): (r: Taken)
    ensures r.value == [] <==> r.at.None?
    ensures r.value == [] ==> r.rest == lines
    ensures r.value != [] ==> lines != [] && r.at == Some(0) && r.rest == lines[1..] && IdLike(cfg, r.value)
    ensures r.value != [] <==> lines != [] && Search(IdPattern(cfg), lines[0]).Some?
    ensures r.value != [] ==> r.value == IdText(cfg, lines[0], Search(IdPattern(cfg), lines[0]).value)
  {
    if lines == [] then Taken("", None, lines)
    else
      match Search(IdPattern(cfg), lines[0])
      case None => Taken("", None, lines)
      case Some(f) =>
        IdTextShape(cfg, lines[0], f);
        Taken(IdText(cfg, lines[0], f), Some(0), lines[1..])
  }

  /** `re.split(r'[:ः]', line, 1)[1]` when the line has a colon, else the text after its first नाव. */
  function Candidate(l: string): (r: string)
    requires Contains(l, "नाव")
    ensures |r| < |l| && r == l[|l| - |r|..]
    ensures (exists j :: 0 <= j < |l| && IsColon(l[j])) ==>
      IsColon(l[|l| - |r| - 1]) && forall j :: 0 <= j < |l| - |r| - 1 ==> !IsColon(l[j])
    ensures (forall j :: 0 <= j < |l| ==> !IsColon(l[j])) ==>
      |r| + 3 <= |l| && OccursAt(l, "नाव", |l| - |r| - 3) &&
      forall j :: 0 <= j < |l| - |r| - 3 ==> !OccursAt(l, "नाव", j)
  {
    match IndexWhere(l, IsColon)
    case Some(j) => l[j + 1..]
    case None =>
      match Find(l, "नाव", 0)
      case Some(k) => l[k + |"नाव"|..]
      case None => []   // cannot happen: the line holds नाव
  }

  predicate IsColon(c: char) {
    In(c, Colon)
  }

  /** The voter's name: from the first line with the voter label; only when there is none,
      from the first line the fallback accepts. */
  function VoterStep(cfg: Config, lines: seq<string>): (r: Taken)
    ensures r.at.None? ==> r.value == [] && r.rest == lines
    ensures r.at.Some? ==> r.at.value < |lines| && r.rest == Delete(lines, r.at.value)
    ensures |Words(r.value)| <= 4 && SingleSpaced(r.value)
  {
    match First(Voter(cfg.voter), lines)
    case Some(i) => Taken(CleanVoterName(Label(cfg.voter, lines[i])), Some(i), Delete(lines, i))
    case None =>
      match First(Fallback, lines)
      case Some(i) => Taken(CleanVoterName(Candidate(lines[i])), Some(i), Delete(lines, i))
      case None => Taken("", None, lines)
  }

  /** The relative: from the first line with either label; on that line पतीचे wins. */
  datatype Relation = Relation(caption: string, name: string, at: Option<nat>, rest: seq<string>)

  function RelationStep(cfg: Config, lines: seq<string>): (r: Relation)
    ensures r.caption == [] || r.caption == PatiLabel || r.caption == VadilLabel
    ensures r.caption == [] <==> r.at.None?
    ensures r.at.None? ==> r.name == [] && r.rest == lines
    ensures r.at.Some? ==> r.at.value < |lines| && r.rest == Delete(lines, r.at.value)
    ensures |Words(r.name)| <= 3 && SingleSpaced(r.name)
  {
    match First(Relative(Pati, cfg.vadil), lines)
    case None => Relation("", "", None, lines)
    case Some(i) =>
      if Labelled(Pati, lines[i]) then
        Relation(PatiLabel, CleanRelativeName(Label(Pati, lines[i])), Some(i), Delete(lines, i))
      else
        Relation(VadilLabel, CleanRelativeName(Label(cfg.vadil, lines[i])), Some(i), Delete(lines, i))
  }

  /** The house number, searched in the whole text: `clean_house` of the text after the house
      label, "NA" when the label is absent. */
  function House(text: string): (r: string)
    ensures Labelled(HouseLabel, text) ==> r == CleanHouse(Label(HouseLabel, text))
    ensures !Labelled(HouseLabel, text) ==> r == "NA"
    ensures r == "NA" || (r != [] && All(r, IsDigit))
    ensures !Contains(text, "घर") ==> r == "NA"
  {
    SearchNeedsLit(HouseLabel, text);
    if Labelled(HouseLabel, text) then
      CleanHouseSpec(Label(HouseLabel, text));
      CleanHouse(Label(HouseLabel, text))
    else "NA"
  }

  /** The age, searched in the whole text: `clean_age` of the digits after the age label, ""
      when the label is absent. */
  function Age(text: string): (r: string)
    ensures Labelled(AgeLabel, text) ==> r == CleanAge(Label(AgeLabel, text))
    ensures !Labelled(AgeLabel, text) ==> r == []
    ensures r == [] || All(r, IsAsciiDigit)
    ensures !Contains(text, "वय") ==> r == []
  {
    SearchNeedsLit(AgeLabel, text);
    if Labelled(AgeLabel, text) then
      CleanAgeSpec(Label(AgeLabel, text));
      CleanAge(Label(AgeLabel, text))
    else ""
  }

  /** The gender, searched in the whole text; male when there is no gender label. */
  function GenderOf(text: string): (r: Gender)
    ensures r == Female || r == Male
    ensures r == Female <==> Labelled(GenderLabel, text) && HasMarker(Label(GenderLabel, text))
    ensures !Contains(text, "लिंग") ==> r == Male
  {
    SearchNeedsLit(GenderLabel, text);
    if Labelled(GenderLabel, text) then
      CleanGenderSpec(Label(GenderLabel, text));
      CleanGender(Label(GenderLabel, text))
    else Male
  }

  /** The gender fields hold one of the two pairs `clean_gender` returns. */
  predicate IsGenderPair(c: Card) {
    Gender(c.genderCode, c.genderFull) == Female || Gender(c.genderCode, c.genderFull) == Male
  }

  /** `parse_card`, step by step. */
  function Parse(cfg: Config, text: string): (c: Card)
    ensures c.house == "NA" || (c.house != [] && All(c.house, IsDigit))
    ensures c.age == [] || All(c.age, IsAsciiDigit)
    ensures c.relationLabel == [] || c.relationLabel == PatiLabel || c.relationLabel == VadilLabel
    ensures c.relationLabel == [] ==> c.relationName == []
    ensures c.id == [] || IdLike(cfg, c.id)
    ensures |Words(c.voterName)| <= 4 && SingleSpaced(c.voterName)
    ensures |Words(c.relationName)| <= 3 && SingleSpaced(c.relationName)
    ensures IsGenderPair(c) <==> !(cfg.stopOnEmpty && text == [])
  {
    if cfg.stopOnEmpty && text == [] then Defaults
    else
      var a := IdStep(cfg, Lines(text));
      var b := VoterStep(cfg, a.rest);
      var c := RelationStep(cfg, b.rest);
      var g := GenderOf(text);
      Card(a.value, b.value, c.caption, c.name, House(text), Age(text), g.code, g.full)
  }

  // ---------------------------------------------------------------- properties of the cascade

  /** The voter label wins: when any line carries it, the first such line gives the name. Only
      when none does, the fallback takes the first line that names no relative and no other
      field and holds नाव, and reads the text after its colon (else after नाव). */
  lemma VoterPrecedence(cfg: Config, lines: seq<string>)
    ensures var r := VoterStep(cfg, lines);
      (exists j :: 0 <= j < |lines| && Labelled(cfg.voter, lines[j])) ==>
        r.at.Some? && Labelled(cfg.voter, lines[r.at.value]) &&
        (forall j :: 0 <= j < r.at.value ==> !Labelled(cfg.voter, lines[j])) &&
        r.value == CleanVoterName(Label(cfg.voter, lines[r.at.value]))
    ensures var r := VoterStep(cfg, lines);
      (forall j :: 0 <= j < |lines| ==> !Labelled(cfg.voter, lines[j])) ==>
        (r.at.None? <==> forall j :: 0 <= j < |lines| ==> !FallbackLine(lines[j])) &&
        (r.at.Some? ==>
          FallbackLine(lines[r.at.value]) &&
          (forall j :: 0 <= j < r.at.value ==> !FallbackLine(lines[j])) &&
          r.value == CleanVoterName(Candidate(lines[r.at.value])))
  {
    if j :| 0 <= j < |lines| && Labelled(cfg.voter, lines[j]) {
      VoterByLabel(cfg, lines, j);
    } else {
      VoterByFallback(cfg, lines);
    }
  }

  lemma VoterByLabel(cfg: Config, lines: seq<string>, j: nat)
    requires j < |lines| && Labelled(cfg.voter, lines[j])
    ensures var r := VoterStep(cfg, lines);
      r.at.Some? && Labelled(cfg.voter, lines[r.at.value]) &&
      (forall j :: 0 <= j < r.at.value ==> !Labelled(cfg.voter, lines[j])) &&
      r.value == CleanVoterName(Label(cfg.voter, lines[r.at.value]))
  {
    var t := Voter(cfg.voter);
    assert Passes(t, lines[j]);
    var i := First(t, lines).value;
    forall k | 0 <= k < i ensures !Labelled(cfg.voter, lines[k]) {
      assert !Passes(t, lines[k]);
    }
  }

  lemma VoterByFallback(cfg: Config, lines: seq<string>)
    requires forall j :: 0 <= j < |lines| ==> !Labelled(cfg.voter, lines[j])
    ensures var r := VoterStep(cfg, lines);
      (r.at.None? <==> forall j :: 0 <= j < |lines| ==> !FallbackLine(lines[j])) &&
      (r.at.Some? ==>
        FallbackLine(lines[r.at.value]) &&
        (forall j :: 0 <= j < r.at.value ==> !FallbackLine(lines[j])) &&
        r.value == CleanVoterName(Candidate(lines[r.at.value])))
  {
    var t := Voter(cfg.voter);
    assert forall j :: 0 <= j < |lines| ==> !Passes(t, lines[j]);
    assert First(t, lines).None?;
  }

  /** The earliest line with either relative label wins; on that line the husband's label is
      tried before the father's. */
  lemma RelationPrecedence(cfg: Config, lines: seq<string>)
    ensures var r := RelationStep(cfg, lines);
      r.caption == [] <==>
        forall j :: 0 <= j < |lines| ==> !Labelled(Pati, lines[j]) && !Labelled(cfg.vadil, lines[j])
    ensures var r := RelationStep(cfg, lines);
      r.at.Some? ==>
        forall j :: 0 <= j < r.at.value ==> !Labelled(Pati, lines[j]) && !Labelled(cfg.vadil, lines[j])
    ensures var r := RelationStep(cfg, lines);
      r.caption == PatiLabel ==>
        Labelled(Pati, lines[r.at.value]) &&
        r.name == CleanRelativeName(Label(Pati, lines[r.at.value]))
    ensures var r := RelationStep(cfg, lines);
      r.caption == VadilLabel ==>
        !Labelled(Pati, lines[r.at.value]) && Labelled(cfg.vadil, lines[r.at.value]) &&
        r.name == CleanRelativeName(Label(cfg.vadil, lines[r.at.value]))
  {
    var t := Relative(Pati, cfg.vadil);
    assert forall j :: 0 <= j < |lines| ==>
      (Passes(t, lines[j]) <==> Labelled(Pati, lines[j]) || Labelled(cfg.vadil, lines[j]));
  }

  /** The line the relative's name comes from is never the line the voter's name came from:
      the voter step deleted it. Position `k` is the relative's line in the list the voter
      step was given. */
  lemma VoterLineNotReused(cfg: Config, lines: seq<string>)
    ensures var b := VoterStep(cfg, lines); var c := RelationStep(cfg, b.rest);
      b.at.Some? && c.at.Some? ==>
        var i, j := b.at.value, c.at.value;
        var k := if j < i then j else j + 1;
        k < |lines| && k != i && lines[k] == b.rest[j]
  {
  }

  /** On an empty text the two scripts differ: one returns the record untouched, the other
      still sets the male gender pair. */
  lemma EmptyText()
    ensures Parse(TextExtract, "") == Defaults
    ensures Parse(Api, "") == Defaults.(genderCode := "पु", genderFull := "पुरुष")
  {
    assert SplitOn("", '\n') == [""];
    assert Lines("") == [];
    assert !Contains("", "घर") && !Contains("", "वय") && !Contains("", "लिंग");
  }

  /** House, age and gender come from the whole text, whatever the line steps consumed: any two
      variants that get past the empty-text check agree on them. */
  lemma WholeTextFields(cfg: Config, other: Config, text: string)
    requires !(cfg.stopOnEmpty && text == []) && !(other.stopOnEmpty && text == [])
    ensures Parse(cfg, text).house == Parse(other, text).house == House(text)
    ensures Parse(cfg, text).age == Parse(other, text).age == Age(text)
    ensures Parse(cfg, text).genderCode == Parse(other, text).genderCode == GenderOf(text).code
    ensures Parse(cfg, text).genderFull == Parse(other, text).genderFull == GenderOf(text).full
  {
  }

  // ---------------------------------------------------------------- the two वडिल spellings

  /** `\s*[:ः]?\s*(.+)` matches from a single blank followed by a name. */
  lemma NameTailAt(s: string, i: nat)
    requires i + 2 <= |s| && IsSpace(s[i]) && !IsSpace(s[i + 1]) && s[i + 1] !in ":ः"
    requires forall x :: i + 1 <= x < |s| ==> s[x] != '\n'
    ensures MatchAt(NameTail, s, i).Some?
  {
    var t := NameTail;
    var last := t[3..];
    assert last == [Plus(AnyButNewline)] && last[1..] == [];
    assert RunEnd(AnyButNewline, s, i + 1) == |s|;
    var ends := AtomEnds(Plus(AnyButNewline), s, i + 1);
    assert ends == Down(|s|, i + 2);
    assert MatchAt(last[1..], s, ends[0]) == Some([]);
    assert MatchAt(last, s, i + 1).Some?;
    assert RunEnd(Space, s, i + 1) == i + 1;
    assert t[2..][1..] == last;
    assert MatchAt(t[2..], s, i + 1).Some?;
    assert RunEnd(Colon, s, i + 1) == i + 1;
    assert t[1..][1..] == t[2..];
    assert MatchAt(t[1..], s, i + 1).Some?;
    assert RunEnd(Space, s, i) == i + 1;
    assert MatchAt(t, s, i).Some?;
  }

  /** The father's-name pattern of `text-extract.py` takes both spellings, वडिले and वडिलांचे. */
  lemma VadilSpellings(rest: string)
    requires 2 <= |rest| && IsSpace(rest[0]) && !IsSpace(rest[1]) && rest[1] !in ":ः"
    requires forall x :: 1 <= x < |rest| ==> rest[x] != '\n'
    ensures Labelled(TextExtractVadil, "वडिले नाव" + rest)
    ensures Labelled(TextExtractVadil, "वडिलांचे नाव" + rest)
  {
    VadilShort(rest);
    VadilLong(rest);
  }

  /** `\s*नाव\s*[:ः]?\s*(.+)` from the blank after the relation word. */
  lemma AfterVadil(s: string, j: nat)
    requires j + 6 <= |s| && s[j] == ' ' && s[j + 1..j + 4] == "नाव"
    requires IsSpace(s[j + 4]) && !IsSpace(s[j + 5]) && s[j + 5] !in ":ः"
    requires forall x :: j + 5 <= x < |s| ==> s[x] != '\n'
    ensures MatchAt(TextExtractVadil[2..], s, j).Some?
  {
    var ps := TextExtractVadil;
    NameTailAt(s, j + 4);
    assert ps[4..] == NameTail && ps[3..][1..] == NameTail;
    assert MatchAt(ps[3..], s, j + 1).Some?;
    assert RunEnd(Space, s, j) == j + 1;
    assert ps[2..][1..] == ps[3..];
  }

  /** The relation word, then the rest of the pattern from where the word's ending stops. */
  lemma VadilFrom(s: string, e: nat)
    requires 4 <= |s| && s[..4] == "वडिल" && 4 <= e <= |s|
    requires AtomEnds(TextExtractVadil[1], s, 4) == [e]
    requires MatchAt(TextExtractVadil[2..], s, e).Some?
    ensures Labelled(TextExtractVadil, s)
  {
    var ps := TextExtractVadil;
    assert ps[1..][1..] == ps[2..];
    assert MatchAt(ps[1..], s, 4).Some?;
    assert MatchAt(ps, s, 0).Some?;
  }

  /** `(?:ांचे|े)` after वडिल: the short ending. */
  lemma ShortEnding(s: string)
    requires 5 <= |s| && s[4..5] == "े"
    ensures AtomEnds(TextExtractVadil[1], s, 4) == [5]
  {
    assert TextExtractVadil[1] == Alt([Lit("ांचे")], [Lit("े")]);
    if 8 <= |s| {
      NotLong(s[4..5], s[4..8]);
    }
    assert AtomEnds(Lit("ांचे"), s, 4) == [];
    assert [Lit("ांचे")][1..] == [];
    assert SeqEnds([Lit("ांचे")], s, 4) == ThenAll([], s, [], 4) == [];
    assert SeqEnds([Lit("े")], s, 4) == [5];
  }

  /** `(?:ांचे|े)` after वडिल: the long ending. */
  lemma LongEnding(s: string)
    requires 8 <= |s| && s[4..8] == "ांचे"
    ensures AtomEnds(TextExtractVadil[1], s, 4) == [8]
  {
    assert TextExtractVadil[1] == Alt([Lit("ांचे")], [Lit("े")]);
    NotShort(s[4..8], s[4..5]);
    assert SeqEnds([Lit("ांचे")], s, 4) == [8];
    assert SeqEnds([Lit("े")], s, 4) == [];
  }

  /** A text starting with the short ending is not the long one. */
  lemma NotLong(v: string, w: string)
    requires v == "े" && |w| == 4 && w[0] == v[0]
    ensures w != "ांचे"
  {
    assert v[0] == 'े';
  }

  /** The long ending does not start with the short one. */
  lemma NotShort(w: string, v: string)
    requires w == "ांचे" && |v| == 1 && v[0] == w[0]
    ensures v != "े"
  {
    assert w[0] == 'ा';
  }

  lemma VadilShort(rest: string)
    requires 2 <= |rest| && IsSpace(rest[0]) && !IsSpace(rest[1]) && rest[1] !in ":ः"
    requires forall x :: 1 <= x < |rest| ==> rest[x] != '\n'
    ensures Labelled(TextExtractVadil, "वडिले नाव" + rest)
  {
    var s := "वडिले नाव" + rest;
    assert s[9..] == rest && s[5] == ' ' && s[6..9] == "नाव";
    AfterVadil(s, 5);
    assert s[..4] == "वडिल" && s[4..5] == "े";
    ShortEnding(s);
    VadilFrom(s, 5);
  }

  lemma VadilLong(rest: string)
    requires 2 <= |rest| && IsSpace(rest[0]) && !IsSpace(rest[1]) && rest[1] !in ":ः"
    requires forall x :: 1 <= x < |rest| ==> rest[x] != '\n'
    ensures Labelled(TextExtractVadil, "वडिलांचे नाव" + rest)
  {
    var s := "वडिलांचे नाव" + rest;
    assert s[12..] == rest && s[8] == ' ' && s[9..12] == "नाव";
    AfterVadil(s, 8);
    assert s[..4] == "वडिल" && s[4..8] == "ांचे";
    LongEnding(s);
    VadilFrom(s, 8);
  }

  // ---------------------------------------------------------------- the loop program

  /** The ID step as the scripts run it. */
  method ReadId(cfg: Config, lines: seq<string>) returns (id: string, rest: seq<string>)
    ensures id == IdStep(cfg, lines).value && rest == IdStep(cfg, lines).rest
  {
    id, rest := "", lines;
    if |lines| > 0 {
      var m := Search(IdPattern(cfg), lines[0]);
      if m.Some? {
        id := IdText(cfg, lines[0], m.value);
        rest := lines[1..];
      }
    }
  }

  /** The voter-name steps as the scripts run them: a `for ... break` loop over the lines, and in
      its `else` the fallback loop, each deleting the line it used. */
  method ReadVoter(cfg: Config, lines: seq<string>) returns (name: string, rest: seq<string>)
    ensures name == VoterStep(cfg, lines).value && rest == VoterStep(cfg, lines).rest
  {
    var found;
    found, name, rest := ScanVoterLabel(cfg, lines);
    if !found {
      name, rest := ScanFallback(lines);
    }
  }

  /** The first loop: the first line the voter pattern matches gives the name and is deleted. */
  method ScanVoterLabel(cfg: Config, lines: seq<string>) returns (found: bool, name: string, rest: seq<string>)
    ensures found <==> First(Voter(cfg.voter), lines).Some?
    ensures found ==> var i := First(Voter(cfg.voter), lines).value;
      name == CleanVoterName(Label(cfg.voter, lines[i])) && rest == Delete(lines, i)
    ensures !found ==> name == "" && rest == lines
  {
    name, rest := "", lines;
    found := false;
    var i := 0;
    while i < |rest|
      invariant i <= |rest| && rest == lines && name == ""
      invariant forall j :: 0 <= j < i ==> !Passes(Voter(cfg.voter), rest[j])
    {
      var m := Search(cfg.voter, rest[i]);
      if m.Some? {
        FirstIs(Voter(cfg.voter), rest, i);
        name := CleanVoterName(LastGroup(cfg.voter, rest[i], m.value));
        rest := Delete(rest, i);
        found := true;
        return;
      }
      i := i + 1;
    }
  }

  /** The `else` loop: the first line naming no relative and no other field but holding नाव
      gives the name and is deleted. */
  method ScanFallback(lines: seq<string>) returns (name: string, rest: seq<string>)
    ensures First(Fallback, lines).Some? ==> var i := First(Fallback, lines).value;
      name == CleanVoterName(Candidate(lines[i])) && rest == Delete(lines, i)
    ensures First(Fallback, lines).None? ==> name == "" && rest == lines
  {
    name, rest := "", lines;
    var i := 0;
    while i < |rest|
      invariant i <= |rest| && rest == lines && name == ""
      invariant forall j :: 0 <= j < i ==> !Passes(Fallback, rest[j])
    {
      var line := rest[i];
      if HasAny(line, KinWords) {
        i := i + 1;
        continue;
      }
      if Contains(line, "नाव") && !HasAny(line, FieldWords) {
        FirstIs(Fallback, rest, i);
        name := CleanVoterName(Candidate(line));
        rest := Delete(rest, i);
        return;
      }
      i := i + 1;
    }
  }

  /** The relative step as the scripts run it: on each line पतीचे is tried before वडिल. */
  method ReadRelation(cfg: Config, lines: seq<string>)
    returns (caption: string, name: string, rest: seq<string>)
    ensures caption == RelationStep(cfg, lines).caption && name == RelationStep(cfg, lines).name
    ensures rest == RelationStep(cfg, lines).rest
  {
    caption, name, rest := "", "", lines;
    var i := 0;
    while i < |rest|
      invariant i <= |rest| && rest == lines && caption == "" && name == ""
      invariant forall j :: 0 <= j < i ==> !Passes(Relative(Pati, cfg.vadil), rest[j])
    {
      var mp := Search(Pati, rest[i]);
      if mp.Some? {
        FirstIs(Relative(Pati, cfg.vadil), rest, i);
        caption, name := PatiLabel, CleanRelativeName(LastGroup(Pati, rest[i], mp.value));
        rest := Delete(rest, i);
        break;
      }
      var mv := Search(cfg.vadil, rest[i]);
      if mv.Some? {
        FirstIs(Relative(Pati, cfg.vadil), rest, i);
        caption, name := VadilLabel, CleanRelativeName(LastGroup(cfg.vadil, rest[i], mv.value));
        rest := Delete(rest, i);
        break;
      }
      i := i + 1;
    }
  }

  /** `parse_card` as the scripts run it: the record is written field by field, and the line
      list shrinks as the steps consume lines. */
  method ParseCard(cfg: Config, text: string) returns (card: Card)
    ensures card == Parse(cfg, text)
  {
    card := Defaults;
    if cfg.stopOnEmpty && text == [] {
      return;
    }
    var lines := Lines(text);
    var id, name, caption, relative;
    id, lines := ReadId(cfg, lines);
    card := card.(id := id);
    name, lines := ReadVoter(cfg, lines);
    card := card.(voterName := name);
    caption, relative, lines := ReadRelation(cfg, lines);
    card := card.(relationLabel := caption, relationName := relative);

    var m := Search(HouseLabel, text);
    if m.Some? {
      card := card.(house := CleanHouse(LastGroup(HouseLabel, text, m.value)));
    }
    m := Search(AgeLabel, text);
    if m.Some? {
      card := card.(age := CleanAge(LastGroup(AgeLabel, text, m.value)));
    }
    m := Search(GenderLabel, text);
    if m.Some? {
      var g := CleanGender(LastGroup(GenderLabel, text, m.value));
      card := card.(genderCode := g.code, genderFull := g.full);
    } else {
      card := card.(genderCode := Male.code, genderFull := Male.full);
    }
  }
}
