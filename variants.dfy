/** The two single-sheet scripts differ in a handful of constants and patterns. A `Config` holds
    them; `Api` is `api.py`, `TextExtract` is `text-extract.py`. */
module Variants {
  import opened Regex

  /** Repetition bounds `{lo,hi}` of one part of a date. */
  datatype Bound = Bound(lo: nat, hi: Limit)

  datatype Config = Config(
    idMin: nat,             // `[A-Z0-9]{idMin,}`
    day: Bound,             // the three digit groups of `\d../\d../\d..`
    month: Bound,
    year: Bound,
    voter: seq<Atom>,       // the voter-name label pattern, ending in the name group
    vadil: seq<Atom>,       // the father's-name label pattern
    stopOnEmpty: bool,      // `if not text: return data`
    upscaleBelow: nat)      // images narrower than this are doubled before OCR

  /** `[:ः]`: an ASCII colon or the Devanagari visarga that OCR reads for one. */
  const Colon: Class := Chars(":ः")

  /** `\s*[:ः]?\s*(.+)` */
  const NameTail: seq<Atom> := [Star(Space), Maybe(Colon), Star(Space), Plus(AnyButNewline)]

  /** `(?:मतदाराचे?\s*(?:पूर्ण\s*))\s*[:ः]?\s*(.+)` */
  const ApiVoter: seq<Atom> :=
    [Lit("मतदाराच"), Maybe(Chars("े")), Star(Space), Lit("पूर्ण"), Star(Space)] + NameTail

  /** `(?:मतदार(?:ाचे)?\s*(?:पूर्ण\s*)?)\s*[:ः]?\s*(.+)` */
  const TextExtractVoter: seq<Atom> :=
    [Lit("मतदार"), Opt([Lit("ाचे")]), Star(Space), Opt([Lit("पूर्ण"), Star(Space)])] + NameTail

  /** `पतीचे\s*नाव\s*[:ः]?\s*(.+)` */
  const Pati: seq<Atom> := [Lit("पतीचे"), Star(Space), Lit("नाव")] + NameTail

  /** `वडिलांचे\s*नाव\s*[:ः]?\s*(.+)` */
  const ApiVadil: seq<Atom> := [Lit("वडिलांचे"), Star(Space), Lit("नाव")] + NameTail

  /** `वडिल(?:ांचे|े)\s*नाव\s*[:ः]?\s*(.+)` */
  const TextExtractVadil: seq<Atom> :=
    [Lit("वडिल"), Alt([Lit("ांचे")], [Lit("े")]), Star(Space), Lit("नाव")] + NameTail

  const Api: Config :=
    Config(7, Bound(1, Unbounded), Bound(1, Unbounded), Bound(1, Unbounded),
           ApiVoter, ApiVadil, false, 400)

  const TextExtract: Config :=
    Config(5, Bound(1, Finite(2)), Bound(1, Finite(2)), Bound(2, Finite(4)),
           TextExtractVoter, TextExtractVadil, true, 350)

  /** `[A-Z0-9]` */
  const IdChar: Class := Union(AsciiUpper, AsciiDigit)

  /** `([A-Z0-9]{n,})\s+(\d../\d../\d..)`: token, separator, then day, '/', month, '/', year. */
  function IdPattern(cfg: Config): (ps: seq<Atom>)
    ensures |ps| == 7
  {
    [Rep(IdChar, cfg.idMin, Unbounded), Plus(Space),
     Rep(Digit, cfg.day.lo, cfg.day.hi), Lit("/"),
     Rep(Digit, cfg.month.lo, cfg.month.hi), Lit("/"),
     Rep(Digit, cfg.year.lo, cfg.year.hi)]
  }

  /** `घर\s*क्रमांक\s*[:ः]?\s*(.+)` */
  const HouseLabel: seq<Atom> := [Lit("घर"), Star(Space), Lit("क्रमांक")] + NameTail

  /** `वय\s*[:ः]?\s*([\d०-९]+)` */
  const AgeLabel: seq<Atom> := [Lit("वय"), Star(Space), Maybe(Colon), Star(Space), Plus(Digit)]

  /** `लिंग\s*[:ः]?\s*([^\s\r\n]+)` */
  const GenderLabel: seq<Atom> :=
    [Lit("लिंग"), Star(Space), Maybe(Colon), Star(Space), Plus(Not(Space))]

  /** Words that mark a relative's line, skipped by the voter-name fallback:
      पती, वडिल, आई, सासू, पत्नी, सून. */
  const KinWords: seq<string> := ["पती", "वडिल", "आई", "सासू", "पत्नी", "सून"]

  /** Words that mark another field's line: घर, लिंग, वय. */
  const FieldWords: seq<string> := ["घर", "लिंग", "वय"]
}
