# Voter-card extraction: a Dafny model of the text engine and its geometry

Three Python scripts turn a scanned sheet of Marathi voter-identity cards into a spreadsheet:
`api.py` (a web service), `text-extract.py` (a single-sheet command-line run) and
`bulk_extract.py` (a batch run over many pages). Each one cuts a page into a grid of cards,
puts every card through OCR, parses the OCR text into a record, crops the photograph and writes
one spreadsheet row per card. This project models the deterministic part of that pipeline and
proves what it guarantees:

- **The field cleaners** (`text.dfy`, `regex.dfy`, `digits.dfy`, `cleaners.dfy`, and the first
  half of `bulk.dfy`):
  - the name cleaners of the single-sheet scripts: separators, Latin fragments, noise
    characters, collapsed whitespace, a word cap;
  - the house, age and gender cleaners;
  - the batch script's digit normaliser, OCR-ID repair, card-ID and registration-number
    extractors, and its simpler cleaners.

  Python's `re` is modelled in `regex.dfy` as an explicit backtracking matcher. It lists where
  each atom of a pattern can end, longest repetition first and left alternative first. It finds
  the first path at the leftmost position, which is what `re.search` and `re.sub` report. For
  example, `\s+[A-Za-z]{1,3}\s*` removes up to three Latin letters after *any* whitespace run,
  whole word or not.
- **`parse_card` of `api.py` and `text-extract.py`** (`variants.dfy`, `card_parser.dfy`) is one
  model with parameters. A `Config` holds what the two scripts do differently:
  - the minimum ID-token length (7 or 5) and the date shape;
  - the voter and father's-name label patterns;
  - the early return on empty text;
  - the OCR upscale threshold (400 or 350).

  The parse is an ordered cascade over the stripped non-blank lines. The ID comes from the first
  line; the voter name comes from a label, or else from a fallback line holding नाव; the relative
  comes from the first line with either relative label. Each step deletes the line it used.
  House, age and gender are searched in the whole text. It is written both as functions and as
  the loop program the scripts run (`ReadId`, `ReadVoter`, `ReadRelation`, `ParseCard`), and
  the methods are proved equal to the functions.
- **The batch parser** (`bulk.dfy`):
  - `normalize_marathi`, an ordered replacement table applied by nested loops;
  - `extract_after_keyword`, a loop with an early return;
  - its keyword-driven `parse_card`, which consumes no lines and makes *feminine* the fallback
    gender.
- **Geometry** (`geometry.dfy`):
  - the row-major grid of `w // cols` by `h // rows` boxes, and the zero-padded card file names
    whose sorted order is row-major;
  - the clamped face rectangle and the batch script's unclamped one;
  - the fixed page crop and the OCR upscale rule.
- **The report** (`report.dfy`): the header row, one row per card (index + 1 in column A, the
  running serial in column C, the parsed fields in B and D–H, all on row index + 2), and the
  column widths `min(longest + 2, 60)` with the thumbnail column fixed at 18.

Behaviour a reader may not expect:
- The batch script's correction table for `normalize_marathi` is not idempotent: the entry that rewrites the
  bare letter य as वय turns वय into ववय, then into वववय (`Bulk.NormalizeNotIdempotent`). The
  script applies the table twice to every line: once in `parse_card` (`bulk_extract.py:249`)
  and again inside `extract_after_keyword` (`bulk_extract.py:227`).
- `extract_after_keyword` returns "" when no normalised line holds a key. It also returns ""
  when the first line holding a key has nothing after it, as for the line `घर:`
  (`Bulk.KeyWithoutValue`).
- `api.py`'s and `text-extract.py`'s `clean_house` keep Devanagari digits (a house ५५ stays
  ५५). Only the batch script turns them into Latin digits.
- `text-extract.py` returns an empty gender pair for empty text. The batch script falls back to
  the feminine value, not the masculine one.
- House, age and gender are searched in the whole OCR text, including lines the earlier steps
  consumed.

The literals of `bulk_extract.py` are stored as UTF-8 read as Mac Roman, as in `‡§µ‡§Ø`. The
model uses the Devanagari those bytes spell (`वय`). The digit tables are those of `api.py`,
and the model states as `ValidTables` what it needs of them: ten entries each, all distinct.

## Model

| member | source | states |
|---|---|---|
| Text.Upper | bulk_extract.py:130 | `s.upper()` keeps the length and maps each character on its own; no ASCII lower-case letter is left |
| Text.Lower | api.py:105 | `code.lower()` keeps the length and maps each character on its own; no ASCII capital is left |
| Text.StripWhere | bulk_extract.py:230 | `strip(" :")`: the result neither starts nor ends with a stripped character |
| Text.StripWhereSlice | bulk_extract.py:230 | the stripped result is a slice of the input, and every character outside it is a stripped one |
| Text.Words | api.py:73 | `str.split()` yields only non-empty words without whitespace |
| Text.WordsOfJoin | api.py:75 | splitting `' '.join(words)` gives the same words back |
| Text.JoinSingleSpaced | api.py:75 | `' '.join(words)` has single spaces only, none at either end |
| Text.StripCollapse | api.py:72 | `re.sub(r'\s+', ' ', s).strip()` equals `' '.join(s.split())` |
| Text.Find | bulk_extract.py:229 | the first occurrence of a key at or after a position; none means no occurrence |
| Text.ReplaceAbsent | bulk_extract.py:221 | `text.replace(w, c)` changes nothing when `w` does not occur |
| Text.ReplaceChar | bulk_extract.py:132-137 | replacing one letter by another is a length-preserving per-character map |
| Text.LastPiece | bulk_extract.py:230 | `n.split(k)[-1]` is a suffix of `n` that does not contain `k`; the whole of `n` when `k` does not occur, otherwise preceded in `n` by an occurrence of `k` |
| Text.LastPieceStep | bulk_extract.py:230 | skipping the first occurrence of `k` keeps the piece after an occurrence of `k` |
| Text.SplitOn | api.py:116 | `text.split('\n')` gives at least one piece, none containing a newline |
| Text.SplitOnJoin | api.py:116 | joining the pieces with the separator gives the text back |
| Text.Delete | api.py:129 | `del lines[i]` keeps the lines before `i` and shifts the later ones down by one |
| Text.Filter | api.py:89 | no longer than the input, and only characters of the kept kind |
| Text.FilterCounts | api.py:89 | each kept character occurs in the result as often as in the input; no other character occurs |
| Text.FilterAppend | api.py:89 | filtering a concatenation concatenates the filtered parts, so the order is kept |
| Regex.MatchAtFirst | api.py:119 | the matcher finds a path exactly when the backtracking order has an end, and ends at the first such end |
| Regex.AtomEndsSound | api.py:119 | every end offered for an atom spans text that the atom describes |
| Regex.Search | api.py:119 | `re.search`: a match at the leftmost position where the pattern matches; none when it matches nowhere |
| Regex.SubCollapse | api.py:72 | `re.sub(r'\s+', ' ', s)` turns each maximal whitespace run into one space |
| Regex.SubOne | api.py:69 | `re.sub('[...]', repl, s)` with a one-character class is a per-character map |
| Regex.SearchLiteral | text-extract.py:169 | searching for a plain word finds it exactly when the word occurs |
| Regex.SearchPlus | api.py:93 | `re.search('[k]+', s)` finds the first character of class `k` and takes the longest run from it; none when no character is in `k` |
| Regex.SearchRun | api.py:93-94 | `.group(0)` of that search is the first maximal run; no match means the run is empty |
| Regex.RunOfClass | api.py:97 | the first run holds only class characters and is empty iff none occurs |
| Regex.SearchNeedsLit | api.py:162 | a pattern that opens with a label finds nothing in a text without that label |
| Digits.IndexOf | api.py:101 | `DEV_DIGITS.index(d)` is the first position holding `d` |
| Digits.NormalizeDigits | bulk_extract.py:117-122 | `normalize_digits` keeps the length |
| Digits.NormalizeDigitsMaps | bulk_extract.py:117-122 | the i-th native digit becomes the i-th Latin digit; every other character is kept |
| Digits.NormalizeDigitsIdempotent | bulk_extract.py:117-122 | normalising twice equals normalising once |
| Digits.DevDigitsAre | api.py:48-49 | the tables are ० to ९ (U+0966 to U+096F) and 0 to 9, ten each |
| Digits.StandardTables | api.py:48-49 | the standard tables meet `ValidTables` |
| Digits.StandardDigitValue | api.py:101 | a Devanagari digit maps to the Latin digit of the same value; any other character is unchanged; a character maps to a Latin digit iff it is a digit |
| Digits.StandardNormalize | bulk_extract.py:159 | digits in, Latin digits out, position by position; non-native characters are kept |
| Cleaners.DenoiseClean | api.py:69-71 | after the separator, Latin-fragment and noise substitutions no separator or noise character is left |
| Cleaners.CapWords | api.py:72-76 | collapse, strip and the word cap give the first `min(cap, words)` words, single-spaced |
| Cleaners.KeptWords | api.py:75 | joining a prefix of the words keeps those words and single spacing |
| Cleaners.CleanNameSpec | api.py:68-86 | the words of the cleaned name are the first `cap` words of the denoised text; at most `cap`, single-spaced, clean |
| Cleaners.CleanVoterName | api.py:68-76 | at most 4 words, the first four of the denoised input; single-spaced, no `\| ¦ \ / < > = z & *` |
| Cleaners.CleanRelativeName | api.py:78-86 | at most 3 words, the first three of the denoised input; single-spaced, clean |
| Cleaners.HouseFiltered | api.py:89-90 | the deletion, the no-op `replace('NA', 'NA')` and the strip keep exactly the digits and `NAna/` |
| Cleaners.DropIsFilter | api.py:89 | `re.sub(r'[^\d०-९NAna/]', '', t)` is a filter on the house characters |
| Cleaners.HouseWithDigit | api.py:93-94 | with a digit present the result is the first digit run, not "NA" |
| Cleaners.HouseWithoutDigit | api.py:91-94 | without a digit the result is "NA", through either early return |
| Cleaners.CleanHouseSpec | api.py:88-94 | result is "NA" iff the input has no digit; otherwise the first digit run (Devanagari kept), non-empty |
| Cleaners.CleanAgeSpec | api.py:96-102 | "" iff no digit; otherwise the first digit run, of the same length, native digits turned into the Latin digit of the same value, others kept |
| Cleaners.ContainsLower | api.py:105 | ASCII lowering does not change whether a Devanagari marker occurs |
| Cleaners.ContainsStrip | api.py:105 | stripping does not change whether a marker occurs |
| Cleaners.CleanGenderSpec | api.py:104-109 | the feminine pair iff the code holds जी, स्त्री or स्री; the masculine pair otherwise |
| CardParser.Lines | api.py:116 | every line of the list is stripped and non-blank; no line at all exactly when every piece of `text.split('\n')` is blank |
| CardParser.NonBlank | api.py:116 | at most as many lines as pieces, each stripped and non-blank |
| CardParser.NonBlankEmpty | api.py:116 | the comprehension is empty exactly when every piece strips to nothing |
| CardParser.NonBlankOne | api.py:116 | one piece gives its stripped text, or nothing when blank |
| CardParser.NonBlankAppend | api.py:116 | the lines of two runs of pieces are their lines in order, one after the other |
| CardParser.NonBlankFirst | api.py:116 | the first line is the first non-blank piece, stripped |
| CardParser.LinesFirst | api.py:116 | the first card line is the first non-blank piece of `text.split('\n')`, stripped |
| CardParser.First | api.py:125-130 | the first line passing the test, none before it; none iff no line passes |
| CardParser.IdTextShape | api.py:119-121 | the ID read off a match is a token, a space and a date of the configured shape |
| CardParser.DateShape | text-extract.py:151 | the date part is digits, '/', digits, '/', digits within the configured bounds |
| CardParser.IdStep | api.py:118-122 | an ID is set iff there is a first line and the ID pattern matches in it; the ID is then the token, a space and the date of that leftmost match, and the line is removed; otherwise the lines are untouched |
| CardParser.Candidate | api.py:136-137 | the voter fallback's candidate: text after the first `:` or `ः`, else after the first नाव |
| CardParser.VoterStep | api.py:124-140 | the name came from the line at the reported index and that line is deleted; otherwise the lines are unchanged; at most 4 words |
| CardParser.RelationStep | api.py:142-156 | caption is "", पतीचे नाव or वडिलांचे नाव; "" iff no line matched; the matched line is deleted; at most 3 words |
| CardParser.House | api.py:158-160 | `clean_house` of the text after the house label when it matches, else "NA"; so "NA" or a non-empty digit run, and "NA" when the text lacks घर |
| CardParser.Age | api.py:162-164 | `clean_age` of the digits after the age label when it matches, else ""; so "" or Latin digits, and "" when the text lacks वय |
| CardParser.GenderOf | api.py:166-170 | always one of the two pairs; feminine iff the label matched and its token holds a marker; masculine without लिंग |
| CardParser.Parse | api.py:111-172 | total; house, age, relation label and word caps in range; no relation label means no relation name; ID "" or well-shaped; a gender pair unless the variant stops on empty text and the text is empty |
| CardParser.VoterPrecedence | text-extract.py:157-174 | the first labelled line wins; without one, the fallback takes the first line with नाव, no kin word and no field word, or nothing |
| CardParser.RelationPrecedence | text-extract.py:177-191 | the earliest line matching either label wins; within it पतीचे is tried before वडिल; "" iff no line matches |
| CardParser.VoterLineNotReused | api.py:124-156 | the relative's line is never the voter's line |
| CardParser.EmptyText | text-extract.py:140-145 | empty text gives all defaults with an empty gender pair in `text-extract.py`; `api.py` gives the masculine pair |
| CardParser.WholeTextFields | text-extract.py:193-209 | house, age and gender depend on the whole text only, so they are equal in both variants |
| CardParser.NameTailAt | text-extract.py:178 | `\s*[:ः]?\s*(.+)` matches from a blank followed by a name |
| CardParser.VadilSpellings | text-extract.py:178 | the `text-extract.py` father's-name pattern accepts both वडिले नाव and वडिलांचे नाव |
| CardParser.ReadId | api.py:118-122 | the ID step's loop program computes `IdStep` |
| CardParser.ReadVoter | api.py:124-140 | the for/else loops with `del` and `break` compute `VoterStep` |
| CardParser.ReadRelation | api.py:142-156 | the relation loop computes `RelationStep` |
| CardParser.ParseCard | api.py:111-172 | the imperative `parse_card` equals `Parse` |
| Geometry.CropGrid | api.py:176-190 | rows·cols boxes; box k is the grid box of row k / cols and column k % cols |
| Geometry.GridCell | api.py:183-184 | card k lies in row k / cols < rows and column k % cols < cols |
| Geometry.GridBoxAt | api.py:185 | the box at row r, column c is (c·cw, r·rh, (c+1)·cw, (r+1)·rh) |
| Geometry.GridInside | api.py:179-185 | every box lies inside the page and measures exactly cw by rh |
| Geometry.GridDisjoint | api.py:183-185 | two different boxes share no pixel |
| Geometry.GridSlack | api.py:180 | the dropped slack is under cols pixels across and under rows pixels down |
| Geometry.GridCovers | api.py:180-185 | every pixel outside the slack lies in some box |
| Geometry.CellOf | api.py:180 | the cell index of a pixel is its coordinate divided by the cell size, and the pixel lies in that cell |
| Geometry.Decimal | text-extract.py:59 | `str(n)` is a non-empty string of ASCII digits |
| Geometry.Pad2Small | text-extract.py:59 | `{n:02d}` is the two digits of n below 100 |
| Geometry.CardNameLayout | text-extract.py:59 | `card_RR_CC.png` is 14 characters with the digits in fixed places |
| Geometry.GridCutAt | text-extract.py:57-59 | the cut at row r, column c has the grid box and the name with r + 1 and c + 1 |
| Geometry.CropNamedGrid | text-extract.py:50-63 | the `saved` list holds rows·cols named cuts in row-major order (the batch split uses the name prefix) |
| Geometry.DigitOrder | text-extract.py:63 | digit characters order as their values |
| Geometry.NameOrder | text-extract.py:59-63 | for rows and columns below 100, names order like (row, column) pairs |
| Geometry.RowMajor | api.py:183-184 | a later index is in a later row, or in the same row and a later column |
| Geometry.NamesSorted | text-extract.py:63 | for up to 99 rows and columns, sorting the names keeps the row-major order |
| Geometry.RatioAtMost | api.py:196-199 | a ratio at most 1 never exceeds the side |
| Geometry.FaceBox | api.py:195-203 | "no box" iff ⌊98w/100⌋ ≤ ⌊78w/100⌋ or ⌊85h/100⌋ ≤ ⌊30h/100⌋; otherwise 0 ≤ left < right ≤ w and 0 ≤ top < bottom ≤ h |
| Geometry.FaceBoxExists | api.py:196-203 | there is a box iff the card is at least 5 pixels wide and 2 high |
| Geometry.BulkFaceBox | bulk_extract.py:290-297 | the unclamped batch box still lies inside the card; it has width iff w ≥ 5 |
| Geometry.BulkFaceEdges | bulk_extract.py:292-295 | the four batch edges are in order and within the card |
| Geometry.PageBox | bulk_extract.py:78-82 | the page crop is w − 148 wide and 2930 high |
| Geometry.PageBoxInside | bulk_extract.py:31-34 | the crop lies inside the page iff it is at least 148 wide and 3270 high |
| Geometry.Upscale | api.py:56-57 | both sides doubled iff width is under the threshold, else unchanged; the aspect ratio is kept |
| Report.IntText | api.py:303 | `str(n)` is non-empty digits, with a leading '-' for negatives |
| Report.Shown | api.py:303 | a truthy value never shows as "" |
| Report.OcrText | text-extract.py:279 | a failed OCR or a card past the results reads as "" |
| Report.HeaderCells | api.py:219-226 | row 1 holds the nine headers in order |
| Report.WriteRow | api.py:254-261 | the row holds the cells from column A on; every other row is unchanged |
| Report.FillRows | api.py:239-291 | row idx + 2 holds index + 1, the ID, serial start + idx and the parsed fields of card idx; exactly the header and data cells are written |
| Report.Column | api.py:299-303 | `ws.columns` yields one cell per row, empty where nothing was written |
| Report.Longest | api.py:303 | the longest truthy value: every truthy value fits, and one reaches it unless it is 0 |
| Report.Width | api.py:304 | between 2 and 60; two more than each value up to 58 long; 2 iff the column has no truthy value; 60 iff some truthy value is at least 58 long |
| Report.WidthRule | text-extract.py:321-322 | for `m` the longest truthy length, the width is `min(m + 2, 60)` |
| Report.SetWidths | text-extract.py:316-322 | column I is 18; each other column gets `Width` of its cells |
| Report.GenerateReport | text-extract.py:273-322 | the rows of every card in order, then the widths over n + 1 rows |
| Bulk.ReplaceEachAt | bulk_extract.py:132-137 | the six replacements keep the length and map each character through the chain |
| Bulk.SwapConfusables | bulk_extract.py:132-137 | no character comes out as one of O I L B S G; others are kept; the ID charset is kept |
| Bulk.RepairedFree | bulk_extract.py:130-137 | after upper-casing and the replacements no confusable letter is left |
| Bulk.ConfusableDigits | bulk_extract.py:132-137 | O becomes 0, I and L become 1, B becomes 8, S becomes 5, G becomes 6 |
| Bulk.NormalizeOcrId | bulk_extract.py:125-139 | "" for ""; otherwise the upper-cased text with each character put through the replacement chain, filtered to `[A-Z0-9/]` in order; never O, I, L, B, S or G |
| Bulk.OcrIdFixed | bulk_extract.py:125-139 | a string already in the output charset is left as it is |
| Bulk.OcrIdIdempotent | bulk_extract.py:125-139 | repairing twice equals repairing once |
| Bulk.ExtractCardId | bulk_extract.py:176-187 | "" iff the pattern finds nothing in the repaired text; otherwise the text of its leftmost match, 2–4 capitals then 6–10 of `[0-9A-Z]` |
| Bulk.CardIdText | bulk_extract.py:183-187 | the text from the start of the match to its end has the ID shape and keeps the repaired charset |
| Bulk.ExtractRegNo | bulk_extract.py:190-200 | "" iff the pattern finds nothing in the repaired text; otherwise the text of its leftmost match, a/b/c with 1–3, 1–3 and 1–5 digits |
| Bulk.RegNoText | bulk_extract.py:196-200 | the text from the start of the match to its end has the registration-number shape |
| Bulk.CleanNameSpec | bulk_extract.py:142-153 | the first `cap` words of the text with separators blanked; single-spaced, no separator |
| Bulk.CleanVoterName | bulk_extract.py:142-146 | the first four words; single-spaced, no `\| ¦ \ / < >` |
| Bulk.CleanRelativeName | bulk_extract.py:149-153 | the first three words; single-spaced, no separator |
| Bulk.Latin | bulk_extract.py:159 | `normalize_digits` with the standard tables keeps the length; digits become Latin digits, other characters stay |
| Bulk.DigitRun | bulk_extract.py:159-161 | `[0-9]+` finds a run iff the input had a digit; the run is the first Latin run, non-empty |
| Bulk.CleanHouse | bulk_extract.py:156-161 | "NA" iff no digit; otherwise the first run of Latin digits after translation, non-empty |
| Bulk.CleanAge | bulk_extract.py:164-169 | "" iff no digit; otherwise the first run of Latin digits after translation |
| Bulk.MarathiFixesValid | bulk_extract.py:210-218 | no misreading in the table is empty |
| Bulk.WrongsAbsent | bulk_extract.py:220-221 | misreadings that do not occur leave the text alone |
| Bulk.FixesAbsent | bulk_extract.py:219-221 | a text holding none of the table's misreadings is left alone |
| Bulk.NormalizeAbsent | bulk_extract.py:207-222 | such a line comes out of `normalize_marathi` unchanged |
| Bulk.NormalizeMarathi | bulk_extract.py:207-222 | the nested replacement loops compute `Normalize`, entries in dictionary order |
| Bulk.ApplyFixesAppend | bulk_extract.py:219-221 | running the table in two parts is running it whole |
| Bulk.ApplyFixesFixed | bulk_extract.py:219-221 | entries that each leave a text alone leave it alone together |
| Bulk.YaGrows | bulk_extract.py:216 | the age entry puts one more व in front of a run of व closed by य |
| Bulk.NormalizeGrows | bulk_extract.py:207-222 | `normalize_marathi` turns वय into ववय and ववय into वववय |
| Bulk.NormalizeNotIdempotent | bulk_extract.py:207-222 | normalising वय twice gives वववय, not the ववय of one pass |
| Bulk.FirstKey | bulk_extract.py:228-229 | the first key, in order, that occurs in the line; none iff no key occurs |
| Bulk.Tail | bulk_extract.py:230 | the whole line when the key is absent, else the text after an occurrence of the key with no key after it; in both cases only ' ' and ':' removed at the ends, none left there |
| Bulk.KeywordTail | bulk_extract.py:225-231 | the result neither starts nor ends with ' ' or ':' |
| Bulk.NormalizedLines | bulk_extract.py:227 | line by line, the normalised text |
| Bulk.KeywordTailNone | bulk_extract.py:231 | "" when no normalised line holds a key |
| Bulk.KeywordTailFirst | bulk_extract.py:226-230 | the first line holding a key decides: the tail after the first key found in it |
| Bulk.KeyWithoutValue | bulk_extract.py:225-231 | the line `घर:` survives `normalize_marathi` unchanged and holds the house key घर, yet `extract_after_keyword` on it returns "" |
| Bulk.ExtractAfterKeyword | bulk_extract.py:225-231 | the loop with its early return computes `AfterKeyword` |
| Bulk.GenderFull | bulk_extract.py:276-279 | पुरुष iff the gender text holds पु; महिला otherwise |
| Bulk.Parse | bulk_extract.py:234-281 | empty text gives the defaults; otherwise card ID and registration number are those of `extract_card_id` and `extract_reg_no` on the whole text, and each other field is its cleaner applied to the keyword scan of the card lines; the gender is पुरुष iff the gender field holds पु, else महिला; card ID and registration number "" or well-shaped; name caps; house "NA" or Latin digits; age "" or Latin digits |
| Bulk.FieldFirst | bulk_extract.py:225-230 | a field is the tail after the first key found in the first field line holding any of its keys |
| Bulk.FieldNone | bulk_extract.py:231 | a field none of whose keys is on the card is "" |
| Bulk.ParseHouseFirst | bulk_extract.py:267-268 | the house is `clean_house` of the tail after the first house key on the first line holding one |
| Bulk.ParseAgeFirst | bulk_extract.py:271-272 | the age is `clean_age` of the tail after वय on the first line holding it |
| Bulk.ParseFieldsMissing | bulk_extract.py:239-243 | a card without a house key keeps house "NA"; one without the age key gets age "" |
| Bulk.ParseCard | bulk_extract.py:234-281 | the field-by-field method equals `Parse` |

## Left out

- HTTP endpoints, uploads and downloads, and directory creation are I/O. So are the sleep-then-delete cleanup routines and `text-extract.py`'s "skip cropping if cards exist" check.
- Tesseract is a foreign program: OCR results are an input sequence (`Report.OcrText`), where a failed call yields "". That is the `except` branch at `text-extract.py:84-90` and `api.py:236-237`.
- PIL work is pixel manipulation: decoding, cropping pixels, LANCZOS resampling, contrast and sharpness, WEBP/PNG/JPEG encoding. Only box and size arithmetic is modelled.
- The process pools are concurrency. `api.py` collects results in completion order (`as_completed`) and then indexes them by card position, so its rows can pair a card with another card's text. The model takes the result sequence as given and does not claim order preservation for `api.py`.
- openpyxl styling is formatting, not logic: fonts, `add_image`, the float row height `THUMB_H * 0.75`, and saving. Whether a face box exists is modelled (`Geometry.FaceBox`); embedding it is not.
- `bulk_extract.py`'s workbook writer is not part of this model. Its data columns are shifted against its headers, and its `max()` has no default.
- Face ratios are floats in the source. The model reads `int(w * 0.78)` as ⌊78·w/100⌋, which can differ from the float product by one pixel.
- Unicode is assumed narrower than Python's:
  - whitespace is the six ASCII whitespace characters;
  - `\d` is an ASCII or Devanagari digit;
  - `upper()` and `lower()` map ASCII letters only;
  - `re.I` has no effect on the Devanagari patterns.
- The mis-encoded literals of `bulk_extract.py` are read as the Devanagari they encode. As stored, its `DEV_DIGITS` is not ten characters long.
- `bulk_extract.py:248` computes `text_n` and never uses it, so the model has no counterpart for it.
- Bulk.KeywordTailNone: gives "" only in the direction "no key ⇒ """. A line that holds a key with nothing after it also gives "" (`Bulk.KeyWithoutValue`), so there is no "if and only if".
- Bulk.Parse: states the name fields as their cleaners applied to the keyword scans, with their word caps; no lemma walks the voter and relation scans line by line as `Bulk.ParseHouseFirst` does for the house. Most OCR text never reaches the voter keys मतदाराचे पूर्ण and मतदाराचे as the script intends, because normalisation first rewrites मतदाराचे to मतदार.
- Bulk.NormalizeNotIdempotent: covers one input only. The single-letter entry य also rewrites names, for example विजय into विजवय. That is not proved.
- Cleaners.CleanHouseSpec: returns the digit run as found. Devanagari digits are not turned into Latin ones, as `api.py` does it.
- Geometry.CropGrid, Geometry.CropNamedGrid: require `cols > 0` and `rows > 0`. With zero columns or rows the scripts' `w // cols` raises `ZeroDivisionError`, which the model does not represent.
- Report.SetWidths: models widths as numbers on a sequence, not as openpyxl column objects.
