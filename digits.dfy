/** Devanagari-to-Latin digit translation: `ENG_DIGITS[DEV_DIGITS.index(d)] if d in DEV_DIGITS else d`,
    applied to every character (`clean_age` in the single-sheet scripts, `normalize_digits` in the
    bulk script). */
module Digits {
  import opened Text

  /** `DEV_DIGITS`: the Devanagari digits zero to nine, U+0966..U+096F. */
  const DevDigits: string := "०१२३४५६७८९"

  /** `ENG_DIGITS` */
  const EngDigits: string := "0123456789"

  /** Ten source digits with no repeats and no overlap with the ten target digits: what the
      lookup `eng[dev.index(c)]` needs to be in bounds and to be undone by nothing. */
  predicate ValidTables(dev: string, eng: string) {
    |dev| == 10 && |eng| == 10 &&
    (forall i, j :: 0 <= i < j < 10 ==> dev[i] != dev[j]) &&
    (forall i, j :: 0 <= i < 10 && 0 <= j < 10 ==> dev[i] != eng[j])
  }

  /** `s.index(c)`: the first position of `c`. */
  function IndexOf(s: string, c: char): (r: nat)
    requires c in s
    ensures r < |s| && s[r] == c
    ensures forall j :: 0 <= j < r ==> s[j] != c
  {
    if s[0] == c then 0 else 1 + IndexOf(s[1..], c)
  }

  function MapDigit(dev: string, eng: string, c: char): char
    requires |dev| <= |eng|
  {
    if c in dev then eng[IndexOf(dev, c)] else c
  }

  /** `"".join(eng[dev.index(ch)] if ch in dev else ch for ch in s)` */
  function NormalizeDigits(dev: string, eng: string, s: string): (r: string)
    requires |dev| <= |eng|
    ensures |r| == |s|
  {
    if s == [] then [] else [MapDigit(dev, eng, s[0])] + NormalizeDigits(dev, eng, s[1..])
  }

  lemma {:induction false} NormalizeDigitsAt(dev: string, eng: string, s: string, i: nat)
    requires |dev| <= |eng| && i < |s|
    ensures NormalizeDigits(dev, eng, s)[i] == MapDigit(dev, eng, s[i])
    decreases i
  {
    if i > 0 {
      NormalizeDigitsAt(dev, eng, s[1..], i - 1);
    }
  }

  /** The `x`-th source digit becomes the `x`-th target digit; every other character is kept. */
  lemma NormalizeDigitsMaps(dev: string, eng: string, s: string)
    requires ValidTables(dev, eng)
    ensures |NormalizeDigits(dev, eng, s)| == |s|
    ensures forall i, x :: 0 <= i < |s| && 0 <= x < 10 && s[i] == dev[x] ==>
      NormalizeDigits(dev, eng, s)[i] == eng[x]
    ensures forall i :: 0 <= i < |s| && s[i] !in dev ==> NormalizeDigits(dev, eng, s)[i] == s[i]
  {
    forall i, x | 0 <= i < |s| && 0 <= x < 10 && s[i] == dev[x]
      ensures NormalizeDigits(dev, eng, s)[i] == eng[x]
    {
      NormalizeDigitsAt(dev, eng, s, i);
    }
    forall i | 0 <= i < |s| && s[i] !in dev ensures NormalizeDigits(dev, eng, s)[i] == s[i] {
      NormalizeDigitsAt(dev, eng, s, i);
    }
  }

  /** Translating twice is translating once: no target digit is a source digit. */
  lemma {:induction false} NormalizeDigitsIdempotent(dev: string, eng: string, s: string)
    requires ValidTables(dev, eng)
    ensures NormalizeDigits(dev, eng, NormalizeDigits(dev, eng, s)) == NormalizeDigits(dev, eng, s)
    decreases |s|
  {
    if s != [] {
      assert MapDigit(dev, eng, s[0]) !in dev;
      NormalizeDigitsIdempotent(dev, eng, s[1..]);
    }
  }

  lemma DevDigitsAre()
    ensures |DevDigits| == 10 && |EngDigits| == 10
    ensures forall x :: 0 <= x < 10 ==> DevDigits[x] == (0x966 + x) as char
    ensures forall x :: 0 <= x < 10 ==> EngDigits[x] == ('0' as int + x) as char
  {
  }

  /** The scripts' own tables are valid. */
  lemma StandardTables()
    ensures ValidTables(DevDigits, EngDigits)
  {
    DevDigitsAre();
  }

  /** With the scripts' tables every digit (Latin or Devanagari) becomes the Latin digit of the
      same value, and nothing else changes. */
  lemma StandardDigitValue(c: char)
    ensures IsDevanagariDigit(c) ==>
      MapDigit(DevDigits, EngDigits, c) == ('0' as int + (c as int - 0x966)) as char
    ensures !IsDevanagariDigit(c) ==> MapDigit(DevDigits, EngDigits, c) == c
    ensures IsDigit(c) <==> IsAsciiDigit(MapDigit(DevDigits, EngDigits, c))
  {
    DevDigitsAre();
    if IsDevanagariDigit(c) {
      var x := c as int - 0x966;
      assert DevDigits[x] == c;
      var k := IndexOf(DevDigits, c);
      assert k == x;
    } else {
      assert c !in DevDigits;
    }
  }

  /** Standard translation of a text: every digit becomes a Latin digit and digits stay digits. */
  lemma StandardNormalize(s: string)
    ensures var r := NormalizeDigits(DevDigits, EngDigits, s);
      |r| == |s| &&
      (forall i :: 0 <= i < |s| ==> (IsDigit(s[i]) <==> IsAsciiDigit(r[i]))) &&
      (forall i :: 0 <= i < |s| && !IsDevanagariDigit(s[i]) ==> r[i] == s[i])
  {
    var r := NormalizeDigits(DevDigits, EngDigits, s);
    forall i | 0 <= i < |s|
      ensures (IsDigit(s[i]) <==> IsAsciiDigit(r[i])) && (!IsDevanagariDigit(s[i]) ==> r[i] == s[i])
    {
      NormalizeDigitsAt(DevDigits, EngDigits, s, i);
      StandardDigitValue(s[i]);
    }
  }
}
