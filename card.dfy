/** The pure display helpers of the record card (`src/shared/components/Card.tsx`). */
module Card {
  import opened Wrappers
  import opened Strings
  import opened Score

  /** JavaScript's `%`: the remainder takes the sign of the dividend. */
  function JsRemainder(a: int, b: int): (r: int)
    requires b > 0
    ensures a >= 0 ==> 0 <= r < b && r == a % b
    ensures a < 0 ==> -b < r <= 0 && r == -((-a) % b)
  {
    if a >= 0 then a % b else -((-a) % b)
  }

  /** `formatDuration(seconds)` for a whole number of seconds: `Math.floor(seconds / 60)`,
    * a colon, and `seconds % 60` left-padded with `0` to two characters. */
  function FormatDuration(seconds: int): string
  {
    var minutes := seconds / 60;
    var rest := JsRemainder(seconds, 60);
    IntToString(minutes) + ":" + PadStart(IntToString(rest), 2, '0')
  }

  /** `num.toString()` for a number below 10000; `None` stands for the `toFixed(1) + '万'`
    * branch taken from 10000 on. */
  function FormatNumber(num: int): (text: Option<string>)
    ensures num < 10000 <==> text.Some?
  {
    if num >= 10000 then None else Some(IntToString(num))
  }

  /** `text` is some minutes digits without a leading zero, a colon and exactly two
    * seconds digits, and reading both parts back gives `seconds`. */
  predicate ReadsBackAs(text: string, seconds: nat)
  {
    var k := |text| - 3;
    && k >= 1 && text[k] == ':'
    && (k > 1 ==> text[0] != '0')
    && AllDigits(text[..k]) && AllDigits(text[k + 1..])
    && ParseNat(text[k + 1..]) < 60
    && ParseNat(text[..k]) * 60 + ParseNat(text[k + 1..]) == seconds
  }

  /** For a natural number of seconds the text is the unpadded minutes, a colon and two
    * seconds digits, and it reads back as the seconds. */
  lemma DurationRoundTrip(seconds: nat)
    ensures ReadsBackAs(FormatDuration(seconds), seconds)
  {
    var m, r := seconds / 60, seconds % 60;
    var minutes := NatToString(m);
    var secs := PadStart(NatToString(r), 2, '0');
    assert JsRemainder(seconds, 60) == r;
    assert FormatDuration(seconds) == minutes + ":" + secs;
    ParseNatToString(m);
    PaddedSeconds(r);
    ColonParts(minutes, secs, m, r);
  }

  /** Unpadded digits, a colon and two digits read back as minutes and seconds. */
  lemma ColonParts(minutes: string, secs: string, m: nat, r: nat)
    requires 1 <= |minutes| && AllDigits(minutes) && ParseNat(minutes) == m
    requires |minutes| > 1 ==> minutes[0] != '0'
    requires |secs| == 2 && AllDigits(secs) && ParseNat(secs) == r && r < 60
    ensures ReadsBackAs(minutes + ":" + secs, m * 60 + r)
  {
    var text := minutes + ":" + secs;
    assert text[..|minutes|] == minutes;
    assert text[|minutes| + 1..] == secs;
  }

  /** Two-digit padding of a value below 60 parses back to the value. */
  lemma PaddedSeconds(r: nat)
    requires r < 60
    ensures var s := PadStart(NatToString(r), 2, '0');
      |s| == 2 && AllDigits(s) && ParseNat(s) == r
  {
    ParseNatToString(r);
    var digits := NatToString(r);
    var s := PadStart(digits, 2, '0');
    if r < 10 {
      assert s == ['0'] + digits;
      assert s[..1] == ['0'];
    } else {
      assert s == digits;
    }
  }

  /** A negative duration shows JavaScript's signed remainder in both parts. */
  lemma NegativeDuration()
    ensures FormatDuration(-5) == "-1:-5"
  {
    assert JsRemainder(-5, 60) == -5;
    assert IntToString(-1) == "-1";
    assert IntToString(-5) == "-5";
  }

  /** Below 10000 the number is its plain decimal text, which parses back to it. */
  lemma PlainNumberRoundTrip(num: nat)
    requires num < 10000
    ensures FormatNumber(num).Some? && AllDigits(FormatNumber(num).value)
    ensures ParseNat(FormatNumber(num).value) == num
  {
    ParseNatToString(num);
  }

  /** The `scoreColor` table, keyed by level; `None` for a key outside 1..4. */
  function LevelColor(level: int): (color: Option<string>)
    ensures color.Some? <==> 1 <= level <= 4
  {
    if level == 1 then Some("text-slate-500")
    else if level == 2 then Some("text-blue-500")
    else if level == 3 then Some("text-purple-500")
    else if level == 4 then Some("text-yellow-500")
    else None
  }

  /** The colour of a score's level. */
  function ScoreColor(score: int): Option<string>
  {
    LevelColor(GetLevel(score))
  }

  /** Every score has a colour, and different levels have different colours. */
  lemma ScoreColorDefinedAndDistinct(a: int, b: int)
    ensures ScoreColor(a).Some?
    ensures GetLevel(a) != GetLevel(b) ==> ScoreColor(a) != ScoreColor(b)
  {
  }
}
