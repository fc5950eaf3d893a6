/** Character-level helpers: decimal rendering of integers, its inverse,
  * substring search, padding and joining. */
module Strings {

  predicate IsDigit(c: char)
  {
    '0' <= c <= '9'
  }

  predicate AllDigits(s: string)
  {
    forall i :: 0 <= i < |s| ==> IsDigit(s[i])
  }

  function DigitChar(d: nat): (c: char)
    requires d < 10
    ensures IsDigit(c) && (c as int) - ('0' as int) == d
  {
    (('0' as int) + d) as char
  }

  function DigitValue(c: char): (d: nat)
    requires IsDigit(c)
    ensures d < 10
  {
    (c as int) - ('0' as int)
  }

  /** The decimal representation of a natural number, as `Number.prototype.toString` gives it. */
  function NatToString(n: nat): (s: string)
    ensures 1 <= |s| && AllDigits(s)
    ensures n < 10 <==> |s| == 1
    ensures |s| > 1 ==> s[0] != '0'
    decreases n
  {
    if n < 10 then [DigitChar(n)] else NatToString(n / 10) + [DigitChar(n % 10)]
  }

  /** The decimal representation of an integer, with a leading `-` when it is negative. */
  function IntToString(n: int): (s: string)
    ensures n >= 0 ==> 1 <= |s| && AllDigits(s)
    ensures n < 0 ==> 2 <= |s| && s[0] == '-' && AllDigits(s[1..])
  {
    if n < 0 then "-" + NatToString(-n) else NatToString(n)
  }

  /** The sign and the digits of `IntToString` read back as the integer. */
  lemma IntToStringReadsBack(n: int)
    ensures n >= 0 ==> ParseNat(IntToString(n)) == n
    ensures n < 0 ==> ParseNat(IntToString(n)[1..]) == -n
  {
    var s := IntToString(n);
    if n < 0 {
      var digits := NatToString(-n);
      assert s == "-" + digits;
      assert s[1..] == digits;
      ParseNatToString(-n);
    } else {
      var digits := NatToString(n);
      assert s == digits;
      ParseNatToString(n);
    }
  }

  /** The value of a non-empty string of decimal digits. */
  function ParseNat(s: string): nat
    requires 1 <= |s| && AllDigits(s)
    decreases |s|
  {
    if |s| == 1 then DigitValue(s[0])
    else ParseNat(s[..|s| - 1]) * 10 + DigitValue(s[|s| - 1])
  }

  /** Parsing the decimal representation gives the number back. */
  lemma {:induction false} ParseNatToString(n: nat)
    ensures ParseNat(NatToString(n)) == n
    decreases n
  {
    if n >= 10 {
      var s := NatToString(n);
      assert s[..|s| - 1] == NatToString(n / 10);
      ParseNatToString(n / 10);
    }
  }

  /** `s.padStart(width, fill)`: left-pad `s` with `fill` up to `width` characters. */
  function PadStart(s: string, width: nat, fill: char): (r: string)
    ensures |r| == if |s| >= width then |s| else width
    ensures r[|r| - |s|..] == s
    ensures forall i :: 0 <= i < |r| - |s| ==> r[i] == fill
    decreases width - |s|
  {
    if |s| >= width then s else PadStart([fill] + s, width, fill)
  }

  /** `pattern` occurs in `s` starting at position `i`. */
  predicate OccursAt(s: string, pattern: string, i: nat)
  {
    i + |pattern| <= |s| && s[i..i + |pattern|] == pattern
  }

  /** `s.includes(pattern)`. */
  predicate Contains(s: string, pattern: string)
  {
    exists i: nat | i <= |s| :: OccursAt(s, pattern, i)
  }

  /** `parts.join(sep)`. */
  function Join(parts: seq<string>, sep: string): (r: string)
    ensures parts == [] ==> r == ""
    ensures |parts| == 1 ==> r == parts[0]
  {
    if parts == [] then ""
    else if |parts| == 1 then parts[0]
    else parts[0] + sep + Join(parts[1..], sep)
  }

  /** Two parts are joined with one separator between them. */
  lemma JoinTwo(parts: seq<string>, sep: string)
    requires |parts| == 2
    ensures Join(parts, sep) == parts[0] + sep + parts[1]
  {
    assert parts[1..] == [parts[1]];
  }

  /** Where part `i` starts in `Join(parts, sep)`: the parts before it, each followed by `sep`. */
  function JoinOffset(parts: seq<string>, sep: string, i: nat): nat
    requires i <= |parts|
  {
    if i == 0 then 0 else JoinOffset(parts, sep, i - 1) + |parts[i - 1]| + |sep|
  }

  /** `part` occurs in `text` at offset `off`. */
  predicate PartAt(text: string, part: string, off: nat)
  {
    off + |part| <= |text| && text[off..off + |part|] == part
  }

  /** Part `i` sits at its offset in `text`, followed by `sep` when another part comes
    * after it and by the end of `text` when it is the last. */
  predicate LaidOut(text: string, parts: seq<string>, sep: string, i: nat)
    requires i < |parts|
  {
    var off := JoinOffset(parts, sep, i);
    && PartAt(text, parts[i], off)
    && (i + 1 < |parts| ==> PartAt(text, sep, off + |parts[i]|))
    && (i + 1 == |parts| ==> off + |parts[i]| == |text|)
  }

  /** The joined text holds every part at its offset, with `sep` between consecutive
    * parts and nothing after the last part. */
  lemma {:induction false} JoinLayout(parts: seq<string>, sep: string, i: nat)
    requires i < |parts|
    ensures LaidOut(Join(parts, sep), parts, sep, i)
    decreases i
  {
    if i == 0 {
      if |parts| > 1 {
        JoinHead(parts[0], sep, Join(parts[1..], sep));
      }
    } else {
      var tail := parts[1..];
      JoinLayout(tail, sep, i - 1);
      OffsetShift(parts, sep, i);
      assert tail[i - 1] == parts[i];
      JoinShift(parts[0] + sep, Join(tail, sep), JoinOffset(tail, sep, i - 1), parts[i], sep, i + 1 < |parts|);
    }
  }

  /** The first part and the separator after it. */
  lemma JoinHead(first: string, sep: string, rest: string)
    ensures (first + sep + rest)[..|first|] == first
    ensures (first + sep + rest)[|first|..|first| + |sep|] == sep
  {
    var text := first + sep + rest;
    assert forall k :: 0 <= k < |first| ==> text[k] == first[k];
    assert forall k :: |first| <= k < |first| + |sep| ==> text[k] == sep[k - |first|];
  }

  /** A part found at offset `off` of `rest` lies at `|head| + off` of `head + rest`,
    * and so does the separator after it. */
  lemma JoinShift(head: string, rest: string, off: nat, part: string, sep: string, more: bool)
    requires PartAt(rest, part, off)
    requires more ==> PartAt(rest, sep, off + |part|)
    ensures var lo := |head| + off;
      && PartAt(head + rest, part, lo)
      && (more ==> PartAt(head + rest, sep, lo + |part|))
      && (|head + rest| - (lo + |part|) == |rest| - (off + |part|))
  {
    var lo := |head| + off;
    ShiftedSlice(head, rest, lo, lo + |part|);
    if more {
      ShiftedSlice(head, rest, lo + |part|, lo + |part| + |sep|);
    }
  }

  /** Offsets in the tail are the offsets in the whole list less the first part and its separator. */
  lemma {:induction false} OffsetShift(parts: seq<string>, sep: string, i: nat)
    requires 1 <= i <= |parts|
    ensures JoinOffset(parts, sep, i) == |parts[0]| + |sep| + JoinOffset(parts[1..], sep, i - 1)
    decreases i
  {
    if i > 1 {
      OffsetShift(parts, sep, i - 1);
    }
  }

  /** A slice that lies in the second half of a concatenation. */
  lemma ShiftedSlice(a: string, b: string, lo: nat, hi: nat)
    requires |a| <= lo <= hi <= |a| + |b|
    ensures (a + b)[lo..hi] == b[lo - |a|..hi - |a|]
  {
    assert forall k :: lo <= k < hi ==> (a + b)[k] == b[k - |a|];
  }
}
