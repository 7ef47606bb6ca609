/** File-name time stamps: `new Date().toISOString()` with every '-', ':'
    and '.' removed, cut to 15 characters and, for video files, with the
    'T' turned into '_' (YYYYMMDD_HHMMSS). The clock reading is a
    parameter (an Instant). */
module Timestamp {

  /** The characters `/[-:.]/g` removes. */
  predicate IsSeparator(c: char) {
    c == '-' || c == ':' || c == '.'
  }

  /** `.replace(/[-:.]/g, '')`. */
  function Strip(s: string): (r: string)
    ensures |r| <= |s|
    ensures forall i :: 0 <= i < |r| ==> !IsSeparator(r[i])
  {
    if s == [] then [] else (if IsSeparator(s[0]) then [] else [s[0]]) + Strip(s[1..])
  }

  /** `.slice(0, n)`. */
  function Take(s: string, n: nat): (r: string)
    ensures |r| == if |s| <= n then |s| else n
    ensures r == s[..|r|]
  {
    if |s| <= n then s else s[..n]
  }

  /** Index of the first occurrence of c, or |s| when there is none. */
  function IndexOf(s: string, c: char): (r: nat)
    ensures r <= |s|
    ensures r < |s| ==> s[r] == c
    ensures forall i :: 0 <= i < r ==> s[i] != c
  {
    if s == [] then 0 else if s[0] == c then 0 else 1 + IndexOf(s[1..], c)
  }

  /** `.replace(c, d)` with a string pattern: only the first occurrence. */
  function ReplaceFirst(s: string, c: char, d: char): (r: string)
    ensures |r| == |s|
  {
    if s == [] then []
    else if s[0] == c then [d] + s[1..]
    else [s[0]] + ReplaceFirst(s[1..], c, d)
  }

  /** Only the first occurrence of c is replaced; every other character,
      and the whole string when c does not occur, is kept. */
  lemma {:induction false} ReplaceFirstSpec(s: string, c: char, d: char)
    ensures forall i :: 0 <= i < |s| ==> ReplaceFirst(s, c, d)[i] == if i == IndexOf(s, c) then d else s[i]
  {
    if s != [] && s[0] != c {
      ReplaceFirstSpec(s[1..], c, d);
      forall i | 0 < i < |s|
        ensures ReplaceFirst(s, c, d)[i] == if i == IndexOf(s, c) then d else s[i]
      {
        assert ReplaceFirst(s, c, d)[i] == ReplaceFirst(s[1..], c, d)[i - 1];
        assert s[i] == s[1..][i - 1];
      }
    }
  }

  /** The stamp of the temporary photo file, which keeps the 'T': the first
      15 characters of the ISO string once its separators are gone. */
  function TempTimestamp(iso: string): (r: string)
    ensures |r| == if |Strip(iso)| <= 15 then |Strip(iso)| else 15
    ensures r == Strip(iso)[..|r|]
    ensures forall i :: 0 <= i < |r| ==> !IsSeparator(r[i])
  {
    Take(Strip(iso), 15)
  }

  /** generateTimestamp, given the ISO string of the current instant: the
      temporary stamp with its first 'T' (and nothing else) turned into '_'. */
  function GenerateTimestamp(iso: string): (r: string)
    ensures |r| == |TempTimestamp(iso)|
    ensures forall i :: 0 <= i < |r| ==>
      r[i] == if i == IndexOf(TempTimestamp(iso), 'T') then '_' else TempTimestamp(iso)[i]
  {
    ReplaceFirstSpec(TempTimestamp(iso), 'T', '_');
    ReplaceFirst(TempTimestamp(iso), 'T', '_')
  }

  /** The file-name part of createVideoPath. */
  function VideoFileName(prefix: string, iso: string): (r: string)
    ensures |r| == |prefix| + |GenerateTimestamp(iso)| + 5
    ensures r[..|prefix| + 1] == prefix + "_"
    ensures r[|prefix| + 1..|prefix| + 1 + |GenerateTimestamp(iso)|] == GenerateTimestamp(iso)
    ensures r[|prefix| + 1 + |GenerateTimestamp(iso)|..] == ".avi"
  {
    var name := prefix + "_" + GenerateTimestamp(iso) + ".avi";
    assert name[..|prefix| + 1] == prefix + "_";
    name
  }

  /** A UTC instant with the fields `toISOString` prints. */
  datatype Instant = Instant(year: nat, month: nat, day: nat, hour: nat, minute: nat, second: nat, millis: nat)

  /** Four-digit years and in-range fields. */
  predicate Valid(t: Instant) {
    t.year <= 9999 && 1 <= t.month <= 12 && 1 <= t.day <= 31
    && t.hour <= 23 && t.minute <= 59 && t.second <= 59 && t.millis <= 999
  }

  predicate IsDigit(c: char) {
    '0' <= c <= '9'
  }

  function Pow10(w: nat): (r: nat)
    ensures r >= 1
  {
    if w == 0 then 1 else 10 * Pow10(w - 1)
  }

  /** The last w decimal digits of n, zero-padded. */
  function Digits(n: nat, w: nat): (r: string)
    ensures |r| == w
    ensures forall i :: 0 <= i < |r| ==> IsDigit(r[i])
  {
    if w == 0 then [] else Digits(n / 10, w - 1) + ['0' + (n % 10) as char]
  }

  /** The layout of `toISOString()`, YYYY-MM-DDTHH:mm:ss.sssZ, filled
      with the given fields. */
  function IsoOf(y: string, mo: string, d: string, h: string, mi: string, sec: string, ms: string): string {
    IsoDate(y, mo, d) + "T" + IsoTime(h, mi, sec, ms)
  }

  function IsoDate(y: string, mo: string, d: string): string {
    y + "-" + mo + "-" + d
  }

  function IsoTime(h: string, mi: string, sec: string, ms: string): string {
    h + ":" + mi + ":" + sec + "." + ms + "Z"
  }

  /** `toISOString()`. */
  function IsoString(t: Instant): string {
    IsoOf(Digits(t.year, 4), Digits(t.month, 2), Digits(t.day, 2),
          Digits(t.hour, 2), Digits(t.minute, 2), Digits(t.second, 2), Digits(t.millis, 3))
  }

  predicate AllDigits(s: string) {
    forall i :: 0 <= i < |s| ==> IsDigit(s[i])
  }

  lemma {:induction false} StripConcat(a: string, b: string)
    ensures Strip(a + b) == Strip(a) + Strip(b)
  {
    if a == [] {
      assert a + b == b;
    } else {
      assert (a + b)[1..] == a[1..] + b;
      StripConcat(a[1..], b);
    }
  }

  /** Strip removes separators and nothing else. */
  lemma {:induction false} StripKeepsPlain(s: string)
    requires forall i :: 0 <= i < |s| ==> !IsSeparator(s[i])
    ensures Strip(s) == s
  {
    if s != [] {
      StripKeepsPlain(s[1..]);
    }
  }

  lemma {:induction false} ReplaceFirstAt(a: string, c: char, d: char, b: string)
    requires forall i :: 0 <= i < |a| ==> a[i] != c
    ensures ReplaceFirst(a + [c] + b, c, d) == a + [d] + b
  {
    var s := a + [c] + b;
    if a == [] {
      assert s == [c] + b;
    } else {
      assert s[0] == a[0] && s[0] != c;
      assert s[1..] == a[1..] + [c] + b;
      ReplaceFirstAt(a[1..], c, d, b);
      assert a + [d] + b == [a[0]] + (a[1..] + [d] + b);
    }
  }

  /** Appending a separator adds nothing to the stripped string ... */
  lemma {:induction false} StripSeparator(a: string, c: char)
    requires IsSeparator(c)
    ensures Strip(a + [c]) == Strip(a)
  {
    StripConcat(a, [c]);
    assert Strip([c]) == [] + Strip([]);
  }

  /** ... and appending separator-free text keeps all of it. */
  lemma {:induction false} StripPlain(a: string, b: string)
    requires forall i :: 0 <= i < |b| ==> !IsSeparator(b[i])
    ensures Strip(a + b) == Strip(a) + b
  {
    StripConcat(a, b);
    StripKeepsPlain(b);
  }

  /** A separator followed by digits: the separator goes, the digits stay. */
  lemma {:induction false} StripStep(a: string, c: char, b: string)
    requires IsSeparator(c) && AllDigits(b)
    ensures Strip(a + [c] + b) == Strip(a) + b
  {
    StripPlain(a + [c], b);
    StripSeparator(a, c);
  }

  lemma {:induction false} StripIsoDate(y: string, mo: string, d: string)
    requires AllDigits(y) && AllDigits(mo) && AllDigits(d)
    ensures Strip(IsoDate(y, mo, d)) == y + mo + d
  {
    StripStep(y + "-" + mo, '-', d);
    StripStep(y, '-', mo);
    StripKeepsPlain(y);
  }

  lemma {:induction false} StripIsoTime(h: string, mi: string, sec: string, ms: string)
    requires AllDigits(h) && AllDigits(mi) && AllDigits(sec) && AllDigits(ms)
    ensures Strip(IsoTime(h, mi, sec, ms)) == h + mi + sec + ms + "Z"
  {
    StripPlain(h + ":" + mi + ":" + sec + "." + ms, "Z");
    StripStep(h + ":" + mi + ":" + sec, '.', ms);
    StripStep(h + ":" + mi, ':', sec);
    StripStep(h, ':', mi);
    StripKeepsPlain(h);
  }

  /** The ISO layout without its separators, for any digit fields. */
  lemma {:induction false} StripIsoOf(y: string, mo: string, d: string, h: string, mi: string, sec: string, ms: string)
    requires AllDigits(y) && AllDigits(mo) && AllDigits(d) && AllDigits(h)
    requires AllDigits(mi) && AllDigits(sec) && AllDigits(ms)
    ensures Strip(IsoOf(y, mo, d, h, mi, sec, ms)) == (y + mo + d + "T") + (h + mi + sec + ms + "Z")
  {
    StripConcat(IsoDate(y, mo, d) + "T", IsoTime(h, mi, sec, ms));
    StripPlain(IsoDate(y, mo, d), "T");
    StripIsoDate(y, mo, d);
    StripIsoTime(h, mi, sec, ms);
  }

  /** For any fields of toISOString's widths, the stamp is the date
      fields, '_', the time fields, and the temp stamp keeps the 'T'. */
  lemma {:induction false} StampOfFields(y: string, mo: string, d: string, h: string, mi: string, sec: string, ms: string)
    requires |y| == 4 && |mo| == 2 && |d| == 2 && |h| == 2 && |mi| == 2 && |sec| == 2
    requires AllDigits(y) && AllDigits(mo) && AllDigits(d) && AllDigits(h)
    requires AllDigits(mi) && AllDigits(sec) && AllDigits(ms)
    ensures GenerateTimestamp(IsoOf(y, mo, d, h, mi, sec, ms)) == y + mo + d + "_" + h + mi + sec
    ensures TempTimestamp(IsoOf(y, mo, d, h, mi, sec, ms)) == y + mo + d + "T" + h + mi + sec
  {
    var date, time := y + mo + d, h + mi + sec;
    StripIsoOf(y, mo, d, h, mi, sec, ms);
    assert (y + mo + d + "T") + (h + mi + sec + ms + "Z") == (date + "T" + time) + (ms + "Z");
    AllDigitsConcat(y, mo);
    AllDigitsConcat(y + mo, d);
    StampOfStripped(date, time, ms + "Z");
  }

  /** Cutting the stripped string after the seconds, then turning its
      first 'T' into '_'. */
  lemma {:induction false} StampOfStripped(date: string, time: string, tail: string)
    requires |date| == 8 && |time| == 6 && AllDigits(date)
    ensures Take((date + "T" + time) + tail, 15) == date + "T" + time
    ensures ReplaceFirst(date + "T" + time, 'T', '_') == date + "_" + time
  {
    assert ((date + "T" + time) + tail)[..15] == date + "T" + time;
    ReplaceFirstAt(date, 'T', '_', time);
  }

  /** generateTimestamp yields YYYYMMDD_HHMMSS: the date digits, '_', the
      time digits; the temp stamp has 'T' in place of '_'. */
  lemma StampOfIso(t: Instant)
    ensures GenerateTimestamp(IsoString(t))
      == Digits(t.year, 4) + Digits(t.month, 2) + Digits(t.day, 2) + "_"
         + Digits(t.hour, 2) + Digits(t.minute, 2) + Digits(t.second, 2)
    ensures TempTimestamp(IsoString(t))
      == Digits(t.year, 4) + Digits(t.month, 2) + Digits(t.day, 2) + "T"
         + Digits(t.hour, 2) + Digits(t.minute, 2) + Digits(t.second, 2)
  {
    StampOfFields(Digits(t.year, 4), Digits(t.month, 2), Digits(t.day, 2),
                  Digits(t.hour, 2), Digits(t.minute, 2), Digits(t.second, 2), Digits(t.millis, 3));
  }

  /** Date digits, '_' and time digits make a 15-character stamp with
      digits everywhere but position 8. */
  lemma {:induction false} ShapeOfFields(date: string, sep: char, time: string)
    requires |date| == 8 && |time| == 6 && AllDigits(date) && AllDigits(time)
    ensures |date + [sep] + time| == 15 && (date + [sep] + time)[8] == sep
    ensures forall i :: 0 <= i < 15 && i != 8 ==> IsDigit((date + [sep] + time)[i])
  {
    var st := date + [sep] + time;
    forall i | 0 <= i < 15 && i != 8 ensures IsDigit(st[i]) {
      if i < 8 { assert st[i] == date[i]; } else { assert st[i] == time[i - 9]; }
    }
  }

  lemma {:induction false} AllDigitsConcat(a: string, b: string)
    requires AllDigits(a) && AllDigits(b)
    ensures AllDigits(a + b)
  {
    forall i | 0 <= i < |a + b| ensures IsDigit((a + b)[i]) {
      if i < |a| { assert (a + b)[i] == a[i]; } else { assert (a + b)[i] == b[i - |a|]; }
    }
  }

  /** The stamp of any fields of toISOString's widths has the layout
      YYYYMMDD_HHMMSS, and the temp stamp has 'T' in place of '_'. */
  lemma {:induction false} StampShapeOf(y: string, mo: string, d: string, h: string, mi: string, sec: string, ms: string)
    requires |y| == 4 && |mo| == 2 && |d| == 2 && |h| == 2 && |mi| == 2 && |sec| == 2
    requires AllDigits(y) && AllDigits(mo) && AllDigits(d) && AllDigits(h)
    requires AllDigits(mi) && AllDigits(sec) && AllDigits(ms)
    ensures var st := GenerateTimestamp(IsoOf(y, mo, d, h, mi, sec, ms));
            |st| == 15 && st[8] == '_' && forall i :: 0 <= i < 15 && i != 8 ==> IsDigit(st[i])
    ensures var tmp := TempTimestamp(IsoOf(y, mo, d, h, mi, sec, ms));
            |tmp| == 15 && tmp[8] == 'T'
  {
    StampOfFields(y, mo, d, h, mi, sec, ms);
    AllDigitsConcat(y, mo); AllDigitsConcat(y + mo, d);
    AllDigitsConcat(h, mi); AllDigitsConcat(h + mi, sec);
    assert y + mo + d + "_" + h + mi + sec == (y + mo + d) + ['_'] + (h + mi + sec);
    assert y + mo + d + "T" + h + mi + sec == (y + mo + d) + ['T'] + (h + mi + sec);
    ShapeOfFields(y + mo + d, '_', h + mi + sec);
    ShapeOfFields(y + mo + d, 'T', h + mi + sec);
  }

  /** The stamp is 15 characters: digits everywhere but position 8, which
      holds '_', so it has no '-', ':' or '.'; the temp stamp has 'T'
      there instead. */
  lemma StampShape(t: Instant)
    ensures |GenerateTimestamp(IsoString(t))| == 15
    ensures GenerateTimestamp(IsoString(t))[8] == '_'
    ensures forall i :: 0 <= i < 15 && i != 8 ==> IsDigit(GenerateTimestamp(IsoString(t))[i])
    ensures forall i :: 0 <= i < 15 ==> !IsSeparator(GenerateTimestamp(IsoString(t))[i])
    ensures |TempTimestamp(IsoString(t))| == 15 && TempTimestamp(IsoString(t))[8] == 'T'
  {
    StampShapeOf(Digits(t.year, 4), Digits(t.month, 2), Digits(t.day, 2),
                 Digits(t.hour, 2), Digits(t.minute, 2), Digits(t.second, 2), Digits(t.millis, 3));
  }

  /** createVideoPath's file name is prefix_YYYYMMDD_HHMMSS.avi, 20
      characters longer than the prefix, whose stamp starts right after
      the prefix and its '_'. */
  lemma {:induction false} VideoFileNameShape(t: Instant, prefix: string)
    ensures |VideoFileName(prefix, IsoString(t))| == |prefix| + 20
    ensures VideoFileName(prefix, IsoString(t))[..|prefix| + 1] == prefix + "_"
    ensures VideoFileName(prefix, IsoString(t))[|prefix| + 1..|prefix| + 16] == GenerateTimestamp(IsoString(t))
    ensures VideoFileName(prefix, IsoString(t))[|prefix| + 16..] == ".avi"
  {
    StampShape(t);
  }

  function DigitValue(c: char): nat {
    if IsDigit(c) then (c as int) - ('0' as int) else 0
  }

  /** The number a string of decimal digits spells. */
  function Value(s: string): nat {
    if s == [] then 0 else 10 * Value(s[..|s| - 1]) + DigitValue(s[|s| - 1])
  }

  /** Splits a stamp back into year, month, day, hour, minute and second. */
  function ParseStamp(s: string): (nat, nat, nat, nat, nat, nat)
    requires |s| == 15
  {
    (Value(s[..4]), Value(s[4..6]), Value(s[6..8]), Value(s[9..11]), Value(s[11..13]), Value(s[13..]))
  }

  lemma DigitOfValue(k: nat)
    requires k < 10
    ensures DigitValue('0' + k as char) == k
  {
  }

  lemma DivBound(n: nat, p: nat)
    requires n < 10 * p
    ensures n / 10 < p
  {
  }

  /** The value of w digits of n, through its last digit. */
  lemma DigitsSnoc(n: nat, w: nat)
    requires w > 0
    ensures Value(Digits(n, w)) == 10 * Value(Digits(n / 10, w - 1)) + n % 10
  {
    var r := n % 10;
    assert Digits(n, w) == Digits(n / 10, w - 1) + ['0' + r as char];
    ValueSnoc(Digits(n / 10, w - 1), '0' + r as char);
    DigitOfValue(r);
  }

  lemma ValueSnoc(s: string, c: char)
    ensures Value(s + [c]) == 10 * Value(s) + DigitValue(c)
  {
    assert (s + [c])[..|s|] == s;
  }

  /** Reading back w zero-padded digits of a number below 10^w gives the
      number. */
  lemma {:induction false} DigitsRoundTrip(n: nat, w: nat)
    requires n < Pow10(w)
    ensures Value(Digits(n, w)) == n
  {
    if w > 0 {
      DigitsSnoc(n, w);
      DivBound(n, Pow10(w - 1));
      DigitsRoundTrip(n / 10, w - 1);
    }
  }

  /** The stamp determines the instant to the second: reading it back
      gives the instant's date and time fields. */
  lemma StampRoundTrip(t: Instant)
    requires Valid(t)
    ensures |GenerateTimestamp(IsoString(t))| == 15
    ensures ParseStamp(GenerateTimestamp(IsoString(t))) == (t.year, t.month, t.day, t.hour, t.minute, t.second)
  {
    StampOfIso(t);
    ParseFields(Digits(t.year, 4), Digits(t.month, 2), Digits(t.day, 2),
                Digits(t.hour, 2), Digits(t.minute, 2), Digits(t.second, 2));
    assert Pow10(2) == 100;
    assert Pow10(4) == 10000 by { assert Pow10(3) == 1000; }
    DigitsRoundTrip(t.year, 4);
    DigitsRoundTrip(t.month, 2);
    DigitsRoundTrip(t.day, 2);
    DigitsRoundTrip(t.hour, 2);
    DigitsRoundTrip(t.minute, 2);
    DigitsRoundTrip(t.second, 2);
  }

  /** ParseStamp reads each field from its own place in the stamp. */
  lemma {:induction false} ParseFields(y: string, mo: string, d: string, h: string, mi: string, sec: string)
    requires |y| == 4 && |mo| == 2 && |d| == 2 && |h| == 2 && |mi| == 2 && |sec| == 2
    ensures |y + mo + d + "_" + h + mi + sec| == 15
    ensures ParseStamp(y + mo + d + "_" + h + mi + sec)
         == (Value(y), Value(mo), Value(d), Value(h), Value(mi), Value(sec))
  {
    var st := y + mo + d + "_" + h + mi + sec;
    assert st[..4] == y;
    assert st[4..6] == mo;
    assert st[6..8] == d;
    assert st[9..11] == h;
    assert st[11..13] == mi;
    assert st[13..] == sec;
  }

  /** Two instants in different seconds get different stamps. */
  lemma StampInjective(t1: Instant, t2: Instant)
    requires Valid(t1) && Valid(t2)
    requires GenerateTimestamp(IsoString(t1)) == GenerateTimestamp(IsoString(t2))
    ensures (t1.year, t1.month, t1.day, t1.hour, t1.minute, t1.second)
         == (t2.year, t2.month, t2.day, t2.hour, t2.minute, t2.second)
  {
    StampRoundTrip(t1);
    StampRoundTrip(t2);
  }
}
