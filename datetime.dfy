/** The alarm input of the note form: the `YYYY-MM-DDTHH:MM` pattern that
    `isValidDateTimeFormat` checks, and the text `handleEditClick` builds from
    a stored alarm so that the form can be edited again. */
module DateTime {

  predicate IsDigit(c: char) {
    '0' <= c <= '9'
  }

  /** One position of an anchored, fixed-width pattern: `\d` or a literal. */
  datatype Token = Digit | Lit(c: char)

  predicate TokenAccepts(t: Token, c: char) {
    match t
    case Digit => IsDigit(c)
    case Lit(l) => c == l
  }

  /** The regular expression `^\d{4}-\d{2}-\d{2}T\d{2}:\d{2}$`, one token per
      character. Without the `u` flag `\d` is `[0-9]`, and without the `m`
      flag `$` matches only at the very end. */
  const AlarmPattern: seq<Token> :=
    [Digit, Digit, Digit, Digit, Lit('-'), Digit, Digit, Lit('-'), Digit, Digit,
     Lit('T'), Digit, Digit, Lit(':'), Digit, Digit]

  /** Whole-string match of a pattern made of single-character tokens. */
  predicate Matches(p: seq<Token>, s: string)
    decreases |p|
  {
    if p == [] then s == []
    else s != [] && TokenAccepts(p[0], s[0]) && Matches(p[1..], s[1..])
  }

  /** `isValidDateTimeFormat(s)`. */
  predicate IsValidDateTimeFormat(s: string) {
    Matches(AlarmPattern, s)
  }

  /** A pattern of single-character tokens matches exactly the strings of its
      length whose every character is accepted by the token in its place. */
  lemma {:induction false} MatchesPointwise(p: seq<Token>, s: string)
    ensures Matches(p, s) <==>
      |p| == |s| && forall i :: 0 <= i < |p| ==> TokenAccepts(p[i], s[i])
    decreases |p|
  {
    if p != [] && s != [] {
      MatchesPointwise(p[1..], s[1..]);
      if |p| == |s| && forall i :: 0 <= i < |p| ==> TokenAccepts(p[i], s[i]) {
        forall i | 0 <= i < |p[1..]| ensures TokenAccepts(p[1..][i], s[1..][i]) {
          assert p[1..][i] == p[i + 1] && s[1..][i] == s[i + 1];
        }
      }
      if Matches(p, s) {
        forall i | 0 <= i < |p| ensures TokenAccepts(p[i], s[i]) {
          if i > 0 {
            assert p[1..][i - 1] == p[i] && s[1..][i - 1] == s[i];
          }
        }
      }
    }
  }

  /** What the pattern demands at position `i` of a 16-character string. */
  predicate SlotAccepts(i: int, c: char) {
    if i == 4 || i == 7 then c == '-'
    else if i == 10 then c == 'T'
    else if i == 13 then c == ':'
    else IsDigit(c)
  }

  /** The validator accepts exactly the 16-character strings with `-` at
      positions 4 and 7, `T` at 10, `:` at 13 and an ASCII digit everywhere
      else. */
  lemma ValidFormatExactly(s: string)
    ensures IsValidDateTimeFormat(s) <==>
      |s| == 16 && forall i :: 0 <= i < 16 ==> SlotAccepts(i, s[i])
  {
    MatchesPointwise(AlarmPattern, s);
    if |s| == 16 {
      assert forall i :: 0 <= i < 16 ==> (TokenAccepts(AlarmPattern[i], s[i]) <==> SlotAccepts(i, s[i]));
    }
  }

  /** The check is purely lexical: any digit may stand in for any other,
      so month 13, day 45 or hour 99 pass as long as the shape is right. */
  lemma NoRangeCheck(s: string, i: nat, d: char)
    requires IsValidDateTimeFormat(s)
    requires i < |s| && IsDigit(s[i]) && IsDigit(d)
    ensures IsValidDateTimeFormat(s[i := d])
  {
    ValidFormatExactly(s);
    var t := s[i := d];
    forall k | 0 <= k < 16 ensures SlotAccepts(k, t[k]) {
      assert SlotAccepts(k, s[k]);
      if k == i {
        assert k != 4 && k != 7 && k != 10 && k != 13;
      } else {
        assert t[k] == s[k];
      }
    }
    ValidFormatExactly(t);
  }

  /** A missing leading zero is rejected: dropping any one character from
      an accepted text, a padding zero among them, leaves a text the check
      refuses. */
  lemma UnpaddedRejected(s: string, k: nat)
    requires IsValidDateTimeFormat(s)
    requires k < |s|
    ensures !IsValidDateTimeFormat(s[..k] + s[k + 1..])
  {
    ValidFormatExactly(s);
    ValidFormatExactly(s[..k] + s[k + 1..]);
  }

  function DigitChar(d: nat): (c: char)
    requires d < 10
    ensures IsDigit(c)
  {
    ('0' as int + d) as char
  }

  /** `n.toString()` for a non-negative integer: decimal, no leading zeros. */
  function NatToString(n: nat): (r: string)
    ensures |r| >= 1 && forall i :: 0 <= i < |r| ==> IsDigit(r[i])
    ensures |r| > 1 ==> r[0] != '0'
    decreases n
  {
    if n < 10 then [DigitChar(n)] else NatToString(n / 10) + [DigitChar(n % 10)]
  }

  /** The value of a string of decimal digits. */
  function DecimalValue(s: string): nat
    requires forall i :: 0 <= i < |s| ==> IsDigit(s[i])
  {
    if s == [] then 0
    else
      assert IsDigit(s[|s| - 1]);
      10 * DecimalValue(s[..|s| - 1]) + (s[|s| - 1] as int - '0' as int)
  }

  /** Reading the decimal text back gives the number that was printed. */
  lemma {:induction false} DecimalRoundTrip(n: nat)
    ensures DecimalValue(NatToString(n)) == n
    decreases n
  {
    if n >= 10 {
      DecimalRoundTrip(n / 10);
      var r := NatToString(n);
      assert r[..|r| - 1] == NatToString(n / 10);
    }
  }

  function Pow10(k: nat): (p: nat)
    ensures p >= 1
  {
    if k == 0 then 1 else 10 * Pow10(k - 1)
  }

  /** `NatToString(n)` has at most `k` digits exactly when `n < 10^k`. */
  lemma {:induction false} DigitCount(n: nat, k: nat)
    requires k >= 1
    ensures |NatToString(n)| <= k <==> n < Pow10(k)
    decreases n
  {
    if n >= 10 {
      if k == 1 {
        assert |NatToString(n)| >= 2;
      } else {
        DigitCount(n / 10, k - 1);
      }
    }
  }

  /** Exactly the years 1000 to 9999 print with four characters. */
  lemma FourDigitYears(n: nat)
    ensures |NatToString(n)| == 4 <==> 1000 <= n <= 9999
  {
    DigitCount(n, 4);
    DigitCount(n, 3);
    assert Pow10(3) == 1000 && Pow10(4) == 10000;
  }

  /** `n.toString()` for any integer. */
  function IntToString(n: int): string {
    if n < 0 then "-" + NatToString(-n) else NatToString(n)
  }

  /** `n.toString().padStart(2, '0')`. */
  function Pad2(n: nat): (r: string)
    ensures n < 100 ==> |r| == 2 && IsDigit(r[0]) && IsDigit(r[1])
    ensures n >= 10 ==> r == NatToString(n)
    ensures n < 10 ==> r == "0" + NatToString(n)
    ensures n < 100 ==> DecimalValue(r) == n
  {
    var s := NatToString(n);
    DecimalRoundTrip(n);
    if |s| >= 2 then s
    else
      DigitCount(n, 2);
      assert Pow10(2) == 100;
      var r := "0" + s;
      assert r[..|r| - 1] == "0" && r[|r| - 1] == s[0] && s[..0] == [];
      assert "0"[..0] == [];
      r
  }

  /** The local calendar fields `handleEditClick` reads from an alarm's
      `Date`: `getFullYear()`, `getMonth() + 1`, `getDate()`, `getHours()`,
      `getMinutes()`. */
  datatype LocalDateTime = LocalDateTime(year: int, month: nat, day: nat, hours: nat, minutes: nat)

  /** The alarm text `handleEditClick` puts back into the form. The month,
      day, hours and minutes are zero-padded to two digits; the year is
      printed as it is. */
  function FormatAlarmInput(d: LocalDateTime): string {
    IntToString(d.year) + "-" + Pad2(d.month) + "-" + Pad2(d.day) + "T" +
    Pad2(d.hours) + ":" + Pad2(d.minutes)
  }

  /** Every character of `t` is what the pattern demands when `t` starts at
      position `k` of the alarm text. */
  predicate SlotsAcceptFrom(t: string, k: int) {
    forall i :: 0 <= i < |t| ==> SlotAccepts(k + i, t[i])
  }

  lemma SlotsAcceptAppend(a: string, b: string, k: int)
    requires SlotsAcceptFrom(a, k) && SlotsAcceptFrom(b, k + |a|)
    ensures SlotsAcceptFrom(a + b, k)
  {
    forall i | 0 <= i < |a + b| ensures SlotAccepts(k + i, (a + b)[i]) {
      if i >= |a| {
        assert (a + b)[i] == b[i - |a|];
        assert SlotAccepts(k + |a| + (i - |a|), b[i - |a|]);
      }
    }
  }

  /** A padded field sits in a pair of digit positions of the pattern. */
  lemma PaddedFieldAccepted(n: nat, k: int)
    requires n < 100
    requires k == 5 || k == 8 || k == 11 || k == 14
    ensures SlotsAcceptFrom(Pad2(n), k)
  {
    var r := Pad2(n);
    assert SlotAccepts(k, r[0]) && SlotAccepts(k + 1, r[1]);
  }

  /** With a four-digit year and every other field below 100, each character
      of the formatted text is the one the pattern demands. */
  lemma FormatAcceptedPieces(d: LocalDateTime)
    requires 1000 <= d.year <= 9999
    requires d.month < 100 && d.day < 100 && d.hours < 100 && d.minutes < 100
    ensures IsValidDateTimeFormat(FormatAlarmInput(d))
  {
    var y := IntToString(d.year);
    FourDigitYears(d.year);
    assert SlotsAcceptFrom(y, 0);
    var t := y;
    SlotsAcceptAppend(t, "-", 0);
    t := t + "-";
    PaddedFieldAccepted(d.month, 5);
    SlotsAcceptAppend(t, Pad2(d.month), 0);
    t := t + Pad2(d.month);
    SlotsAcceptAppend(t, "-", 0);
    t := t + "-";
    PaddedFieldAccepted(d.day, 8);
    SlotsAcceptAppend(t, Pad2(d.day), 0);
    t := t + Pad2(d.day);
    SlotsAcceptAppend(t, "T", 0);
    t := t + "T";
    PaddedFieldAccepted(d.hours, 11);
    SlotsAcceptAppend(t, Pad2(d.hours), 0);
    t := t + Pad2(d.hours);
    SlotsAcceptAppend(t, ":", 0);
    t := t + ":";
    PaddedFieldAccepted(d.minutes, 14);
    SlotsAcceptAppend(t, Pad2(d.minutes), 0);
    t := t + Pad2(d.minutes);
    assert t == FormatAlarmInput(d);
    ValidFormatExactly(t);
    assert forall i :: 0 <= i < 16 ==> SlotAccepts(0 + i, t[i]);
  }

  /** Re-editing an alarm round-trips through the validator exactly for
      four-digit years: with every other field below 100 (as the `Date`
      getters guarantee), the formatted text is accepted if and only if the
      year lies in 1000..9999. A year before 1000 prints too short and a
      negative one starts with `-`. */
  lemma FormattedAlarmAccepted(d: LocalDateTime)
    requires d.month < 100 && d.day < 100 && d.hours < 100 && d.minutes < 100
    ensures IsValidDateTimeFormat(FormatAlarmInput(d)) <==> 1000 <= d.year <= 9999
  {
    var y := IntToString(d.year);
    var s := FormatAlarmInput(d);
    if 1000 <= d.year <= 9999 {
      FormatAcceptedPieces(d);
    } else {
      assert |s| == |y| + 12;
      assert s[0] == y[0];
      ValidFormatExactly(s);
      if d.year < 0 {
        assert y[0] == '-';
      } else {
        FourDigitYears(d.year);
      }
    }
  }
}
