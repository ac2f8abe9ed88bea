/**
 * The Rainbow HAT board as an append-only log of the calls the program makes on it
 * (the buzzer's midi_note, the display's print_str and show), and the text the
 * four-character display is given each frame.
 */
module Hardware {

  /** One call on the board. */
  datatype Event =
    | Buzz(note: nat, duration: nat)   // rainbowhat.buzzer.midi_note(note, duration)
    | PrintStr(text: string)           // rainbowhat.display.print_str(text)
    | Show                             // rainbowhat.display.show()

  /** The alert for one unmasked face: middle C for one second. */
  const AlertBeep: Event := Buzz(60, 1)

  /** What the display shows while the video feed is disabled. */
  const Placeholder: string := "----"

  predicate IsDigit(c: char)
  {
    '0' <= c <= '9'
  }

  predicate AllDigits(s: string)
  {
    forall i :: 0 <= i < |s| ==> IsDigit(s[i])
  }

  function DigitChar(d: nat): (c: char)
    requires d < 10
    ensures IsDigit(c)
  {
    (48 + d) as char
  }

  function DigitValue(c: char): (d: nat)
    requires IsDigit(c)
    ensures d < 10
  {
    c as int - 48
  }

  /** Python's str() of a non-negative integer: its decimal digits, without leading zeros. */
  function NatToString(n: nat): (s: string)
    ensures 1 <= |s|
    ensures AllDigits(s)
    ensures 1 < |s| ==> s[0] != '0'
  {
    if n < 10 then [DigitChar(n)] else NatToString(n / 10) + [DigitChar(n % 10)]
  }

  /** The number a string of decimal digits denotes. */
  function ParseDecimal(s: string): (n: nat)
    requires AllDigits(s)
    ensures s != [] ==> n % 10 == DigitValue(s[|s| - 1])
  {
    if s == [] then 0 else ParseDecimal(s[..|s| - 1]) * 10 + DigitValue(s[|s| - 1])
  }

  /** Reading back the decimal text of a count gives the count. */
  lemma {:induction false} ParseNatToString(n: nat)
    ensures ParseDecimal(NatToString(n)) == n
  {
    if 10 <= n {
      var s := NatToString(n);
      assert s[..|s| - 1] == NatToString(n / 10);
      ParseNatToString(n / 10);
    }
  }

  /** A count is written with one character exactly when it is below ten. */
  lemma {:induction false} NatToStringSingleDigit(n: nat)
    ensures |NatToString(n)| == 1 <==> n < 10
    ensures n < 10 ==> NatToString(n) == [DigitChar(n)]
  {
  }

  /** The display text of one frame: the placeholder when the feed is off, otherwise
      '0', the masked count, '0', the unmasked count, each written as str() writes it. */
  function DisplayText(feedActive: bool, withCount: nat, withoutCount: nat): (s: string)
    ensures !feedActive ==> s == Placeholder
    ensures feedActive ==> |s| == 2 + |NatToString(withCount)| + |NatToString(withoutCount)|
    ensures feedActive ==> AllDigits(s) && s[0] == '0'
  {
    if !feedActive then Placeholder
    else "0" + NatToString(withCount) + "0" + NatToString(withoutCount)
  }

  /** The text fits the four-character display exactly when the feed is off or
      both counts are single digits; a count of ten or more lengthens it. */
  lemma DisplayTextFourChars(feedActive: bool, withCount: nat, withoutCount: nat)
    ensures |DisplayText(feedActive, withCount, withoutCount)| == 4
        <==> !feedActive || (withCount < 10 && withoutCount < 10)
  {
    NatToStringSingleDigit(withCount);
    NatToStringSingleDigit(withoutCount);
  }

  /** With single-digit counts the text is the four characters 0, masked, 0, unmasked,
      and the two counts can be read back from positions 1 and 3. */
  lemma DisplayTextDigits(withCount: nat, withoutCount: nat)
    requires withCount < 10 && withoutCount < 10
    ensures DisplayText(true, withCount, withoutCount) == ['0', DigitChar(withCount), '0', DigitChar(withoutCount)]
    ensures DigitValue(DisplayText(true, withCount, withoutCount)[1]) == withCount
    ensures DigitValue(DisplayText(true, withCount, withoutCount)[3]) == withoutCount
  {
    NatToStringSingleDigit(withCount);
    NatToStringSingleDigit(withoutCount);
  }
}
