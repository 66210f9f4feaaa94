/**
 * `generateTimeSlots` (src/App.js:42-53): the labels offered by the start
 * and end time drop-downs, "H:00" then "H:30" for every hour H from 8 to 20.
 * The hour is rendered by a template literal, that is in decimal without
 * padding.
 */
module TimeSlots {

  const StartHour: nat := 8
  const EndHour: nat := 20

  predicate IsDigit(c: char)
  {
    '0' <= c <= '9'
  }

  function DigitChar(d: nat): (c: char)
    requires d < 10
    ensures IsDigit(c)
  {
    ('0' as int + d) as char
  }

  function DigitValue(c: char): (d: nat)
    requires IsDigit(c)
    ensures d < 10 && DigitChar(d) == c
  {
    c as int - '0' as int
  }

  /** `${n}` for a non-negative integer: its decimal digits, most significant
      first, without leading zeros. */
  function DecimalString(n: nat): (s: string)
    ensures s != []
    ensures forall i :: 0 <= i < |s| ==> IsDigit(s[i])
    ensures |s| > 1 ==> s[0] != '0'
  {
    if n < 10 then [DigitChar(n)] else DecimalString(n / 10) + [DigitChar(n % 10)]
  }

  /** Reads a string of decimal digits back as the number it spells. */
  function ParseDecimal(s: string): nat
    requires forall i :: 0 <= i < |s| ==> IsDigit(s[i])
  {
    if s == [] then 0
    else 10 * ParseDecimal(s[..|s| - 1]) + DigitValue(s[|s| - 1])
  }

  /** Reading the decimal rendering of `n` gives back `n`. */
  lemma {:induction false} ParseDecimalString(n: nat)
    ensures ParseDecimal(DecimalString(n)) == n
  {
    var s := DecimalString(n);
    if n < 10 {
      assert s[..|s| - 1] == [];
    } else {
      ParseDecimalString(n / 10);
      assert s[..|s| - 1] == DecimalString(n / 10);
    }
  }

  /** Distinct numbers render differently. */
  lemma DecimalStringInjective(m: nat, n: nat)
    requires DecimalString(m) == DecimalString(n)
    ensures m == n
  {
    ParseDecimalString(m);
    ParseDecimalString(n);
  }

  /** The hourText at position `i` of the slot list. */
  function SlotLabel(i: nat): string
  {
    DecimalString(StartHour + i / 2) + (if i % 2 == 0 then ":00" else ":30")
  }

  /** The hourText of hour `h` is never repeated, so each list entry can serve
      as the key of its drop-down option. */
  lemma SlotLabelsDistinct(i: nat, j: nat)
    requires i != j
    ensures SlotLabel(i) != SlotLabel(j)
  {
    var a, b := DecimalString(StartHour + i / 2), DecimalString(StartHour + j / 2);
    if SlotLabel(i) == SlotLabel(j) {
      assert |a| == |b|;
      assert a == SlotLabel(i)[..|a|] && b == SlotLabel(j)[..|b|];
      DecimalStringInjective(StartHour + i / 2, StartHour + j / 2);
    }
  }

  /** Builds the list with the source's loop: for each hour from `StartHour`
      to `EndHour` inclusive, push "H:00" and then "H:30". */
  method GenerateTimeSlots() returns (slots: seq<string>)
    ensures |slots| == 2 * (EndHour - StartHour + 1)
    ensures forall i :: 0 <= i < |slots| ==> slots[i] == SlotLabel(i)
    ensures slots[0] == "8:00" && slots[|slots| - 1] == "20:30"
  {
    slots := [];
    for hour := StartHour to EndHour + 1
      invariant |slots| == 2 * (hour - StartHour)
      invariant forall i :: 0 <= i < |slots| ==> slots[i] == SlotLabel(i)
    {
      var hourText := DecimalString(hour);
      assert SlotLabel(|slots|) == hourText + ":00";
      assert SlotLabel(|slots| + 1) == hourText + ":30";
      slots := slots + [hourText + ":00"];
      slots := slots + [hourText + ":30"];
    }
    assert DecimalString(8) == "8";
    assert DecimalString(20) == DecimalString(2) + [DigitChar(0)] == "20";
  }
}
