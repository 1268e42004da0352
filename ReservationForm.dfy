/** The two rules of the reservation form of the web client
    (src/features/reservations/ReservationFormDialog.tsx): padding a time
    input to seconds before it is sent, and the end-time field check. */
module ReservationForm {
  import opened Text

  /** `toTimeWithSeconds`: an "HH:MM" input gains ":00"; the empty string and
      every other length are sent as they are. */
  function ToTimeWithSeconds(value: string): (r: string)
    ensures value == "" ==> r == ""
    ensures |value| == 5 ==> r == value + ":00" && |r| == 8
    ensures |value| != 5 ==> r == value
  {
    if value == "" then value
    else if |value| == 5 then value + ":00"
    else value
  }

  /** Padding twice is padding once. */
  lemma {:induction false} ToTimeWithSecondsIdempotent(value: string)
    ensures ToTimeWithSeconds(ToTimeWithSeconds(value)) == ToTimeWithSeconds(value)
  {
    if |value| == 5 {
      assert |ToTimeWithSeconds(value)| == 8;
    }
  }

  /** JavaScript `a <= b` on strings: lexicographic order of code units. */
  function LexLessOrEqual(a: string, b: string): bool {
    if a == [] then true
    else if b == [] then false
    else if a[0] != b[0] then a[0] < b[0]
    else LexLessOrEqual(a[1..], b[1..])
  }

  /** The string order is total, so the end-time check always has an answer. */
  lemma {:induction false} LexTotal(a: string, b: string)
    ensures LexLessOrEqual(a, b) || LexLessOrEqual(b, a)
  {
    if a != [] && b != [] && a[0] == b[0] {
      LexTotal(a[1..], b[1..]);
    }
  }

  /** The string order is antisymmetric. */
  lemma {:induction false} LexAntisymmetric(a: string, b: string)
    requires LexLessOrEqual(a, b) && LexLessOrEqual(b, a)
    ensures a == b
  {
    if a != [] && b != [] {
      LexAntisymmetric(a[1..], b[1..]);
      assert a == [a[0]] + a[1..] && b == [b[0]] + b[1..];
    }
  }

  datatype FieldCheck = Pass | Message(text: string)

  const EndBeforeStartMessage := "End time must be after start time"

  /** The `validate` rule of the end-time field: passes while either time is
      empty, and otherwise fails exactly when the end is not after the start
      in string order. */
  function ValidateEndTime(startTime: string, endTime: string): (v: FieldCheck)
    ensures startTime == "" || endTime == "" ==> v == Pass
    ensures startTime != "" && endTime != "" ==> (v == Message(EndBeforeStartMessage) <==> LexLessOrEqual(endTime, startTime))
    ensures v == Pass || v == Message(EndBeforeStartMessage)
  {
    if startTime == "" || endTime == "" then Pass
    else if LexLessOrEqual(endTime, startTime) then Message(EndBeforeStartMessage)
    else Pass
  }

  function DigitValue(c: char): nat
    requires IsDigit(c)
  {
    c as int - '0' as int
  }

  /** What an `<input type="time">` with a one-minute step yields: "HH:MM"
      with HH at most 23 and MM at most 59. */
  predicate IsClockTime(s: string) {
    && |s| == 5
    && IsDigit(s[0]) && IsDigit(s[1]) && s[2] == ':' && IsDigit(s[3]) && IsDigit(s[4])
    && DigitValue(s[0]) * 10 + DigitValue(s[1]) <= 23
    && DigitValue(s[3]) <= 5
  }

  /** Minutes since midnight of a clock time. */
  function MinutesOf(s: string): (m: nat)
    requires IsClockTime(s)
    ensures m < 24 * 60
  {
    (DigitValue(s[0]) * 10 + DigitValue(s[1])) * 60 + DigitValue(s[3]) * 10 + DigitValue(s[4])
  }

  /** On clock times the string order is the order of the day. */
  lemma {:induction false} LexOrderIsTimeOrder(a: string, b: string)
    requires IsClockTime(a) && IsClockTime(b)
    ensures LexLessOrEqual(a, b) <==> MinutesOf(a) <= MinutesOf(b)
  {
    var a1, b1 := a[1..], b[1..];
    var a2, b2 := a1[1..], b1[1..];
    var a3, b3 := a2[1..], b2[1..];
    var a4, b4 := a3[1..], b3[1..];
    var a5, b5 := a4[1..], b4[1..];
    assert a5 == [] && b5 == [];
    assert a1[0] == a[1] && a2[0] == a[2] && a3[0] == a[3] && a4[0] == a[4];
    assert b1[0] == b[1] && b2[0] == b[2] && b3[0] == b[3] && b4[0] == b[4];
    if a[0] == b[0] {
      assert LexLessOrEqual(a, b) == LexLessOrEqual(a1, b1);
      if a[1] == b[1] {
        assert LexLessOrEqual(a1, b1) == LexLessOrEqual(a2, b2) == LexLessOrEqual(a3, b3);
        if a[3] == b[3] {
          assert LexLessOrEqual(a3, b3) == LexLessOrEqual(a4, b4);
          if a[4] == b[4] {
            assert LexLessOrEqual(a4, b4) == LexLessOrEqual(a5, b5);
          }
        }
      }
    }
  }

  /** So on clock times the form accepts an end exactly when it is a later
      minute of the day than the start; in particular it refuses an end equal
      to the start. */
  lemma ValidateEndTimeOnClockTimes(startTime: string, endTime: string)
    requires IsClockTime(startTime) && IsClockTime(endTime)
    ensures ValidateEndTime(startTime, endTime) == Pass <==> MinutesOf(startTime) < MinutesOf(endTime)
  {
    LexOrderIsTimeOrder(endTime, startTime);
  }
}
