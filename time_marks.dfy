/**
 * The half-hour labels of the time-of-day slider. Both dashboards build a table
 * of 49 marks, keys 0 to 48; key k is the clock time k * 30 minutes written
 * "HH:MM". `Label` is that table's content; the loops that build it are proved
 * against it in the two dashboard modules.
 */
module TimeMarks {
  import opened Wrappers
  import opened Text

  /** The largest key of the table (the slider's `max`). */
  const LastMark: nat := 48

  /** An hour below 100 as two decimal digits. */
  function HourDigits(h: nat): string
    requires h < 100
  {
    [DigitChar(h / 10), DigitChar(h % 10)]
  }

  /** The label of key k: the hour k / 2 in two digits, ':', then '0' or '3', then '0'. */
  function Label(k: nat): string
    requires k <= LastMark
  {
    HourDigits(k / 2) + [':', if k % 2 == 0 then '0' else '3', '0']
  }

  /** Python's `str(h).zfill(2)` for an hour below 100 is its two digits. */
  lemma TwoDigitHour(h: nat)
    requires h < 100
    ensures ZFill(NatToString(h), 2) == HourDigits(h)
  {
    var tens, ones := h / 10, h % 10;
    assert h == 10 * tens + ones && tens < 10 && ones < 10;
    if h < 10 {
      assert tens == 0 && ones == h;
      var s := NatToString(h);
      assert s == [DigitChar(h)];
      assert ZFill(s, 2) == ZFill(['0'] + s, 2) == ['0'] + s;
      assert DigitChar(0) == '0';
    } else {
      assert NatToString(tens) == [DigitChar(tens)];
      assert NatToString(h) == [DigitChar(tens), DigitChar(ones)];
    }
  }

  /** A label is the zero-padded decimal text of the hour followed by ":00" or ":30". */
  lemma LabelIsPaddedHour(k: nat)
    requires k <= LastMark
    ensures Label(k) == ZFill(NatToString(k / 2), 2) + (if k % 2 == 0 then ":00" else ":30")
  {
    TwoDigitHour(k / 2);
  }

  /** Two decimal digits parse as the number they spell. */
  lemma TwoDigitsParse(h: nat)
    requires h < 100
    ensures ParseNat(HourDigits(h)) == Some(h)
  {
    var s := HourDigits(h);
    assert DigitValue(s[0]) == h / 10 && DigitValue(s[1]) == h % 10;
    assert s[..1] == [s[0]] && [s[0]][..0] == [];
    assert DigitsValue([s[0]]) == h / 10;
    assert DigitsValue(s) == 10 * DigitsValue(s[..1]) + DigitValue(s[1]);
  }

  /** The first mark is midnight and the last is "24:00". */
  lemma FirstAndLastLabel()
    ensures Label(0) == "00:00"
    ensures Label(LastMark) == "24:00"
  {
  }

  /** Even keys are whole hours, odd keys half past; the hour text reads back as k / 2. */
  lemma LabelParts(k: nat)
    requires k <= LastMark
    ensures |Label(k)| == 5
    ensures Label(k)[2..] == if k % 2 == 0 then ":00" else ":30"
    ensures ParseNat(Label(k)[..2]) == Some(k / 2)
  {
    assert Label(k)[..2] == HourDigits(k / 2);
    TwoDigitsParse(k / 2);
  }

  /** The builders' half-hour step: overwriting the first minute digit with '3' gives the next label. */
  lemma HalfHourStep(k: nat)
    requires k < LastMark && k % 2 == 0
    ensures Label(k)[3 := '3'] == Label(k + 1)
  {
    assert (k + 1) / 2 == k / 2 && (k + 1) % 2 == 1;
  }

  /** The builders' hour step: parsing the hour digits, adding one and padding to two digits gives the next label. */
  lemma NextHourStep(k: nat)
    requires k < LastMark && k % 2 == 1
    ensures ParseNat(Label(k)[0..2]) == Some(k / 2)
    ensures ZFill(NatToString(k / 2 + 1), 2) + ":00" == Label(k + 1)
  {
    assert Label(k)[0..2] == HourDigits(k / 2);
    TwoDigitsParse(k / 2);
    assert (k + 1) / 2 == k / 2 + 1 && (k + 1) % 2 == 0;
    TwoDigitHour(k / 2 + 1);
  }

  /**
   * One pass of the label loop both dashboards run: after an even key the
   * first minute digit becomes '3'; after an odd key the hour is parsed,
   * incremented and zero-padded to two digits, followed by ":00".
   */
  method NextTimeStr(i: nat, timeStr: string) returns (next: string)
    requires i < LastMark && timeStr == Label(i)
    ensures next == Label(i + 1)
  {
    if i % 2 == 0 {
      HalfHourStep(i);
      next := timeStr[3 := '3'];
    } else {
      NextHourStep(i);
      var hour := ParseNat(timeStr[0..2]).value;
      next := ZFill(NatToString(hour + 1), 2) + ":00";
    }
  }

  /** A smaller two-digit hour has a smaller tens digit, or the same tens digit and a smaller ones digit. */
  lemma HourDigitsOrder(g: nat, h: nat)
    requires g < h < 100
    ensures g / 10 < h / 10 || (g / 10 == h / 10 && g % 10 < h % 10)
  {
  }

  /** Two strings shaped like labels compare by hour digits, then by the minute digit. */
  lemma LabelShapeOrder(a0: char, a1: char, a3: char, b0: char, b1: char, b3: char)
    requires a0 < b0 || (a0 == b0 && a1 < b1) || (a0 == b0 && a1 == b1 && a3 < b3)
    ensures LexLess([a0, a1, ':', a3, '0'], [b0, b1, ':', b3, '0'])
  {
    var a, b := [a0, a1, ':', a3, '0'], [b0, b1, ':', b3, '0'];
    if a0 < b0 {
      LexLessAt(a, b, 0);
    } else if a1 < b1 {
      assert a[..1] == b[..1];
      LexLessAt(a, b, 1);
    } else {
      assert a[..3] == b[..3];
      LexLessAt(a, b, 3);
    }
  }

  /**
   * Labels strictly increase in Python's string order as the key grows, so a
   * string comparison against two labels is a comparison of clock times.
   */
  lemma LabelsIncrease(j: nat, k: nat)
    requires j < k <= LastMark
    ensures LexLess(Label(j), Label(k))
  {
    var g, h := j / 2, k / 2;
    var aMin := if j % 2 == 0 then '0' else '3';
    var bMin := if k % 2 == 0 then '0' else '3';
    if g < h {
      HourDigitsOrder(g, h);
    } else {
      assert g == h && j % 2 == 0 && k % 2 == 1;
    }
    LabelShapeOrder(DigitChar(g / 10), DigitChar(g % 10), aMin, DigitChar(h / 10), DigitChar(h % 10), bMin);
  }

  /** Python's `<` on two labels agrees with `<` on their keys, in both directions. */
  lemma LabelOrder(j: nat, k: nat)
    requires j <= LastMark && k <= LastMark
    ensures LexLess(Label(j), Label(k)) <==> j < k
  {
    if j < k {
      LabelsIncrease(j, k);
    } else if k < j {
      LabelsIncrease(k, j);
      LexLessAsymmetric(Label(k), Label(j));
    } else {
      LexLessIrreflexive(Label(j));
    }
  }

  /**
   * The time-of-day test `times[t0] <= Time < times[t1]` on a time that is
   * itself a mark accepts exactly the marks from t0 up to but excluding t1.
   */
  lemma TimeWindowOnMarks(t0: nat, t1: nat, k: nat)
    requires t0 <= LastMark && t1 <= LastMark && k <= LastMark
    ensures (LexLessEq(Label(t0), Label(k)) && LexLess(Label(k), Label(t1))) <==> t0 <= k < t1
  {
    LabelOrder(t0, k);
    LabelOrder(k, t1);
    if Label(t0) == Label(k) { LabelInjective(t0, k); }
  }

  /** Different keys have different labels. */
  lemma LabelInjective(j: nat, k: nat)
    requires j <= LastMark && k <= LastMark && Label(j) == Label(k)
    ensures j == k
  {
    if j < k {
      LabelsIncrease(j, k);
      LexLessIrreflexive(Label(j));
    } else if k < j {
      LabelsIncrease(k, j);
      LexLessIrreflexive(Label(j));
    }
  }
}
