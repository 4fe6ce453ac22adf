/** The input masks of the participant sign-up form: as the user types, the
    CPF (Brazilian taxpayer number) and cellphone fields are reduced to their
    first eleven digits and re-punctuated. The masked text is what the form
    shows; the profile stores its digits only. */
module InputMasks {
  import opened Text

  /** At most this many digits are kept from what the user typed. */
  const MaxDigits := 11

  /** The digits a mask keeps: `value.replace(/\D/g, '').slice(0, 11)`. */
  function KeptDigits(value: string): (d: string)
    ensures |d| <= MaxDigits && AllDigits(d)
  {
    Take(Digits(value), MaxDigits)
  }

  /** How many punctuation characters the CPF mask inserts for `n` digits. */
  function CpfSeparators(n: nat): nat {
    if n >= 10 then 3 else if n >= 7 then 2 else if n >= 4 then 1 else 0
  }

  /** `formatCPF`: the kept digits as `ddd.ddd.ddd-dd`, cut short after the
      last digit typed. The digits of the result are exactly the kept
      digits, the separators sit at positions 3, 7 and 11 as soon as a digit
      follows them, and the result is 14 characters long precisely when
      eleven digits were typed. */
  function FormatCpf(value: string): (r: string)
    ensures var d := KeptDigits(value);
      && Digits(r) == d
      && |r| == |d| + CpfSeparators(|d|)
      && (|d| >= 4 ==> r[3] == '.')
      && (|d| >= 7 ==> r[7] == '.')
      && (|d| >= 10 ==> r[11] == '-')
    ensures |r| <= 14
    ensures |r| == 14 <==> |Digits(value)| >= 11
  {
    var d := KeptDigits(value);
    CpfMaskDigits(d);
    if |d| <= 3 then d
    else if |d| <= 6 then d[..3] + "." + d[3..]
    else if |d| <= 9 then d[..3] + "." + d[3..6] + "." + d[6..]
    else d[..3] + "." + d[3..6] + "." + d[6..9] + "-" + d[9..]
  }

  lemma CpfMaskDigits(d: string)
    requires AllDigits(d)
    ensures Digits(d) == d
    ensures |d| > 3 ==> Digits(d[..3] + "." + d[3..]) == d
    ensures |d| > 6 ==> Digits(d[..3] + "." + d[3..6] + "." + d[6..]) == d
    ensures |d| > 9 ==> Digits(d[..3] + "." + d[3..6] + "." + d[6..9] + "-" + d[9..]) == d
  {
    DigitsOfAllDigits(d);
    if |d| > 3 { CpfOneDot(d); }
    if |d| > 6 { CpfTwoDots(d); }
    if |d| > 9 { CpfFull(d); }
  }

  lemma CpfOneDot(d: string)
    requires AllDigits(d) && |d| > 3
    ensures Digits(d[..3] + "." + d[3..]) == d
  {
    assert AllDigits(d[..3]) && AllDigits(d[3..]);
    DigitsOfAllDigits(d[..3]);
    DigitsWithSeparator(d[..3], ".", d[3..]);
    assert d[..3] + d[3..] == d;
  }

  lemma CpfTwoDots(d: string)
    requires AllDigits(d) && |d| > 6
    ensures Digits(d[..3] + "." + d[3..6] + "." + d[6..]) == d
  {
    assert AllDigits(d[..3]) && AllDigits(d[3..6]) && AllDigits(d[6..]);
    DigitsOfAllDigits(d[..3]);
    DigitsWithSeparator(d[..3], ".", d[3..6]);
    DigitsWithSeparator(d[..3] + "." + d[3..6], ".", d[6..]);
    assert d[..3] + d[3..6] + d[6..] == d;
  }

  lemma CpfFull(d: string)
    requires AllDigits(d) && |d| > 9
    ensures Digits(d[..3] + "." + d[3..6] + "." + d[6..9] + "-" + d[9..]) == d
  {
    assert AllDigits(d[..3]) && AllDigits(d[3..6]) && AllDigits(d[6..9]) && AllDigits(d[9..]);
    DigitsOfAllDigits(d[..3]);
    DigitsWithSeparator(d[..3], ".", d[3..6]);
    DigitsWithSeparator(d[..3] + "." + d[3..6], ".", d[6..9]);
    DigitsWithSeparator(d[..3] + "." + d[3..6] + "." + d[6..9], "-", d[9..]);
    assert d[..3] + d[3..6] + d[6..9] + d[9..] == d;
  }

  /** Inserting punctuation between two stretches of a digit string keeps
      its digits. */
  lemma {:induction false} DigitsWithSeparator(x: string, sep: string, y: string)
    requires AllDigits(y)
    requires forall i :: 0 <= i < |sep| ==> !IsDigit(sep[i])
    ensures Digits(x + sep + y) == Digits(x) + y
  {
    DigitsAppend(x + sep, y);
    DigitsAppend(x, sep);
    DigitsOfNoDigits(sep);
    DigitsOfAllDigits(y);
  }

  /** Masking an already masked CPF changes nothing, so re-running the mask
      on every keystroke is stable. */
  lemma FormatCpfIdempotent(value: string)
    ensures FormatCpf(FormatCpf(value)) == FormatCpf(value)
  {
    var d := KeptDigits(value);
    assert KeptDigits(FormatCpf(value)) == d;
  }

  /** How many punctuation characters the phone mask inserts for `n` digits. */
  function PhoneSeparators(n: nat): nat {
    if n >= 8 then 4 else if n >= 3 then 3 else 0
  }

  /** `formatPhone`: the kept digits as `(dd) ddddd-dddd`, cut short after
      the last digit typed. */
  function FormatPhone(value: string): (r: string)
    ensures var d := KeptDigits(value);
      && Digits(r) == d
      && |r| == |d| + PhoneSeparators(|d|)
      && (|d| >= 3 ==> r[0] == '(' && r[3] == ')' && r[4] == ' ')
      && (|d| >= 8 ==> r[10] == '-')
    ensures |r| <= 15
  {
    var d := KeptDigits(value);
    PhoneMaskDigits(d);
    if |d| <= 2 then d
    else if |d| <= 7 then "(" + d[..2] + ") " + d[2..]
    else "(" + d[..2] + ") " + d[2..7] + "-" + d[7..]
  }

  lemma PhoneMaskDigits(d: string)
    requires AllDigits(d)
    ensures Digits(d) == d
    ensures |d| > 2 ==> Digits("(" + d[..2] + ") " + d[2..]) == d
    ensures |d| > 7 ==> Digits("(" + d[..2] + ") " + d[2..7] + "-" + d[7..]) == d
  {
    DigitsOfAllDigits(d);
    if |d| > 2 { PhoneAreaCode(d); }
    if |d| > 7 { PhoneFull(d); }
  }

  lemma PhoneAreaCode(d: string)
    requires AllDigits(d) && |d| > 2
    ensures Digits("(" + d[..2] + ") " + d[2..]) == d
  {
    assert AllDigits(d[..2]) && AllDigits(d[2..]);
    DigitsWithSeparator("", "(", d[..2]);
    assert "" + "(" + d[..2] == "(" + d[..2];
    DigitsWithSeparator("(" + d[..2], ") ", d[2..]);
    assert d[..2] + d[2..] == d;
  }

  lemma PhoneFull(d: string)
    requires AllDigits(d) && |d| > 7
    ensures Digits("(" + d[..2] + ") " + d[2..7] + "-" + d[7..]) == d
  {
    assert AllDigits(d[..2]) && AllDigits(d[2..7]) && AllDigits(d[7..]);
    DigitsWithSeparator("", "(", d[..2]);
    assert "" + "(" + d[..2] == "(" + d[..2];
    DigitsWithSeparator("(" + d[..2], ") ", d[2..7]);
    DigitsWithSeparator("(" + d[..2] + ") " + d[2..7], "-", d[7..]);
    assert d[..2] + d[2..7] + d[7..] == d;
  }

  lemma FormatPhoneIdempotent(value: string)
    ensures FormatPhone(FormatPhone(value)) == FormatPhone(value)
  {
    var d := KeptDigits(value);
    assert KeptDigits(FormatPhone(value)) == d;
  }
}
