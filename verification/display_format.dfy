/** The formatters of the organizer's participant-details dialog, which
    render the CPF and cellphone digits a profile stores. Unlike the input
    masks they never cut digits off: a value they do not recognise is shown
    as it is. */
module DisplayFormat {
  import opened Text
  import InputMasks

  /** `formatCPF`: an 11-character value becomes `ddd.ddd.ddd-dd`; anything
      else (including the empty string) is returned unchanged. The
      characters themselves are not checked to be digits. */
  function FormatCpf(cpf: string): (r: string)
    ensures |cpf| != 11 ==> r == cpf
    ensures |cpf| == 11 ==> |r| == 14 && r[3] == '.' && r[7] == '.' && r[11] == '-'
    // dropping the three separators gives back the stored value
    ensures |cpf| == 11 ==> r[..3] + r[4..7] + r[8..11] + r[12..] == cpf
  {
    if |cpf| == 0 || |cpf| != 11 then cpf
    else
      var r := cpf[..3] + "." + cpf[3..6] + "." + cpf[6..9] + "-" + cpf[9..];
      assert r[..3] == cpf[..3] && r[4..7] == cpf[3..6] && r[8..11] == cpf[6..9] && r[12..] == cpf[9..];
      assert cpf[..3] + cpf[3..6] + cpf[6..9] + cpf[9..] == cpf;
      r
  }

  /** `formatPhone`: a value with 11 digits becomes `(dd) ddddd-dddd`, one
      with 10 digits `(dd) dddd-dddd`; for any other digit count the value
      is returned as given, punctuation and all. */
  function FormatPhone(phone: string): (r: string)
    ensures phone == "" ==> r == phone
    ensures |Digits(phone)| != 10 && |Digits(phone)| != 11 ==> r == phone
    ensures |Digits(phone)| == 11 ==>
      && |r| == 15 && r[0] == '(' && r[3] == ')' && r[4] == ' ' && r[10] == '-'
      && Digits(r) == Digits(phone)
    ensures |Digits(phone)| == 10 ==>
      && |r| == 14 && r[0] == '(' && r[3] == ')' && r[4] == ' ' && r[9] == '-'
      && Digits(r) == Digits(phone)
  {
    if phone == "" then phone
    else
      var d := Digits(phone);
      PhoneLayoutDigits(d);
      if |d| == 11 then "(" + d[..2] + ") " + d[2..7] + "-" + d[7..]
      else if |d| == 10 then "(" + d[..2] + ") " + d[2..6] + "-" + d[6..]
      else phone
  }

  lemma {:induction false} PhoneLayoutDigits(d: string)
    requires AllDigits(d)
    ensures |d| == 11 ==> Digits("(" + d[..2] + ") " + d[2..7] + "-" + d[7..]) == d
    ensures |d| == 10 ==> Digits("(" + d[..2] + ") " + d[2..6] + "-" + d[6..]) == d
  {
    if |d| == 11 || |d| == 10 {
      var m := |d| - 4;
      assert AllDigits(d[..2]) && AllDigits(d[2..m]) && AllDigits(d[m..]);
      InputMasks.DigitsWithSeparator("", "(", d[..2]);
      assert "" + "(" + d[..2] == "(" + d[..2];
      InputMasks.DigitsWithSeparator("(" + d[..2], ") ", d[2..m]);
      InputMasks.DigitsWithSeparator("(" + d[..2] + ") " + d[2..m], "-", d[m..]);
      assert d[..2] + d[2..m] + d[m..] == d;
    }
  }

  /** Formatting a formatted phone number changes nothing. */
  lemma FormatPhoneIdempotent(phone: string)
    ensures FormatPhone(FormatPhone(phone)) == FormatPhone(phone)
  {
  }

  /** A CPF typed in full, stored as its digits and shown again, reads
      exactly as the input mask displayed it while it was typed. */
  lemma StoredCpfShowsAsTyped(value: string)
    requires |Digits(value)| >= 11
    ensures FormatCpf(Digits(InputMasks.FormatCpf(value))) == InputMasks.FormatCpf(value)
  {
    var d := InputMasks.KeptDigits(value);
    assert |d| == 11;
  }

  /** The same holds for an 11-digit cellphone number. */
  lemma StoredPhoneShowsAsTyped(value: string)
    requires |Digits(value)| >= 11
    ensures FormatPhone(Digits(InputMasks.FormatPhone(value))) == InputMasks.FormatPhone(value)
  {
    var d := InputMasks.KeptDigits(value);
    assert |d| == 11;
    DigitsOfAllDigits(d);
  }

  /** For a 10-digit (landline) number the two layouts disagree: the input
      mask puts five digits before the hyphen, the dialog four. */
  lemma LandlineLayoutsDiffer(value: string)
    requires |Digits(value)| == 10
    ensures InputMasks.FormatPhone(value) != FormatPhone(value)
  {
    var d := Digits(value);
    assert InputMasks.KeptDigits(value) == d;
    assert value != "";
    assert FormatPhone(value)[10] == d[6];
    assert IsDigit(d[6]);
  }
}
