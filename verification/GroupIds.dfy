/** Decimal text, and the group identities `G001`, `G002`, ... of triage/assign.py. */
module GroupIds {

  predicate IsDigit(c: char) { '0' <= c <= '9' }

  predicate AllDigits(s: string) { forall i | 0 <= i < |s| :: IsDigit(s[i]) }

  function DigitValue(c: char): nat
    requires IsDigit(c)
  {
    (c - '0') as nat
  }

  /** `int(s)` of a decimal string. */
  function ParseNat(s: string): nat
    requires AllDigits(s)
  {
    if s == "" then 0 else 10 * ParseNat(s[..|s| - 1]) + DigitValue(s[|s| - 1])
  }

  function FormatNat(n: nat): (s: string)
    ensures s != "" && AllDigits(s)
  {
    if n < 10 then [DigitChar(n)] else FormatNat(n / 10) + [DigitChar(n % 10)]
  }

  function DigitChar(d: nat): (c: char)
    requires d < 10
    ensures IsDigit(c) && DigitValue(c) == d
  {
    '0' + d as char
  }

  lemma {:induction false} ParseFormat(n: nat)
    ensures ParseNat(FormatNat(n)) == n
  {
    if n >= 10 {
      ParseFormat(n / 10);
      assert FormatNat(n)[..|FormatNat(n)| - 1] == FormatNat(n / 10);
    }
  }

  lemma {:induction false} ParseLeadingZero(s: string)
    requires AllDigits(s)
    ensures AllDigits("0" + s) && ParseNat("0" + s) == ParseNat(s)
  {
    if s != "" {
      ParseLeadingZero(s[..|s| - 1]);
      assert ("0" + s)[..|s|] == "0" + s[..|s| - 1];
    }
  }

  /** `f"G{n:03d}"`. */
  function GroupId(n: nat): string {
    "G" + Padded(FormatNat(n))
  }

  function Padded(s: string): (p: string)
    requires AllDigits(s)
    ensures AllDigits(p) && |p| >= |s|
  {
    if |s| >= 3 then s else if |s| == 2 then "0" + s else "00" + s
  }

  /** The number behind an identity of the form `G<digits>`, if it has that form. */
  predicate IsNumbered(gid: string) {
    |gid| >= 2 && gid[0] == 'G' && AllDigits(gid[1..])
  }

  function NumberOf(gid: string): nat
    requires IsNumbered(gid)
  {
    ParseNat(gid[1..])
  }

  /** Such an identity is G and at least one digit, whatever the number of digits. */
  lemma IsNumberedIff(gid: string)
    ensures IsNumbered(gid) <==> exists digits {:trigger "G" + digits} ::
              gid == "G" + digits && digits != "" && AllDigits(digits)
  {
    if IsNumbered(gid) { assert gid == "G" + gid[1..]; }
    if digits {:trigger "G" + digits} :| gid == "G" + digits && digits != "" && AllDigits(digits) {
      assert gid[1..] == digits;
    }
  }

  lemma NumberOfGroupId(n: nat)
    ensures IsNumbered(GroupId(n)) && NumberOf(GroupId(n)) == n
  {
    var s := FormatNat(n);
    ParseFormat(n);
    ParseLeadingZero(s);
    ParseLeadingZero("0" + s);
    assert "0" + ("0" + s) == "00" + s;
    assert GroupId(n)[1..] == Padded(s);
  }

  lemma {:induction false} NoLeadingZero(n: nat)
    ensures |FormatNat(n)| > 1 ==> FormatNat(n)[0] != '0'
  {
    if n >= 10 {
      NoLeadingZero(n / 10);
      if n / 10 < 10 {
        assert DigitValue(FormatNat(n)[0]) == n / 10;
      }
    }
  }

  /** An identity has three digits at least, and more only when the number needs them. */
  lemma GroupIdForm(n: nat)
    ensures |GroupId(n)| >= 4 && (|GroupId(n)| > 4 ==> GroupId(n)[1] != '0')
    ensures GroupId(n)[0] == 'G' && AllDigits(GroupId(n)[1..]) && ParseNat(GroupId(n)[1..]) == n
  {
    NoLeadingZero(n);
    NumberOfGroupId(n);
  }
}
