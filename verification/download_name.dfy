/**
 * The name of the downloaded file, `compressed-image-<value>.jpg`, where
 * `<value>` is the slider's percentage written in decimal.
 */
module DownloadName {
  import opened Wrappers
  import opened Inputs

  const NamePrefix: string := "compressed-image-"
  const NameSuffix: string := ".jpg"

  function DigitChar(d: nat): (c: char)
    requires d < 10
    ensures '0' <= c <= '9'
  {
    "0123456789"[d]
  }

  function DigitValue(c: char): (r: Option<nat>)
    ensures r.Some? <==> '0' <= c <= '9'
    ensures r.Some? ==> r.value < 10 && DigitChar(r.value) == c
  {
    if '0' <= c <= '9' then Some((c - '0') as nat) else None
  }

  /** A natural number written in decimal, as JavaScript's `String(n)` writes it. */
  function Decimal(n: nat): (s: string)
    ensures |s| >= 1
    ensures forall i :: 0 <= i < |s| ==> '0' <= s[i] <= '9'
    ensures |s| > 1 ==> s[0] != '0'
    decreases n
  {
    if n < 10 then [DigitChar(n)] else Decimal(n / 10) + [DigitChar(n % 10)]
  }

  /** The value of a non-empty string of decimal digits; nothing for any other string. */
  function ParseDecimal(s: string): (r: Option<nat>)
    ensures r.Some? <==> |s| >= 1 && forall i :: 0 <= i < |s| ==> '0' <= s[i] <= '9'
    decreases |s|
  {
    if s == [] then None
    else
      match DigitValue(s[|s| - 1])
      case None => None
      case Some(d) =>
        if |s| == 1 then Some(d)
        else
          match ParseDecimal(s[..|s| - 1])
          case None => None
          case Some(v) => Some(10 * v + d)
  }

  lemma {:induction false} ParseDecimalOfDecimal(n: nat)
    ensures ParseDecimal(Decimal(n)) == Some(n)
    decreases n
  {
    if n >= 10 {
      var s := Decimal(n);
      assert s[..|s| - 1] == Decimal(n / 10);
      ParseDecimalOfDecimal(n / 10);
    }
  }

  /** `compressed-image-${value}.jpg`. */
  function FileName(percent: nat): (name: string)
    ensures StartsWith(name, NamePrefix)
    ensures |name| > |NamePrefix| + |NameSuffix|
    ensures name[|name| - |NameSuffix|..] == NameSuffix
  {
    NamePrefix + Decimal(percent) + NameSuffix
  }

  /** The percentage a download name carries, if it has the shape of one. */
  function PercentOfFileName(name: string): Option<nat> {
    if |name| < |NamePrefix| + |NameSuffix| || !StartsWith(name, NamePrefix)
       || name[|name| - |NameSuffix|..] != NameSuffix
    then None
    else ParseDecimal(name[|NamePrefix|..|name| - |NameSuffix|])
  }

  /** The name gives back the percentage it was made from; distinct percentages get distinct names. */
  lemma FileNameRoundTrip(percent: nat, other: nat)
    ensures PercentOfFileName(FileName(percent)) == Some(percent)
    ensures FileName(percent) == FileName(other) ==> percent == other
  {
    var name := FileName(percent);
    assert name[|NamePrefix|..|name| - |NameSuffix|] == Decimal(percent);
    ParseDecimalOfDecimal(percent);
    var otherName := FileName(other);
    assert otherName[|NamePrefix|..|otherName| - |NameSuffix|] == Decimal(other);
    ParseDecimalOfDecimal(other);
  }
}
