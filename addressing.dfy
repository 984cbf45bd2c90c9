/**
 * How `submit` builds the source and destination addresses of a SUBMIT_SM.
 * Type of number and numbering plan follow sections 5.2.5 and 5.2.6 of the
 * SMPP v3.4 specification: TON 1 is International, TON 5 Alphanumeric, NPI 1 is
 * ISDN (E.164) and NPI 0 Unknown. The toolkit's own length checks in the
 * `Address` constructors are not part of this model; only the limit chosen is.
 */
module Addressing {
  import opened Wrappers
  import opened JavaLang

  const TON_INTERNATIONAL: Byte := 1
  const TON_ALPHANUMERIC: Byte := 5
  const NPI_ISDN: Byte := 1
  const NPI_UNKNOWN: Byte := 0

  /** The maximum length passed for an alphanumeric sender. */
  const ALPHANUMERIC_MAX_LENGTH: nat := 11

  /** Which `Address` constructor was used: the three-argument one, or the one with a length limit. */
  datatype MaxLength = DefaultLength | Limit(n: nat)

  datatype Address = Address(ton: Byte, npi: Byte, address: string, maxLength: MaxLength)

  /** The source and destination addresses a SUBMIT_SM is given. */
  datatype Addressing = Addressing(source: Address, destination: Address)

  /** The string without its first character when that character is `+`. */
  function StripPlus(s: string): (r: string)
    ensures StartsWith(s, "+") ==> s == "+" + r
    ensures !StartsWith(s, "+") ==> r == s
  {
    if StartsWith(s, "+") then s[1..] else s
  }

  /**
   * The source address for a sender given on the command line with its TON and
   * NPI, or the configured `source-address` when no sender was given.
   */
  function SenderAddress(sender: Option<string>, ton: Byte, npi: Byte, configured: Address): (r: Address)
    ensures sender.None? ==> r == configured
    ensures sender.Some? ==> (r.maxLength == Limit(ALPHANUMERIC_MAX_LENGTH) <==> r.ton == TON_ALPHANUMERIC)
    ensures sender.Some? ==> r.maxLength in {DefaultLength, Limit(ALPHANUMERIC_MAX_LENGTH)}
  {
    match sender
    case None => configured
    case Some(s) =>
      var (s1, ton1, npi1) :=
        if StartsWith(s, "+") then (s[1..], TON_INTERNATIONAL, NPI_ISDN) else (s, ton, npi);
      var (ton2, npi2) :=
        if !AllDigits(s1) then (TON_ALPHANUMERIC, NPI_UNKNOWN) else (ton1, npi1);
      if ton2 == TON_ALPHANUMERIC then Address(ton2, npi2, s1, Limit(ALPHANUMERIC_MAX_LENGTH))
      else Address(ton2, npi2, s1, DefaultLength)
  }

  /** The destination address: International/ISDN, without one leading `+`. */
  function DestAddress(dest: string): (r: Address)
    ensures r.ton == TON_INTERNATIONAL && r.npi == NPI_ISDN && r.maxLength == DefaultLength
  {
    Address(TON_INTERNATIONAL, NPI_ISDN, StripPlus(dest), DefaultLength)
  }

  /** The addresses `submit` puts into its request. */
  function SubmitAddressing(dest: string, sender: Option<string>, ton: Byte, npi: Byte, configured: Address): (r: Addressing)
    ensures r.destination.ton == TON_INTERNATIONAL && r.destination.npi == NPI_ISDN
    ensures r.destination.address == StripPlus(dest)
    ensures sender.None? ==> r.source == configured
    ensures sender.Some? ==> r.source.address == StripPlus(sender.value)
    ensures sender.Some? && !AllDigits(StripPlus(sender.value)) ==>
      r.source.ton == TON_ALPHANUMERIC && r.source.npi == NPI_UNKNOWN
  {
    Addressing(SenderAddress(sender, ton, npi, configured), DestAddress(dest))
  }

  /**
   * The three cases of the sender rule. The address is the sender without one
   * leading `+`. If that is not one or more digits the address is alphanumeric
   * (5/0), whatever the `+` and the caller said; otherwise a `+` makes it
   * International/ISDN (1/1) and without one the caller's TON and NPI stand.
   */
  lemma SenderRule(s: string, ton: Byte, npi: Byte, configured: Address)
    ensures var r := SenderAddress(Some(s), ton, npi, configured);
      && r.address == StripPlus(s)
      && (!AllDigits(StripPlus(s)) ==>
            r == Address(TON_ALPHANUMERIC, NPI_UNKNOWN, StripPlus(s), Limit(ALPHANUMERIC_MAX_LENGTH)))
      && (AllDigits(StripPlus(s)) && StartsWith(s, "+") ==>
            r == Address(TON_INTERNATIONAL, NPI_ISDN, StripPlus(s), DefaultLength))
      && (AllDigits(StripPlus(s)) && !StartsWith(s, "+") ==> r.ton == ton && r.npi == npi)
  {
  }

  /** A sender address whose TON is not alphanumeric is all digits, so it carries no `+`. */
  lemma NumericSenderIsDigits(s: string, ton: Byte, npi: Byte, configured: Address)
    ensures var r := SenderAddress(Some(s), ton, npi, configured);
      r.ton != TON_ALPHANUMERIC ==> AllDigits(r.address) && !StartsWith(r.address, "+")
  {
    var r := SenderAddress(Some(s), ton, npi, configured);
    if r.ton != TON_ALPHANUMERIC {
      assert IsDigit(r.address[0]);
      assert r.address[..1][0] == r.address[0];
    }
  }

  /**
   * Normalising a sender address again with its own TON and NPI changes nothing,
   * unless the address still starts with `+` (a sender written `++...`).
   */
  lemma SenderNormalFormStable(s: string, ton: Byte, npi: Byte, configured: Address)
    ensures var r := SenderAddress(Some(s), ton, npi, configured);
      !StartsWith(r.address, "+") ==> SenderAddress(Some(r.address), r.ton, r.npi, configured) == r
  {
  }

  /**
   * A sender written with two `+` signs is not a fixed point: the second `+` goes
   * on the next pass. Only `submit` meets a sender, and `main` never calls it.
   */
  lemma DoublePlusSenderNotStable(configured: Address)
    ensures SenderAddress(Some("++1"), 0, 0, configured) == Address(TON_ALPHANUMERIC, NPI_UNKNOWN, "+1", Limit(ALPHANUMERIC_MAX_LENGTH))
    ensures SenderAddress(Some("+1"), TON_ALPHANUMERIC, NPI_UNKNOWN, configured) == Address(TON_INTERNATIONAL, NPI_ISDN, "1", DefaultLength)
  {
    assert StartsWith("++1", "+");
    assert !AllDigits("+1") by { assert !IsDigit("+1"[0]); }
    assert StartsWith("+1", "+");
    assert "+1"[1..] == "1";
    assert AllDigits("1");
  }

  /**
   * The destination loses at most one leading `+`: a `+` in front of a number that
   * has none gives the same address, and a second `+` is kept.
   */
  lemma DestStripsOnePlus(d: string)
    ensures DestAddress("+" + d).address == d
    ensures !StartsWith(d, "+") ==> DestAddress("+" + d) == DestAddress(d)
  {
    assert StartsWith("+" + d, "+");
    assert ("+" + d)[1..] == d;
  }
}
