/**
 The wire-format phone normaliser used when a campaign sends to the
 WhatsApp Cloud API (`cleanPhoneForMeta`, controllers/campaignsController.js).

 It keeps only the ASCII digits, removes one leading international "00",
 and prefixes India's country code 91 to a number that is then exactly
 ten digits long. It is a heuristic, not E.164 normalisation.
 */
module MetaPhone {
  import opened Common
  import opened Text

  /** The bare national length that receives the default country code. */
  const NationalLength := 10
  const CountryCode := "91"

  /** JavaScript `s.replace(/\D/g, '')` on ASCII digits: the digits of `s`, in order. */
  function DigitsOf(s: string): (r: string)
    ensures AllDigits(r)
    ensures IsSubsequence(r, s)
    ensures AllDigits(s) ==> r == s
    ensures |s| == 1 ==> r == (if IsDigit(s[0]) then s else [])
    decreases |s|
  {
    if s == [] then []
    else
      var rest := DigitsOf(s[1..]);
      assert s == [s[0]] + s[1..];
      if IsDigit(s[0]) then
        SubsequenceCons(rest, s[0], s[1..]);
        [s[0]] + rest
      else
        SubsequenceOfTail(rest, s[0], s[1..]);
        rest
  }

  /**
   The digits are extracted piece by piece: those of `a + b` are those of
   `a` followed by those of `b`. With the one-character case of `DigitsOf`
   this says every digit is kept, in order, and every other character is
   dropped.
   */
  lemma {:induction false} DigitsOfAppend(a: string, b: string)
    ensures DigitsOf(a + b) == DigitsOf(a) + DigitsOf(b)
    decreases |a|
  {
    if a == [] {
      assert a + b == b;
    } else {
      assert (a + b)[0] == a[0];
      assert (a + b)[1..] == a[1..] + b;
      DigitsOfAppend(a[1..], b);
    }
  }

  /** The digits with one leading "00" removed, when present. */
  function Subscriber(phone: string): string {
    var d := DigitsOf(phone);
    if StartsWith(d, "00") then d[2..] else d
  }

  /** `cleanPhoneForMeta`; a missing phone is the empty string. */
  function CleanPhoneForMeta(phone: string): (r: string)
    ensures phone == "" ==> r == ""
    ensures AllDigits(r)
  {
    if phone == "" then ""
    else
      var s := Subscriber(phone);
      if |s| == NationalLength then CountryCode + s else s
  }

  /** The result is the subscriber digits, with "91" in front exactly when they are ten long. */
  lemma CleanPhoneShape(phone: string)
    ensures var s := Subscriber(phone);
            var r := CleanPhoneForMeta(phone);
            && (|s| == NationalLength ==> |r| == 12 && r[..2] == "91" && r[2..] == s)
            && (|s| != NationalLength ==> r == s)
  {
    if phone == "" {
      assert DigitsOf(phone) == [];
    }
  }

  /** A cleaned phone is never a bare ten-digit national number. */
  lemma CleanPhoneNeverNational(phone: string)
    ensures |CleanPhoneForMeta(phone)| != NationalLength
  {
    CleanPhoneShape(phone);
  }

  /** Only the digits matter: `+`, spaces, dashes and brackets are ignored. */
  lemma CleanPhoneDependsOnDigitsOnly(phone: string)
    ensures CleanPhoneForMeta(phone) == CleanPhoneForMeta(DigitsOf(phone))
  {
    var d := DigitsOf(phone);
    assert DigitsOf(d) == d;
    if phone == "" {
      assert d == [];
    }
  }

  /** A leading international "00" is an alias: "00" followed by a number cleans like the number. */
  lemma CleanPhoneDropsInternationalPrefix(x: string)
    requires AllDigits(x) && !StartsWith(x, "00")
    ensures CleanPhoneForMeta("00" + x) == CleanPhoneForMeta(x)
  {
    assert AllDigits("00" + x);
    assert DigitsOf("00" + x) == "00" + x;
    assert ("00" + x)[2..] == x;
    assert DigitsOf(x) == x;
    if x == "" {
      assert Subscriber("00") == "";
    }
  }

  /**
   Exactly one "00" is removed: a digit string that starts with "00" loses
   its first two digits and nothing else, unless ten digits remain. So
   "0000" followed by digits keeps a leading "00".
   */
  lemma CleanPhoneRemovesOnePrefix(x: string)
    requires AllDigits(x) && StartsWith(x, "00") && |x| != NationalLength + 2
    ensures CleanPhoneForMeta(x) == x[2..]
  {
    assert DigitsOf(x) == x;
  }

  /** Cleaning twice changes nothing exactly when the first result does not start with "00". */
  lemma CleanPhoneIdempotentIff(phone: string)
    ensures var r := CleanPhoneForMeta(phone);
            CleanPhoneForMeta(r) == r <==> !StartsWith(r, "00")
  {
    var r := CleanPhoneForMeta(phone);
    CleanPhoneShape(phone);
    assert DigitsOf(r) == r;
    if r != "" {
      if StartsWith(r, "00") {
        CleanPhoneShape(r);
        var s' := Subscriber(r);
        assert s' == r[2..];
        if |s'| == NationalLength {
          assert CleanPhoneForMeta(r)[0] == '9' != r[0];
        } else {
          assert |CleanPhoneForMeta(r)| != |r|;
        }
      } else {
        CleanPhoneNeverNational(phone);
        assert Subscriber(r) == r;
      }
    }
  }

  /** "0000" cleans to "00", which cleans to "": the normaliser is not idempotent. */
  lemma CleanPhoneNotIdempotent()
    ensures CleanPhoneForMeta("0000") == "00"
    ensures CleanPhoneForMeta("00") == ""
  {
    CleanPhoneRemovesOnePrefix("0000");
    assert DigitsOf("00") == "00";
  }
}
