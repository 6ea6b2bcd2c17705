/**
 The blocklist controller (controllers/blocklistController.js): the phone
 formatter `formatPhoneNumber` and the validity gate of `addToBlocklist`,
 over a blocklist collection held as a sequence of entries.
 */
module Blocklist {
  import opened Common
  import opened Text

  /** One blocklist document (models/Blocklist.js); `company` is a company id. */
  datatype BlockEntry = BlockEntry(phone: string, company: string, reason: string)

  /** The schema default for a missing reason. */
  const DefaultReason := "Manual Block"

  /** Why `addToBlocklist` refused an entry, with the flash message it shows. */
  datatype BlockError = InvalidFormat | SaveRejected {
    function Message(): string {
      match this
      case InvalidFormat => "Invalid phone number format."
      case SaveRejected => "Could not add to blocklist."
    }
  }

  /** The characters `/[\s-]+/g` removes. */
  predicate IsSeparator(c: char) {
    IsSpace(c) || c == '-'
  }

  predicate NoSeparators(s: string) {
    forall i :: 0 <= i < |s| ==> !IsSeparator(s[i])
  }

  /** `phone.replace(/[\s-]+/g, '')`: the non-separator characters, in order. */
  function StripSeparators(s: string): (r: string)
    ensures NoSeparators(r)
    ensures IsSubsequence(r, s)
    decreases |s|
  {
    if s == [] then []
    else
      var rest := StripSeparators(s[1..]);
      assert s == [s[0]] + s[1..];
      if IsSeparator(s[0]) then
        SubsequenceOfTail(rest, s[0], s[1..]);
        rest
      else
        SubsequenceCons(rest, s[0], s[1..]);
        [s[0]] + rest
  }

  /** Stripping works piecewise: the result for `a + b` is the result for `a` followed by that for `b`. */
  lemma {:induction false} StripSeparatorsAppend(a: string, b: string)
    ensures StripSeparators(a + b) == StripSeparators(a) + StripSeparators(b)
    decreases |a|
  {
    if a == [] {
      assert a + b == b;
    } else {
      assert (a + b)[1..] == a[1..] + b;
      StripSeparatorsAppend(a[1..], b);
    }
  }

  /** A string without separators is left as it is. */
  lemma {:induction false} StripSeparatorsKeeps(s: string)
    requires NoSeparators(s)
    ensures StripSeparators(s) == s
    decreases |s|
  {
    if s != [] {
      StripSeparatorsKeeps(s[1..]);
    }
  }

  /** `formatPhoneNumber`; `None` is the `null` it returns for a missing or empty phone. */
  function FormatPhoneNumber(phone: string): (r: Option<string>)
    ensures r.None? <==> phone == ""
    ensures r.Some? ==> |r.value| > 0 && r.value[0] == '+'
    ensures r.Some? ==> NoSeparators(r.value)
  {
    if phone == "" then None
    else
      var cleaned := StripSeparators(phone);
      if StartsWith(cleaned, "+") then Some(cleaned) else Some("+" + cleaned)
  }

  /** The formatted phone is the separator-free phone, with one '+' added only when it had none in front. */
  lemma {:induction false} FormatPhoneNumberShape(phone: string)
    requires phone != ""
    ensures var cleaned := StripSeparators(phone);
            var r := FormatPhoneNumber(phone).value;
            && (|cleaned| > 0 && cleaned[0] == '+' ==> r == cleaned)
            && (!(|cleaned| > 0 && cleaned[0] == '+') ==> r == "+" + cleaned)
            && IsSubsequence(cleaned, r)
  {
    var cleaned := StripSeparators(phone);
    var r := FormatPhoneNumber(phone).value;
    if StartsWith(cleaned, "+") {
      SubsequenceReflexive(cleaned);
    } else {
      SubsequenceReflexive(cleaned);
      SubsequenceOfTail(cleaned, '+', cleaned);
    }
  }

  /** Formatting an already formatted phone changes nothing. */
  lemma FormatPhoneNumberIdempotent(phone: string)
    requires phone != ""
    ensures var r := FormatPhoneNumber(phone).value;
            FormatPhoneNumber(r) == Some(r)
  {
    var r := FormatPhoneNumber(phone).value;
    StripSeparatorsKeeps(r);
  }

  /** The blocked phones of one company, as the campaign start builds them. */
  function BlockedPhones(entries: seq<BlockEntry>, companyId: string): (r: set<string>)
    ensures forall p :: p in r <==> exists i :: 0 <= i < |entries| && entries[i].company == companyId && entries[i].phone == p
  {
    set i | 0 <= i < |entries| && entries[i].company == companyId :: entries[i].phone
  }

  /** Every stored phone starts with '+', as the formatter guarantees. */
  predicate AllPlusPrefixed(entries: seq<BlockEntry>) {
    forall i :: 0 <= i < |entries| ==> StartsWith(entries[i].phone, "+")
  }

  /**
   `addToBlocklist`: format the phone, refuse a missing one, and store the
   entry. The schema requires a company; a missing reason takes the
   schema default.
   */
  function AddToBlocklist(entries: seq<BlockEntry>, phone: string, companyId: string, reason: Option<string>)
    : (r: Result<seq<BlockEntry>, BlockError>)
    ensures phone == "" ==> r == Failure(InvalidFormat)
    ensures phone != "" && companyId == "" ==> r == Failure(SaveRejected)
    ensures r.Success? <==> phone != "" && companyId != ""
    ensures r.Success? ==> |r.value| == |entries| + 1 && r.value[..|entries|] == entries
    ensures r.Success? ==> var e := r.value[|entries|];
                           && Some(e.phone) == FormatPhoneNumber(phone)
                           && e.company == companyId
                           && (reason.Some? ==> e.reason == reason.value)
                           && (reason.None? ==> e.reason == DefaultReason)
  {
    match FormatPhoneNumber(phone)
    case None => Failure(InvalidFormat)
    case Some(formatted) =>
      if companyId == "" then Failure(SaveRejected)
      else
        var why := match reason case Some(text) => text case None => DefaultReason;
        Success(entries + [BlockEntry(formatted, companyId, why)])
  }

  /** Adding through the controller keeps every stored phone '+'-prefixed. */
  lemma AddKeepsPlusPrefixed(entries: seq<BlockEntry>, phone: string, companyId: string, reason: Option<string>)
    requires AllPlusPrefixed(entries)
    requires AddToBlocklist(entries, phone, companyId, reason).Success?
    ensures AllPlusPrefixed(AddToBlocklist(entries, phone, companyId, reason).value)
  {
    var r := AddToBlocklist(entries, phone, companyId, reason).value;
    forall i | 0 <= i < |r|
      ensures StartsWith(r[i].phone, "+")
    {
      if i < |entries| {
        assert r[i] == entries[i];
      }
    }
  }

  /** With '+'-prefixed entries only, a phone without a leading '+' is never blocked. */
  lemma PlainPhoneNeverBlocked(entries: seq<BlockEntry>, companyId: string, phone: string)
    requires AllPlusPrefixed(entries)
    requires !StartsWith(phone, "+")
    ensures phone !in BlockedPhones(entries, companyId)
  {
  }
}
