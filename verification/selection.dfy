/**
 The contact selector of `startCampaign` (controllers/campaignsController.js):
 the segment's contacts are scanned in order, a contact is kept when its
 stored phone is not on the company's blocklist and its wire phone has not
 been kept before in this run, and the wire phone of every kept contact
 joins the "seen" set.
 */
module Selection {
  import opened Common
  import opened Text
  import opened Records
  import opened MetaPhone
  import Blocklist

  /** The phone the job is sent to. */
  function WirePhone(c: Contact): string {
    CleanPhoneForMeta(c.phone)
  }

  /** The keys of a list of contacts under `key`. */
  function KeySet(cs: seq<Contact>, key: Contact -> string): set<string> {
    set i | 0 <= i < |cs| :: key(cs[i])
  }

  predicate DistinctKeys(cs: seq<Contact>, key: Contact -> string) {
    forall i, j :: 0 <= i < j < |cs| ==> key(cs[i]) != key(cs[j])
  }

  function WirePhones(cs: seq<Contact>): set<string> {
    KeySet(cs, WirePhone)
  }

  predicate DistinctWirePhones(cs: seq<Contact>) {
    DistinctKeys(cs, WirePhone)
  }

  /** `Contact.find({ company: companyId, segments: segmentId })`, in store order. */
  function SegmentContacts(store: seq<Contact>, companyId: string, segmentId: string): (r: seq<Contact>)
    ensures IsSubsequence(r, store)
    ensures forall c :: c in r ==> c.company == companyId && segmentId in c.segments
    ensures forall c :: c in store && c.company == companyId && segmentId in c.segments ==> c in r
    ensures forall c :: multiset(r)[c] == if c.company == companyId && segmentId in c.segments then multiset(store)[c] else 0
    decreases |store|
  {
    if store == [] then []
    else
      var rest := SegmentContacts(store[1..], companyId, segmentId);
      assert store == [store[0]] + store[1..];
      if store[0].company == companyId && segmentId in store[0].segments then
        SubsequenceCons(rest, store[0], store[1..]);
        [store[0]] + rest
      else
        SubsequenceOfTail(rest, store[0], store[1..]);
        rest
  }

  /**
   The `forEach` loop, continued from the keys already in `seen`. The
   loop keys contacts by their wire phone; the proofs about the loop hold
   for any key.
   */
  function SelectFrom(cs: seq<Contact>, blocked: set<string>, seen: set<string>, key: Contact -> string): seq<Contact>
    decreases |cs|
  {
    if cs == [] then []
    else
      var c := cs[0];
      if c.phone !in blocked && key(c) !in seen then
        [c] + SelectFrom(cs[1..], blocked, seen + {key(c)}, key)
      else
        SelectFrom(cs[1..], blocked, seen, key)
  }

  /**
   The loop keeps the segment's order, never keeps a blocked stored phone
   or a key seen before, and never keeps two contacts with the same key.
   */
  lemma {:induction false} SelectFromSound(cs: seq<Contact>, blocked: set<string>, seen: set<string>, key: Contact -> string)
    ensures var r := SelectFrom(cs, blocked, seen, key);
            && IsSubsequence(r, cs)
            && (forall i :: 0 <= i < |r| ==> r[i].phone !in blocked && key(r[i]) !in seen)
            && DistinctKeys(r, key)
    decreases |cs|
  {
    if cs != [] {
      var c := cs[0];
      assert cs == [c] + cs[1..];
      if c.phone !in blocked && key(c) !in seen {
        var rest := SelectFrom(cs[1..], blocked, seen + {key(c)}, key);
        SelectFromSound(cs[1..], blocked, seen + {key(c)}, key);
        SubsequenceCons(rest, c, cs[1..]);
      } else {
        var rest := SelectFrom(cs[1..], blocked, seen, key);
        SelectFromSound(cs[1..], blocked, seen, key);
        SubsequenceOfTail(rest, c, cs[1..]);
      }
    }
  }

  /** `contactsToSend`: the selection of a whole segment by wire phone, starting with nothing seen. */
  function SelectTargets(cs: seq<Contact>, blocked: set<string>): (r: seq<Contact>)
    ensures IsSubsequence(r, cs)
    ensures forall i :: 0 <= i < |r| ==> r[i].phone !in blocked
    ensures DistinctWirePhones(r)
  {
    SelectFromSound(cs, blocked, {}, WirePhone);
    SelectFrom(cs, blocked, {}, WirePhone)
  }

  lemma KeySetCons(c: Contact, cs: seq<Contact>, key: Contact -> string)
    ensures KeySet([c] + cs, key) == {key(c)} + KeySet(cs, key)
  {
    var l := [c] + cs;
    forall p | p in KeySet(l, key)
      ensures p in {key(c)} + KeySet(cs, key)
    {
      var i :| 0 <= i < |l| && key(l[i]) == p;
      if i > 0 {
        assert l[i] == cs[i - 1];
      }
    }
    forall p | p in KeySet(cs, key)
      ensures p in KeySet(l, key)
    {
      var i :| 0 <= i < |cs| && key(cs[i]) == p;
      assert l[i + 1] == cs[i];
    }
    assert l[0] == c;
  }

  /** One step of the loop, for a segment that starts with `c`. */
  lemma SelectFromCons(c: Contact, t: seq<Contact>, blocked: set<string>, seen: set<string>, key: Contact -> string)
    ensures SelectFrom([c] + t, blocked, seen, key) ==
              if c.phone !in blocked && key(c) !in seen
              then [c] + SelectFrom(t, blocked, seen + {key(c)}, key)
              else SelectFrom(t, blocked, seen, key)
  {
    assert ([c] + t)[0] == c && ([c] + t)[1..] == t;
  }

  /** Selection over `a + b` is selection over `a`, then over `b` with the keys kept from `a` seen. */
  lemma {:induction false} SelectFromAppend(a: seq<Contact>, b: seq<Contact>, blocked: set<string>, seen: set<string>,
                                            key: Contact -> string)
    ensures var ra := SelectFrom(a, blocked, seen, key);
            SelectFrom(a + b, blocked, seen, key) == ra + SelectFrom(b, blocked, seen + KeySet(ra, key), key)
    decreases |a|
  {
    if a == [] {
      assert a + b == b;
      assert seen + KeySet([], key) == seen;
    } else {
      var c := a[0];
      var t := a[1..];
      assert a == [c] + t;
      assert a + b == [c] + (t + b);
      SelectFromCons(c, t, blocked, seen, key);
      SelectFromCons(c, t + b, blocked, seen, key);
      if c.phone !in blocked && key(c) !in seen {
        var seen' := seen + {key(c)};
        var rest := SelectFrom(t, blocked, seen', key);
        var tail := SelectFrom(b, blocked, seen' + KeySet(rest, key), key);
        SelectFromAppend(t, b, blocked, seen', key);
        KeySetCons(c, rest, key);
        assert seen' + KeySet(rest, key) == seen + KeySet([c] + rest, key);
        calc {
          SelectFrom(a + b, blocked, seen, key);
          [c] + SelectFrom(t + b, blocked, seen', key);
          [c] + (rest + tail);
          ([c] + rest) + tail;
        }
      } else {
        SelectFromAppend(t, b, blocked, seen, key);
      }
    }
  }

  /**
   Appending one contact to the segment: it is selected exactly when its
   stored phone is not blocked and no contact selected before it has the
   same wire phone; otherwise the selection is unchanged.
   */
  lemma SelectTargetsSnoc(cs: seq<Contact>, c: Contact, blocked: set<string>)
    ensures var before := SelectTargets(cs, blocked);
            SelectTargets(cs + [c], blocked) ==
              if c.phone !in blocked && WirePhone(c) !in WirePhones(before) then before + [c] else before
  {
    var before := SelectTargets(cs, blocked);
    SelectFromAppend(cs, [c], blocked, {}, WirePhone);
    assert {} + WirePhones(before) == WirePhones(before);
    assert [c][1..] == [];
  }

  /** Selection is stable under extension: selecting from a prefix gives a prefix of the selection. */
  lemma SelectTargetsPrefix(cs: seq<Contact>, n: nat, blocked: set<string>)
    requires n <= |cs|
    ensures var pre := SelectTargets(cs[..n], blocked);
            |pre| <= |SelectTargets(cs, blocked)| && SelectTargets(cs, blocked)[..|pre|] == pre
  {
    var ra := SelectFrom(cs[..n], blocked, {}, WirePhone);
    var rb := SelectFrom(cs[n..], blocked, {} + KeySet(ra, WirePhone), WirePhone);
    SelectFromAppend(cs[..n], cs[n..], blocked, {}, WirePhone);
    assert cs[..n] + cs[n..] == cs;
    assert SelectTargets(cs, blocked) == ra + rb;
    assert SelectTargets(cs[..n], blocked) == ra;
    assert (ra + rb)[..|ra|] == ra;
  }

  /**
   Position `i` of the segment is selected (the selection of `cs[..i+1]`
   grows by `cs[i]`) exactly when its stored phone is not blocked and no
   contact selected from `cs[..i]` has its wire phone.
   */
  lemma SelectedIff(cs: seq<Contact>, i: nat, blocked: set<string>)
    requires i < |cs|
    ensures var before := SelectTargets(cs[..i], blocked);
            SelectTargets(cs[..i + 1], blocked) == before + [cs[i]] <==>
              cs[i].phone !in blocked && forall k :: 0 <= k < |before| ==> WirePhone(before[k]) != WirePhone(cs[i])
  {
    assert cs[..i + 1] == cs[..i] + [cs[i]];
    SelectTargetsSnoc(cs[..i], cs[i], blocked);
    var before := SelectTargets(cs[..i], blocked);
    if WirePhone(cs[i]) in WirePhones(before) {
      var k :| 0 <= k < |before| && WirePhone(before[k]) == WirePhone(cs[i]);
    }
    assert |before + [cs[i]]| != |before|;
  }

  /** A blocked contact is transparent: removing it from the segment does not change the selection. */
  lemma BlockedContactNeverShadows(cs: seq<Contact>, i: nat, blocked: set<string>)
    requires i < |cs| && cs[i].phone in blocked
    ensures SelectTargets(cs[..i] + cs[i + 1..], blocked) == SelectTargets(cs, blocked)
  {
    var a := cs[..i];
    var b := cs[i + 1..];
    assert cs == a + ([cs[i]] + b);
    SelectFromAppend(a, [cs[i]] + b, blocked, {}, WirePhone);
    SelectFromAppend(a, b, blocked, {}, WirePhone);
    assert ([cs[i]] + b)[1..] == b;
  }

  /** Every contact whose phone is not blocked is represented: its key is seen or selected. */
  lemma {:induction false} SelectFromCovers(cs: seq<Contact>, blocked: set<string>, seen: set<string>, key: Contact -> string)
    ensures forall c :: c in cs && c.phone !in blocked ==> key(c) in seen + KeySet(SelectFrom(cs, blocked, seen, key), key)
    decreases |cs|
  {
    if cs != [] {
      var c := cs[0];
      assert cs == [c] + cs[1..];
      if c.phone !in blocked && key(c) !in seen {
        var seen' := seen + {key(c)};
        SelectFromCovers(cs[1..], blocked, seen', key);
        KeySetCons(c, SelectFrom(cs[1..], blocked, seen', key), key);
      } else {
        SelectFromCovers(cs[1..], blocked, seen, key);
      }
    }
  }

  /** Deduplication keeps one contact per wire phone among the non-blocked contacts. */
  lemma SelectTargetsCovers(cs: seq<Contact>, blocked: set<string>)
    ensures forall c :: c in cs && c.phone !in blocked ==> WirePhone(c) in WirePhones(SelectTargets(cs, blocked))
  {
    SelectFromCovers(cs, blocked, {}, WirePhone);
  }

  /**
   Entries made by the blocklist formatter all start with '+', so they
   cannot exclude a contact whose stored phone lacks the '+': on such a
   segment the blocklist has no effect and only deduplication applies.
   */
  lemma {:induction false} PlusBlocklistInertFrom(cs: seq<Contact>, blocked: set<string>, seen: set<string>,
                                                  key: Contact -> string)
    requires forall p :: p in blocked ==> StartsWith(p, "+")
    requires forall i :: 0 <= i < |cs| ==> !StartsWith(cs[i].phone, "+")
    ensures SelectFrom(cs, blocked, seen, key) == SelectFrom(cs, {}, seen, key)
    decreases |cs|
  {
    if cs != [] {
      assert cs[0].phone !in blocked;
      if key(cs[0]) !in seen {
        PlusBlocklistInertFrom(cs[1..], blocked, seen + {key(cs[0])}, key);
      } else {
        PlusBlocklistInertFrom(cs[1..], blocked, seen, key);
      }
    }
  }

  lemma FormattedBlocklistIgnoresPlainPhones(cs: seq<Contact>, entries: seq<Blocklist.BlockEntry>, companyId: string)
    requires Blocklist.AllPlusPrefixed(entries)
    requires forall i :: 0 <= i < |cs| ==> !StartsWith(cs[i].phone, "+")
    ensures SelectTargets(cs, Blocklist.BlockedPhones(entries, companyId)) == SelectTargets(cs, {})
  {
    PlusBlocklistInertFrom(cs, Blocklist.BlockedPhones(entries, companyId), {}, WirePhone);
  }

  /** A ten-digit national number and the same number written "+91..." share a wire phone. */
  lemma NationalAndInternationalCollide(n: string)
    requires AllDigits(n) && |n| == NationalLength && !StartsWith(n, "00")
    ensures CleanPhoneForMeta(n) == "91" + n
    ensures CleanPhoneForMeta("+91" + n) == "91" + n
  {
    var intl := "+91" + n;
    assert intl[0] == '+';
    assert intl[1..] == "91" + n;
    assert AllDigits("91" + n);
    assert DigitsOf(intl) == DigitsOf(intl[1..]);
  }

  /**
   The three-contact scenario: the first contact is blocked by its exact
   stored phone, the other two are the same national number written
   plainly and with "+91": exactly one contact is selected, the first of
   the pair.
   */
  lemma ThreeContactScenario(x: Contact, y: Contact, z: Contact, n: string)
    requires AllDigits(n) && |n| == NationalLength && !StartsWith(n, "00")
    requires y.phone == n && z.phone == "+91" + n
    requires x.phone != y.phone && x.phone != z.phone
    ensures SelectTargets([x, y, z], {x.phone}) == [y]
  {
    var b := {x.phone};
    NationalAndInternationalCollide(n);
    var w := WirePhone(y);
    assert WirePhone(z) == w;
    var cs := [x, y, z];
    assert cs[1..] == [y, z] && [y, z][1..] == [z] && [z][1..] == [];
    assert SelectFrom([z], b, {w}, WirePhone) == [];
    assert SelectFrom([y, z], b, {}, WirePhone) == [y] + SelectFrom([z], b, {} + {w}, WirePhone);
    assert SelectFrom(cs, b, {}, WirePhone) == SelectFrom([y, z], b, {}, WirePhone);
  }
}
