/**
 The document shapes the controllers read and write (the Contact, Company, Template and Campaign models), with
 the parts of their schemas that decide whether a save succeeds: the
 `required` string fields (an empty string fails them) and the `trim`
 setters of Contact. Ids are strings; a missing optional field is "".
 */
module Records {
  import opened Text

  /** models/Contact.js: the mandatory fields; the optional CRM fields play no part in the core. */
  datatype Contact = Contact(name: string, phone: string, company: string, segments: seq<string>)

  /** models/Company.js, plus the two credential fields the campaign start prefers when present. */
  datatype Company = Company(
    name: string,
    permanentToken: string,
    whatsappToken: string,
    phoneNumberId: string,
    numberId: string)

  /** models/Template.js: the fields the campaign start consults. */
  datatype Template = Template(name: string, templateName: string, codeName: string, variable1: string)

  datatype CampaignStatus = Sending | Completed | Failed

  /** models/Campaign.js. */
  datatype Campaign = Campaign(
    name: string,
    company: string,
    segment: string,
    templateName: string,
    status: CampaignStatus,
    totalSent: nat,
    deliveredCount: nat,
    readCount: nat,
    failedCount: nat)

  /** A Contact as the schema stores it: `name` and `phone` are trimmed. */
  function CastContact(c: Contact): (r: Contact)
    ensures r.company == c.company && r.segments == c.segments
    ensures TrimmedFrom(r.name, c.name) && TrimmedFrom(r.phone, c.phone)
    ensures r.name == [] || (!IsSpace(r.name[0]) && !IsSpace(r.name[|r.name| - 1]))
    ensures r.phone == [] || (!IsSpace(r.phone[0]) && !IsSpace(r.phone[|r.phone| - 1]))
  {
    c.(name := Trim(c.name), phone := Trim(c.phone))
  }

  /** The Contact schema's required fields are present. */
  predicate ContactValid(c: Contact) {
    c.name != "" && c.phone != "" && c.company != ""
  }

  /** The Campaign schema's required fields are present. */
  predicate CampaignValid(c: Campaign) {
    c.name != "" && c.company != "" && c.segment != "" && c.templateName != ""
  }

  /** The uniqueness key of the Contact collection: the index on `(phone, company)`. */
  function ContactKey(c: Contact): (string, string) {
    (c.phone, c.company)
  }

  /** No two stored contacts share a key. */
  predicate UniqueKeys(cs: seq<Contact>) {
    forall i, j :: 0 <= i < j < |cs| ==> ContactKey(cs[i]) != ContactKey(cs[j])
  }

  function Keys(cs: seq<Contact>): set<(string, string)> {
    set i | 0 <= i < |cs| :: ContactKey(cs[i])
  }
}
