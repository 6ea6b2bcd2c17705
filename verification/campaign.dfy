/**
 `startCampaign` (controllers/campaignsController.js) end to end over an
 abstract store: the request checks, the lookups, the selection, the
 creation of exactly one Campaign record and the planned job batches.
 Database reads are reads of the store; the queue is not modelled.
 */
module CampaignStart {
  import opened Common
  import opened Records
  import opened Blocklist
  import opened Selection
  import opened Dispatch

  /** The collections `startCampaign` reads and writes. */
  datatype Store = Store(
    companies: map<string, Company>,
    templates: map<string, Template>,
    contacts: seq<Contact>,
    blocklist: seq<BlockEntry>,
    campaigns: seq<Campaign>)

  /** The submitted form; a missing field is "". */
  datatype StartRequest = StartRequest(companyId: string, segmentId: string, templateId: string, name: string)

  /** Why a campaign did not start, with the flash message shown. */
  datatype StartError =
    | MissingFields
    | CompanyOrTemplateNotFound
    | NoContactsInSegment
    | NoEligibleContacts
    | ServerError
  {
    function Message(): string {
      match this
      case MissingFields => "Company, Segment, and Template are required."
      case CompanyOrTemplateNotFound => "Company or Template not found."
      case NoContactsInSegment => "No contacts found in this segment."
      case NoEligibleContacts => "No unique or non-blocked contacts available."
      case ServerError => "Server Error starting campaign. The process may be too large for current settings."
    }
  }

  /** A started campaign: the id of its record, the number of jobs queued and the batches. */
  datatype Launch = Launch(campaignId: nat, queued: nat, batches: seq<seq<Job>>)

  /** The contacts a request would send to. */
  function Targets(db: Store, req: StartRequest): seq<Contact> {
    SelectTargets(
      SegmentContacts(db.contacts, req.companyId, req.segmentId),
      BlockedPhones(db.blocklist, req.companyId))
  }

  /** `company.permanentToken || company.whatsappToken`. */
  function TokenOf(c: Company): string {
    if c.permanentToken != "" then c.permanentToken else c.whatsappToken
  }

  /** `company.phoneNumberId || company.numberId`. */
  function NumberIdOf(c: Company): string {
    if c.phoneNumberId != "" then c.phoneNumberId else c.numberId
  }

  /** The record built before any job is queued. */
  function NewCampaign(req: StartRequest, t: Template, totalSent: nat): Campaign {
    Campaign(
      if req.name != "" then req.name else t.name,
      req.companyId,
      req.segmentId,
      TemplateNameOf(t),
      Sending,
      totalSent,
      0, 0, 0)
  }

  predicate FieldsPresent(req: StartRequest) {
    req.companyId != "" && req.segmentId != "" && req.templateId != ""
  }

  predicate Found(db: Store, req: StartRequest) {
    req.companyId in db.companies && req.templateId in db.templates
  }

  /** The form, lookup, segment and selection checks all pass. */
  predicate PassesChecks(db: Store, req: StartRequest) {
    FieldsPresent(req) && Found(db, req) && Targets(db, req) != []
  }

  /** Past the checks, the campaign record the handler builds passes its schema. */
  predicate Launchable(db: Store, req: StartRequest)
    requires PassesChecks(db, req)
  {
    CampaignValid(NewCampaign(req, db.templates[req.templateId], |Targets(db, req)|))
  }

  method StartCampaign(db: Store, req: StartRequest) returns (db': Store, r: Result<Launch, StartError>)
    ensures !FieldsPresent(req) ==> r == Failure(MissingFields)
    ensures FieldsPresent(req) && !Found(db, req) ==> r == Failure(CompanyOrTemplateNotFound)
    ensures (FieldsPresent(req) && Found(db, req) && SegmentContacts(db.contacts, req.companyId, req.segmentId) == [])
            ==> r == Failure(NoContactsInSegment)
    ensures (FieldsPresent(req) && Found(db, req) && SegmentContacts(db.contacts, req.companyId, req.segmentId) != []
             && Targets(db, req) == []) ==> r == Failure(NoEligibleContacts)
    ensures r.Success? <==> PassesChecks(db, req) && Launchable(db, req)
    ensures r == Failure(ServerError) <==> PassesChecks(db, req) && !Launchable(db, req)
    ensures r.Failure? ==> db' == db
    ensures r.Success? ==>
              var t := db.templates[req.templateId];
              var c := NewCampaign(req, t, |Targets(db, req)|);
              && CampaignValid(c)
              && db' == db.(campaigns := db.campaigns + [c])
              && r.value.campaignId == |db.campaigns|
              && r.value.queued == c.totalSent == |Targets(db, req)| > 0
    ensures r.Success? ==>
              var t := db.templates[req.templateId];
              var company := db.companies[req.companyId];
              var targets := Targets(db, req);
              var jobs := Flatten(r.value.batches);
              && |jobs| == |targets|
              && (forall k :: 0 <= k < |targets| ==>
                    && jobs[k].contact == targets[k].(phone := WirePhone(targets[k]))
                    && jobs[k].variableValue == (if targets[k].name != "" then targets[k].name else DefaultVariableValue)
                    && jobs[k].retries == Retries
                    && jobs[k].campaignId == |db.campaigns|
                    && jobs[k].templateName == TemplateNameOf(t)
                    && jobs[k].variableName == VariableKey(t, TemplateNameOf(t))
                    && jobs[k].companyToken == TokenOf(company)
                    && jobs[k].companyNumberId == NumberIdOf(company))
              && WellSized(r.value.batches)
              && |r.value.batches| * BatchSize < |targets| + BatchSize
  {
    db' := db;
    if !FieldsPresent(req) {
      return db', Failure(MissingFields);
    }
    if !Found(db, req) {
      return db', Failure(CompanyOrTemplateNotFound);
    }
    var company := db.companies[req.companyId];
    var template := db.templates[req.templateId];
    var templateName := TemplateNameOf(template);
    var segmentContacts := SegmentContacts(db.contacts, req.companyId, req.segmentId);
    if segmentContacts == [] {
      return db', Failure(NoContactsInSegment);
    }
    var blocked := BlockedPhones(db.blocklist, req.companyId);
    var contactsToSend := SelectTargets(segmentContacts, blocked);
    if contactsToSend == [] {
      return db', Failure(NoEligibleContacts);
    }
    var campaign := NewCampaign(req, template, |contactsToSend|);
    if !CampaignValid(campaign) {
      // the schema's `required` validators reject the save; the handler's catch reports it
      return db', Failure(ServerError);
    }
    var campaignId := |db.campaigns|;
    db' := db.(campaigns := db.campaigns + [campaign]);
    var ctx := JobContext(templateName, TokenOf(company), NumberIdOf(company), campaignId,
                          VariableKey(template, templateName));
    var batches := PlanBatches(contactsToSend, ctx);
    r := Success(Launch(campaignId, |contactsToSend|, batches));
  }

  /** A blank `codeName` leaves the campaign without a template name, which the schema refuses. */
  lemma BlankTemplateNameRefused(req: StartRequest, t: Template, n: nat)
    requires t.codeName != "" && Text.AllSpace(t.codeName)
    ensures !CampaignValid(NewCampaign(req, t, n))
  {
    BlankCodeNameGivesEmptyName(t);
  }
}
