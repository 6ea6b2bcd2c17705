/**
 The fan-out half of `startCampaign` (controllers/campaignsController.js):
 the template name and variable key chosen for the campaign, the payload
 of one queue job per selected contact, and the split of the selected
 contacts into batches of fifty. Publishing to the queue is not modelled;
 a job is the record that would be published.
 */
module Dispatch {
  import opened Common
  import opened Text
  import opened Records
  import opened MetaPhone

  const BatchSize := 50
  const Retries := 3
  const ApiVersion := "v17.0"
  const DefaultVariableValue := "Customer"
  const DefaultVariableKey := "name"

  /** `template.codeName || template.templateName || template.name || ''`: the first non-empty field. */
  function ChosenTemplateName(t: Template): string {
    if t.codeName != "" then t.codeName
    else if t.templateName != "" then t.templateName
    else t.name
  }

  /** The campaign's template name: the chosen field, trimmed after the choice. */
  function TemplateNameOf(t: Template): (r: string)
    ensures TrimmedFrom(r, ChosenTemplateName(t))
    ensures r == [] || (!IsSpace(r[0]) && !IsSpace(r[|r| - 1]))
    ensures r == [] <==> AllSpace(ChosenTemplateName(t))
  {
    TrimEmptyIffAllSpace(ChosenTemplateName(t));
    Trim(ChosenTemplateName(t))
  }

  /** The trim comes after the choice: a whitespace-only `codeName` shadows a real `templateName`. */
  lemma BlankCodeNameGivesEmptyName(t: Template)
    requires t.codeName != "" && AllSpace(t.codeName)
    ensures TemplateNameOf(t) == ""
  {
  }

  /** The template variable's key: `variable1` or "name", and always "name" for calculator templates. */
  function VariableKey(t: Template, templateName: string): (r: string)
    ensures r != ""
    ensures Includes(Lower(templateName), "calculator") ==> r == DefaultVariableKey
    ensures !Includes(Lower(templateName), "calculator") && t.variable1 != "" ==> r == t.variable1
    ensures !Includes(Lower(templateName), "calculator") && t.variable1 == "" ==> r == DefaultVariableKey
  {
    if Includes(Lower(templateName), "calculator") then DefaultVariableKey
    else if t.variable1 != "" then t.variable1
    else DefaultVariableKey
  }

  /** The calculator test ignores case: a template name and its lower-cased form get the same key. */
  lemma VariableKeyIgnoresCase(t: Template, templateName: string)
    ensures VariableKey(t, Lower(templateName)) == VariableKey(t, templateName)
  {
    LowerIdempotent(templateName);
  }

  /** The campaign-wide part of every job's payload. */
  datatype JobContext = JobContext(
    templateName: string,
    companyToken: string,
    companyNumberId: string,
    campaignId: nat,
    variableName: string)

  /** One queue job: the body published for one contact, with its retry budget. */
  datatype Job = Job(
    contact: Contact,
    templateName: string,
    companyToken: string,
    companyNumberId: string,
    campaignId: nat,
    variableValue: string,
    variableName: string,
    apiVersion: string,
    retries: nat)

  /** The payload for one contact: its snapshot with the wire phone, and its name or "Customer". */
  function JobFor(c: Contact, ctx: JobContext): Job {
    Job(
      c.(phone := CleanPhoneForMeta(c.phone)),
      ctx.templateName,
      ctx.companyToken,
      ctx.companyNumberId,
      ctx.campaignId,
      if c.name != "" then c.name else DefaultVariableValue,
      ctx.variableName,
      ApiVersion,
      Retries)
  }

  /** `batch.map(...)`: one job per contact, in order. */
  function JobsFor(cs: seq<Contact>, ctx: JobContext): (r: seq<Job>)
    ensures |r| == |cs|
    ensures forall k :: 0 <= k < |cs| ==> r[k] == JobFor(cs[k], ctx)
  {
    seq(|cs|, k requires 0 <= k < |cs| => JobFor(cs[k], ctx))
  }

  lemma JobsForAppend(a: seq<Contact>, b: seq<Contact>, ctx: JobContext)
    ensures JobsFor(a + b, ctx) == JobsFor(a, ctx) + JobsFor(b, ctx)
  {
  }

  function Min(a: int, b: int): int {
    if a <= b then a else b
  }

  /** Appending the jobs of the next slice extends the jobs planned so far to the end of that slice. */
  lemma PlanStep(targets: seq<Contact>, ctx: JobContext, batches: seq<seq<Job>>, i: nat, end: nat)
    requires i <= end <= |targets|
    requires Flatten(batches) == JobsFor(targets[..i], ctx)
    ensures Flatten(batches + [JobsFor(targets[i..end], ctx)]) == JobsFor(targets[..end], ctx)
  {
    var batch := JobsFor(targets[i..end], ctx);
    FlattenAppend(batches, [batch]);
    assert Flatten([batch]) == batch;
    assert targets[..end] == targets[..i] + targets[i..end];
    JobsForAppend(targets[..i], targets[i..end], ctx);
  }

  /** Every batch is full. */
  predicate AllFull(batches: seq<seq<Job>>) {
    forall b :: 0 <= b < |batches| ==> |batches[b]| == BatchSize
  }

  /** Every batch holds 1 to 50 jobs, and all but the last hold exactly 50. */
  predicate WellSized(batches: seq<seq<Job>>) {
    && (forall b :: 0 <= b < |batches| ==> 0 < |batches[b]| <= BatchSize)
    && (forall b :: 0 <= b < |batches| - 1 ==> |batches[b]| == BatchSize)
  }

  /** A non-empty batch of at most fifty after full ones keeps the batches well sized. */
  lemma WellSizedSnoc(batches: seq<seq<Job>>, batch: seq<Job>)
    requires AllFull(batches) && 0 < |batch| <= BatchSize
    ensures WellSized(batches + [batch])
    ensures |batch| == BatchSize ==> AllFull(batches + [batch])
  {
    var bs := batches + [batch];
    assert forall b :: 0 <= b < |batches| ==> bs[b] == batches[b];
  }

  /**
   The batch loop: slices of at most fifty contacts taken from the front,
   each turned into its jobs. Every contact gets exactly one job, in order,
   and every batch but the last is full.
   */
  method PlanBatches(targets: seq<Contact>, ctx: JobContext) returns (batches: seq<seq<Job>>)
    ensures |Flatten(batches)| == |targets|
            && forall k :: 0 <= k < |targets| ==> Flatten(batches)[k] == JobFor(targets[k], ctx)
    ensures WellSized(batches) && |batches| * BatchSize < |targets| + BatchSize
  {
    batches := [];
    var i := 0;
    while i < |targets|
      invariant i <= |targets|
      invariant Flatten(batches) == JobsFor(targets[..i], ctx)
      invariant WellSized(batches)
      invariant i < |targets| ==> i == |batches| * BatchSize && AllFull(batches)
      invariant |batches| * BatchSize < i + BatchSize
      decreases |targets| - i
    {
      var end := Min(i + BatchSize, |targets|);
      var batch := JobsFor(targets[i..end], ctx);
      PlanStep(targets, ctx, batches, i, end);
      WellSizedSnoc(batches, batch);
      batches := batches + [batch];
      i := end;
    }
    assert targets[..i] == targets;
  }
}
