# WhatsApp bulk sender: the decision logic of its controllers, in Dafny

This project models the pure decisions inside the Express controllers of a
multi-tenant WhatsApp bulk-messaging admin panel, and proves properties of
them. The database becomes a value (a sequence or map per collection), each
request handler becomes a function or method from the store and the
submitted form to a new store and an outcome, and HTTP, rendering, the
message queue and the WhatsApp API are dropped.

Modules, in dependency order:

- `Common` (`common.dfy`): `Option`, `Result`, the subsequence relation, and `Flatten`.
- `Text` (`text.dfy`): ASCII versions of JavaScript's `\s`, `\d`, `startsWith`, `includes`, `toLowerCase` and `trim`.
- `MetaPhone` (`meta_phone.dfy`): `cleanPhoneForMeta`, the wire-format phone normaliser. It keeps the digits, drops one leading `00`, and prefixes `91` to a ten-digit number.
- `Blocklist` (`blocklist.dfy`): `formatPhoneNumber` and the validity gate of `addToBlocklist`.
- `Records` (`records.dfy`): the Contact, Company, Template and Campaign documents. Also the schema rules that decide whether a save succeeds: `required` strings reject `""`, and Contact trims `name` and `phone`.
- `Selection` (`selection.dfy`): the blocklist and duplicate filter that turns a segment's contacts into the send list.
- `Dispatch` (`dispatch.dfy`): the template name, the variable key, one job payload per contact, and the batches of fifty.
- `CampaignStart` (`campaign.dfy`): `startCampaign` end to end. It covers the form checks, the lookups, the selection, exactly one Campaign record, and the planned jobs.
- `ContactImport` (`contact_import.dfy`): `importContacts`. It covers the upload and form checks, the row-to-contact mapping, and the unordered insert that skips duplicates of `(phone, company)`.
- `Accounts` (`accounts.dfy`): registration, approval and the passport login check. It also replays any history of registrations and approvals.

A missing JavaScript string field is modelled as `""`, because the
controllers test fields with `!x`, and that treats `undefined`, `null` and
`""` alike. The bcrypt comparison is a parameter
`matches(entered, stored)`. The model assumes nothing about it.

Four details of the code that the model keeps as written:

- The Campaign schema declares no `sentCount` field (models/Campaign.js:3-49).
- `startCampaign` enqueues every selected contact without looking up earlier Messages for the campaign (controllers/campaignsController.js:111-131).
- `startCampaign` reports only the number queued, not how many contacts were skipped as blocked or as duplicates (controllers/campaignsController.js:134).
- The blocklist test compares a contact's stored phone exactly with the stored blocklist phone, not their wire phones (controllers/campaignsController.js:76).

## Model

| member | source | states |
|---|---|---|
| `MetaPhone.DigitsOf` | controllers/campaignsController.js:21 | the result has only ASCII digits and is the input itself when that is all digits; a single character is kept exactly when it is a digit |
| `MetaPhone.DigitsOfAppend` | controllers/campaignsController.js:21 | the digits of `a + b` are the digits of `a` followed by those of `b`, so every digit of the input survives, in order |
| `MetaPhone.CleanPhoneForMeta` | controllers/campaignsController.js:19-20 | an empty or missing phone cleans to `""`; every result is all digits |
| `MetaPhone.CleanPhoneShape` | controllers/campaignsController.js:22-23 | after one leading `00` is dropped, `91` is prefixed exactly when ten digits remain; otherwise those digits are the result |
| `MetaPhone.CleanPhoneNeverNational` | controllers/campaignsController.js:23 | a cleaned phone never has length ten |
| `MetaPhone.CleanPhoneDependsOnDigitsOnly` | controllers/campaignsController.js:21 | `+`, spaces, dashes and other non-digits have no effect on the result |
| `MetaPhone.CleanPhoneDropsInternationalPrefix` | controllers/campaignsController.js:22 | `00` followed by digits that do not start with `00` cleans like those digits |
| `MetaPhone.CleanPhoneRemovesOnePrefix` | controllers/campaignsController.js:22 | a digit string that starts with `00` loses exactly its first two digits, unless ten digits remain; so `0000…` keeps a leading `00` |
| `MetaPhone.CleanPhoneIdempotentIff` | controllers/campaignsController.js:19-25 | cleaning a cleaned phone again changes it exactly when it starts with `00` |
| `MetaPhone.CleanPhoneNotIdempotent` | controllers/campaignsController.js:19-25 | `"0000"` cleans to `"00"`, and `"00"` cleans to `""` |
| `Text.IncludesIffOccurs` | controllers/campaignsController.js:105 | the scanning `includes` holds exactly when the pattern occurs at some position |
| `Text.Trim` | models/Contact.js:8 | the result is the input with whitespace cut from both ends and nothing else changed; neither end of the result is whitespace |
| `Text.TrimEmptyIffAllSpace` | controllers/campaignsController.js:60 | trimming gives `""` exactly when the string is all whitespace |
| `Text.Utf16Length` | controllers/usersController.js:55 | the length counts UTF-16 code units: a single character above U+FFFF counts two and any other counts one; a string of Basic Multilingual Plane characters has its character count |
| `Text.Utf16LengthAppend` | controllers/usersController.js:55 | the code units of a concatenation are the sum of those of its parts, so with the one-character case the count is fixed for every string |
| `Blocklist.StripSeparators` | controllers/blocklistController.js:7 | the result has no whitespace and no `-`, and it is a subsequence of the input |
| `Blocklist.StripSeparatorsAppend` | controllers/blocklistController.js:7 | stripping `a + b` gives the stripped `a` followed by the stripped `b` |
| `Blocklist.StripSeparatorsKeeps` | controllers/blocklistController.js:7 | a string without separators is unchanged, so all other characters survive in order |
| `Blocklist.FormatPhoneNumber` | controllers/blocklistController.js:5-12 | the result is `null` exactly for an empty or missing phone; otherwise it starts with `+` and has no separators |
| `Blocklist.FormatPhoneNumberShape` | controllers/blocklistController.js:8-11 | a stripped phone that already starts with `+` is returned as is; otherwise exactly one `+` is prepended |
| `Blocklist.FormatPhoneNumberIdempotent` | controllers/blocklistController.js:5-12 | formatting a formatted phone returns it unchanged |
| `Blocklist.AddToBlocklist` | controllers/blocklistController.js:38-57 | an empty phone fails with "Invalid phone number format."; a missing company fails the save; otherwise exactly one entry is appended, with the formatted phone and the reason or its schema default |
| `Blocklist.AddKeepsPlusPrefixed` | controllers/blocklistController.js:42-54 | entries added through the controller keep every stored blocklist phone `+`-prefixed |
| `Blocklist.BlockedPhones` | controllers/campaignsController.js:69-70 | a phone is in the set exactly when some entry of the company stores it |
| `Blocklist.PlainPhoneNeverBlocked` | controllers/campaignsController.js:76 | if every entry starts with `+`, a phone without a leading `+` is never in the blocked set |
| `Records.CastContact` | models/Contact.js:5-14 | casting keeps company and segments; `name` and `phone` become the stored strings with whitespace cut from both ends and nothing else changed, so no whitespace is left at either end |
| `Selection.SegmentContacts` | controllers/campaignsController.js:61 | the segment query returns exactly the store's contacts of that company and segment, each as many times as the store holds it, as a subsequence of the store |
| `Selection.SelectFromSound` | controllers/campaignsController.js:71-80 | under any key function (the source keys on the wire phone), the loop keeps input order, never keeps a blocked stored phone or an already-seen key, and keeps pairwise-distinct keys |
| `Selection.SelectTargets` | controllers/campaignsController.js:69-80 | the send list is an order-preserving subsequence of the segment; no stored phone in it is blocked; its wire phones are pairwise distinct |
| `Selection.SelectFromAppend` | controllers/campaignsController.js:74-80 | selecting from `a + b` selects from `a`, then from `b` with the keys kept from `a` already seen |
| `Selection.SelectTargetsSnoc` | controllers/campaignsController.js:74-80 | a contact appended to the segment is selected exactly when its stored phone is unblocked and no earlier selected contact has its wire phone; otherwise the list is unchanged |
| `Selection.SelectTargetsPrefix` | controllers/campaignsController.js:74-80 | the selection from a prefix of the segment is a prefix of the full selection |
| `Selection.SelectedIff` | controllers/campaignsController.js:75-79 | position `i` is selected exactly when its stored phone is unblocked and no contact selected before it shares its wire phone |
| `Selection.BlockedContactNeverShadows` | controllers/campaignsController.js:76-77 | removing a blocked contact from the segment leaves the selection unchanged, so it never adds to the seen set |
| `Selection.SelectFromCovers` | controllers/campaignsController.js:76-79 | under any key function, every unblocked contact's key ends up seen or selected |
| `Selection.SelectTargetsCovers` | controllers/campaignsController.js:74-80 | every unblocked contact's wire phone is the wire phone of some selected contact |
| `Selection.PlusBlocklistInertFrom` | controllers/campaignsController.js:76 | with `+`-prefixed blocked phones and no `+`-prefixed stored phones, the blocklist changes nothing |
| `Selection.FormattedBlocklistIgnoresPlainPhones` | controllers/campaignsController.js:76 | a blocklist built through the formatter cannot exclude a contact whose stored phone lacks a leading `+` |
| `Selection.NationalAndInternationalCollide` | controllers/campaignsController.js:19-25 | a ten-digit national number and its `+91` form have the same wire phone, `91` followed by the number |
| `Selection.ThreeContactScenario` | controllers/campaignsController.js:69-80 | with one contact blocked and two sharing a wire phone, exactly one contact is selected: the first of the pair |
| `Dispatch.TemplateNameOf` | controllers/campaignsController.js:60 | the name is the first non-empty of `codeName`, `templateName` and `name`, with whitespace cut from both ends and nothing else changed; it is `""` exactly when that field is all whitespace |
| `Dispatch.BlankCodeNameGivesEmptyName` | controllers/campaignsController.js:60 | a whitespace-only `codeName` yields `""` even when `templateName` is set, because the trim comes after the choice |
| `Dispatch.VariableKey` | controllers/campaignsController.js:104-107 | the key is never empty; it is `name` whenever the lower-cased template name contains `calculator`; otherwise it is `variable1` when that is set and the default `name` when it is not |
| `Dispatch.VariableKeyIgnoresCase` | controllers/campaignsController.js:105 | the key does not depend on the case of the template name |
| `Dispatch.JobsFor` | controllers/campaignsController.js:115-116 | a batch gets one job per contact, in order |
| `Dispatch.JobsForAppend` | controllers/campaignsController.js:112-116 | the jobs of `a + b` are the jobs of `a` followed by those of `b` |
| `Dispatch.PlanBatches` | controllers/campaignsController.js:111-131 | the concatenated batches hold exactly one job per contact, in order; every batch holds 1 to 50 jobs, all but the last exactly 50, so there are as many batches as the contacts need and no more; each job carries the wire phone, the name or `Customer`, and 3 retries |
| `CampaignStart.StartCampaign` | controllers/campaignsController.js:44-142 | missing fields, an unknown company or template, an empty segment, and an empty send list each fail in that order and create nothing; past those checks the start succeeds exactly when the new campaign passes its schema, and otherwise fails as a server error; on success exactly one `Sending` campaign is appended with `totalSent` = number selected > 0, one job is planned per selected contact, and the batches are full fifties but the last |
| `CampaignStart.BlankTemplateNameRefused` | models/Campaign.js:20-23 | a campaign from a template with a whitespace-only `codeName` fails the schema, so it cannot be saved |
| `ContactImport.BuildContacts` | controllers/contactsController.js:62-69 | there are at most as many contacts as rows; each has the form's company, exactly `[segmentId]` as segments, and a non-empty phone |
| `ContactImport.BuildContactsAppend` | controllers/contactsController.js:58-70 | rows are mapped one by one, in order |
| `ContactImport.BuildContactsOneRow` | controllers/contactsController.js:62-69 | a row without a phone yields nothing; any other row yields exactly its contact, with the name kept as it is (`''` when missing) |
| `ContactImport.BuildContactsCount` | controllers/contactsController.js:62-69 | the number of contacts built is the number of rows with a phone |
| `ContactImport.CastAll` | models/Contact.js:5-14 | every built contact is cast on its own, in order, by the schema's trimming |
| `ContactImport.InsertValidAppends` | controllers/contactsController.js:85-99 | the insert only appends; the reported count is the number appended and is at most the number built |
| `ContactImport.InsertValidKeepsUnique` | models/Contact.js:67 | a collection with unique `(phone, company)` keys keeps them unique |
| `ContactImport.InsertValidCovers` | controllers/contactsController.js:77-83 | afterwards every old key, and the key of every document that passes the schema, is stored |
| `ContactImport.InsertUnorderedCovers` | controllers/contactsController.js:85 | every built contact that passes the schema once trimmed has its key stored afterwards |
| `ContactImport.InsertValidOnlyValid` | models/Contact.js:5-18 | every appended document is a document of the batch that passes the schema, and they keep batch order |
| `ContactImport.ImportContacts` | controllers/contactsController.js:32-108 | a missing upload is refused first, then a missing company or segment id; otherwise the import appends at most one document per row with a phone, keeps keys unique, stores the key of every built contact that passes the schema once trimmed, and appends only such trimmed contacts, in row order |
| `ContactImport.NamelessRowNotImported` | controllers/contactsController.js:65 | a row with a phone but no name is built with name `''`, which the schema's required name then rejects |
| `Accounts.FindUser` | config/passport.js:9 | the lookup finds the first user with that name, or reports that none has it |
| `Accounts.Register` | controllers/usersController.js:46-80 | mismatched passwords are refused first, then a password under 6 UTF-16 code units, then a taken username, and the save is rejected exactly when those pass and the username or company is empty. On success exactly one user is appended, with the form's username, password and company; it is approved and an admin exactly when it is the first user, and a plain user otherwise |
| `Accounts.Approve` | controllers/usersController.js:98-103 | only the approval flag of the named user changes; every other user is unchanged |
| `Accounts.ApproveIdempotent` | controllers/usersController.js:103 | approving twice is approving once |
| `Accounts.Login` | config/passport.js:9-26 | an unknown name fails as not registered; a wrong password fails as incorrect; a correct password on an unapproved user fails as pending; login succeeds exactly when the user exists, the password matches and the user is approved, and the user logged in is the one the lookup found |
| `Accounts.ReplayInvariant` | controllers/usersController.js:66-78 | in any history, user 0 is the admin, every later user is a plain user, and every approved later user was named by an approval that came after its registration |
| `Accounts.OnlyFirstUserSkipsApproval` | config/passport.js:21-23 | whoever logs in is the first registered user or was approved after registering |
| `Accounts.FirstUserLogsIn` | controllers/usersController.js:67-69 | the first user registered can log in at once |
| `Accounts.LaterUserPending` | config/passport.js:21-23 | a user registered later gets the pending-approval refusal even with the right password |

## Left out

- Queue publishing is not modelled. `qstashClient.publishJSON`, the destination URL, `Promise.all` concurrency and a failing publish are all out of scope: a job is modelled as the record that would be published. They are network calls and concurrency.
- The test sender `sendTestMessage`, with its repeated request shapes, is not modelled. It retries calls to an external API.
- The queue workers `sendMessageWorker` (routes/api.js) and `sendMessage` (controllers/apiController.js) are not modelled. They call an external API. The first fails at `Message.create`, which omits the schema's required `company` and `body`, before it can increment `failedCount` or `sentCount`. No handler updates the delivered or read counters, so the campaign's counters stay at their initial 0.
- Page handlers and single-query handlers are not modelled: `getCampaignPage`, `getBlocklistPage`, `removeFromBlocklist`, `getContactsPage`, `getLoginPage`, `getPendingPage`, `getRegisterPage` and `logoutUser`. They render a view or make one database call.
- CSV parsing, the temporary upload file, and the 500 sent on a parse error are not modelled. Rows arrive already parsed.
- Database exceptions are not modelled. This covers the `catch` branches of the handlers, except where a schema's required-field check is what throws.
- Hashing and comparing passwords with bcrypt is not modelled. A user stores the submitted password as its credential, and login compares through the `matches` parameter.
- Sessions and `serializeUser`/`deserializeUser` are not modelled. Nor are the `isAuthenticated`/`isAdmin` route guards. `approveUser` has no role check of its own.
- Ids are plain strings. A malformed ObjectId fails Mongoose's cast in the source, and the model does not reproduce that.
- Only ASCII whitespace and ASCII upper-case letters are modelled for `\s`, `trim` and `toLowerCase`. JavaScript's versions also act on Unicode spaces and letters. `\D` needs no approximation: JavaScript's `\d` is exactly `0`-`9`, which `Text.IsDigit` matches.
- `ContactImport.InsertUnordered` assumes how Mongoose runs `insertMany` with `ordered: false`: a document failing validation is skipped, and a duplicate key is skipped. It also assumes the batch is applied in order.
- `Selection.SegmentContacts`: the model takes the order of `Contact.find` to be store order. The query has no sort, so the database promises no order, and which of two contacts with the same wire phone is selected depends on it.
- Blocklist's duplicate-entry branch (error code 11000) is not modelled. The Blocklist schema declares no unique index, so the branch has nothing to trigger it in this schema.
- `Accounts.Register`: a missing password is `""` here and gets the too-short refusal. In the source, `undefined.length` throws and the generic message is shown. The lookup of a default company for re-rendering the form is also left out.
- `Dispatch.JobsFor`: the job's contact snapshot carries the four modelled fields. It leaves out the whole stored document that `toObject()` copies.
- `Records.Company`: `permanentToken` and `phoneNumberId` are not declared by the Company schema. So under that schema they are always `""`, and the token and number id come from `whatsappToken` and `numberId`.
- The user role `'user'` is called `Member` here, to keep it apart from the `User` record type.
