# SERVIZ technician WhatsApp bot, verified model

This project is a Dafny model of the logic at the heart of the SERVIZ technician
webhook. That webhook is an Express service that receives WhatsApp Business
messages from technicians, logs them in with a one-time password, and lets them
list, open and move their service orders. The model covers five pieces.

- **Correlation id** (`module CorrelationId`). `createCustomId` writes an
  object as `key:encodeURIComponent(value)` pairs joined by `|`, leaving out
  null and undefined values. `parseCustomId` reads such a string back with
  `split("|")`, `split(":")` and `decodeURIComponent`. Both ids on buttons and
  ids on list rows use this codec. The model proves the round trip and each of
  the parser's edge behaviours.
- **Order status catalog** (`module OrderStatus`). This is the 27
  `(state label, statusCode)` entries of `Status.values`, plus the two `find`
  lookups. A lookup that misses returns an error value, where the source throws.
- **Document enumerations and checks** (`module DocType`, `module DocValidation`).
  These are the three `DocType` code tables and `validateDocuments`.
  `validateDocuments` counts documents into eight buckets in place and then
  ANDs a list of rules. `isAllDocsValid` and `isCorpDocsValid` are its two
  checklists.
- **Login session** (`module Session`). A pure transition function `Advance`
  specifies one message's effect on the sender's `userStore` record. The class
  `UserStore` holds the dictionary as a map. Its methods perform the same writes
  as `setUserState`, `setUserPhone` and `verifyOTP`, and are proved equal to
  `Advance`.
- **Reply routing** (`module ReplyTables`, `module Replies`). This covers:
  - the two action tables of `handleInteractiveMessage` and its dispatch order;
  - the order-number title test;
  - the per-status option buttons of `handleOrderStatusOptions`;
  - the rows of `formatOrdersList` and the main menu;
  - the grouping loop of `sendOrderSections`;
  - the caption check of the image branch.

Every HTTP call is an input rather than a computation:
- the OTP issue result is `issueOk`;
- the OTP verify answer is `verify`;
- the order fetch is the function `fetch`;
- the status POST result is `posted`.

Outgoing messages are data values such as `Message`, `Action` and `Listing`.
Text helpers (`module Text`) provide JavaScript `trim`, ASCII `toLowerCase`,
`split` and `join`. The model follows the code as written; in particular:
- a segment without `:` is not skipped; its key gets the value "undefined";
- `split(":")` keeps only the text between the first and second `:`, not
  everything after the first;
- a rule without `condition` is never enforced, so the unconditional invoice,
  serial-number and device-photo rules never fail;
- the corporate checklist's second device-photo rule asks for one photo, not two;
- only a missing `type.value` goes to the default bucket; an unknown code
  counts in its own slot;
- there is no message de-duplication, no rejection of illegal status
  transitions, and no document gate in the handler.

## Model

| member | source | states |
|---|---|---|
| Text.Trim | index.js:116 | The result is the input minus its leading and trailing JavaScript whitespace, and neither end of it is whitespace. |
| Text.TrimPadded | index.js:190 | Trimming whitespace padding off a word gives back the word. |
| Text.ToLower | index.js:146 | Same length as the input; each character lower-cased on its own. |
| Text.Split | index.js:43-44 | Always at least one piece, no piece holds the separator, and joining the pieces gives back the input. |
| Text.SplitJoin | index.js:40-43 | Splitting a join of separator-free strings gives back those strings. |
| CorrelationId.EncodeUriComponent | index.js:39 | The output is only unreserved characters, `%` and upper-case hex digits, so it never contains `:` or `\|`; it is at least as long as the input. |
| CorrelationId.DecodeUriComponent | index.js:45 | Text without `%` decodes to itself; a result is never longer than the input. |
| CorrelationId.DecodeEncode | index.js:39-45 | Decoding the encoding of an ASCII string gives the string back. |
| CorrelationId.CreateCustomId | index.js:36-40 | The id is empty exactly when no field has a value, so the empty object gives "". |
| CorrelationId.ParsePart | index.js:43-46 | A segment adds exactly its first `:`-piece as a key, and nothing when that piece is empty. |
| CorrelationId.NonNullAt | index.js:38 | With distinct keys, a field with a value is read back with that value, and a null field stays absent. |
| CorrelationId.RoundTrip | index.js:36-47 | Parsing the id of an object gives the object minus its null and undefined fields, when every key is non-empty, free of `:` and `\|`, and every value is ASCII. |
| CorrelationId.RoundTripField | index.js:36-47 | With distinct keys, each field of the object reads back from its id; null and undefined read back as absent. |
| CorrelationId.ParseEmpty | index.js:42-47 | The empty id parses to the empty object. |
| CorrelationId.ParseWithoutColon | index.js:44-45 | A segment without `:` maps its key to "undefined". |
| CorrelationId.ParseEmptyKey | index.js:45 | A segment with an empty key adds nothing, and its value is never decoded. |
| CorrelationId.ParseIgnoresAfterSecondColon | index.js:44 | The text after a second `:` in a segment is ignored. |
| CorrelationId.ParseConcat | index.js:43-47 | Two ids joined by `\|` parse to the union of their objects, with the second winning a shared key; an error in either part is an error of the whole id. |
| CorrelationId.ParseParts | index.js:43-47 | Folding the parts over an accumulator only ever adds keys, and every key it adds is non-empty and free of `:`. |
| CorrelationId.ParseCustomId | index.js:42-47 | Every key of a parsed id is non-empty and free of `:`. |
| CorrelationId.ParseLaterDuplicateWins | index.js:45 | When a key appears twice, the later value is kept. |
| OrderStatus.FindCode | order_status.js:8 | Returns the first index whose code matches, or none when no entry matches. |
| OrderStatus.FindState | order_status.js:14 | Returns the first index whose state label matches, or none when no entry matches. |
| OrderStatus.FromStatusCode | order_status.js:7-11 | Succeeds exactly when some entry has the code; the result is a catalog entry with that code; otherwise it is the "unknown status code" error and never a default. |
| OrderStatus.FromState | order_status.js:13-17 | The same as `FromStatusCode`, keyed on state labels, with the "unknown state" error. |
| OrderStatus.CatalogEntries | order_status.js:20-53 | Every member of `Status.values` is one of the 27 named entries. |
| OrderStatus.ValuesCount | order_status.js:20-53 | `Status.values` has exactly 27 entries; the `values` slot itself is not one of them. |
| OrderStatus.CodesDistinct | order_status.js:21-47 | No two entries share a status code. |
| OrderStatus.StatesDistinct | order_status.js:21-47 | No two entries share a state label. |
| OrderStatus.FromStatusCodeOfEntry | order_status.js:7-11 | Looking up an entry's own code returns that entry. |
| OrderStatus.FromStateOfEntry | order_status.js:13-17 | Looking up an entry's own label returns that entry. |
| OrderStatus.UnknownCodeFails | order_status.js:9 | An unknown code yields the error that names it. |
| OrderStatus.NoStateIsTerminalCode | order_status.js:21-47 | No catalog label is "technician_rejected" or "technician_work_completed". |
| DocType.RequiredCodes | doc_type.js:8-12 | Invoice is 0, serial number 1 and device photo 2; all three are distinct. |
| DocType.DocumentTypeCodes | doc_type.js:14-23 | The general table's codes are pairwise distinct and are exactly 0 to 7. |
| DocType.CorpAliases | doc_type.js:25-33 | The corporate inner serial number and inner device photo reuse codes 0 and 1, so that table's codes are not distinct. |
| DocType.CodesNotInterchangeable | doc_type.js:8-23 | The device photo is 2 in the required table and 3 in the general table, where 2 is the device video. |
| DocValidation.Count | utils.js:7-8 | A bucket never counts more documents than the list holds. |
| DocValidation.ValidateDocuments | utils.js:4-13 | The in-place counting loop returns true exactly when the list is present, is non-empty, and each rule with a truthy condition has at least `minCount` documents in its bucket. |
| DocValidation.CountGrows | utils.js:8 | Appending a document adds one to its own bucket and leaves the others unchanged. |
| DocValidation.CountsAddUp | utils.js:7-8 | When every bucket index is a slot, the eight counts add up to the number of documents. |
| DocValidation.Monotone | utils.js:5-12 | Appending a document never turns a pass into a failure. |
| DocValidation.IsAllDocsValid | utils.js:15-31 | True exactly when the list is non-empty, includes a selfie for a prime-book order, and includes `partQuantity` defective-part documents for a part request. |
| DocValidation.IsCorpDocsValid | utils.js:33-53 | True exactly when the list is non-empty, includes an outer serial number and a device photo for an AC, and includes `partQuantity` defective-part documents for a part request. |
| DocValidation.FlagsOff | utils.js:15-53 | With every flag false, both checklists only require a non-empty list. |
| DocValidation.InvoiceNotEnforced | utils.js:17-19 | A single device photo passes the standard checklist, with no invoice at all. |
| DocValidation.PartRequestEnforced | utils.js:25-29 | A part request with no defective-part document fails whenever at least one is required. |
| Session.Advance | index.js:116-178 | Specifies one message's effect on the sender's record, by state. (1) With no record or in `initial`: go to `awaiting_phone`. (2) In `awaiting_phone`, text that is not ten digits changes nothing. Ten digits store the phone, and the state advances only if the OTP went out. (3) In `awaiting_otp`, `resend` without a phone returns to `awaiting_phone`; with a phone it re-issues and leaves the record alone. (4) Otherwise the text is an OTP check. A failure adds exactly one retry and sends "too many" exactly when retries reach 3. A success gives `verified` with retries 0. (5) Missing text there gives the catch-all error. (6) `verified` is left unchanged and is the only state that passes on to the order workflow. |
| Session.PhoneNumberIsTrimmed | index.js:125-130 | Text that passes the ten-digit test has no surrounding whitespace, so it is stored whole, and a stored one is never read as missing. |
| Session.ResendAnyCase | index.js:146 | `resend` matches in any letter case, and only six-character text can match. |
| Session.StoredPhonePresent | index.js:147-152 | In a well-formed record that awaits the OTP the phone is present, so the "phone number not found" reply is not sent. |
| Session.AdvanceKeepsValid | index.js:116-178 | Each step keeps the record well formed: no stored `initial` state, a stored phone is ten digits, and awaiting an OTP or being verified implies a phone. So "phone number not found" is never sent. |
| Session.RunKeepsValid | index.js:116-178 | Any run of messages keeps the record well formed. |
| Session.VerifiedAbsorbing | index.js:119-178 | No run of messages changes the record of a verified sender. |
| Session.VerifiedOnlyThroughOtp | index.js:159-172 | A sender who becomes verified once went through a message in `awaiting_otp` whose verification succeeded. |
| Session.UserStore.constructor | index.js:11 | The store starts empty. |
| Session.UserStore.Lookup | index.js:147 | Returns the sender's record exactly when there is one. |
| Session.UserStore.GetUserState | index.js:558-560 | Gives the stored state, or `initial` when there is no record. |
| Session.UserStore.SetUserState | index.js:562-565 | Creates the record when missing and sets only its state. |
| Session.UserStore.SetUserPhone | index.js:567-569 | Sets only the phone of the existing record. |
| Session.UserStore.VerifyOtp | index.js:585-602 | A call that answers with a payload stores its token and user id, whatever its status. The result is that status, or false when the call failed. |
| Session.UserStore.OnAwaitingPhone | index.js:125-142 | Its writes and replies are those of `Advance` in `awaiting_phone`. |
| Session.UserStore.OnAwaitingOtp | index.js:145-178 | Its writes and replies are those of `Advance` in `awaiting_otp`. |
| Session.UserStore.Step | index.js:116-178 | The new store is the old one with the sender's record replaced by `Advance`'s. The replies and requests are `Advance`'s too, and a well-formed store stays well formed. |
| ReplyTables.UpdateTarget | index.js:221-240 | An action is in `updateStatusMap` exactly when it has a target, and `fromStatusCode` of its code returns that catalog entry, so this path never throws. |
| ReplyTables.MenuTable | index.js:230-244 | Menu choices are not update actions, and only `uploadDocument` maps to the upload prompt. |
| ReplyTables.MenuEntries | index.js:230-236 | The three listing choices map to the assigned, working and completed codes. |
| ReplyTables.CatalogCodesAreNotActions | index.js:238-243 | No catalog status code is a key of either table. |
| Replies.OrderNumberForm | index.js:261 | A title is an order number exactly when it is "srvz-ord-" in any ASCII case followed by nine or ten digits; an undefined title never is. |
| Replies.OrderNumberExamples | index.js:261 | "SRVZ-ORD-123456789" and "srvz-Ord-1234567890" are order numbers; eight digits or a missing prefix are not. |
| Replies.Dispatch | index.js:220-270 | Dispatch tries `updateStatusMap` first, then `orderStatusMap`, then the order-number title, then the fallback. (1) It posts exactly for update actions, with the action's target entry and the id's order numbers and current status as `lastStatus`. (2) It asks for documents exactly for `uploadDocument`, and lists orders for every other menu choice, with the reply title. (3) With no action, it opens the order exactly when the title is an order number, as a summary exactly for completed work. (4) Otherwise it sends the fallback. It never throws. |
| Replies.Route | index.js:180-186 | Throws exactly when the id does not parse; an absent id parses as "". Otherwise it dispatches the parsed object. |
| Replies.MissingId | index.js:42-47 | A reply without an id names no action, so only an order-number title opens an order, with no record id. |
| Replies.AfterStatusUpdate | index.js:297-317 | A failed post reports failure; otherwise give up access or finish when the label is "technician_rejected" or "technician_work_completed", and refresh the options otherwise. |
| Replies.PostedCatalogStatusRefreshes | index.js:305-317 | For every catalog status, a successful post is followed by refreshing the order's options; the two early returns are never taken. |
| Replies.OptionsActionable | index.js:395-413 | Only the assigned, accepted, on-location and working statuses offer options, at most two each. Every option is an update action or the upload prompt, so no button leads to the fallback reply. |
| Replies.OptionButtons | index.js:415-418 | One button per option of the order's status, in table order, with the option's title. |
| Replies.OptionIdDecodes | index.js:417 | A button id decodes to the action, the order's number and record id, and its current status. |
| Replies.OptionTap | index.js:238-255 | Tapping an update button posts the action's target with the button's status as `lastStatus`; tapping the upload button asks for the documents. |
| Replies.TapOutcomes | index.js:392-421 | The effect of tapping each offered button, by status. Assigned orders get accept and reject. Accepted orders move to on-location, and on-location orders move to working. Working orders ask for documents. Any other status offers nothing. |
| Replies.FormatOrdersList | index.js:511-516 | One row per order, titled with its order number. |
| Replies.RowDecodes | index.js:513 | A row id decodes to the order's status, number and record id. |
| Replies.StatusKeyNotRouted | index.js:238-243 | A reply whose `orderStatus` is a catalog code or is absent matches neither table. |
| Replies.RowOutcome | index.js:261-267 | Choosing a row of an order whose status is a catalog code or absent opens the order exactly when its number has the SRVZ-ORD form. It is a summary exactly when the work is completed; otherwise the reply is the fallback. |
| Replies.ChoiceTap | index.js:243-258 | A reply whose id holds only `orderStatus` is dispatched on that choice alone. |
| Replies.MenuChoice | index.js:243-258 | Every menu choice except the upload prompt lists the orders of its table entry under the reply's title. |
| Replies.MainMenuIds | index.js:444-450 | The three rows of the main menu carry the ids of the three listing choices. |
| Replies.PendingChoice | index.js:447 | "Pending Orders" lists assigned orders. |
| Replies.WipChoice | index.js:448 | "WIP Orders" lists working orders. |
| Replies.CompletedChoice | index.js:449 | "Completed Orders" lists completed orders. |
| Replies.MainMenuOutcomes | index.js:444-450 | The three menu rows list the assigned, working and completed orders of the catalog, under the row's title. |
| Replies.VerifyDocumentOutcome | index.js:246-251 | The "Verify DOduments" button lists the orders of the pseudo-status `verifyDocument`. |
| Replies.SectionCodesInCatalog | index.js:326-341 | Only the working and assigned statuses are grouped; the first group of each is that status itself, and every group queries a catalog code. |
| Replies.FetchRows | index.js:367-380 | One row per fetched order, titled with its order number; a failed fetch gives no rows. |
| Replies.NonEmptySections | index.js:344-349 | At most one section per group, and no section without rows. |
| Replies.SendOrderSections | index.js:325-365 | The fetch loop sends the non-empty groups in configuration order, or "no pending orders" when there are none. A status without groups is one section under the reply title, or "no orders found". |
| Replies.SectionsSound | index.js:344-349 | Every section sent is a configured group with the rows fetched for it. |
| Replies.SectionsComplete | index.js:344-349 | Every configured group whose fetch returns rows is sent. |
| Replies.NoSectionsMeansAllEmpty | index.js:351-354 | "No pending orders" is sent exactly when every configured group is empty. |
| Replies.DocumentNamed | index.js:105-109 | A caption word names a document exactly when it is `invoice`, `device` or `serial`, giving codes 0, 2 and 1. |
| Replies.RouteVerified | index.js:180-207 | An interactive reply is routed. An image is saved exactly when its caption passes the lookup as written, which includes every caption naming a document; a missing or blank caption is refused. Any other message gets the menu. |
| Replies.CaptionPadding | index.js:190 | Whitespace around a caption does not change the document it names. |
| Replies.CaptionAcceptedAsWritten | index.js:190-192 | The lookup as written accepts every caption that names a document, and only non-empty captions. |
| Replies.InheritedNameAccepted | index.js:192 | A caption that reads "constructor" after trimming and lower-casing passes the lookup as written, yet names no document. |
| Replies.ConstructorCaptionAccepted | index.js:190-201 | The caption "Constructor" is such a caption, and an image sent with it is saved. |
| Replies.CaptionDocument | index.js:190-192 | The corrected check: a caption names a document exactly when, trimmed and lower-cased, it is `invoice`, `device` or `serial`, and the document is then a required one. |

## Left out

- Express, the GET verification handshake, HTTP status codes and `app.listen`; they are transport only.
- Every `axios` call. The order fetches, the status POST and the OTP issue and verify calls appear only through their outcomes, as the parameters `fetch`, `posted`, `issueOk` and `verify`. The Graph API senders appear only as the messages they would send.
- `downloadAndSaveImage` is file and stream I/O; the model only decides that the image is saved (`SaveImage`).
- Message texts, `toLocaleString` dates, and what `sendOrderDetailsSummary`, `sendInteractiveButtons` and `sendInteractiveList` put into a message.
- `fetchOrderDetails` and the order it returns: `ShowOrder` stands for fetching it. `TapOutcomes` takes the already-fetched order, so a missing payload or a missing `orderStatus`, where the source throws, is not modelled.
- generate-token.js, which is JWT signing by a library.
- Sending a message is taken to succeed. A send that throws aborts the handler before any later state write; for example, at index.js:149-150 the "phone number not found" reply is sent before the state returns to `awaiting_phone`. That abort is not modelled.
- How concurrent webhook calls interleave on `userStore`; one message is handled at a time.
- The undeclared `sender` read by `fetchOrdersByStatus` and `fetchOrderDetails`, and the fixed audit user in the status POST body.
- Values that are not strings (numbers given to `createCustomId`, a numeric order id): every field is a string or absent.
- CorrelationId.DecodeUriComponent: an escape of a byte of 0x80 or more is an error in the model. JavaScript decodes well-formed UTF-8 sequences, so the round trip is proved only for ASCII values.
- CorrelationId.ParsePart: a segment whose key is `__proto__` is stored like any other key. JavaScript's prototype setter drops it.
- Replies.Dispatch: an action named after an `Object.prototype` member (such as `constructor`) is treated as absent from both tables. JavaScript finds the inherited member and then throws in `fromStatusCode`.
- Replies.TapOutcomes: a current status named after an `Object.prototype` member gets no buttons in the model. JavaScript finds the inherited function and throws on `.map`.
- Replies.Route: only an absent id is modelled. A JSON `null` id, on which `split` throws, is not.
- Replies.SendOrderSections: an undefined reply title, which `sendInteractiveList` lower-cases and so throws on, is carried through as `None`.
- DocValidation.ValidateDocuments: `partQuantity` is an integer; comparing against an undefined `partQuantity` is not modelled. A bucket index outside 0 to 7 is not counted anywhere, which matches what the rules read.

## Findings

| source | as written | input that shows it | evidently intended | confidence | as-written member | corrected member |
|---|---|---|---|---|---|---|
| index.js:190-201 | `requiredDocuments[caption]` also finds properties inherited from `Object.prototype`, so a caption that lower-cases to `constructor` or `__proto__` passes the check and the image is saved | an image captioned "Constructor" | only `invoice`, `device` and `serial` are accepted | not executed; high, by JavaScript's property lookup | Replies.ConstructorCaptionAccepted | Replies.CaptionDocument |
