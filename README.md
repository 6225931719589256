# msm-passport back-office logic in Dafny

This project models the decision logic of the back-office scripts of a
nonprofit's passport system. Those scripts keep a local mirror of a payment
processor's records, reconcile the membership roster with a mailing-list
server, list an event's attendees from the web shop's orders, invoice boat
charters, and export the newsletter mailing addresses. The model covers these
pieces of that logic:

- **Local mirror store** (`mirror_store.dfy`, module `MirrorStore`).
  - Every `save…InDB` function, and the inline upserts of the location and
    catalog refreshes, is a keyed upsert into a table of rows. A row holds the
    payload verbatim, a few promoted columns and the instant of its last sync.
  - Rows are matched on the payload's own `id`, as the JSON-containment
    query does, not on the promoted id column.
  - `Upsert` is the specification. The `Table` class holds the rows as a
    `seq` field. Its `Save` method makes the same changes one statement at a
    time and is proved equal to `Upsert`.
  - A half-finished update behaves as a session-tracked row object does. A
    missing payload key during an update leaves the new `data` and the columns
    already assigned in place. A missing key on insert changes nothing.
- **Paginated sync** (`mirror_sync.dfy`, module `MirrorSync`).
  - The `while True` cursor loops of the date-range listings and of the
    catalog, run over a sequence of response pages.
  - The location refresh and the `getPayment` read-through cache.
  - The per-payout entries listing.
  - Before each save, the payment, refund and payout listings log the item's
    `created_at`, and the entries listing its `effective_at`. An item without
    that key raises KeyError before its save is reached.
- **Mailing-list reconciliation** (`listmonk_sync.dfy`, module
  `ListmonkSync`). Turns the roster and two subscriber snapshots into the
  ordered list of writes sent to the list server.
- **Event attendee report** (`event_customers.dfy`, module `EventCustomers`).
  Filters line items by event and variation.
- **Charter invoices** (`charters.dfy`, module `Charters`).
  - The due-date rule, and the title and note text.
  - The order, invoice and publish requests.
  - The find-or-create customer choice.
- **Mailing-address export** (`mailing_addresses.dfy`, module
  `MailingAddresses`). The header and the nine-column rows, built into a
  buffer by two loops.

`common.dfy` (module `Common`) holds the shared vocabulary: `Option`,
`Result`, JSON scalar values, and decimal digit text with its round trips.

HTTP, JSON decoding and the database are not modelled. Remote responses are
inputs: page sequences, optional arrays and response records. Writes to
remote services are outputs, as request values. The clock is an integer
parameter, and idempotency keys are parameters.

## Where the code does less than its comments say

The code is followed in each case below, except for the attendee report. That
report is modelled both as the code is written and as its comment evidently
intends.

- **An update does not rewrite every promoted column.**
  - The order update leaves `order_id` alone.
  - The location update leaves `location_id` alone.
  - The catalog update leaves `catalog_id` alone.
  - The model proves that these columns keep their value. It also proves that
    on a consistent table they cannot go stale (`UpsertPreservesConsistent`).
- **A listing can stop before the last cursor.** It stops when a follow-up
  response lacks the items key. It also stops, quietly and keeping the ids
  collected so far, when an item lacks the key logged before its save, or when
  a save meets a missing key. Only a multiple match propagates.
- **The attendee report cannot page.** Its comment promises a second page,
  but that branch reads a name that is never bound. `ReportAsWritten` models
  the code, and `ProcessEventCustomersForm` the corrected report (see
  Findings).

## Model

| member | source | states |
|---|---|---|
| MirrorStore.HitsExact | msmsquare.py:143 | the positions the id query returns are exactly the rows whose stored payload has that id, ascending; none iff no row holds it |
| MirrorStore.HitsPair | msmsquare.py:143 | the query returns two or more rows iff two different rows hold the id |
| MirrorStore.HitsAtMostOne | msmsquare.py:143 | where no two rows hold the same id, the query returns one row at most |
| MirrorStore.AssignColumns | msmsquare.py:145-150 | running the promoted-column assignments one statement at a time gives exactly `Apply`: the columns written so far, and whether a payload key was missing |
| MirrorStore.Upsert | msmsquare.py:140-159 | the keyed upsert: a multiple match changes no row and names the payload's id |
| MirrorStore.ApplyCompleteIff | msmsquare.py:145-150 | the assignments all complete iff every payload key they read is present |
| MirrorStore.ApplyWritesAll | msmsquare.py:145-150 | after a complete run, every listed column holds its payload key's value |
| MirrorStore.ApplyLeavesOthers | msmsquare.py:145-150 | a column no assignment names keeps its presence and its value |
| MirrorStore.Table.Save | msmsquare.py:140-159 | the error returned and the new rows are exactly `Upsert` of the old rows |
| MirrorStore.Table.Find | msmsquare.py:251-262 | not found iff no row holds the id; ambiguous iff two rows hold it; otherwise the data of a row that holds it |
| MirrorStore.Table.AllData | msmsquare.py:132-138 | `getLocations`: one stored payload per row, in table order |
| MirrorStore.UpsertAppendsWhenAbsent | msmsquare.py:153-157 | with no row holding the id and all insert keys present: exactly one row is appended, holding the payload, exactly the insert columns from their keys, and the sync instant; the old rows are a prefix, unchanged |
| MirrorStore.UpsertOverwritesSingleMatch | msmsquare.py:143-152 | with exactly one row holding the id: that row's data, update columns and sync instant are overwritten in place; its other columns, every other row and the row count are unchanged |
| MirrorStore.UpsertFailsOnDuplicates | msmsquare.py:158-159 | with two rows holding the id: the multiple-match error naming the id, and no change |
| MirrorStore.UpsertKeepsPositions | msmsquare.py:140-159 | an upsert never removes or moves a row, adds at most one, adds none on error, and changes only a row that holds the payload's id (to hold the payload) |
| MirrorStore.UpsertKeepsUnlistedColumn | msmsquare.py:143-152 | a column the kind's update never assigns keeps its presence and value in every existing row, whatever the outcome |
| MirrorStore.OrderUpdateKeepsOrderId | msmsquare.py:230-236 | an order upsert never changes any row's `order_id` |
| MirrorStore.LocationUpdateKeepsLocationId | msmsquare.py:117-121 | a location upsert never changes any row's `location_id` |
| MirrorStore.CatalogUpdateKeepsCatalogId | msmsquare.py:332-337 | a catalog upsert never changes any row's `catalog_id` |
| MirrorStore.SchemasWellFormed | msmsquare.py:145-156 | for every kind: the insert writes the kind's id column from the payload's `id` first, neither assignment list names a column twice, and an update either leaves the id column alone or writes it from `id` |
| MirrorStore.UpsertPreservesConsistent | msmsquare.py:143-157 | every upsert keeps payload ids unique and the promoted id column equal to the payload id |
| MirrorStore.ConsistentNeverDuplicates | msmsquare.py:158-159 | on a consistent table the multiple-match error cannot arise |
| MirrorStore.UpsertSucceeds | msmsquare.py:143-157 | on a consistent table, a payload with every key its kind reads is saved without error |
| MirrorStore.UpsertStoresRecord | msmsquare.py:145-155 | after a successful save, some row holds the payload verbatim under its id |
| MirrorStore.UpsertKeepsHolders | msmsquare.py:143-157 | a row that holds an id still holds it after any save |
| MirrorSync.PageItemsAreReadPages | msmsquare.py:270-290 | the stop rule: the loop visits exactly the items of the pages it reads, in page order; a page is read while the previous one has a cursor and the next response has its items key |
| MirrorSync.NoItemsOnFirstPage | msmsquare.py:288-290 | a first response without the items key visits nothing |
| MirrorSync.AllPagesRead | msmsquare.py:279-284 | when every page carries items and every page but the last has a cursor, every page is read |
| MirrorSync.StepCases | msmsquare.py:274-276 | one listing item: without the key the listing logs, the key is missing and no row is touched; with it, exactly the kind's `Upsert` |
| MirrorSync.CompleteIsLogged | msmsquare.py:275 | a payload that carries every key its save reads also carries the key its listing logs |
| MirrorSync.UnloggedItemEndsRun | msmsquare.py:272-290 | an item without the logged key ends the run where it stands: the rows and saved payloads of the items before it, and nothing raised |
| MirrorSync.SaveAll | msmsquare.py:273-277 | a run saves no more payloads than there are items |
| MirrorSync.Ids | msmsquare.py:277 | the ids collected are, one for one and in order, the `id` of each saved payload |
| MirrorSync.SavedIsPrefix | msmsquare.py:273-277 | the payloads saved are a prefix of the items: in order, none skipped |
| MirrorSync.RaisedOnlyWhenShort | msmsquare.py:273-277 | a run that raises stopped before its last item |
| MirrorSync.SaveAllAppend | msmsquare.py:272-287 | saving two pages is saving the first, then the second only if the first finished with no error |
| MirrorSync.SavedHaveIds | msmsquare.py:276-277 | every payload a run saved carries an `id` |
| MirrorSync.SavedAreStored | msmsquare.py:276-277 | every payload a run saved is held by some row of the mirror at the end of the run |
| MirrorSync.RunKeepsHolders | msmsquare.py:273-277 | a row that holds an id still holds it at the end of a run |
| MirrorSync.CompleteItemsAllSaved | msmsquare.py:273-277 | on a consistent mirror, items that all carry their keys are all saved, nothing is raised, and the mirror stays consistent |
| MirrorSync.RunPreservesConsistent | msmsquare.py:273-277 | a run keeps the mirror consistent |
| MirrorSync.ConsistentRunNeverRaises | msmsquare.py:273-277 | a run on a consistent mirror never raises the multiple-match error |
| MirrorSync.SaveAllFirst | msmsquare.py:273-277 | the first save's outcome decides how the run continues: go on, stop quietly, or raise |
| MirrorSync.SaveStep | msmsquare.py:274-276 | one pass of the inner loop: the item is logged, which reads its logged key, then saved; the error and the new rows are the `Step` of the old rows |
| MirrorSync.SaveAdvances | msmsquare.py:273-277 | one more saved item moves the run forward: a clean save continues with the rest of the items, and a failed one ends the run with those rows and that error, the multiple-match error naming the id it raised |
| MirrorSync.SavePage | msmsquare.py:273-277 | the inner loop, with each item's logged key read before its save, leaves the table, the saved payloads and the stopping error exactly as `SaveAll` on the page's items says |
| MirrorSync.Pull | msmsquare.py:322-361 | the loop's table and result are `SaveAll` over `PageItems`: the saved payloads, or the id of a multiple match |
| MirrorSync.PullIds | msmsquare.py:265-291 | the date-range listings: each item's `created_at` is read before its save (an item without it ends the listing with no row touched); the table as `SaveAll` leaves it, and the ids of the saved payloads in page order, or the multiple-match id |
| MirrorSync.PullLocations | msmsquare.py:110-130 | the location refresh: a missing `locations` key fails with nothing changed; otherwise the table as `SaveAll` leaves it, and all locations or the error that stopped the run |
| MirrorSync.LocationRefreshStoresAll | msmsquare.py:114-130 | on a consistent mirror with complete locations, every location is saved, and each is stored under its id |
| MirrorSync.GetPayment | msmsquare.py:247-263 | the remote is asked iff no row holds the id; a single hit returns its stored data with the table unchanged; two stored rows holding the id always fail, naming the id, without asking the remote and with the table unchanged; a miss saves the fetched payment with `Upsert` and returns it |
| MirrorSync.MissThenHit | msmsquare.py:254-260 | after a miss fills the cache, the fetched payment is the only row holding its id, so the next lookup is a hit |
| MirrorSync.EntriesHaveIds | msmsquare.py:430-434 | every payout entry saved across the payouts carries an id |
| MirrorSync.PullPayoutEntries | msmsquare.py:419-448 | pulls the payouts as `PullIds` does (reading each payout's `created_at` first), then runs each payout's entries listing (reading each entry's `effective_at` first) with its own missing-key handler; the result is the entry ids in order, or the multiple-match id |
| MirrorSync.PullEntries | msmsquare.py:423-447 | the loop over payouts: each payout's entry listing reads each entry's `effective_at` before its save and has its own missing-key handler; the table is as those runs leave it, and the result is the entry ids in payout order, or the multiple-match id |
| MirrorSync.IdsAppend | msmsquare.py:434 | the ids of two runs' payloads are the first run's ids then the second's |
| MirrorSync.EntriesNeverRaiseWhenConsistent | msmsquare.py:424-447 | with a consistent entries mirror, the per-payout runs never raise |
| ListmonkSync.FirstMatch | cron-listmonk-sync.py:77-105 | the subscriber acted on is the first, in the list server's order, that has the contact id or the email; none iff no subscriber has either |
| ListmonkSync.AlreadyListed | cron-listmonk-sync.py:82-85 | true iff some list entry is list 3 with status unconfirmed, confirmed or unsubscribed |
| ListmonkSync.ReconcileMember | cron-listmonk-sync.py:74-133 | the member loop's writes for one member are exactly `MemberRequests`: the contact-id test before the email test, and the scan stopping at the first match |
| ListmonkSync.Reconcile | cron-listmonk-sync.py:74-157 | all writes are the per-member writes in roster order, then at most one bulk removal |
| ListmonkSync.Plan | cron-listmonk-sync.py:74-157 | everything sent: a removal is only ever the last request, for list 3, naming exactly the stale subscribers, who are not none |
| ListmonkSync.MembersRequestsNoRemoval | cron-listmonk-sync.py:74-133 | the member loop only adds, updates and creates; it never removes |
| ListmonkSync.ListIds | cron-listmonk-sync.py:97-99 | the list ids, one per list entry, in order |
| ListmonkSync.UpdatedProfile | cron-listmonk-sync.py:119-126 | the profile put back has the member's email and name, the re-read status, one list id per list, every attribute other than the contact id unchanged, and the contact id when linking |
| ListmonkSync.ReplacementProfile | cron-listmonk-sync.py:119-126 | the profile put back is `UpdatedProfile` of the re-read record |
| ListmonkSync.UpdateKeepsTheRest | cron-listmonk-sync.py:93-100 | the replacement changes email and name; it keeps status, list ids and every attribute except the contact id, which it sets when linking |
| ListmonkSync.ContactMatchUpdatesOnlyOnChange | cron-listmonk-sync.py:91-101 | a contact-id match is updated iff its name or email differs from the member's, and the update sets no contact id |
| ListmonkSync.EmailMatchLinksContact | cron-listmonk-sync.py:105-127 | an email-only match is always updated, and the profile sent records the member's contact id |
| ListmonkSync.AddedIffNotListed | cron-listmonk-sync.py:82-89 | a matched subscriber gets an add-to-list-3 write iff it is not already listed; nothing is created or removed for it, and every write names it |
| ListmonkSync.UnmatchedCreatesOne | cron-listmonk-sync.py:131-133 | an unmatched member gets exactly one create: enabled, on list 3, linked to the contact |
| ListmonkSync.MemberCreates | cron-listmonk-sync.py:129-133 | one member creates one profile iff nothing matched it, otherwise none |
| ListmonkSync.CreatesPerUnmatchedMember | cron-listmonk-sync.py:74-133 | the profiles created are, in roster order, one per member the start-of-run snapshot has no match for |
| ListmonkSync.DuplicateEmailsCreatedTwice | cron-listmonk-sync.py:69-133 | two unmatched members sharing an email are both created, since the snapshot is not re-read |
| ListmonkSync.RemovalsExact | cron-listmonk-sync.py:141-152 | an id is removed iff it belongs to a list subscriber whose email no member has |
| ListmonkSync.StaleSubscribers | cron-listmonk-sync.py:143-153 | the removal loop collects exactly `Removals`: the ids of list subscribers whose email no member has, in list order |
| ListmonkSync.IsMember | cron-listmonk-sync.py:144-151 | the inner search reports a member iff some member has the subscriber's email |
| ListmonkSync.RemovalSentIffSomeoneLeft | cron-listmonk-sync.py:153-155 | the bulk removal is sent iff some list subscriber's email belongs to no member, and it names list 3 |
| EventCustomers.OrderEntries | msmevents.py:49-58 | the two line-item loops of one order produce exactly `OrderCustomers` of its line items |
| EventCustomers.CollectCustomers | msmevents.py:47-58 | the two branch loops produce exactly `Customers` of the orders |
| EventCustomers.ProcessEventCustomersForm | msmevents.py:39-76 | the corrected report (see Findings): the form's details, then the first page's entries followed, when there is a `next` link, by the entries of the orders it leads to |
| EventCustomers.ReportAsWritten | msmevents.py:39-76 | the report as the code is written: it fails on the unbound name iff the first response has a `next` link; otherwise it holds the form's details and an entry exactly for each selected line item of the first page |
| EventCustomers.OrderCustomersExact | msmevents.py:49-58 | an entry is emitted iff it is built from a selected line item of the order, taking names from shipping, email from billing, quantity from the item |
| EventCustomers.CustomersExact | msmevents.py:47-58 | an entry is in the report iff it comes from a selected line item of one of the orders |
| EventCustomers.CustomersAppend | msmevents.py:59-73 | the entries of two order lists are the first list's, then the second's |
| EventCustomers.NoVariationKeepsEveryVariation | msmevents.py:54-56 | with variation 0, a line item is selected iff its id is the event id, whatever its variation |
| EventCustomers.VariationNarrows | msmevents.py:49-58 | choosing a variation keeps only entries that the variation-0 report also has |
| EventCustomers.OneEntryPerItem | msmevents.py:50-58 | every matching line item gets its own entry, in order, with no merging |
| EventCustomers.EntryPerSelectedItem | msmevents.py:49-58 | whatever the mix of line items, an order has exactly as many entries as selected line items |
| EventCustomers.DetailsEchoForm | msmevents.py:74 | the event details echo the ids and names and report zero tickets sold |
| EventCustomers.SecondPageFailsAsWritten | msmevents.py:60-61 | as written, a listing with a next link fails with an undefined name |
| Charters.Hour12 | msmcharters.py:42 | the 12-hour hour is between 1 and 12 |
| Charters.Hour12RoundTrip | msmcharters.py:42 | the 12-hour hour and the AM/PM half give back the 24-hour hour |
| Charters.Clock12RoundTrip | msmcharters.py:40-45 | the `%-I:%M%p` text is digits, `:`, two digits, then AM or PM, and it reads back as the hour and minute |
| Charters.UsDateRoundTrip | msmcharters.py:38 | the `%m/%d/%y` text is eight characters with slashes at 2 and 5, and reads back as month, day and year of the century |
| Charters.NextDateIsNextDay | msmcharters.py:47-49 | the calendar day after any valid date, across month ends, February in leap and common years, and year ends, is a valid date whose day number is one more |
| Charters.DueInstant | msmcharters.py:47-49 | the due instant is at least a day after now and at least the instant a week before the charter, and it is one of the two |
| Charters.DueDay | msmcharters.py:47-50 | the due day is the day holding the due instant |
| Charters.Title | msmcharters.py:53 | the invoice title is 20 characters plus the location, with the US date's slashes at 2 and 5 |
| Charters.Note | msmcharters.py:52 | the order note is longer than the title and begins with the US date |
| Charters.FormatCharge | msmcharters.py:57 | the echoed charge text has at least a digit, the point and two decimals; `FormatChargeRoundTrip` states how it reads back |
| Charters.FindOrCreate | msmcharters.py:130-153 | the customer step fails iff the search returns an empty list; on success it adds at most one request, and with a search result the id it returns is one of the hits |
| Charters.CharterOrder | msmcharters.py:70-87 | the order request has exactly one line: quantity 1, the charge as its price, the note, the location and the given idempotency key |
| Charters.CharterInvoice | msmcharters.py:89-117 | the invoice has one BALANCE payment request due on the given day, reminders between 7 days before and 3 days after, is emailed to the customer for the order, and accepts card and bank account but not gift card |
| Charters.ProcessCharterInvoiceForm | msmcharters.py:29-58 | the form fails iff the location is not configured or the search returns an empty list; on success the search comes first among at least four requests, and the summary holds the echoed charge and the published invoice's id and number |
| Charters.DueDayRule | msmcharters.py:47-49 | the due day is the later of a week before the charter and the day after now |
| Charters.DueNotBeforeTomorrow | msmcharters.py:48-49 | the due instant is never earlier than a day from now, so the due day is never before tomorrow |
| Charters.DueWeekBeforeWhenBookedAhead | msmcharters.py:47 | a charter eight or more days ahead is due exactly seven days before |
| Charters.NoteExtendsTitle | msmcharters.py:52-53 | the note is the title followed by `, start-end`; the title is the US date then ` Charter at ` and the location |
| Charters.UnsignedRoundTrip | msmcharters.py:57 | the unsigned amount is digits, a point and two digits, and its whole and fractional parts read back as the cents |
| Charters.FormatChargeRoundTrip | msmcharters.py:57 | the echoed charge is an optional minus, digits, a point and two digits, and it reads back as the cents charged |
| Charters.ExistingCustomerReused | msmcharters.py:140-141 | with search hits, the first hit's id is used and no customer is created |
| Charters.MissingCustomerCreatedOnce | msmcharters.py:142-153 | with no `customers` in the search response, exactly one customer is created with the form's details, and its id is used |
| Charters.UnknownLocationSendsNothing | msmcharters.py:35 | the form fails iff the location is not configured or the search returns an empty list; an unknown location fails before anything is sent |
| Charters.CharterRequestsShape | msmcharters.py:60-128 | a successful form sends a search, at most one create, one single-line order for the charter priced at the charge with the note, one invoice, and its publication, in that order. The invoice is for that order, titled, sent to the chosen customer, due as `DueDayRule` says, with reminders -7, 0, 1 and 3, emailed, card and bank account only |
| MailingAddresses.AllAddressesCsv | msmmembership.py:72-113 | the rows written to the buffer by the header write and the two loops are exactly `AddressRows`, or the first missing key |
| MailingAddresses.WriteGroup | msmmembership.py:85-109 | one address loop appends the rows of the records it got through to the buffer; it stops at the first record lacking a key, and then the whole group's projection fails with that key |
| MailingAddresses.FailureSticks | msmmembership.py:85-96 | a record that lacks a key fails the whole export with that key |
| MailingAddresses.ProjectExact | msmmembership.py:86-96 | a row exists iff the record has every key, and its k-th field is the cell of the record's value under the k-th key |
| MailingAddresses.ProjectAllExact | msmmembership.py:85-96 | a group's rows are its records' rows, one per record, in order |
| MailingAddresses.KeysDifferOnlyInAddressee | msmmembership.py:86-103 | members and complimentary copies are read under the same nine keys except the addressee (`contact.` vs `contact_id.`), and State is the state's abbreviation |
| MailingAddresses.GroupRows | msmmembership.py:85-109 | a group's rows exist iff no record lacks a key; there is one per record, of the keys' width, with fields in key order |
| MailingAddresses.Cell | msmmembership.py:96 | a string is written as itself, a nested value as its JSON text, a JSON null as the empty cell, a boolean `True` or `False`, and a number its decimal text, which reads back as the number |
| MailingAddresses.SignedDecimal | msmmembership.py:96 | a non-negative number is its digits, a negative one `-` then the digits of its magnitude, and the digits read back |
| MailingAddresses.Project | msmmembership.py:86-96 | a row is as wide as the key list; a failure names a key in the list that the record lacks |
| MailingAddresses.ProjectAll | msmmembership.py:85-96 | a group yields one row per record, or fails naming one of its keys |
| MailingAddresses.AddressRows | msmmembership.py:77-109 | the export has the header first, then one row per member and per complimentary copy; a failure names a member or complimentary key |
| MailingAddresses.AddressRowsShape | msmmembership.py:77-109 | the export is the header, then one nine-field row per member, then one per complimentary copy (1 + m + c rows), each row holding the record's values in the header's column order |

## Left out

- HTTP requests, JSON decoding and response parsing. Responses are inputs, and writes are request values.
- SQLAlchemy sessions, commits and table creation. A table is a row sequence, and `datetime.now` is the `now` parameter.
- The report aggregation, category resolution and report store. They are called but not defined in `msmsquare.py`.
- The sync drivers, the one-off loader and debug scripts, the Flask routes, MSAL login, templates and PDF rendering. They are orchestration and presentation only.
- YAML configuration loading. The configured values are parameters.
- Pages are given as a finite sequence whose last page has no cursor. A remote that never stops returning cursors is not modelled.
- MirrorStore.Table.AllData: the order of rows the database returns to `getLocations` is taken to be table order.
- ListmonkSync.Reconcile: the GET that re-reads a subscriber before its update is symbolic. An `Update` request names the subscriber and what changes, and `UpdatedProfile` gives the body sent for any re-read record.
- ListmonkSync.Reconcile: the second, list-3-only subscriber snapshot is an input, independent of the writes sent before it.
- EventCustomers.ProcessEventCustomersForm: line item ids are compared as integers. The corrected report reads the one page that the first `next` link leads to and no further, since the code only ever intends a single follow-up request.
- EventCustomers.ReportAsWritten: as written, no follow-up page is read at all; the failure on the unbound name is its only effect.
- Charters.ProcessCharterInvoiceForm: the charge is given in cents, because `int(float(charge)*100)` floating-point parsing is not modelled.
- Charters.ProcessCharterInvoiceForm: dates and times are given as parsed values, and the due date is a day number rather than `%Y-%m-%d` text.
- Charters.ProcessCharterInvoiceForm: the code reads the clock twice, once to compare with the week-before date and once to replace it; one `now` stands for both reads.
- Charters.ProcessCharterInvoiceForm: a missing key in a processor response, and the uuid4 idempotency keys, are not modelled. The keys are parameters.
- Charters.FormatChargeRoundTrip: float rounding of very large charges is not modelled.
- MailingAddresses.AllAddressesCsv: CSV quoting and escaping are not modelled, so rows are sequences of strings.
- MailingAddresses.Cell: a nested JSON value's cell is its JSON text, not Python's `str` of it.

## Findings

| source | as written | input that shows it | evidently intended | confidence | as-written member | corrected member |
|---|---|---|---|---|---|---|
| msmevents.py:60-61 | when the first response has a `next` link, the follow-up request reads `response.links`, a name never bound in the function, so the report fails | any order listing whose first response carries a `next` link, e.g. one order for event 42 on each of two pages | fetch the next page from the first response's link, and append its matching line items to the customers | high; not executed | EventCustomers.ReportAsWritten, EventCustomers.SecondPageFailsAsWritten | EventCustomers.ProcessEventCustomersForm |
