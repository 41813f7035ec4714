# Verified model of the Korral replenishment server

A Dafny model of the parts of the server whose correctness is not visible in
any single function: the replenishment write protocol, the rotating credential
cache and the read loop over it, log redaction, and the documentation block
parser. `dafny verify dfyconfig.toml` checks everything.

## What is modelled

* **The write protocol** (`protocol*.dfy`). Any number of threads measure, take
  the idempotency store's lock, look a key up, post, record, release and report.
  The environment chooses the readings, the clock, how each post ends (accepted,
  raised after taking effect, raised without effect) and which audit appends
  fail. A run is any sequence of events. Deduplication, linearisation,
  provenance, conservation of the daily total and progress are proved over all
  runs.
* **The service as objects** (`service*.dfy`, `idempotency_store.dfy`,
  `audit_log.dfy`, `storelink.dfy`, `credentials.dfy`, `secrets.dfy`,
  `health.dfy`). Classes whose methods update their fields as the program's do.
  `BuyerService` carries, as specification only, the list of protocol events
  that matches what it has done; its invariant says that the run of these events
  ends with its own results, audit trail, clock and orders, and every call
  continues this run. What holds of the protocol's runs and of their
  continuations therefore holds of the objects (`service_totals.dfy`,
  `service_calls.dfy`).
* **The credential cache** (`secret_cell.dfy`, `secret_cache.dfy`,
  `secrets.dfy`). Each file is an arbitrary function from steps to states that
  may change between any two looks, the stat and the read of one refresh
  included. The provider's dictionaries are proved to be what replaying the
  refreshes over the file's history gives.
* **Redaction** (`replacement.dfy`, `redaction.dfy`, `redaction_tree.dfy`).
  Python's `str.replace` as leftmost non-overlapping replacement, in whatever
  order the set yields its values, then three patterns that may cut any
  stretches at all.
* **The block parser** (`doc_*.dfy`). The three nested scanning loops against a
  declarative reading of a document, and the round trip from rendering.

## Assumptions

* One secrets provider is used by one thread at a time; it has no lock. The
  idempotency store's lock is modelled only in the protocol, where threads
  interleave.
* Nothing is assumed about the contents of a key file. Content that is not
  UTF-8 makes `read_text` raise an error that
  `src/duvo_fde/secrets_provider.py:192` does not catch; the model raises too,
  and clauses that need decodable content say so (`Decodes`).
* Fingerprints may recur. Where that matters the exact condition is proved
  (`SecretCell.CoherentIff`); that fingerprints never recur after a change is
  one way to meet it (`SecretCell.NoRecurrenceNeverFools`).
* A post that was accepted took effect; any other post may have.
* Every call reads the trading date and records its result at one reading of the
  clock; time passes freely before that and between calls.

## Findings

| claim | place | what holds |
|---|---|---|
| an operation is invoked at most once per key | src/duvo_fde/idempotency.py:117 | False: `ProtocolTheorems.TwoOrdersForOneKey` invokes it twice. It holds in a run exactly when no post for the key raised, or one did and the key was neither recorded nor tried again (`ProtocolInvocations.AtMostOnceIff`). Once a key is recorded nothing further is invoked (`ProtocolInvocations.RecordedEndsPosting`). |
| every known secret is replaced | src/duvo_fde/log.py:99 | False for values that can overlap the marker: `Redaction.StarValueLeaks`. A value is replaced in every text, among any other registered values, in any order and with any patterns, exactly when it cannot overlap the marker (`Redaction.NeverLeaksIff`). |
| a file with the same fingerprint still has the value held | src/duvo_fde/secrets_provider.py:177-178 | False: `SecretCell.RecurrenceFools`. The cache is coherent exactly when the file never fools it (`SecretCell.CoherentIff`). |
| only an identifier of digits names a credential file | src/duvo_fde/credentials.py:34 | The dollar sign also matches before a final newline: `Credentials.StoreKeyNames` says exactly what is accepted. Identifiers that went through validation are unaffected. |

## Model

| member | source | states |
|---|---|---|
| ProtocolInvariant.StepKeepsInv | src/duvo_fde/idempotency.py:126-148 | every event keeps mutual exclusion, the balance of orders, the balance of reports, the recorded keys and the serial order |
| ProtocolTheorems.OrdersPerKey | src/duvo_fde/idempotency.py:130-148 | in every run, the orders a key caused are exactly one if it is recorded or about to be, plus one for each post that raised after taking effect; with nothing in flight they lie between that and one more for every raised post |
| ProtocolTheorems.TwoOrdersForOneKey | src/duvo_fde/idempotency.py:116-147 | any call that places an order has a run in which its operation is invoked twice and two orders arrive |
| ProtocolInvocations.InvocationsPerKey | src/duvo_fde/idempotency.py:130-148 | in every run, the invocations for a key are one if it is recorded or under way, plus one for each that raised |
| ProtocolInvocations.AtMostOnceIff | src/duvo_fde/idempotency.py:116-117 | a key is invoked at most once exactly when none of its posts raised, or one did and the key is neither recorded nor under way |
| ProtocolInvocations.RecordedEndsPosting | src/duvo_fde/idempotency.py:131-138 | once a key is recorded, no continuation of the run invokes or fails a post for it |
| ProtocolTheorems.RecordedIsFinal | src/duvo_fde/idempotency.py:131-148 | once a key is recorded, no continuation changes its entry or adds an order for it |
| ProtocolTheorems.Linearizable | src/duvo_fde/idempotency.py:130-148 | every interleaving gives the store and the results of its executions run one at a time; CREATED is handed out once for a recorded key and for no other, and every result repeats the recorded response and time |
| Idempotency.HandedIsConsistent | src/duvo_fde/idempotency.py:56-74 | over any history of executions the CREATED results are one for each entry and all results agree with the entries |
| Idempotency.EntriesStay | src/duvo_fde/idempotency.py:141-148 | executions never change or drop an entry |
| IdempotencyStores.IdempotencyStore.Execute | src/duvo_fde/idempotency.py:103-148 | the operation is sent exactly for a usable key without a result; it is recorded only if its one post was answered below 400 with a body, and then result and entry are CREATED under this key with that body's order identifier and status and the time of recording; otherwise nothing is recorded; a missing credential is not reported for a store whose key is held |
| ProtocolProvenance.OrderProvenance | src/duvo_fde/service.py:119-188 | every order at the upstream, in every run, was posted by a thread within a call that this thread began with a measurement and did not leave since; the order is for the till units of that measurement less its stock, which was known and not negative, and for seven units or more |
| ProtocolProvenance.OneOrderPerMeasurement | src/duvo_fde/service.py:119-190 | no measurement leads to two orders |
| Protocol.SumOfBoth | src/duvo_fde/service.py:295 | the units of till rows add up, row by row |
| Protocol.RefusalIff | src/duvo_fde/service.py:123-160 | a measurement that places no order leaves a refusal, with its figures, exactly for checked identifiers and stock that is unknown or not negative, unless its append is lost |
| ProtocolReporting.ReportingIsConserved | src/duvo_fde/service.py:190-218 | with no call under way: counted reports and lost reports together are the recorded calls, one for each key; the upstream confirmed exactly those units; the reported total is the recorded total exactly when no counting report was lost, and less otherwise |
| ProtocolReporting.ReportsDescribeTheRecord | src/duvo_fde/service.py:193-218 | a report, created or replayed, shows the store, stock unit, quantity and date of the recorded call with its key |
| ProtocolReporting.CanFinish | src/duvo_fde/idempotency.py:130-148 | from every reachable state all calls can finish, with no report lost and no post raised: the lock never blocks for good |
| OrderKey.KeyRoundTrip | src/duvo_fde/service.py:341-369 | a key of validated fields is read back to the fields it was made of |
| OrderKey.KeyInjective | src/duvo_fde/service.py:341-369 | two keys of validated fields are equal exactly when all four fields are |
| OrderKey.UnvalidatedKeysCollide | src/duvo_fde/service.py:366-369 | without validation two different orders share a key |
| Policy.ValidateIdIff | src/duvo_fde/domain/policy.py:111-153 | validation accepts exactly padded digit strings within the limit, returns them bare, and accepts the result again unchanged |
| Policy.AssessIff | src/duvo_fde/domain/policy.py:219-289 | negative stock is an error and unknown stock a unit not stocked; a known one is judged by the gap to the sales, an order for the whole gap exactly above six units |
| Policy.OrderQuantityIff | src/duvo_fde/domain/policy.py:156-289 | an order of a quantity comes out exactly when stock is known, not negative, and short of the day's sales by that quantity, which is seven or more |
| Service.BuyerService.Measure | src/duvo_fde/service.py:260-299 | only reads are sent, none for identifiers that fail validation; the store's record, the stock and the units are what a store read, an inventory read and a till read of this call were answered, with the stock unknown exactly if the inventory read was answered 404; a held key is never reported missing |
| Service.BuyerService.RaiseReplenishmentOrder | src/duvo_fde/service.py:94-219 | a failed measurement or a refusal posts and stores nothing, and a unit answered 404 is refused as not ranged, one within the threshold as out of policy; otherwise the call, for the units answered less the stock answered and on the trading date of the store record read, goes through the store once, a new key sending one post and a known one none; a CREATED report shows the identifier and status the post was answered with; the trail gets exactly the refusal or the report, unless its append fails, and the caller is told which; the run of protocol events that matches the service is continued |
| Service.BuyerService.GetReplenishmentOrderStatus | src/duvo_fde/service.py:221-258 | asking sends only reads, none for an identifier that fails validation; the result is the last answer, about this order at the checked store; the trail gets exactly the check, unless its append fails, and the run that matches the service is continued |
| ServiceCalls.RunCalls | src/duvo_fde/idempotency.py:131-148 | over any sequence of orders and status checks: the trail is only appended to and keeps every report returned, no entry of the store changes, nothing more is posted, ordered or raised for a key recorded before, and of the reports for one key only the first can be CREATED, all with the same response and time |
| ServiceMirror.MirrorsPlaced | src/duvo_fde/service.py:182-219 | whatever the upstream and the trail do, a call that reaches the store is matched by the protocol: same results, same records, same orders |
| ServiceTotals.TrailWithinOrders | src/duvo_fde/service.py:190-218 | the units a service's trail counts are at most the units of its orders at the upstream, and equal exactly when no counting report was lost and no post took effect and raised |
| ServiceTotals.OrdersPerRecordedKey | src/duvo_fde/service.py:182-190 | the orders a service left under a key are one if it is recorded, plus one for each post that took effect and raised |
| AuditLogs.AuditLog.Record | src/duvo_fde/audit.py:84-120 | an append adds the record at the end, or nothing when it fails before the line is written |
| StoreLink.StoreLinkClient.Read | src/duvo_fde/storelink.py:260-392 | at most two reads, the second exactly after a first one answered 401 whose key, read back from the store's file one step after the first request, had changed; none while the file holds still; the second key is the one read back, so another than the first, if the file holds still from that step to the second request; the result is the body of the last answer exactly if that was below 400 and had one, and an unknown entity exactly if it was 404; a held key is never missing |
| StoreLink.StoreLinkClient.GetInventory | src/duvo_fde/storelink.py:102-125 | an answer of 404 gives no record and one below 400 its body, any other an error |
| StoreLink.StoreLinkClient.CreateReplenishmentOrder | src/duvo_fde/storelink.py:156-239 | one post or, without a key, none; never a second one; the result is the body of its answer, and only if that was below 400 and had one |
| AnyCalls.RunAll | src/duvo_fde/secrets_provider.py:130-138 | over any sequence of reads, orders and readiness checks for any stores: a key resolved once, by any call that sent something or came to a result that needs a key, is never missing again; readiness once reported stays while the probed files decode; requests are only added, and each carries what its own store's file held at an earlier step |
| Credentials.StoreKeyNames | src/duvo_fde/credentials.py:49-68 | exactly which identifiers name a file, and that two stores never share one |
| Credentials.ValidatedStoreHasName | src/duvo_fde/credentials.py:63-68 | a validated store identifier always names a file |
| Credentials.ResolveStoreKey | src/duvo_fde/credentials.py:71-101 | the key resolved was the file's content at some step; it is not missing once held |
| SecretCell.CoherentIff | src/duvo_fde/secrets_provider.py:164-209 | after every refresh that finds the file readable and holding still the current value is served, whatever came before, exactly when no earlier fingerprint recurs over a value that differs from the one it was read with |
| SecretCell.NoRecurrenceNeverFools | src/duvo_fde/secrets_provider.py:176-178 | fingerprints that never recur after a change meet that condition |
| SecretCell.RecurrenceFools | src/duvo_fde/secrets_provider.py:176-188 | a file rewritten under the same fingerprint fools the cache |
| SecretCell.HeldWasContent | src/duvo_fde/secrets_provider.py:190-207 | whatever is served was once the stripped content of this very file, read one step after its fingerprint was taken |
| SecretCell.DegradedIff | src/duvo_fde/secrets_provider.py:164-199 | a refresh leaves a secret degraded exactly if its file is gone, cannot be read, or has been replaced by white space; a replaced file that is not UTF-8 raises and changes nothing |
| SecretCell.RotationsAreChanges | src/duvo_fde/secrets_provider.py:202-214 | the rotation counter is the number of adjacent unequal pairs among the values loaded |
| SecretCell.RotationsAreReal | src/duvo_fde/secrets_provider.py:202-214 | it is at most the number of changes between the readable contents the file had up to the last load, whatever became unreadable in between |
| SecretCell.SameTextNeverRotates | src/duvo_fde/secrets_provider.py:202-214 | a file that never has another text counts no rotation, however often it cannot be read |
| SecretCell.WarningsAreRuns | src/duvo_fde/secrets_provider.py:219-241 | the degraded flag says whether the latest access failed, and there is one warning for each run of failed accesses; an access that raises belongs to no run and breaks none |
| SecretCell.HeldStays | src/duvo_fde/secrets_provider.py:172-200 | a value once loaded is never lost, and without a further load value and counter stay |
| SecretCache.RefreshTracks | src/duvo_fde/secrets_provider.py:158-217 | a refresh keeps every secret equal to the replay of its own refreshes over its file's history |
| SecretCache.FieldsMean | src/duvo_fde/secrets_provider.py:99-103 | the provider's fields for a secret: its rotations are the changes among the values loaded and at most the changes of the file's content, its degraded flag and warnings are those of its accesses, and its value was the file's |
| Secrets.SecretsProvider.Refresh | src/duvo_fde/secrets_provider.py:158-217 | the new dictionaries as a function of the old ones and of the two looks at the file, failing exactly when the file is gone, cannot be read, or has been replaced by white space; the value is registered for redaction |
| Secrets.SecretsProvider.Get | src/duvo_fde/secrets_provider.py:114-138 | the value returned was the file's content, is its current content if the file holds still and never fools the cache, and is known to the log scrubber; a held secret never becomes unavailable |
| Secrets.SecretsProvider.State | src/duvo_fde/secrets_provider.py:140-156 | the snapshot reports what is held after the refresh, degraded exactly when the file is gone, cannot be read, or has been replaced by white space |
| Health.HealthRegistry.Readiness | src/duvo_fde/health.py:90-125 | once all probed secrets are held: ready exactly when no probe raises, which decodable content never does, degraded exactly when ready and some access failed, and so if some probed file cannot be read throughout the call; if all probed files can be read and are not blank, ready whatever was held before |
| Health.HealthRegistry.Probe | src/duvo_fde/runtime.py:105-112 | a probe fails exactly when it raises or nothing is held, and is degraded when the access failed over a held value |
| Replacement.RemovesIffNoOverlap | src/duvo_fde/log.py:101-103 | replacing a value by a marker removes it from every text exactly when the two cannot overlap |
| Replacement.NoNewOccurrence | src/duvo_fde/log.py:101-105 | cutting any stretches out for the marker makes no new occurrence of a value that cannot overlap it |
| Redaction.ScrubIsSound | src/duvo_fde/log.py:92-106 | whatever the order and whatever the patterns cut, no value is left if some stretch of it contains a registered value and cannot overlap the marker |
| Redaction.SingleValueIff | src/duvo_fde/log.py:101-103 | a value registered alone is left in no text exactly when it cannot overlap the marker |
| Redaction.NeverLeaksIff | src/duvo_fde/log.py:92-106 | a registered value is left in no text, whatever else is registered, in whatever order, whatever the patterns cut, exactly when it cannot overlap the marker |
| Redaction.StarValueLeaks | src/duvo_fde/log.py:35 | a registered value that begins with a star is left in some text |
| Redaction.PlainValuesAreProtected | src/duvo_fde/log.py:75-86 | a value without a star that is no piece of the marker's word is covered |
| Redaction.LiteralStageIdempotent | src/duvo_fde/log.py:101-103 | a second pass over the literal stage changes nothing, even in another order |
| Redaction.SecretRegistry.Scrub | src/duvo_fde/log.py:92-106 | the loops compute the specified result for some order of the whole set, and leave no covered value |
| Redaction.SecretRegistry.Register | src/duvo_fde/log.py:75-86 | exactly the stripped value is added, if it is long enough |
| RedactionTree.RedactIsSafe | src/duvo_fde/log.py:113-131 | keys, lengths and scalars are kept, every value under a sensitive key is the marker, and no string holds a covered value |
| RedactionTree.RedactInPlace | src/duvo_fde/log.py:113-131 | a string that stands under no sensitive key is scrubbed where it stands, and a scalar stays |
| RedactionTree.SensitiveIff | src/duvo_fde/log.py:38-50 | a key is sensitive exactly when it is one of nine names in any mixture of cases |
| RedactionTree.RedactTwice | src/duvo_fde/log.py:113-131 | with the literal stage alone, redacting again changes nothing |
| DocBlocks.ExtractBlocks | tools/doc_verifier.py:65-110 | splitting the text and running the three loops gives the blocks of the document's marked spans, with their joined code; each is spelled by its lines, character by character, and a text without a line that spells a marker gives none |
| DocBlocks.SpelledIff | tools/doc_verifier.py:80-108 | a span gives a block exactly when its lines spell one: a marker, white space, an opening fence, the code, the first closing fence or the end |
| DocBlocks.CodeIsLines | tools/doc_verifier.py:94-104 | a block's code, split at its newlines, is the block's lines again, an empty block counting as one empty line |
| DocBlocks.ExtractsOne | tools/doc_verifier.py:65-110 | that determines the result: a document has one sequence of blocks |
| DocBlocks.SpansIffMarked | tools/doc_verifier.py:80-108 | exactly one sequence of spans is a document's marked blocks: in order, disjoint, each from a marker to its first closing fence or the end, and no marker that starts a block passed over outside an earlier one; the scan finds it |
| DocLines.KindDecidesTests | tools/doc_verifier.py:39-41 | one classification of a line decides all four tests the loops make |
| DocLines.SplitOfLinesText | tools/doc_verifier.py:76 | lines without a break, each written with any line end behind and something behind the last, are what splitting gives back |
| DocMarkers.MarkerRoundTrip | tools/doc_verifier.py:39 | every spacing of a marker is read as the option it was written with |
| DocMarkers.MarkerIff | tools/doc_verifier.py:39 | a line is a marker for an option exactly when it is white space, the comment with that option in some spacing, and white space |
| DocMarkers.FenceIff | tools/doc_verifier.py:40-41 | a fence opens exactly for three backticks with one of four languages and closes exactly for three backticks alone, between white space; a blank line is white space |
| DocRender.RoundTrip | tools/doc_verifier.py:65-110 | extracting from the text of any rendered document, however its lines end, gives back the options, joined bodies and fence line numbers written into it |
| DocRender.CodeDeterminesBody | tools/doc_verifier.py:94-104 | two bodies give the same code exactly if they are equal, or one is empty and the other one empty line |
| UpstreamLedger.OrderBook.Post | src/duvo_fde/testing/mock_upstream.py:264-295 | every post adds an order, with an identifier no earlier order has |
| UpstreamLedger.OrderBook.Find | src/duvo_fde/testing/mock_upstream.py:163-176 | a record is found exactly if one matches |
| UpstreamLedger.OrderBook.Status | src/duvo_fde/testing/mock_upstream.py:297-318 | an identifier finds nothing unless a record of that store has it; a posted order is found at its own store and nowhere else, unless a fixture took its identifier |

## Left out

- Redaction.ScrubIsSound: for one fixed set of several values the condition is sufficient and not proved necessary; `Redaction.NeverLeaksIff` is exact for a value among arbitrary others.
- Redaction.Matcher: the three patterns are any cutting of stretches, so nothing is said about what they do catch.
- DocBlocks.ExtractBlocks: the path recorded on a block, run_block and the command line are not modelled.
- Protocol.Step: a restart, which empties the store, and several replicas are not modelled; the program does not promise deduplication across them.
- Service.BuyerService.RaiseReplenishmentOrder: the clock is read once for the trading date and the record; explanation texts, correlation identifiers, durations and the names of stores and stock units are not modelled.
- Service.BuyerService.Measure: till rows whose units are not numbers make the whole answer unreadable.
- AnyCalls.RunAll: the loop over calls is not in the source; it stands for any client of the shared provider.
- ServiceCalls.RunCalls: likewise; calls that overlap in time are covered by the protocol's runs.
- AuditLogs.AuditLog.Record: records are structured values; JSON encoding and the scrubbing of the written line are covered only by the redaction modules.
- UpstreamLedger.OrderBook.Post: authentication and the generic collection routes of the stand-in are left out.
- Real time zones: the trading date is a given function of the store's record and the time.
- HTTP, the web framework, tool registration, configuration, logging handlers, the stock position tool and supplier lookup: plumbing over libraries or reads without further logic.
