# Webook: models and proofs

Webook is a Go service for interview preparation: a question and case library, credits, orders
and payments, interview journeys, and the jobs and clients around them. This project models its
self-contained algorithms and its small protocols in Dafny and proves what they are for, over
every input, every run, or every way the outside may behave.

What is modelled, one topic per group of modules:

- **The knowledge base client** (`KnowledgeStore`, `BulkSync`). Batches, bounded retry and the
  classification of answers, run against a remote store that may land any part of a batch and
  may answer anything that keeps to its contract. The reason a success means what it says is
  that a full pass forgets every partial pass before it.
- **HTML to text** (`Text`, `Paragraphs`, `Structure`, `Entities`, `StripHtml`,
  `StripMeaning`). The regular expressions are
  leftmost, non-overlapping scanners, proved sound and complete against the shape they search
  for. The entity table of the code is a Go map, visited in an order that is not fixed: the
  order is a parameter, and the theory says for every text whether it matters.
- **Cutting a message to a byte budget** (`Utf8Truncate`), against sections 3 and 4 of RFC 3629.
- **Two caches** (`CaseTable`, `CaseRepository`, and `PermissionSession` with `Decimals`): the
  first 50 published cases and the copy of a single case; the comma-joined list of granted ids
  in the session.
- **The credit ledger** (`CreditLedger`, `CreditRuns`, `CreditConservation`, `CreditMeaning`):
  optimistic transactions that read one state of the tables and commit against a later one, with 64-bit
  wrap-around written out. Runs of overlapping transactions equal serial runs, and the accounts
  show exactly what the logs add up to.
- **Three sweep jobs** (`Pages`, `CreditSweep`, `OrderSweep`, `PaymentSweep`): loops that always
  read the first page, while other transactions go on.
- **Interview journeys** (`Interview`, `InterviewStored`, `InterviewCode`): sharing a round should not be revocable.
- **Orders** (`Orders`): from the requested goods to the stored payment records.
- **Identifiers** (`SerialNumber`, `Snowflake`): what can be read back, and what never repeats.

The imperative parts are methods and classes with the fields of the source; each is proved
against a function, and the lemmas are about that function. Where the source calls the network,
a database or a cache, a class stands for the other side and makes arbitrary choices (`*`)
within the contract its comment states.

## Where the code does less than it promises

The model follows the code. In these places a property one expects is false; each has a concrete
failing family and the exact condition under which the property holds.

- **Sharing can be revoked.** `Save` looks for a shared stored round with the same *id*, while
  the table resolves conflicts by primary key or by journey and round *number*. A round sent
  without an id for the number of a shared round unshares it (`Interview.NewRoundRevokes`).
  `Interview.SharingIsKeptExactlyWhen` is exact.
- **The order of the entity table matters** for texts in which an escaped ampersand is directly
  followed by the rest of another entity, such as `&amp;lt;`, and for no others
  (`Entities.OrderIndependence`, `Entities.DoublyEncodedMeans`).
- **The copy of a case that a sync caches is not always the published row.** The upsert keeps
  owner and creation time of an existing row, the copy takes both from the request
  (`CaseRepository.SyncAndTheCase`, `CaseRepository.SyncedCopyDiffers`).
- **A sync of a case of another business leaves the default list behind**, because the list query
  does not filter by business while the refresh writes the list of that business only; so does a
  sync whose list query fails (`CaseRepository.NextAndTheList`, `CaseRepository.NewCaseGoesStale`).
- **The payment job need not end**: a page of payments that cannot be settled is read for ever
  (`PaymentSweep.EndsExactlyWhen`, `PaymentSweep.StuckForever`).
- **Money is compared in 64 bits** (`Orders.PaymentCoversGoods`, `Orders.WordTooMuch`), and the
  payment table keeps the first record of a channel only (`Orders.StoredSum`, `Orders.CreditTwice`).
- **Credits take negative amounts**: an addition can overdraw an account, which then wraps
  (`CreditConservation.StaysInRange`, `CreditConservation.Overdrawn`).
- **An entry in the session outlives its permission** (`PermissionSession.AgreeExactlyWhen`,
  `PermissionSession.RevokedIsStillAllowed`).
- The comment on serial numbers speaks of a hexadecimal time stamp; the code writes a decimal one,
  and so does the model.

## Model

| member | source | states |
|---|---|---|
| KnowledgeStore.FullPassForgets | internal/kbase/internal/service/service.go:188-221 | Why retrying is right: whatever parts of a batch earlier attempts landed, one full pass gives the store that a single clean pass from the start would have given. |
| KnowledgeStore.PartialKeepsMixed | internal/kbase/internal/service/service.go:195-219 | An attempt that lands any subset of the batch leaves every other id alone and each named id with its old content or the effect of an item naming it. |
| KnowledgeStore.UpsertMeaning | internal/kbase/internal/service/service.go:130-134 | After upserting all documents an id holds the body of the last document that carries it; other ids hold what they held. |
| KnowledgeStore.DeleteMeaning | internal/kbase/internal/service/service.go:314-318 | After deleting all ids the store is the old one without exactly these ids. |
| KnowledgeStore.ApplyAllConcat | internal/kbase/internal/service/service.go:146-160 | Landing two batches one after the other is landing their concatenation. |
| KnowledgeStore.OthersKept | internal/kbase/internal/service/service.go:136-163 | After some full batches and any part of another, ids that no item names are as they were. |
| BulkSync.EveryReplyIsOneOfThree | internal/kbase/internal/service/service.go:250-310 | Every reply is exactly one of clean (a parsed 200 without a failed outcome), refused outright (400 to 499) or a setback (no answer, any other status, an unreadable body, a failed outcome). |
| BulkSync.NoFailures | internal/kbase/internal/service/service.go:288-308 | The number of failures is zero exactly when no reported outcome is a failure (for deletes, not_found is none). |
| BulkSync.FailuresCounted | internal/kbase/internal/service/service.go:288-301 | The number of failures is that of the items with a failed outcome. |
| BulkSync.FirstReasonMeans | internal/kbase/internal/service/service.go:293-300 | The reason that is reported is the first one that is not empty, among the failed outcomes in report order. |
| BulkSync.AllSettled | internal/kbase/internal/service/service.go:280-310 | If each item has its effect at its place, landed now or not, the batch has had its full effect. |
| BulkSync.Service.CountFailures | internal/kbase/internal/service/service.go:289-301 | The loop computes the number of failed outcomes and the first reason given, in report order. |
| BulkSync.Service.Verdict | internal/kbase/internal/service/service.go:250-310 | The verdict on a reply: none exactly on a clean one, a client error exactly on an outright refusal, an error to be retried exactly on a setback; failed outcomes are counted and named. |
| BulkSync.Service.Once | internal/kbase/internal/service/service.go:225-311 | One attempt: at most one request, whose reply is recorded as it came and judged as above; any subset may have landed; no error only if the store is as if the whole batch had landed. |
| BulkSync.Service.DoWithRetry | internal/kbase/internal/service/service.go:176-222 | At most 1 + maxRetries attempts, all but the last met a setback; success exactly when the last reply was clean, and then the store is as after one clean pass; otherwise why it gave up: cancelled, not sendable, refused outright, or the whole budget spent on setbacks; the store is mixed only at ids of the batch. |
| BulkSync.GaveUpIsHopeless | internal/kbase/internal/service/service.go:203-212 | Whatever replies were still to come: a batch given up without being cancelled had no clean reply before a refusal within its budget. |
| BulkSync.Service.ProcessBatches | internal/kbase/internal/service/service.go:136-163 | The batches tried concatenate to a prefix of the input; success means all items landed in order; a failing batch [lo:hi] leaves the first lo items landed and only ids of that batch in an intermediate state, and its last run says why it was given up. |
| BulkSync.Service.BulkUpsert | internal/kbase/internal/service/service.go:129-134 | A nil return means the old store with all documents upserted in order, whatever was lost, repeated or half applied on the way. An error is a cancellation or a failed batch; it says how far it came, which replies made it give up, and that a clean reply before any refusal within the budget would have saved the batch. No other id is ever touched; at most ceil(n/batchSize) * (1 + maxRetries) requests. |
| BulkSync.Service.BulkDelete | internal/kbase/internal/service/service.go:313-318 | A nil return means exactly the given ids are gone, also when a retry was answered with not_found. The errors, the untouched ids and the bound on requests are as for upserts. |
| BulkSync.CountingBatches | internal/kbase/internal/service/service.go:146-160 | A history of budgeted batches has at most ceil(n/d) * (1 + maxRetries) attempts. |
| Text.TrimToNothing | internal/pkg/html_truncate/truncate.go:48 | Trimming leaves nothing exactly when the text is white space. |
| Paragraphs.MatchesSound | internal/pkg/html_truncate/truncate.go:33-34 | Every reported match is a paragraph (opening tag, no line break inside, closing tag) and no shorter paragraph starts where it starts. |
| Paragraphs.MatchesOrdered | internal/pkg/html_truncate/truncate.go:33-34 | Matches follow each other without overlap inside the text. |
| Paragraphs.MatchesComplete | internal/pkg/html_truncate/truncate.go:33-34 | Every paragraph-shaped piece of the text starts inside a reported match: nothing is missed. |
| Paragraphs.PrefixStable | internal/pkg/html_truncate/truncate.go:65-66 | The matches of any prefix are exactly the matches of the text that end inside it. |
| Paragraphs.CutIsShortestPrefix | internal/pkg/html_truncate/truncate.go:59-98 | With at least n paragraphs that are not blank, the cut is the shortest prefix that has n of them; with fewer, nothing is cut. |
| Paragraphs.CutTwice | internal/pkg/html_truncate/truncate.go:59-98 | Cutting at m and then at n is cutting at the smaller number, for all m and n. |
| Paragraphs.AbstractIsShort | internal/pkg/html_truncate/truncate.go:18-28 | An abstract has one paragraph of up to three, two of four, three of more; it is the shortest prefix that has them, and has strictly fewer than a text with two or more. |
| Paragraphs.CountOfDocument | internal/pkg/html_truncate/truncate.go:31-54 | In a document of paragraphs exactly those count that are not white space. |
| Paragraphs.HasText | internal/pkg/html_truncate/truncate.go:44-48 | Searching the matched piece again for its text finds the text between its own tags, so the test asks whether that is white space only. |
| Paragraphs.ParagraphCount | internal/pkg/html_truncate/truncate.go:31-54 | The loop counts the matches whose text is not white space. |
| Paragraphs.TruncateByParagraphs | internal/pkg/html_truncate/truncate.go:59-98 | The loop with its early return computes the cut, for every number; nothing is left for none. |
| Paragraphs.Truncate | internal/pkg/html_truncate/truncate.go:18-28 | The result has one paragraph of up to three, two of four, three of five or more, and is the shortest prefix that has them; a text without paragraphs is returned as it is. |
| Entities.OrderIndependence | internal/pkg/html_truncate/strip.go:37-52 | The replacements give the same text in every visiting order exactly when no escaped ampersand is followed by the rest of another entity; then the text is that of a single simultaneous pass. |
| Entities.OrderFreeIff | internal/pkg/html_truncate/strip.go:37-52 | The same for every table with plain, prefix-free names and one entity that stands for the ampersand. |
| Entities.OrdersDisagree | internal/pkg/html_truncate/strip.go:47-49 | On every doubly encoded text, replacing the ampersand first leaves fewer ampersands than replacing it last. |
| Entities.DoublyEncodedMeans | internal/pkg/html_truncate/strip.go:38-45 | Spelled out for the table of the code: the text contains one of five strings such as "&amp;lt;". |
| Entities.NoAmpersandNoDouble | internal/pkg/html_truncate/strip.go:39 | A text without "&amp;" is never of that kind. |
| Entities.HtmlIsGood | internal/pkg/html_truncate/strip.go:38-45 | The six entities meet the conditions of the theory. |
| Entities.DoublyEncodedText | internal/pkg/html_truncate/strip.go:38-49 | A concrete text on which the order of the map shows. |
| Entities.TheEntities | internal/pkg/html_truncate/strip.go:38-49 | In plain text each of the six entities becomes its character, in every visiting order; for the ampersand, unless the rest of another entity follows. |
| Entities.TheHtmlTable | internal/pkg/html_truncate/strip.go:38-45 | The table has exactly these six entities. |
| Entities.ProcessHTMLEntities | internal/pkg/html_truncate/strip.go:37-52 | The loop over the table, for any visiting order, computes the replacements in that order, and a simultaneous pass unless the text is doubly encoded. |
| StripHtml.LinkIsRemoved | internal/pkg/html_truncate/strip.go:30-34 | A link is taken away together with its text, up to its first closing tag, and the pass goes on behind it. |
| StripHtml.LinkWasThere | internal/pkg/html_truncate/strip.go:30-34 | The converse: what is taken away at a place is a link, with attributes, a text without a line break, and the first closing tag. |
| StripHtml.OtherRunesStay | internal/pkg/html_truncate/strip.go:30-34 | A rune at which no link starts is kept. |
| StripHtml.TagIsRemoved | internal/pkg/html_truncate/strip.go:16-18 | A tag, also one that spans lines, is taken away, and the pass goes on behind it. |
| StripHtml.PlainTextStays | internal/pkg/html_truncate/strip.go:16-18 | Tag removal leaves a text as it is exactly when no '<' is followed by a '>'. |
| StripHtml.RemoveTagsClean | internal/pkg/html_truncate/strip.go:16-18 | After tag removal no '<' is followed anywhere by a '>'. |
| StripHtml.WhitespaceIsTidy | internal/pkg/html_truncate/strip.go:91-114 | For every text: no tab, no two adjacent spaces, no three adjacent line breaks, no outer white space. |
| StripHtml.WhitespaceKeepsWords | internal/pkg/html_truncate/strip.go:91-114 | The white space pass loses nothing but white space: no word is lost, split or merged. |
| StripHtml.SqueezeKeepsWords | internal/pkg/html_truncate/strip.go:95-108 | The same for each of its three replacements of runs of white space. |
| StripHtml.NoItemsOneLine | internal/pkg/html_truncate/strip.go:103-108 | Without a list item the result is one line: of the white space that the pattern knows (space, tab, line feed, form feed, carriage return) only spaces are left. |
| StripHtml.MarkupMeans | internal/pkg/html_truncate/strip.go:17 | Markup is a '<' with a '>' anywhere after it. |
| StripHtml.WhitespaceKeepsMarkup | internal/pkg/html_truncate/strip.go:91-114 | The white space pass neither makes nor breaks markup. |
| StripHtml.StripIsTidy | internal/pkg/html_truncate/strip.go:9-27 | The whole pipeline leaves a tidy text for every content and every visiting order, with exactly the words that the decoded text has. |
| StripHtml.StripMarkup | internal/pkg/html_truncate/strip.go:9-27 | The result has markup exactly when decoding the entities of the tagless text made it; before that pass there is none. |
| StripHtml.StripLeavesNoMarkup | internal/pkg/html_truncate/strip.go:9-27 | Content without an ampersand leaves no '<' followed by a '>'. |
| StripHtml.StripOrder | internal/pkg/html_truncate/strip.go:9-27 | All visiting orders give the same stripped text exactly when the tagless text is not doubly encoded. |
| StripHtml.WhitespaceKeepsOccurrences | internal/pkg/html_truncate/strip.go:91-114 | The white space pass keeps the number of every rune that is not white space. |
| Structure.EachAtItsPlace | internal/pkg/html_truncate/strip.go:55-88 | On a text whose tags are closed before the next '<', replacements of tags one after the other are the simultaneous replacement of every tag that has a rule, at its place; everything else is kept, and no replacement makes or breaks a tag for another. |
| Structure.ReplaceIsSubstitute | internal/pkg/html_truncate/strip.go:57-58 | On such a text one replacement of a tag acts on whole tags. |
| Structure.TheTable | internal/pkg/html_truncate/strip.go:56-85 | Which tag becomes what: a list item a line break and a bullet, the end of a paragraph a line break, the end of a heading a space, the other listed tags nothing; no other tag has a rule. |
| Structure.RulesAreTags | internal/pkg/html_truncate/strip.go:57-85 | All replacements of the pass replace a tag by a text that opens none. |
| Structure.ProcessHTMLStructure | internal/pkg/html_truncate/strip.go:55-88 | The replacements and the loop over the six headings run in order; on a text whose tags are closed before the next '<' the result has every listed tag replaced at its place and all else kept. |
| StripHtml.ProcessWhitespace | internal/pkg/html_truncate/strip.go:91-114 | The result is tidy, has exactly the words of the content, has markup exactly when the content has, and is one line without a list item. |
| StripHtml.StripHTML | internal/pkg/html_truncate/strip.go:9-27 | The pipeline computes the stripped text; it is tidy, and free of markup if the content has no ampersand. |
| StripMeaning.StripParagraphs | internal/pkg/html_truncate/strip.go:9-27 | The words of a stripped document of paragraphs are the words of its paragraphs, one after the other, for every visiting order: paragraphs never run together. |
| StripMeaning.TwoParas | internal/pkg/html_truncate/strip.go:66-68 | The document of two paragraphs, spelled out with its tags. |
| StripMeaning.StripItems | internal/pkg/html_truncate/strip.go:56-58 | The words of stripped list items are those of the items, each after its bullet. |
| StripMeaning.StripOfRuled | internal/pkg/html_truncate/strip.go:9-27 | Of any text whose tags are all listed, the words are those of the text with every tag replaced. |
| StripMeaning.StripLink | internal/pkg/html_truncate/strip.go:9-34 | A link goes with its own text: the stripped text is that of the text around it. |
| StripMeaning.UnchangedWhitespace | internal/pkg/html_truncate/strip.go:91-114 | The white space pass leaves exactly these texts as they are: tidy ones without outer white space that have a list item or are one line. |
| Utf8Truncate.EncodeIsGrammatical | internal/notification/wechat/consumer/wechat_robot.go:123-126 | The encoding of RFC 3629 section 3 yields a character of the grammar of section 4, of the length its first byte announces, and its number can be read back. |
| Utf8Truncate.GrammarIsEncoded | internal/notification/wechat/consumer/wechat_robot.go:123-126 | The other way round: every character of the grammar is the encoding of exactly its number. |
| Utf8Truncate.WellFormedIsEncoded | internal/notification/wechat/consumer/wechat_robot.go:118-130 | Well-formed text is the encoding of the numbers of its characters. |
| Utf8Truncate.CutIsWellFormed | internal/notification/wechat/consumer/wechat_robot.go:126 | Cutting well-formed text leaves well-formed text exactly where a character starts, or at the end. |
| Utf8Truncate.StartIsNear | internal/notification/wechat/consumer/wechat_robot.go:125-128 | A character start is never more than three bytes back. |
| Utf8Truncate.Truncate | internal/notification/wechat/consumer/wechat_robot.go:118-130 | The loop goes back to the last character start at or before the limit, for any bytes. |
| Utf8Truncate.LongestWellFormedPrefix | internal/notification/wechat/consumer/wechat_robot.go:118-130 | For well-formed input the result is the longest well-formed prefix within the budget, and a cut wastes at most three bytes of it. |
| Utf8Truncate.KeepsWholeCharacters | internal/notification/wechat/consumer/wechat_robot.go:118-130 | In characters: the result is the encoding of leading characters, and one more would not have fitted. |
| CaseTable.TopChanges | internal/cases/internal/repository/dao/cases.go:144-153 | Writing one case changes the first n entries of the list exactly when it is among them and does not look there as before. |
| CaseTable.DescendingInsert | internal/cases/internal/repository/dao/cases.go:147 | A new id takes its place in the descending order, the others keep theirs. |
| CaseTable.PublishedList | internal/cases/internal/repository/dao/cases.go:144-153 | The list has one entry for every published case, newest id first, with the listed columns of its row and no others. |
| CaseTable.PageSelects | internal/cases/internal/repository/cases.go:285-298 | A page has `limit` entries from `offset` on, or as many as there are: its i-th entry is entry offset + i of the list. |
| CaseRepository.RunsStayCoherent | internal/cases/internal/repository/cases.go:111-188 | Over every run of syncs of any business, failed list refreshes, saves, queries and expiries: all the time a cached default list is the first 50 published cases and a cached case is its row up to owner and creation time, exactly when no event breaks the list. |
| CaseRepository.DefaultRunsStayCoherent | internal/cases/internal/repository/cases.go:111-188 | So it is in every run whose syncs are of the default business, by name or by naming none, and refresh its list. |
| CaseRepository.NextAndTheList | internal/cases/internal/repository/cases.go:167-188 | Every event keeps the cached cases fresh, and the default list exactly unless a sync refreshes the list of another business, or none, while the case is among the first 50 of a cached list and looks different there. |
| CaseRepository.NewCaseGoesStale | internal/cases/internal/repository/cases.go:181-185 | Publishing a new case of another business always leaves a cached default list stale, and so does any new case if the list cannot be read afterwards. |
| CaseRepository.SyncAndTheCase | internal/cases/internal/repository/cases.go:169-179 | The copy a sync caches is the published row exactly when the case is new, or the request names its owner and the clock shows its creation time. |
| CaseRepository.SyncedCopyDiffers | internal/cases/internal/repository/dao/cases.go:128-142 | An editor who publishes somebody else's case shows up as the owner in the copy, not in the row. |
| CaseRepository.CaseRepo.GetCasesFromCache | internal/cases/internal/repository/cases.go:285-298 | The copying loop answers with the entries from `offset` on, `limit` of them or as many as there are, none beyond the end. |
| CaseRepository.CaseRepo.PubList | internal/cases/internal/repository/cases.go:111-134 | While the list is fresh, every answer, from the cache, after a miss or beyond the cached range, is the published cases from `offset` on, `limit` of them or as many as there are; coherence is kept. |
| CaseRepository.CaseRepo.GetPubByID | internal/cases/internal/repository/cases.go:136-158 | An answer is the published row up to owner and creation time, exactly the row after a miss; coherence is kept. |
| CaseRepository.CaseRepo.SyncCase | internal/cases/internal/repository/cases.go:167-188 | The whole new state of tables and caches, with and without a refreshed list; coherence is kept exactly when the event does not break the list. |
| CaseRepository.CaseRepo.SaveCase | internal/cases/internal/repository/cases.go:206-208 | A save touches the drafts only. |
| CaseRepository.WhatIsWritten | internal/cases/internal/repository/dao/cases.go:97-142 | A sync writes the draft and the published row of its case and no other, a save only the draft: everything from the request, but owner and creation time of an existing row stay. |
| CaseRepository.CaseRepo.CacheListOf | internal/cases/internal/repository/cases.go:300-313 | The refreshed list is the first 50 published cases of every business. |
| PermissionSession.SplitJoin | internal/pkg/middleware/check_permission_builder.go:74-112 | Splitting gives back what was joined, for non-empty lists without commas. |
| PermissionSession.ParsedHasNoComma | internal/pkg/middleware/check_permission_builder.go:82 | What parses as an integer has no comma. |
| PermissionSession.GrantAppends | internal/pkg/middleware/check_permission_builder.go:97-118 | A grant on the slow path appends exactly its own entry to the list of its business. |
| PermissionSession.RunStaysSound | internal/pkg/middleware/check_permission_builder.go:58-119 | Over every run of requests and new permissions without revocations, every id in the session was granted. |
| PermissionSession.DecidesAsIfAsked | internal/pkg/middleware/check_permission_builder.go:89-107 | After any run without revocations a request is let through only if asking would let it through, and with a healthy outside exactly then. |
| PermissionSession.AskedOnce | internal/pkg/middleware/check_permission_builder.go:89-95 | A request that was let through is let through from the session ever after, without asking. |
| PermissionSession.EntriesAre | internal/pkg/middleware/check_permission_builder.go:89-118 | Over every run, revocations included: an id is in the session exactly when it was there at the start or a request for it was let through. |
| PermissionSession.AgreeExactlyWhen | internal/pkg/middleware/check_permission_builder.go:89-107 | After every run, revocations included, session and permission service decide alike exactly when no remembered id has outlived its permission; otherwise the session lets through what the service would not. |
| PermissionSession.RevokedIsStillAllowed | internal/pkg/middleware/check_permission_builder.go:89-95 | Whatever was once let through in a run stays so when its permission is revoked. |
| PermissionSession.CheckPermission.Handle | internal/pkg/middleware/check_permission_builder.go:50-119 | A request is let through exactly when the user is logged in, business and id are valid, the session can be read, and the id is in the session's list or the service grants it and the session can be written; the new session; a sound session stays sound. |
| CreditLedger.AloneKeepsBooks | internal/credit/internal/repository/dao/credit.go:56-313 | Adding, locking, confirming and cancelling keep every account equal to what its logs add up to, for every amount, however it wraps. |
| CreditLedger.LockMoves | internal/credit/internal/repository/dao/credit.go:162-200 | Taking the unsigned amount from one total and adding it to the other agrees, on 64 bits, with the signed change the log records. |
| CreditRuns.CommitIsSerial | internal/credit/internal/repository/dao/credit.go:56-313 | A transaction that read an older state and changes anything does exactly what it would do alone on the current tables; any answer but a conflict is one the operation gives alone. |
| CreditRuns.RunsAreSerial | internal/credit/internal/repository/dao/credit.go:56-313 | Every run of overlapping transactions leaves the tables that the committed operations leave one after the other; the books stay sound, logs and versions only develop. |
| CreditRuns.ConflictsAreCaused | internal/credit/internal/repository/dao/credit.go:57-65 | Retrying is lock-free: a transaction that meets a conflict was overtaken by another one that changed the tables since it began. |
| CreditRuns.BookedOnce | internal/credit/internal/repository/dao/credit.go:106-112 | A key that is booked is never booked again, whatever the transaction had read. |
| CreditRuns.RepeatedLock | internal/credit/internal/repository/dao/credit.go:153-175 | A repeated lock answers with the id of the first one at every later time, also when the credits are gone. |
| CreditRuns.SettledOnce | internal/credit/internal/repository/dao/credit.go:269-277 | A settled lock stays settled: repeating is answered well, the opposite settlement is refused, at every later time. |
| CreditConservation.AccountsAreExact | internal/credit/internal/repository/dao/credit.go:337-345 | In range, available and locked are exactly the sums of the logs, and together what the active logs add up to. |
| CreditConservation.StaysInRange | internal/credit/internal/repository/dao/credit.go:68-212 | Every operation, for every amount, keeps the accounts in range exactly when it is sane: an addition neither overdraws the account nor outgrows 64 bits, a lock is not negative unless it is refused or for the one amount that is its own negation. |
| CreditConservation.RunsStayInRange | internal/credit/internal/repository/dao/credit.go:56-313 | Over every run of overlapping transactions the accounts are in range all the time exactly when each committed operation was sane where it took effect. |
| CreditConservation.Overdrawn | internal/credit/internal/repository/dao/credit.go:82-83 | A negative addition that takes more than there is wraps the account by a whole word and leaves the range. |
| CreditConservation.ThreeLessFive | internal/credit/internal/repository/dao/credit.go:71-83 | One such input: three credits less five are 2^64 - 2. |
| CreditConservation.EveryRunConserves | internal/credit/internal/repository/dao/credit.go:56-313 | After every run of overlapping transactions whose committed operations were sane, each account is exact and not negative. |
| CreditConservation.CancelUndoesLock | internal/credit/internal/repository/dao/credit.go:238-252 | Cancelling a lock restores available and locked credits, for every amount. |
| CreditConservation.SettlingMoves | internal/credit/internal/repository/dao/credit.go:292-296 | Cancelling moves the amount from locked to available; confirming takes it out for good. |
| CreditMeaning.WhatAddDoes | internal/credit/internal/repository/dao/credit.go:68-113 | Adding credits: the amount goes to what is available, one active log says so, nobody else is touched; a booked key changes nothing. |
| CreditMeaning.WhatLockDoes | internal/credit/internal/repository/dao/credit.go:160-212 | Locking credits: the amount goes from available to locked and one locked log says so; without account or credits, or for a booked key, nothing changes and the caller is told. |
| CreditMeaning.WhatSettleDoes | internal/credit/internal/repository/dao/credit.go:254-313 | Confirming makes a lock an active log, cancelling an inactive one; what is not a lock of this user is left alone, and the caller is told. |
| Pages.LastPageIsAll | internal/credit/internal/job/close_timeout_locked_credits.go:65-71 | A page that is not full, or as long as the set, is the whole set: the two ways out of the loop are right. |
| CreditSweep.TransactionsAreOthers | internal/credit/internal/repository/dao/credit.go:56-313 | Every transaction of the ledger that goes on meanwhile is one the sweep allows for. |
| CreditSweep.ExpiredShrinks | internal/credit/internal/job/close_timeout_locked_credits.go:50-53 | With the cutoff fixed in advance, whatever others do, expired locks only go away. |
| CreditSweep.CancelSettles | internal/credit/internal/repository/dao/credit.go:238-290 | On sound books cancelling any log leaves it not expired, and a nil answer means its credits were given back. |
| CreditSweep.CloseTimeoutLockedCreditsJob.CancelPage | internal/credit/internal/job/close_timeout_locked_credits.go:58-63 | The inner loop cancels the locks of the page in order and stops at the first failure. |
| CreditSweep.CloseTimeoutLockedCreditsJob.Run | internal/credit/internal/job/close_timeout_locked_credits.go:48-74 | With limit >= 1 and others at work, the sweep ends; a nil return leaves no expired lock; it read only locks that were expired at the start, each once, and on success has given all of them back. |
| OrderSweep.SettledStays | internal/order/internal/repository/dao/order.go:110-191 | No operation makes a settled order pending again. |
| OrderSweep.OverdueShrinks | internal/order/internal/job/close_timeout_orders_job.go:52-55 | Under every sequence of order operations the overdue orders only go away. |
| OrderSweep.WhatOperationsDo | internal/order/internal/repository/dao/order.go:110-191 | Which operation may give an order which status, from which: it does so exactly then, and changes nothing else of it. |
| OrderSweep.WhatIsCreated | internal/order/internal/repository/dao/order.go:91-108 | Creating adds the order, new, under its id; no other operation adds one and none drops one. |
| OrderSweep.NothingOverdue | internal/order/internal/repository/dao/order.go:167-181 | None overdue means that every new or processing order is newer than the cutoff. |
| OrderSweep.CloseTimeoutOrdersJob.Run | internal/order/internal/job/close_timeout_orders_job.go:50-78 | With limit >= 1 the sweep ends; after a nil return every new or processing order is newer than the cutoff; each order is closed once and was overdue at the start; undisturbed, exactly the old new and processing orders are timed out and every other order is as it was. |
| PaymentSweep.SyncWechatOrderJob.HandlePage | internal/payment/internal/job/sync_wechat_order.go:63-86 | Every payment of the page is handled once, in order: one with a WeChat record is synchronised, any other closed; failures are skipped. |
| PaymentSweep.EndsExactlyWhen | internal/payment/internal/job/sync_wechat_order.go:56-96 | If all payments but the stuck ones leave when they are handled, the job ends for every choice of pages, within as many iterations as payments are open and one, exactly when fewer than a page are stuck or one page holds all that are open. |
| PaymentSweep.StuckForever | internal/payment/internal/job/sync_wechat_order.go:58-94 | Otherwise there is a choice of pages with which it goes on for any number of iterations. |
| PaymentSweep.SyncWechatOrderJob.Run | internal/payment/internal/job/sync_wechat_order.go:52-97 | With others settling payments at any time: the pages read are handled in order; a nil return means every payment that is still open was handled by the last page; while more than a page of payments is stuck the job never ends, whatever happens to the others; if only stuck payments survive their calls, it ends within the bound above. |
| Interview.SharingIsKeptExactlyWhen | internal/interview/internal/service/interview.go:46-67 | An accepted save keeps all sharing exactly when no unshared round that the check does not look at is the last to land on a shared row. |
| InterviewStored.RefusedMeans | internal/interview/internal/service/interview.go:47-63 | What the check refuses: a request of a journey with an id that names a stored, shared round of that journey and user as unshared. |
| Interview.SharingOfKnownIds | internal/interview/internal/service/interview.go:46-67 | For requests whose round ids are those of stored rounds, or none, the same in terms of the request and the table before it: an unshared round that is not checked is the last to aim at a shared row. |
| Interview.NamedRequestsKeepSharing | internal/interview/internal/service/interview.go:48-64 | Requests whose unshared rounds name stored rounds of the journey never revoke sharing, duplicate ids included. |
| Interview.RunsKeepSharing | internal/interview/internal/service/interview.go:46-67 | Over every run of requests in which nothing slips through, no stored round goes from shared to unshared. |
| Interview.NewRoundRevokes | internal/interview/internal/repository/dao/interview.go:128-141 | A round without an id for the number of a shared round is accepted and unshares it. |
| Interview.PutIsWellFormed | internal/interview/internal/repository/dao/interview.go:128-141 | The upsert keeps both indexes of the table and never deletes a round. |
| Interview.LastOneDecides | internal/interview/internal/repository/dao/interview.go:128-141 | Of several rounds of one request that land on a row, the last one decides its sharing. |
| InterviewStored.WhatPutDoes | internal/interview/internal/repository/dao/interview.go:128-141 | One round is written to one row and changes no other: to the row with its id, else to that of its journey and number, else to a new one, which then carries what the round says. |
| InterviewStored.RoundsAreStored | internal/interview/internal/repository/dao/interview.go:128-141 | Every round of a request is stored, unless a later one of it is written over it. |
| InterviewCode.InterviewService.Unshared | internal/interview/internal/service/interview.go:48-53 | The first loop collects exactly the ids sent as unshared. |
| InterviewCode.InterviewService.Revokes | internal/interview/internal/service/interview.go:59-63 | The second loop finds out whether a stored, shared round is among them. |
| InterviewCode.InterviewService.SaveJourney | internal/interview/internal/service/interview.go:46-67 | The request is saved, refused or fails. Saved ones are stored round by round; the others change nothing; refused are only requests that revoke the sharing of a round they name, and such a request is never saved. |
| Orders.GetDomainOrderItems | internal/order/internal/web/handler.go:215-259 | Accepted exactly when every unit is known, of a known product and in stock in the requested quantity; otherwise the first unit that is not decides the error. Item i carries number and quantity of the request and products and price of the catalogue; both totals are, in 64 bits, the sum of catalogue price times requested quantity. |
| Orders.TotalsAre | internal/order/internal/web/handler.go:249-255 | As whole numbers, original and real total of the items are what the catalogue asks for the requested quantities. |
| Orders.CreatePayment | internal/order/internal/web/handler.go:261-292 | A payment is made exactly when all channel numbers are known after their conversion to eight bits and the amounts sum up to the order total in 64 bits; it carries the requested amounts with the converted channels; otherwise which of the two is wrong. |
| Orders.PaymentCoversGoods | internal/order/internal/web/handler.go:195-292 | An accepted payment is for exactly what the catalogue asks for the requested goods if and only if the amounts sent sum up to the same 64-bit word; for a price of 64 bits, if and only if their sum fits too. |
| Orders.WordTooMuch | internal/order/internal/web/handler.go:279-283 | Three amounts that are accepted for every price and sum up to 2^64 more. |
| Orders.StoredSum | internal/payment/internal/repository/dao/payment.go:53-59 | All records are stored exactly when the converted channels differ. Of amounts that are not negative nothing is lost exactly when every item whose channel is taken is for nothing; of positive amounts, exactly when the converted channels differ. |
| Orders.CreditTwice | internal/payment/internal/repository/dao/payment.go:53-59 | Five credits twice, the second time by any number that is 1 on eight bits, are accepted for an order of ten and stored as five. |
| Decimals.FormatReadsBack | internal/pkg/sequencenumber/sequence_number_generator.go:55 | Formatting a 64-bit integer and parsing it gives it back. |
| Decimals.DecimalWidth | internal/pkg/sequencenumber/sequence_number_generator.go:50-56 | k digits are enough exactly for the numbers below ten to the k. |
| SerialNumber.GenerateSucceeds | internal/pkg/sequencenumber/sequence_number_generator.go:50-56 | There are 32 characters exactly when the parts are long enough; a negative remainder may take five characters. |
| SerialNumber.AlwaysLongEnough | internal/pkg/sequencenumber/sequence_number_generator.go:50-56 | With a unique id of 22 characters and an id that is not negative, six digits of time are what it takes. |
| SerialNumber.SerialReadsBack | internal/pkg/sequencenumber/sequence_number_generator.go:50-56 | With thirteen digits of time, parsing characters 0..13 and 13..17 gives back the time and id mod 10000, and fifteen characters of the unique id follow. |
| SerialNumber.SerialsCollide | internal/pkg/sequencenumber/sequence_number_generator.go:50-56 | Two serial numbers are the same exactly when time, id mod 10000 and the kept part of the unique id are. |
| Snowflake.PackOnWords | internal/pkg/snowflake/snowflake.go:14-17 | The shifts and unions on 64-bit words are the arithmetic of the model, and the mask finds the node even behind a time that does not fit. |
| Snowflake.NeverCollide | internal/pkg/snowflake/snowflake.go:40-69 | Ids are equal exactly when application, machine, time and step are; so ids of different applications or machines never collide; AppID reads the application back. |
| Snowflake.IdsNeverRepeat | internal/pkg/snowflake/snowflake.go:62-69 | In every run of requests to all applications in which the clock does not run backwards, no id is issued twice and the ids of an application only grow. |
| Snowflake.IssuesAreOrdered | internal/pkg/snowflake/snowflake.go:62-69 | What one node issues in a run is in order of time and step. |
| Snowflake.NewUIDGenerator | internal/pkg/snowflake/snowflake.go:40-60 | Construction succeeds exactly for machine numbers up to 31 and up to 32 applications, which are then 0 to apps - 1; otherwise which limit was exceeded. |
| Snowflake.UIDGenerator.Generate | internal/pkg/snowflake/snowflake.go:62-69 | An unknown application is rejected; a known one gets the id of its advanced node, which names the application; the other nodes do not move. |

## Left out

- The retry strategy, the Snowflake nodes and the unique-id generator come from libraries that are not part of this model: the strategy says yes maxRetries times and then no; a node counts steps within a millisecond and waits for the next one when 4096 are used up, by a clock that does not run backwards.
- BulkSync.Service.ProcessBatches: assumes batchSize >= 1 and maxRetries >= 1, the values the source is configured with; its loop does not advance for a batch size of zero.
- BulkSync: the server's side is a contract (one outcome per item under the key of the operation, `errors` set whenever an outcome fails, an outcome that is no failure tells the truth); back-off times and JSON are left out, cancellation and encoding errors are arbitrary choices.
- Text and HTML: strings are sequences of runes, so offsets count runes where the source counts bytes; invalid UTF-8 is not modelled there. Bytes are modelled in Utf8Truncate.
- Utf8Truncate.Truncate: the limit is not negative, as in its only call.
- CaseRepository: expiry is an event and unreadable caches are arbitrary choices, but a cache write always succeeds; a write that failed would leave an older entry. The cached number of cases is not modelled.
- CaseRepository.CaseRepo.PubList: offset and limit are not negative and their sum fits 64 bits.
- PermissionSession: the session value is the decoded map; that its JSON form decodes to what was encoded is taken for granted. Two requests of one session at the same time are not modelled.
- CreditRuns: the conditional writes of a transaction take effect together when it commits, which the row locks of the database provide; a transaction reads one earlier state of the tables. A retry loop is a new transaction; each conflict is caused by another commit, but that one transaction gets through in the end is not claimed.
- CreditSweep, OrderSweep, PaymentSweep: a page and the total are read at one moment; which rows a page has is up to the database. Sweeps read from offset zero, as the jobs do.
- PaymentSweep.SyncWechatOrderJob.Run: which payments never leave is a parameter; what closing a payment and asking WeChat do inside is not modelled. The loop is watched for a number of iterations that is a parameter too, since it need not end.
- Interview: journeys are modelled by their ids; who may write to a foreign journey is not checked by the code and not by the model.
- Interview.RunsKeepSharing: assumes for each request that nothing slips through; SharingOfKnownIds gives that condition on the request and the table before the save. Round number 0, which the column default would store as 1, is refused by the handler's validation and not modelled.
- CreditConservation.EveryRunConserves: speaks of runs whose committed operations are sane; RunsStayInRange says that these are exactly the runs that stay in range, and AloneKeepsBooks holds for all.
- Orders: request ids, the steps after payment creation and their compensation are not modelled; descriptions and pictures of goods are dropped.
- Snowflake: `|`, `<<` and masks are arithmetic on whole numbers; PackOnWords, NodeOnWords and TagOnWords show that this is the same on 64-bit words.
- Wiring, routing, logging, metrics, view objects, and the services that only pass data on.
