# Micro Market: a verified model

Micro Market is a small shop of three services. Checkout takes orders, inventory owns the
stock and the catalogue, and the invoice service, written in C, turns published order
messages into invoices. This project models the parts in which the services have to
agree, and proves what holds between them.

## The three cores

**Orders and catalogue (Go).** `Market.dfy` holds the tables and the effect of each
handler on them. `Services.dfy` has the handlers as they are written, on objects whose
tables change step by step. `SerialMarket.dfy` handles requests one at a time, and says
exactly when one succeeds (`SerialMarket.OrderSucceedsExactly`,
`SerialMarket.ChangeSucceedsExactly`) and which service a failed one may have changed
(`SerialMarket.FailureTouchesOnlyTheRemoteSide`). `Effects.dfy` states what each request
does to every row, field and message, without these functions' own terms.
`Protocol.dfy` is the transition system: any number of order requests in flight, split
where the code lets others in (read and admission, commit, reply, remote commit,
publication; the read and the Save of a catalogue update at checkout), RegisterOrder
delivered any number of times at any time, lost replies, failed commits and catalogue
changes in between. `Agreement.dfy`, `Conservation.dfy` and `CatalogueSafety.dfy` prove
what every reachable state keeps. `StaleReads.dfy` says exactly which schedules conserve
the stock, `CatalogueAgreement.dfy` and `Editions.dfy` which ones keep the catalogues equal, and
`Refinement.dfy` shows that a serial run with any faults is one of the runs.

**The invoice wire format (Go to C).** `JsonScanner.dfy` is `get_json_value`.
`JsonText.dfy` defines printed flat objects and, independently of the scanner, what a key
should give; the scanner gives exactly that. `JsonReader.dfy` is a strict reader after
RFC 8259 that is no part of the services, and `PrintedJson.dfy` shows that whatever is
printed means to it what was meant. `InvoicePayload.dfy` prints checkout's
message, `InvoiceParser.dfy` reads it into byte-sized fields, `InvoiceStore.dfy` keeps the
rows and prints them into fixed buffers, and `EndToEnd.dfy` joins the three services.
`Numbers.dfy` has the integer conversions and decimal texts.

**Injected faults (Go).** `Chaos.dfy` is the fault-window state machine.

## What turned out false, and when it holds

- Orders agree on the quantity and the price exactly within the int32 range of the wire,
  and on the user exactly for ids below 2^31 or, as 64-bit numbers, from 2^64 - 2^31 on
  (`Agreement.OrdersAgree`, `SerialMarket.CataloguesCoincide`, `SerialMarket.HugeOrderDisagrees`).
- Stock is conserved, when every order of the product crosses the wire as at least one
  unit, exactly if each commit finds the product live and no other commit of it fell
  between its read and itself (`StaleReads.ConservedIfFresh`); what is oversold stays so
  (`StaleReads.OversoldForGood`). When zero units may cross the wire, as for 2^32 units, two stale
  commits can cancel out (`StaleReads.StaleCommitsCancel`), and the exact condition
  follows what each read has missed (`StaleReads.ConservedExactly`). A quantity that is
  negative as an int32 adds stock (`Conservation.NegativeQuantityRestocks`).
- A product deleted at inventory is sold at checkout exactly if, of checkout's Saves and
  deletions of it, a Save was the last one (`CatalogueSafety.DeletedIsSoldExactly`). That
  happens (`CatalogueSafety.SplitUpdateRevives`), but only if checkout deletes it between
  the read and the Save of an update (`CatalogueSafety.DeletionIsSafe`).
- The catalogues can disagree for good on a product that was updated while an order held
  an older read (`Editions.StaleOrderDisagrees`). One such order does it exactly if some
  field it read is neither skipped by `Updates` nor equal to the new one
  (`Editions.StaleOrderUndoesUpdate`). Over whole runs, when replies arrive, confirmed
  changes commit and editions can be told apart, the catalogues agree exactly if the row
  does not show an old edition by the order of reads and commits (`Editions.AgreeExactly`);
  without the last condition they still agree if no order holds a read when an update
  commits (`CatalogueAgreement.CataloguesAgree`).
- A payload is accepted exactly when no earlier string value equals a searched key or ends
  with a quote followed by it, the low bytes are non-zero, the strings are non-empty and
  every value fits in its local buffer (`InvoiceParser.AcceptsExactly`). The buffers are
  overrun exactly when a value that is reached and found does not fit
  (`InvoiceParser.SafeExactly`), as for a total of ten digits (`InvoiceParser.LargeTotalOverruns`);
  a product called "total" hides a key (`InvoiceParser.ProductNamedTotalIsRejected`).
- Undoing an invoice works exactly up to row id 255 (`InvoiceStore.InvoiceDb.CreateAndUndo`,
  `InvoiceStore.CreateThenDelete`).
- The array buffer is large enough exactly for a non-empty list
  (`InvoiceStore.FitsExactlyWhenNonEmpty`).

## Assumptions

- A transaction commits or rolls back as a whole, and SQLite lets one write transaction
  run at a time; a catalogue transaction at inventory holds that right from its local
  write to its end, across the remote call.
- GORM: `Updates` with a struct skips zero-valued plain fields and writes both non-nil
  pointer fields of a row that is not soft-deleted; `Save` updates such a row and
  otherwise inserts it again; queries by SID skip soft-deleted rows; the unique SID
  index covers them.
- ULIDs are fresh and 26 letters and digits long; checkout's AddNewProduct and
  DeleteProduct act at one moment each, its UpdateProduct does not.
- At the start there are no orders, and every product seeded at inventory is at checkout.
- Each `char` stands for one byte; Go strings are valid UTF-8.
- The caller of `get_json_value` provides the bytes that are written. The C code relies on
  it without a check; the theorems about received invoices have it as a condition.

## Model

| member | source | states |
|---|---|---|
| Chaos.BuildFailSet | common/chaos.go:44-53 | A window gets exactly 2 to 5 distinct fault positions out of 1..20, taken from the drawn permutation |
| Chaos.ChaosState.Next | common/chaos.go:23-42 | One call under the mutex: opens a window after 20 calls with the positions that the draw's permutation gives, fails exactly at those positions, with the status that the draw picks; 404 and 504 are out of its reach |
| Chaos.ChaosStates.MaybeError | common/chaos.go:17-24 | The table of keys changes at the called key only, and a new window there holds the positions drawn in this call |
| Chaos.AfterShape | common/chaos.go:26-32 | Whatever was drawn, the state after 20w + r calls is position r of the window drawn at call 20w |
| Chaos.ResultAt | common/chaos.go:32-35 | A call fails exactly when its position was drawn at the start of its window |
| Chaos.FailuresInWindow | common/chaos.go:26-35 | Failures inside a window are the drawn positions already passed |
| Chaos.FailureBounds | common/chaos.go:26-35 | After N calls on a key the failures number between 2*floor(N/20) and 5*ceil(N/20) |
| Chaos.FailureWithin37 | common/chaos.go:26-35 | Any 37 consecutive calls contain a failure, across window boundaries |
| Chaos.SuccessWithin11 | common/chaos.go:26-35 | Any 11 consecutive calls contain a success, across window boundaries |
| Chaos.QuietSpanIsAttained | common/chaos.go:44-53 | 36 successes in a row are possible, so 37 is best possible |
| Chaos.NoisySpanIsAttained | common/chaos.go:44-53 | 10 failures in a row are possible, so 11 is best possible |
| Chaos.KeysAreIndependent | common/chaos.go:19-35 | In every interleaving a key's state and results are those of its own calls alone with the same draws |
| JsonScanner.StrStr | invoice-service/utils.c:48 | The position returned is that of the first occurrence |
| JsonScanner.SkipSpaces | invoice-service/utils.c:57-60 | Skips white space and stops at the terminator at the latest |
| JsonScanner.FindValue | invoice-service/utils.c:43-72 | The cursor reaches the value behind the first quoted key and its colon, or -1, never passing the terminator |
| JsonScanner.CopyStringValue | invoice-service/utils.c:76-89 | The escape-aware copy loop ends at the next unescaped quote or the terminator, a trailing backslash included, and writes only the value and its terminator |
| JsonScanner.CopyScalarValue | invoice-service/utils.c:90-106 | The scalar loop and the trim leave the trimmed value, and write only the copied bytes and the terminator |
| JsonScanner.TrimBuffer | invoice-service/utils.c:101-105 | The trim loop removes exactly the trailing blanks and touches nothing behind them |
| JsonScanner.GetJsonValue | invoice-service/utils.c:42-109 | For every terminated input all loops end, reads stay at or before the terminator, the result is the extracted value or -1 and the rest of the buffer is unchanged |
| JsonScanner.Written | invoice-service/utils.c:80-100 | At most the remaining input length plus one bytes are written, and at least one more than the value is long |
| JsonScanner.CopiesPrefix | invoice-service/utils.c:80-99 | What is copied is a prefix of the remaining text, escapes included |
| JsonScanner.FirstOccurrence | invoice-service/utils.c:48 | The search finds the first position at which the pattern stands, and none exactly if it stands nowhere |
| JsonScanner.SkipSpaceExactly | invoice-service/utils.c:57-60 | Exactly the leading spaces, tabs, line feeds and carriage returns are skipped |
| JsonScanner.CopyStringExactly | invoice-service/utils.c:76-88 | A string value ends at the first quote with an even number of backslashes before it, or at the end of the text |
| JsonScanner.CopyScalarExactly | invoice-service/utils.c:90-99 | A scalar ends at the first comma, brace, line break or space, or at the end of the text |
| JsonScanner.TrimRightExactly | invoice-service/utils.c:101-105 | Exactly the trailing spaces and tabs are dropped |
| JsonText.NameMatches | invoice-service/utils.c:44-48 | Between two quotes the search finds a quote-free name only if it is the key |
| JsonText.BodyMatches | invoice-service/utils.c:44-48 | At the opening quote of an escaped body the search matches only a body that equals the key |
| JsonText.ScanBody | invoice-service/utils.c:44-54 | Escaped inner quotes make a match only when the body ends with a quote and the key; the closing quote never does |
| JsonText.ScanStringValue | invoice-service/utils.c:44-54 | A whole string value stops the search exactly when it clashes with the key |
| JsonText.ScanField | invoice-service/utils.c:44-54 | Over one printed member: its own key is found, otherwise only a clashing value stops the search |
| JsonText.CopyBody | invoice-service/utils.c:76-88 | The copy loop reads back any well-escaped body (section 7 of RFC 8259) byte for byte |
| JsonText.ReadValue | invoice-service/utils.c:68-106 | Behind the colon the printed value is read back, with or without white space |
| JsonText.ExtractIsLookup | invoice-service/utils.c:42-109 | For every flat object and every key the scanner returns what walking the members gives: the value, or -1 if an earlier value clashes or the key is absent; it writes that value and its terminator |
| JsonText.LookupAt | invoice-service/utils.c:44-66 | A member is found exactly when no earlier string value equals its key or ends with a quote followed by it |
| JsonText.ExtractPastBlanks | invoice-service/utils.c:57-74 | White space before and after the colon does not matter |
| JsonText.ExtractNeedsColon | invoice-service/utils.c:62-66 | A key that is not followed by a colon gives -1 |
| JsonText.CopiedIsWellEscaped | invoice-service/utils.c:76-88 | A body taken from a terminated string is well escaped |
| InvoicePayload.EscapeIsWellEscaped | checkout-service/orders_controller.go:169 | Every string is printed as a well-escaped body |
| InvoicePayload.DecodeOfEscape | checkout-service/orders_controller.go:169 | Decoding a printed body as section 7 of RFC 8259 says gives back the string, whatever it contains |
| InvoicePayload.EscapeByteIsShortest | checkout-service/orders_controller.go:169 | A byte is escaped exactly if it is a quote, a backslash, a control character, an angle bracket or an ampersand, with two characters where the standard has such an escape, else with lower-case hex digits |
| InvoicePayload.EscapeIsIdent | checkout-service/orders_controller.go:169 | Only an identifier itself is printed as that identifier |
| InvoicePayload.EscapeKeepsSuffix | checkout-service/orders_controller.go:169 | Escaping neither creates nor removes an ending of a quote followed by a key |
| InvoicePayload.HidesIsClash | checkout-service/orders_controller.go:155-169 | Whether a value hides a key can be read off the value before escaping |
| InvoicePayload.PayloadIsClean | checkout-service/orders_controller.go:155-169 | Every payload is a flat object with clean keys, well-escaped bodies and plain numbers |
| InvoicePayload.PayloadRoundTrip | checkout-service/orders_controller.go:155-169 | Extracting any member of a published payload gives the decimal text of a number and the escaped body of a string, or -1 exactly when an earlier string hides the key; the bytes written are those of the value and its terminator, or none |
| InvoicePayload.PayloadReads | checkout-service/orders_controller.go:155-169 | A payload is JSON in which a strict reader finds the ten values of the message under their sorted names |
| InvoicePayload.PayloadGives | invoice-service/utils.c:42-109 | Whatever the scanner finds in a payload stands for the message's own value, key by key |
| InvoicePayload.PayloadHasNoNul | checkout-service/orders_controller.go:169-170 | A payload is a C string whatever its values contain |
| Numbers.AtoiOfDec | invoice-service/redis_calls.c:50 | The decimal text of an integer is read back by atoi |
| Numbers.AtoiReads | invoice-service/redis_calls.c:50 | atoi skips white space, reads a sign and the digits and ignores the rest |
| Numbers.ConversionsWrap | checkout-service/orders_controller.go:130-132 | The integer conversions keep the number modulo their width and end in their range |
| Numbers.ByteOfProduct | invoice-service/db.c:66-68 | Narrowing to bytes commutes with multiplication modulo 256 |
| Numbers.ByteOfInt64 | checkout-service/orders_controller.go:121 | A 64-bit wrap of the total leaves its low byte alone |
| InvoiceParser.ParseRedisInvoiceGen | invoice-service/redis_calls.c:47-103 | Return code and struct are those of the nine steps in order, with the field of a rejected number stored and that of a rejected string not |
| InvoiceParser.ReadLocal | invoice-service/redis_calls.c:48-49 | A zeroed local buffer holds the extracted text afterwards, or stays empty |
| InvoiceParser.ReadNumber | invoice-service/redis_calls.c:48-53 | A number is accepted exactly when the low byte of its value is non-zero |
| InvoiceParser.CodeIsFirstRejected | invoice-service/redis_calls.c:51-102 | The return code names the first rejected value, and is 0 when all nine are accepted |
| InvoiceParser.AcceptedSetsAll | invoice-service/redis_calls.c:47-103 | When all values are accepted, all nine fields come from the text and the others are untouched |
| InvoiceParser.CodeMeans | invoice-service/redis_calls.c:47-103 | For every text, the return code by the nine keys in order |
| InvoiceParser.StructMeans | invoice-service/redis_calls.c:47-103 | For every text, each field afterwards: which have been stored and which keep their value after a rejection |
| InvoiceParser.LocalOfPayload | invoice-service/redis_calls.c:48-49 | For a published payload a local buffer is overrun exactly by a value that is found and does not fit; otherwise it holds the value, or nothing if the key is hidden |
| InvoiceParser.SafeExactly | invoice-service/redis_calls.c:47-103 | The parser stays within its local buffers exactly when every value up to the first one it rejects is hidden or fits |
| InvoiceParser.NumberFits | invoice-service/redis_calls.c:48 | A number fits in its 10-byte buffer exactly from -99999999 to 999999999 |
| InvoiceParser.FitsMeans | invoice-service/redis_calls.c:48-96 | A payload fits exactly when its five strings have at most 99 escaped bytes and its four numbers at most nine characters |
| InvoiceParser.HiddenMeans | invoice-service/redis_calls.c:49-97 | No key is hidden exactly when all nine are found |
| InvoiceParser.LargeTotalOverruns | invoice-service/redis_calls.c:96-97 | An order of 10000001 units at 101 each overruns the buffer of its total in a payload whose values are otherwise acceptable |
| InvoiceParser.PayloadFitsBuffers | invoice-service/redis_calls.c:48-91 | A payload with numbers of at most 9 characters and strings of at most 99 escaped bytes overruns no local buffer |
| InvoiceParser.AcceptsExactly | invoice-service/redis_calls.c:47-103 | A payload is accepted without overrunning a buffer exactly when no searched key is hidden, the four low bytes are non-zero, the five strings are non-empty and every value fits |
| InvoiceParser.ProductNamedTotalIsRejected | invoice-service/utils.c:44-48 | A payload whose product is called total is never accepted |
| InvoiceParser.AcceptedInvoice | invoice-service/redis_calls.c:47-103 | The struct filled from an accepted payload holds the low bytes of its numbers, and bodies that decode to its strings; nothing else changes |
| InvoiceParser.ParseMessage | invoice-service/redis_calls.c:123-131 | The same two facts about the parser as it runs: return code 0 exactly under these conditions, and then the struct of the message |
| InvoiceParser.InvoiceArithmetic | invoice-service/db.c:66-68 | An accepted invoice, its values within the buffers, satisfies total = price * quantity modulo 256, and shows the checkout total exactly when that is in 0..255 |
| EndToEnd.AcceptedInvoiceHasOrders | invoice-service/redis_calls.c:123-131 | An invoice accepted from any published message names a committed checkout order and its inventory row, by SIDs that decode to theirs, with the low bytes of the user id, of the sold quantity and of the checkout total |
| EndToEnd.ReceiveInvoice | invoice-service/redis_calls.c:123-131 | The same about the parser as it runs on a message published in any reachable state |
| EndToEnd.StoreInvoice | invoice-service/redis_calls.c:123-137 | Receiving a published message and storing its invoice: the new row has the low byte of the user id and bodies that decode to the order SID and the product SID of the message and of its checkout order |
| EndToEnd.OrderCanGetThrough | checkout-service/orders_controller.go:47-177 | From any start an admitted request can reach a state with its message published, and the invoice service accepts that message exactly under the stated conditions |
| InvoiceStore.FormatIsObject | invoice-service/db.c:115-119 | The hand-written format is the flat object with one space after each separator |
| InvoiceStore.NeverTruncated | invoice-service/db.c:113-121 | An element is never cut off when order and product SIDs have at most 99 bytes |
| InvoiceStore.PrintedModelLookup | invoice-service/db.c:113-121 | Any key read from a printed invoice gives what its fields say |
| InvoiceStore.PrintedModelReads | invoice-service/db.c:113-121 | A printed invoice is JSON in which a strict reader finds its six fields under their names |
| InvoiceStore.ExtractPrintExtract | invoice-service/db.c:113-121 | SID bodies taken from terminated JSON strings, printed raw and extracted again come back byte for byte, unless an earlier SID hides the key |
| InvoiceStore.AcceptedInvoicePrints | invoice-service/db.c:113-121 | The invoice of any accepted message, stored under any id and printed, gives back its own SID and the escaped order and product SIDs of the message |
| InvoiceStore.FitsExactlyWhenNonEmpty | invoice-service/db.c:123-124 | Array text and terminator fit in 1024*count + 2 bytes exactly when count >= 1 |
| InvoiceStore.BoundIsAttained | invoice-service/db.c:124 | For every count >= 1 some invoices fill the buffer to its last byte |
| InvoiceStore.Append | invoice-service/db.c:130-136 | strncat appends at the terminator and stays in the buffer |
| InvoiceStore.JoinElements | invoice-service/db.c:123-138 | The loop leaves the elements it is given in their places in the allocated buffer, with brackets and commas |
| InvoiceStore.JsonInvoiceModels | invoice-service/db.c:123-138 | For at least one invoice the buffer holds the bracket, the text of each invoice in its place with a comma or the closing bracket behind it, and the terminator |
| InvoiceStore.ArrayReads | invoice-service/db.c:123-138 | The array is JSON in which a strict reader finds every invoice, in order, with its six fields |
| InvoiceStore.InvoiceDb.CreateInvoice | invoice-service/db.c:197-235 | Searches for the SID; if it is taken nothing changes, otherwise a row with the struct's own SID, user, order SID, product SID and time is appended under an id above every id ever used, the others stay, and the low byte of the id goes into the struct |
| InvoiceStore.InvoiceDb.DeleteInvoice | invoice-service/db.c:237-250 | Only the row with the given byte-sized id goes; the others stay in their order |
| InvoiceStore.InvoiceDb.CreateAndUndo | invoice-service/redis_calls.c:133-150 | Creating an invoice and deleting it by the id in its struct restores the table exactly when the new row id is at most 255, and otherwise leaves the new row and removes the one with its low byte as id |
| InvoiceStore.HistoryIsConsistent | invoice-service/db.c:143-180 | Over any history row ids are positive, never above the counter, and SIDs are unique |
| InvoiceStore.Replay | invoice-service/db.c:197-250 | The calls of any history, made one after the other, lead to the table that the history stands for |
| InvoiceStore.CreateThenDelete | invoice-service/db.c:197-250 | After any history, creating an invoice and deleting it by its stored id restores the rows exactly when the new row id is at most 255 |
| InvoiceStore.UndoMayHitAnotherRow | invoice-service/db.c:237-250 | For every new row id above 255 the undo keeps the new row and removes exactly the invoice whose row id is the low byte of the new one, if there is one |
| Services.InventoryService.CheckProductAvailability | inventory-service/products_controller.go:234-261 | The reply lets checkout proceed exactly when the live product is in stock for the quantity |
| Services.InventoryService.PlaceNewOrder | inventory-service/orders_controller.go:42-100 | Admission, stock update and order insert, with the stock update undone when the SID is taken |
| Services.CheckoutService.PlaceNewOrder | checkout-service/orders_controller.go:47-177 | Both services' tables and the channel after one request, for every combination of faults |
| Effects.OrderOutcome | checkout-service/orders_controller.go:47-152 | For every world and all faults, when an order succeeds, and the cause behind every error |
| Effects.OrderAtInventory | inventory-service/orders_controller.go:65-95 | What a registered order does to inventory's product row and order table, field by field |
| Effects.OrderAtCheckout | checkout-service/orders_controller.go:116-152 | The row and the result of a successful order, field by field |
| Effects.OrderPublishes | checkout-service/orders_controller.go:154-173 | A successful order publishes exactly one message, unless the publication fails, with these ten values |
| Effects.OrderElsewhere | checkout-service/orders_controller.go:123-152 | What an order leaves alone: everything without registration, checkout and the channel without success |
| Services.InventoryService.CreateProduct | inventory-service/products_controller.go:68-115 | Both catalogues after one request, for every combination of faults |
| Services.InventoryService.UpdateProduct | inventory-service/products_controller.go:124-185 | Both catalogues after one request, for every combination of faults |
| Services.InventoryService.DeleteProduct | inventory-service/products_controller.go:187-226 | Both catalogues after one request, for every combination of faults |
| Effects.ChangeOutcome | inventory-service/products_controller.go:68-226 | For every world and all faults, when a catalogue request succeeds, and the cause behind every error |
| Effects.CreateEffect | inventory-service/products_controller.go:84-108 | The created row and its listing, field by field; the flag is off even without stock |
| Effects.UpdateEffect | inventory-service/products_controller.go:151-177 | The updated row and its listing, field by field, flag included |
| Effects.DeleteEffect | inventory-service/products_controller.go:213-225 | The deleted row and its listing keep their fields and are marked |
| Effects.ChangeElsewhere | inventory-service/products_controller.go:91-225 | Other rows, orders and messages stay; inventory changes only with success, checkout only with delivery |
| Services.CheckoutService.AddNewProduct | checkout-service/products_controller.go:36-66 | Adds the row, or fails and changes nothing when the SID was ever used |
| Services.CheckoutService.UpdateProduct | checkout-service/products_controller.go:68-105 | Rewrites a live row, or fails and changes nothing |
| Services.CheckoutService.DeleteProduct | checkout-service/products_controller.go:107-130 | Marks a live row deleted, or fails and changes nothing |
| Agreement.StepKeeps | checkout-service/orders_controller.go:123-173 | Every step of every request, delivery and catalogue change keeps the agreement invariant |
| Agreement.RunKeeps | checkout-service/orders_controller.go:123-173 | Every run keeps it, whatever is lost, repeated or aborted |
| Agreement.OrdersAgree | checkout-service/orders_controller.go:123-152 | In every reachable state each checkout order has exactly one inventory order with its SID, for the same product, for the same quantity exactly when the quantity is an int32, and for the same user exactly for ids at the ends of the 64-bit range |
| Agreement.SuccessHasBothRows | checkout-service/orders_controller.go:148-176 | A request that returned success has a row in both services |
| Agreement.OrphanIsUnfinished | checkout-service/orders_controller.go:134-152 | An inventory order without a checkout row belongs to a request in flight or aborted after sending RegisterOrder |
| Agreement.PublicationChain | checkout-service/orders_controller.go:154-173 | A published message describes an order committed at both services and the user who placed it, is the only one with its SID, and its total is quantity times price as a Go int |
| Agreement.AtMostOneEffect | inventory-service/orders_controller.go:85-94 | However often RegisterOrder is delivered, a SID changes the stock at most once in a run, and exactly once if its row has appeared; every other change of the stock is a catalogue change |
| Agreement.RepeatedStoreRollsBack | inventory-service/order_model.go:9 | A second transaction with the same SID fails as a whole, its stock update included |
| Conservation.StockNeverInvented | inventory-service/orders_controller.go:57-94 | Over any interleaving without a restock, 0 <= available <= supply and available + sold >= supply |
| Conservation.ApartConservesStock | inventory-service/orders_controller.go:57-94 | When read-to-commit spans of a product do not overlap and it is not deleted within one, available + sold stays equal to supply |
| StaleReads.ConservedExactly | inventory-service/orders_controller.go:57-94 | For every run without a restock and with non-negative int32 quantities, stock is conserved if and only if the schedule of reads and commits leaves the row untainted |
| StaleReads.ConservedIfFresh | inventory-service/orders_controller.go:57-94 | With at least one unit per order: conserved if and only if every commit finds the product live and no other commit fell between its read and itself |
| StaleReads.FreshIsUpToDate | inventory-service/orders_controller.go:72 | That schedule is the same as every commit writing what the stock on hand leaves |
| StaleReads.OversoldForGood | inventory-service/orders_controller.go:57-94 | Once more than the supply is on hand or sold, it stays so in every continuation |
| StaleReads.FreshRunsBalance | inventory-service/orders_controller.go:57-94 | For every run, restocks and any quantities included: if each commit finds the product live and its read not overtaken by a commit or an update, available + sold since the last update equals the supply it brought |
| StaleReads.StaleCommitsCancel | inventory-service/orders_controller.go:72 | With zero units on the wire two stale commits cancel out |
| Conservation.OverlapLosesADecrement | inventory-service/orders_controller.go:72 | Two overlapping orders oversell by exactly the quantity of the first |
| Conservation.NegativeQuantityRestocks | checkout-service/orders_controller.go:132 | An admitted order raises the stock exactly when its int32 quantity is negative, as for 2^31 units |
| Conservation.FlagMatchesQuantity | inventory-service/orders_controller.go:68-75 | In every reachable state a product written by an order or an update is flagged out of stock exactly when nothing is available |
| Conservation.FlagMatchesFromFirstWrite | inventory-service/products_controller.go:155-160 | From the first committed order or update of a product on, whatever follows, it is flagged exactly when nothing is available |
| CatalogueSafety.CheckoutOnlyGrows | checkout-service/products_controller.go:36-130 | No checkout handler makes a SID disappear or, with nothing between its statements, a deleted row live |
| CatalogueSafety.StepKeepsAhead | inventory-service/products_controller.go:91-225 | Every step keeps checkout at or ahead of inventory |
| CatalogueSafety.InventoryImpliesCheckout | inventory-service/products_controller.go:91-111 | Under lost replies, late deliveries, failed commits and split updates, a SID committed at inventory was added at checkout, and one deleted at inventory is not live at checkout unless a Save rewrote its deleted row |
| CatalogueSafety.DeletedForGood | inventory-service/products_controller.go:162-181 | A product deleted at inventory stays deleted in every continuation, although Save would insert it again, unless a Save at checkout rewrote its deleted row |
| CatalogueSafety.DeletedIsSoldExactly | checkout-service/products_controller.go:85-130 | After any run a product deleted at inventory is live at checkout if and only if the last of checkout's Saves and deletions of it was a Save |
| CatalogueSafety.DeletionIsSafe | checkout-service/products_controller.go:85-103 | In every run in which checkout never deletes the product during its own update of it, a product deleted at inventory is deleted at checkout and stays so at both |
| CatalogueSafety.SplitUpdateRevives | checkout-service/products_controller.go:85-103 | From every start with a live product some run, with one lost reply, ends with the product deleted at inventory and sold at checkout |
| CatalogueAgreement.CataloguesAgree | inventory-service/products_controller.go:91-225 | In interleaved runs the catalogues agree on a product, except while checkout has done its half of a change, as long as its replies arrive, confirmed changes commit and no order holds a read of it when an update commits |
| Editions.AgreeExactly | inventory-service/orders_controller.go:57-94 | In every run in which replies arrive, confirmed changes commit and each edition has all its fields and a name of its own, the catalogues agree if and only if, by the order of reads, commits and updates, inventory's row does not show an old edition |
| Editions.StaleOrderUndoesUpdate | inventory-service/orders_controller.go:85-89 | After an order that read before an update and commits after it, the two rows are the same product if and only if each old field is skipped by Updates or equal to the new one |
| Editions.StaleOrderDisagrees | inventory-service/orders_controller.go:57-94 | From every start with a user and a product in stock, for every update that changes a non-empty field, a run without faults ends with catalogues that disagree |
| SerialMarket.FailureChangesNothing | inventory-service/products_controller.go:91-111 | A request that fails by an injected error or a rejection changes nothing in either service |
| Effects.ServeOneMore | checkout-service/orders_controller.go:47-177 | In a serial run each request does to the tables what it does by itself |
| SerialMarket.OrderMirrored | checkout-service/orders_controller.go:116-152 | A successful order extends both order tables by matching rows and keeps the catalogues equal |
| SerialMarket.SerialRunMirrors | inventory-service/products_controller.go:91-225 | In every serial run with injected errors and rejections only, the catalogues stay equal and the order tables agree row by row |
| SerialMarket.CataloguesCoincide | inventory-service/products_controller.go:99-107 | After such a run live SIDs coincide with equal name and currency, and equal price exactly for int32 prices |
| Refinement.OrderIsARun | checkout-service/orders_controller.go:47-177 | The order handler, with any faults, is a run of the interleaved system |
| Refinement.ChangeIsARun | inventory-service/products_controller.go:68-226 | So is each catalogue handler |
| Refinement.SerialRunIsARun | checkout-service/orders_controller.go:47-177 | Every serial run with fresh SIDs and any faults leads to the tables of some interleaved run |
| Refinement.SerialOrdersAgree | checkout-service/orders_controller.go:123-152 | So after a serial run with any faults each checkout order has its inventory order |

## Left out

- HTTP routing, validation, telemetry, gRPC and Redis transport: only the message values and the ways a message can fail are kept.
- Deadlocks and progress: each service holds a write transaction while it calls the other, so whether a request finishes depends on timeouts.
- The exit labels of `invoiceGenCallback` (invoice-service/redis_calls.c:139-150): success falls into the rollback and a PDF failure skips it; the parse, create and delete steps are modelled, the callback is not.
- PDF drawing, `format_time`, timestamps, ULID generation, memory release and SQL texts.
- The order of checkout's rows by database id: products are named by SID, and the numeric ids of the HTTP interface are not modelled.
- A nil `AvailableQuantity`: every handler stores a non-nil value, so it is a plain number here.
- The out-of-stock flag at checkout after orders: orders never send it, so it is not compared.
- Price equality between the services while a product update is in flight, or after a stale order has written an old edition back: it does not hold.
- Seeding, the load generator, the log processor, status-code mapping and the read-only lists.
- Conservation.StockNeverInvented: is about runs without a restock of the product and with non-negative int32 quantities, because a stale order can write back a stock level from before a restock.
- StaleReads.ConservedExactly: has the same two conditions; with restocks, or quantities that are negative as an int32, `StaleReads.FreshRunsBalance` has one direction only, because such orders and updates can make up for a stale commit by chance.
- Editions.AgreeExactly: is about editions that can be told apart, because a stale order can write back fields that happen to be the current ones; `Editions.StaleOrderUndoesUpdate` has no such condition.
- Services.InventoryService.PlaceNewOrder: does not model a 64-bit overflow of the stock subtraction, whose operands are an int32 and a stored stock level.
- JsonScanner.GetJsonValue: takes the value buffer's size as a precondition and the input as an immutable text, because the C function receives bare pointers.
- InvoiceStore.JsonInvoiceModels: asks for at least one invoice and strings without a NUL byte, because for none the terminator would not fit and a C string cannot hold one; it prints the elements before the loop instead of inside it, and leaves the repeated call per element out.
- InvoiceParser.ParseRedisInvoiceGen: has the buffers' being large enough as a precondition, because the C code does not check them and what it does after an overrun is undefined; `InvoiceParser.SafeExactly` says for which payloads it holds. `atoi` beyond the int range is undefined in C and unbounded here; the 10-byte buffers keep it from happening.
- InvoiceParser.ParseMessage: the handling of a message ends with the parser's answer, and `InvoiceStore.InvoiceDb.CreateAndUndo` is about the two database calls alone.
- Refinement.SerialRunIsARun: a SID that an aborted order has used is not offered again, as ULIDs are never reused.
