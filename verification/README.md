# Batched upload, proved

The library collects items on a device - time series, events, files, custom data, data source
configurations - and uploads them in batches. This project models that upload in Dafny, from the linked
list that holds the items to the multipart text that a server takes apart again, together with four
smaller algorithms beside it: base64, HMAC, the correlation id, and the request for signed upload URLs
of the data lake with the matching of its response.

How the parts fit together:

- `LinkedList`, `Store`, `BodyBuilder`, `Processor` and `Device` are the device code as it works, in place
  on list nodes, store items and a body buffer. Each method is proved to do what a specification says.
- `Exchange` is that specification: the exchange of a store as a state machine over its entries, for any
  kind of item and any surroundings (whether a boundary can be generated and memory can be had, what
  each item can be turned into at that moment, how the transport ends). `ExchangeProofs`, `Selection`,
  `ExitStates`, `Progress`, `OneBody` and `Unbuildable` prove what holds of every exchange; `StoreRuns` of every sequence
  of additions and exchanges; `Upload` joins this with the texts of real items and what a server reads.
- `Multipart` is the writer with its space table and its payload callbacks. `Receiver` is a reader for
  multipart bodies written from section 5.1 of RFC 2046, not from the writer; `JsonReader` is one for JSON
  texts written from RFC 8259, not from the printer; `ItemReader` knows the member names of the format and
  finds the item in its trees. Together they say what a server learns from an accepted body.
- `Items`, `Json`, `ItemJson`, `ItemSize`, `ItemTuple` and `ConfigurationParser` are the items, their JSON
  trees, the size prediction that never prints, its exact account against the printed text, and the
  parser of data source configurations.
- `Base64`, `Hmac`, `CorrelationId`, `DataLakeBody`, `DataLakeTree` and `SignedUrls` stand beside the upload.

What turned out differently from what one might expect, each with a lemma:

- The size estimate counts raw string lengths, so it bounds the text exactly if escaping adds no more
  than what optional texts and a short file leave unused (`ItemTuple.EstimateBoundsTuple`). A round delivers
  all that its selected items give exactly if their texts do not exceed their estimates in sum
  (`Progress.RoundDelivers`). If they exceed them by no more than the closing delimiter takes, all of them
  still fit into the buffer, the delimiter does not, and nothing is sent (`OneBody.NothingIsSent`): one item
  that is a single character too long keeps another one in the store over any number of exchanges
  (`Upload.OneEscapeBlocksStore`). If they exceed them by more, an item may find no room and go with a later
  body (`OneBody.TwoBodies`).
- An item that cannot be built harms no other selected item (`Progress.RoundSendsExisting`), but the space
  it was selected for can be what another item needed. If nothing else fails, everything that fits behind
  the older items that cannot be built is delivered, and the exchange ends as a failure exactly if one of them
  is within the limit (`Unbuildable.UnbuildableItemsStay`). In the worst case nothing is sent
  (`Progress.OldestStarvesNext`); in a lucky one, an item slips past that would not have fitted
  (`Unbuildable.YoungerSlipsPast`).
- A file read that comes back empty ends the payload early without an error. A file is delivered in full
  exactly if no read does so before its end (`Upload.PartShows`); otherwise it is accepted and removed with
  a part of its content, or none (`Upload.TruncatedFileLeaves`).
- Boundaries that do not occur in the contents are not enough for a body to be read back: a custom content
  type with a line break in it ends its header line early. A body is read back exactly if no content type
  has one (`Receiver.BodyRoundTrip`, `Upload.TwoLinesAreMisread`).
- The step that adds an event's details overwrites an earlier error, so an event whose type or version is
  missing would still be serialized (`ItemJson.JsonFromEvent`); validation keeps such events out.
- The body of the upload URL request is assembled without escaping, so it is the JSON it stands for exactly
  if nothing in it needs escaping (`DataLakeTree.BodyIsJson`, `DataLakeTree.QuotedPathIsNotJson`).
- Nothing encodes to the empty text, which the decoder does not accept (`Base64.EmptyIsNotAccepted`).

## Model

| member | source | states |
|---|---|---|
| Device.Perform | mcl_connectivity/src/store.c:101-150 | any sequence of additions and exchanges on the heap store ends in the state, and with the accepted texts, that the specification of runs gives |
| Device.PerformExchange | mcl_connectivity/src/connectivity_processor.c:159-250 | an exchange on the heap store is one exchange step of a run |
| Device.PerformAdd | mcl_connectivity/src/store.c:101-150 | an addition on the heap store is one addition step of a run, in which an item enters only if it passes the validation of its kind; its code is the first error |
| StoreRuns.EveryRun | mcl_connectivity/src/store.c:136-146 | after every run: ids were given in order without gaps, the list ascends and never exceeds the last id, all entries are ready, and what was added is, as a multiset, what is stored plus what accepted bodies carried |
| StoreRuns.DeliveredAtMostOnce | mcl_connectivity/src/connectivity_processor.c:957-995 | over a whole run no id occurs at two places of accepted bodies, so a retry never resends an accepted item |
| StoreRuns.StoredOrDelivered | mcl_connectivity/src/connectivity_processor.c:957-995 | an added item is in the store exactly if no accepted body has carried it |
| StoreRuns.AddKeeps | mcl_connectivity/src/store.c:136-146 | an addition, successful or not, keeps the invariant of runs |
| StoreRuns.ExchangeKeeps | mcl_connectivity/src/connectivity_processor.c:159-250 | an exchange with any surroundings keeps the invariant of runs |
| StoreRuns.SameExchange | mcl_connectivity/src/connectivity_processor.c:727-768 | what earlier exchanges left in sizes does not matter: an exchange depends on the stored items alone |
| StoreRuns.StuckForever | mcl_connectivity/src/connectivity_processor.c:159-250 | a store from which none of the following exchanges would send anything stays as it is through all of them |
| Upload.NothingIsLost | mcl_connectivity/src/connectivity_processor.c:821-877 | an added item that is no longer stored can be read by the server, down to its members, from an accepted body, if in the body that carried it the random boundaries do not collide and content types are single lines: in full if its own file reads never came back empty before the end, otherwise with a beginning of its content |
| Upload.ServerReads | mcl_connectivity/src/multipart.c:130-235 | the text of a delivery reads back to exactly its parts in order if and only if all content types are single lines |
| Upload.PartShows | mcl_connectivity/src/connectivity_processor.c:663-695 | who reads multipart, JSON and the member names of the format finds in a part the meta data, the content type and every value of its item; of a file the whole content if and only if no read came back empty before its end, and always a beginning of it |
| Upload.RunShows | mcl_connectivity/src/connectivity_processor.c:663-695 | in every run every accepted part shows the item it stands for, in full for each item that meets this condition itself |
| Upload.TruncatedFileLeaves | mcl_connectivity/src/connectivity_processor.c:628-638 | a file whose first read comes back empty is accepted without any of its content and leaves the store |
| Upload.TwoLinesAreMisread | mcl_connectivity/src/multipart.c:158-220 | a valid item with a line break in its content type is not read back as it was sent, whatever the boundary |
| Upload.WritableItem | mcl_connectivity/src/multipart.c:237-248 | an item keeps its estimate exactly if its escape growth is at most its slack; an escape-free item always does |
| Upload.EverythingWithinLimitIsSent | mcl_connectivity/src/connectivity_processor.c:159-250 | with escape-free items and nothing failing outside, an exchange leaves exactly the items over the limit and its result says whether there are any |
| Upload.SentPastUnbuildable | mcl_connectivity/src/connectivity_processor.c:159-250 | with escape-free items, some of which cannot be built: those stay, what fits behind them is delivered, and the exchange fails exactly if one of them is within the limit |
| Upload.OneEscapeBlocksStore | mcl_connectivity/src/connectivity_processor.c:851-872 | two items, of which one has a quotation mark too much: after any number of exchanges in which nothing else fails both are still stored and nothing was accepted |
| Exchange.RoundRemoves | mcl_connectivity/src/connectivity_processor.c:159-250 | the measure of the loop: a round that ends well removes at least one entry |
| ExchangeProofs.BuildConserves | mcl_connectivity/src/connectivity_processor.c:842-861 | what a body carries plus what stays after its acceptance is what was there, whatever fails to be written |
| ExchangeProofs.BuildAscends | mcl_connectivity/src/connectivity_processor.c:842-861 | body and remaining list are both in store order |
| ExchangeProofs.RoundKeeps | mcl_connectivity/src/connectivity_processor.c:159-250 | every round conserves the items and their order |
| ExchangeProofs.ExchangeConserves | mcl_connectivity/src/connectivity_processor.c:159-250 | every exchange does, for every sequence of server answers and failures |
| Selection.SelectionFits | mcl_connectivity/src/connectivity_processor.c:770-797 | the chosen sizes and the room left make up the room there was |
| Selection.SelectionAt | mcl_connectivity/src/connectivity_processor.c:782-791 | an entry is chosen exactly if it fits into what the entries before it have left |
| Selection.GreedySelection | mcl_connectivity/src/connectivity_processor.c:745-797 | the choice fits, is maximal, never contains an item set aside, and always contains the oldest item that can be sent |
| ExitStates.ExchangeEnds | mcl_connectivity/src/connectivity_processor.c:472-497 | the result of an exchange says exactly what is left: success if and only if the store had items and is empty, the size complaint if and only if exactly the items over the limit are left, everything left is ready, and those items never leave |
| ExitStates.ExchangeCode | mcl_connectivity/src/connectivity_processor.c:230-250 | which code an exchange returns: of a refused body the answer of the server or transport, unchanged; if nothing is left to send, success or the size complaint; otherwise the boundary's own error, no memory, or failure of the body, in this order |
| ExitStates.OversizedIs | mcl_connectivity/src/connectivity_processor.c:727-768 | the items that never leave are exactly those whose estimate leaves no 24 characters for the closing delimiter |
| ExitStates.RoundEnds | mcl_connectivity/src/connectivity_processor.c:472-497 | the same for one round, or that the next round starts with known sizes and something to send |
| ExitStates.AcceptChecks | mcl_connectivity/src/connectivity_processor.c:957-995 | the removal pass reports "fully processed" exactly if only items over the limit are left |
| ExitStates.BuildKeepsOversized | mcl_connectivity/src/connectivity_processor.c:745-753 | items over the limit stay, in order |
| ExitStates.RoundIsSound | mcl_connectivity/src/connectivity_processor.c:821-877 | a body that is sent, accepted or not, is within the limit and holds only items that can be sent, with the texts they had in that round; a round is good exactly if its body was accepted |
| ExitStates.ExchangeIsSound | mcl_connectivity/src/connectivity_processor.c:159-250 | so for every body an exchange sends, round by round; all of them are accepted but possibly the last |
| Progress.RoundsAreBounded | mcl_connectivity/src/connectivity_processor.c:159-250 | accepted bodies are at most as many as items that can be sent |
| Progress.BuildsAll | mcl_connectivity/src/connectivity_processor.c:842-861 | every selected entry becomes processed exactly if all have parts and the body is all of these |
| Progress.RoundDelivers | mcl_connectivity/src/connectivity_processor.c:842-872 | a round in which nothing else fails delivers exactly what can be built of the selected items, if and only if there is something and its length is within the sum of their estimates |
| Progress.RoundDeliversAll | mcl_connectivity/src/connectivity_processor.c:842-872 | it is accepted with every selected item if and only if all can be built and their length is within the sum of their estimates |
| Progress.RoundSendsNothing | mcl_connectivity/src/connectivity_processor.c:864-873 | it fails and keeps everything if nothing can be built, or if the texts exceed the estimates by no more than the closing delimiter takes |
| Progress.RoundSendsExisting | mcl_connectivity/src/connectivity_processor.c:851-872 | if each item cannot be built or keeps its estimate, exactly those that can be built are delivered, unless there are none |
| Progress.OldestStarvesNext | mcl_connectivity/src/connectivity_processor.c:770-797 | an oldest item that cannot be built keeps the next one unsent if its estimate leaves no room for it |
| Progress.HealthyRound | mcl_connectivity/src/connectivity_processor.c:842-872 | when each item keeps its estimate, everything selected is delivered and the closing delimiter fits |
| Progress.HealthyExchange | mcl_connectivity/src/connectivity_processor.c:159-250 | then an exchange sends everything that can be sent |
| Unbuildable.UnbuildableItemsStay | mcl_connectivity/src/connectivity_processor.c:159-250 | with some items that cannot be built, and nothing else failing: the exchange fails if and only if one of them is within the limit, all of them stay, and every other item that fits behind the older ones of them is delivered |
| Unbuildable.YoungerSlipsPast | mcl_connectivity/src/connectivity_processor.c:770-797 | that an item fits behind them is not necessary: one that does not can be delivered while a still older item takes their room |
| Unbuildable.NothingExistsNothingFits | mcl_connectivity/src/connectivity_processor.c:770-797 | when a round finds nothing it can build, no item that is left and can be built fits behind the older ones that cannot |
| OneBody.StoreInOneBody | mcl_connectivity/src/connectivity_processor.c:821-877 | a store that fits into one body by its estimates is emptied by one body if and only if every item can be built and the texts do not exceed the estimates in sum |
| OneBody.NothingIsSent | mcl_connectivity/src/connectivity_processor.c:864-873 | if they exceed that sum by no more than the closing delimiter takes, nothing is sent and everything stays |
| OneBody.TwoBodies | mcl_connectivity/src/connectivity_processor.c:842-872 | beyond that the second of two items finds no room; the first leaves alone, and the second with the next body |
| OneBody.OneItemBlocksOther | mcl_connectivity/src/connectivity_processor.c:851-872 | an item that is longer than estimated, by no more than the closing delimiter takes, keeps another one unsent |
| Processor.ConnectivityExchange | mcl_connectivity/src/connectivity_processor.c:111-254 | the exchange of a store on the heap returns the code, leaves the entries and delivers the texts of the specified exchange |
| Processor.ExchangeItem | mcl_connectivity/src/connectivity_processor.c:120-254 | the exchange of a single item: rejected if it is not valid; its code is the first error of its steps, up to the answer of the transport; the exact conditions of success and of the size complaint, and the text that was sent |
| Processor.SingleCodeIs | mcl_connectivity/src/connectivity_processor.c:120-254 | its code, error by error, with the exact space in which a failed payload shows its own error |
| Processor.Pass | mcl_connectivity/src/connectivity_processor.c:159-250 | one pass of the loop is one specified round |
| Processor.Attempt | mcl_connectivity/src/connectivity_processor.c:161-243 | what an attempt sends, whatever the answer is, is exactly the text of the specified body, and never longer than the limit; it fails with the first error, also that of the random generator |
| Processor.ScanStoreAfterExchange | mcl_connectivity/src/connectivity_processor.c:472-497 | the scan does to the entries what acceptance, or failure, means |
| Processor.CheckStoreSize | mcl_connectivity/src/connectivity_processor.c:727-768 | every entry gets its estimate, exactly those over the limit are set aside, and the code says whether the store is empty or has nothing to send |
| Processor.CheckItem | mcl_connectivity/src/connectivity_processor.c:745-758 | one visit of that pass |
| Processor.PrepareBodyForStore | mcl_connectivity/src/connectivity_processor.c:821-877 | entries and buffer after a round's body is built: which were written, and exactly the text of the delivery, within the limit, or a failure if nothing was written or it cannot be closed |
| Processor.AddAllSelected | mcl_connectivity/src/connectivity_processor.c:842-861 | what the loop over selected items comes to: the specified parts one behind the other, without those that fail |
| Processor.AddEach | mcl_connectivity/src/connectivity_processor.c:842-861 | the loop, with what is written and what remains to be written after each item |
| Processor.AddSelected | mcl_connectivity/src/connectivity_processor.c:851-860 | one item is written behind what is there and marked, or leaves entries, space and text as they were |
| Processor.FinishBody | mcl_connectivity/src/connectivity_processor.c:864-873 | a body is finished exactly if something is in it and the closing delimiter fits |
| Processor.BuildStep | mcl_connectivity/src/connectivity_processor.c:842-861 | one item further: what is done joined with what the specification does to the rest stays the specified result |
| BodyBuilder.PrepareBodyForItem | mcl_connectivity/src/connectivity_processor.c:879-935 | a single item's body is built exactly if it is within the limit, memory and parts are there, and its text does not outgrow its estimate; otherwise the code is the first error that occurs; its text and size are exact |
| BodyBuilder.AddItemToBuffer | mcl_connectivity/src/connectivity_processor.c:663-695 | an item is written exactly if it has a part and the part fits; its code, text, remaining size and everything outside are as specified |
| BodyBuilder.GetSource | mcl_connectivity/src/json.c:326-397 | meta data and payload built by the serializers are the ones specified for the item |
| BodyBuilder.TupleSizeOf | mcl_connectivity/src/multipart.c:237-248 | the size computed by the loops over lists is the specified estimate |
| Store.Store.Add | mcl_connectivity/src/store.c:101-150 | code, new entry with the next id and ready status, and unchanged state on every failure, the first of which is an item that does not pass its validation |
| Items.ValidityIs | mcl_connectivity/src/store.c:107-133 | what validation asks of each kind of item |
| Items.ConfigurationValidityIs | mcl_connectivity/src/data_source_configuration.c:110-152 | and of a configuration |
| Store.Store.SelectItems | mcl_connectivity/src/connectivity_processor.c:770-797 | the pass over the list makes the greedy selection and returns the space it needs |
| Store.Store.NextSelected | mcl_connectivity/src/connectivity_processor.c:799-819 | the next selected item behind the cursor, and the cursor behind it |
| Store.Store.RevertStatus | mcl_connectivity/src/connectivity_processor.c:937-955 | all entries are ready, nothing else changes |
| Store.Store.RemoveUploaded | mcl_connectivity/src/connectivity_processor.c:957-995 | the counted traversal with removal leaves exactly the entries that acceptance leaves, and its verdict is exact |
| Store.Store.Settle | mcl_connectivity/src/connectivity_processor.c:971-990 | one visit of that traversal |
| Store.SelectVisitsEnd | mcl_connectivity/src/connectivity_processor.c:782-791 | visiting all entries one by one is the recursive greedy selection |
| Store.RemoveVisitsEnd | mcl_connectivity/src/connectivity_processor.c:967-991 | as many visits as there were entries leave what acceptance leaves |
| LinkedList.List.Add | mcl_core/src/list.c:34-75 | nodes, pointers, count and cursor after an append; all errors leave the list as it was |
| LinkedList.List.Link | mcl_core/src/list.c:49-65 | the pointers after a node was put behind the last one |
| LinkedList.List.Next | mcl_core/src/list.c:77-115 | the element under the cursor, which moves on, or starts anew at the end |
| LinkedList.List.Remove | mcl_core/src/list.c:117-212 | the sequence without the node, with the cursor kept or slid to the next node, all pointers consistent |
| LinkedList.List.RemoveWithContent | mcl_core/src/list.c:214-237 | the same, handing out the content |
| LinkedList.List.Reset | mcl_core/src/list.c:276-291 | the cursor is at the head |
| LinkedList.SweepVisitsEach | mcl_connectivity/src/connectivity_processor.c:965-991 | a counted traversal that removes visited elements sees every original element once, in order, and keeps exactly the others |
| LinkedList.RemovalKeepsLinks | mcl_core/src/list.c:129-182 | connecting the neighbours of a node makes a linked list of the others |
| Multipart.AddTuple | mcl_connectivity/src/multipart.c:130-235 | the writer succeeds exactly if the source is complete and the tuple fits; then the buffer holds exactly the 19 pieces and the size drops by their length, otherwise the size is unchanged and the code is the error of the first piece that cannot be had, unless the space is used up before it; nothing outside the space changes |
| Multipart.StateFailed | mcl_connectivity/src/multipart.c:150-226 | the error of the state that fails is the one that the source and the space alone determine |
| Multipart.WriteCodeIs | mcl_connectivity/src/multipart.c:130-235 | how writing ends, for every source and every size of the space, in numbers |
| Multipart.WriteNext | mcl_connectivity/src/multipart.c:150-226 | one state of the writer appends its piece, or the tuple cannot fit or be built |
| Multipart.WriteState | mcl_connectivity/src/multipart.c:158-220 | the piece of a state or the exact code of what keeps it from being written, also the JSON library's own |
| Multipart.AddCallbackPayload | mcl_connectivity/src/multipart.c:391-437 | for any pattern of short reads the payload is copied exactly, and it fails exactly if it does not leave space behind it |
| Multipart.AddItemPayload | mcl_connectivity/src/multipart.c:391-437 | payload from JSON or from a callback |
| Multipart.PayloadReader.Read | mcl_connectivity/src/connectivity_processor.c:640-661 | one callback call copies the next bytes and advances by their number |
| Multipart.CloseBody | mcl_connectivity/src/multipart.c:250-271 | the closing delimiter is written exactly if it fits |
| Multipart.PieceSize | mcl_connectivity/src/multipart.c:67-107 | the space table is right for every state |
| Multipart.BaseSizeIsTableSum | mcl_connectivity/src/multipart.c:35-36 | the base size constant is the sum of the table |
| Multipart.TupleSize | mcl_connectivity/src/multipart.c:237-248 | a tuple is as long as the base size and its variable pieces |
| Multipart.DeliveredStep | mcl_connectivity/src/multipart.c:411-424 | one read, seen from the text that all reads deliver |
| Receiver.BodyRoundTrip | mcl_connectivity/src/multipart.c:130-271 | reading a finished body gives exactly its parts, in order, if and only if every content type is a single line |
| Receiver.TupleLayout | mcl_connectivity/src/multipart.c:158-220 | what the 19 states write is a header naming the inner boundary and the two inner parts under it |
| Receiver.PartRoundTrip | mcl_connectivity/src/multipart.c:158-220 | one written item is read back, if and only if its content type is a single line |
| Receiver.SplitAssembled | mcl_connectivity/src/multipart.c:308-329 | splitting at a delimiter undoes joining with it |
| Receiver.TuplesSize | mcl_connectivity/src/multipart.c:237-248 | the length of several tuples |
| ItemTuple.TupleAccount | mcl_connectivity/src/multipart.c:237-248 | exact account: text plus unused slack plus undelivered bytes is estimate plus escape growth |
| ItemTuple.SourceIs | mcl_connectivity/src/multipart.c:331-437 | the errors of boundary, meta data and payload reach the writer unchanged |
| ItemTuple.EstimateBoundsTuple | mcl_connectivity/src/multipart.c:237-248 | the estimate bounds the text if and only if growth is at most slack, and always for escape-free items |
| ItemTuple.EstimateIsExact | mcl_connectivity/src/json.c:429-465 | for escape-free items the estimate is exact if and only if all optional texts are given and the payload is delivered in full |
| ItemTuple.EstimateCanBeTooSmall | mcl_connectivity/src/json.c:1329-1359 | a concrete item whose text is one character longer than its estimate |
| ItemTuple.GrowthIsZero | mcl_connectivity/src/json.c:1280-1359 | escape growth is zero exactly for escape-free items |
| ItemTuple.DeliveredInFull | mcl_connectivity/src/connectivity_processor.c:628-638 | the reads deliver the whole content if and only if none comes back empty before its end |
| ItemSize.GetItemSize | mcl_connectivity/src/json.c:429-465 | the item size accumulated by the size functions is the specified estimate |
| ItemSize.SizeOfTimeseries | mcl_connectivity/src/json.c:1041-1107 | the nested loops over value lists compute the specified size |
| ItemSize.SizeOfConfiguration | mcl_connectivity/src/json.c:1167-1278 | the nested loops over sources and points compute the specified size |
| ItemSize.SizeOfDataSource | mcl_connectivity/src/json.c:1195-1242 | the loop over data points does |
| ItemSize.MetaSize | mcl_connectivity/src/json.c:1280-1359 | printed meta data plus slack is its estimate plus escape growth |
| ItemSize.PayloadSize | mcl_connectivity/src/json.c:1041-1278 | printed payload plus slack is its estimate plus escape growth, for every kind of item |
| ItemSize.ValueListsSize | mcl_connectivity/src/json.c:1041-1107 | by induction over lists of values |
| ItemSize.DataSourcesSize | mcl_connectivity/src/json.c:1167-1278 | by induction over sources and their points |
| ItemSize.EventSize | mcl_connectivity/src/json.c:1109-1165 | the event payload with its optional texts |
| ItemSize.SlackIs | mcl_connectivity/src/json.c:1109-1242 | how many characters the estimate counts without their being printed: 17 for each missing description of a configuration, 19 and 17 for empty event texts |
| ItemSize.BaseSizes1 | mcl_connectivity/src/json.c:28-80 | compile-time constants for meta data and time series are the lengths of the texts they are taken from |
| ItemSize.BaseSizes2 | mcl_connectivity/src/json.c:28-80 | the same for event payloads and files |
| ItemSize.BaseSizes3 | mcl_connectivity/src/json.c:28-80 | the same for custom data and configurations |
| ItemJson.JsonFromItemMeta | mcl_connectivity/src/json.c:326-368 | the meta tree of every valid item, built member by member; while there is memory, this never fails |
| ItemJson.MetaPayload | mcl_connectivity/src/json.c:488-604 | its payload member |
| ItemJson.FileDetails | mcl_connectivity/src/json.c:1380-1409 | details of a file, with the optional type |
| ItemJson.JsonFromItemPayload | mcl_connectivity/src/json.c:370-397 | the payload tree for items with a JSON payload, an error for the others |
| ItemJson.JsonFromEvent | mcl_connectivity/src/json.c:606-693 | the event object, including that the details step overwrites an earlier error |
| ItemJson.EventHead | mcl_connectivity/src/json.c:606-640 | its first members; empty optional texts are left out |
| ItemJson.JsonFromTimeseries | mcl_connectivity/src/json.c:768-835 | the payload array exactly if all mandatory strings are set, otherwise the error |
| ItemJson.JsonFromValueList | mcl_connectivity/src/json.c:1002-1039 | one time stamp with its values |
| ItemJson.JsonFromTimeseriesValue | mcl_connectivity/src/json.c:966-1000 | one value |
| ItemJson.JsonFromConfiguration | mcl_connectivity/src/json.c:723-766 | the configuration tree exactly if it is complete, otherwise the error |
| ItemJson.JsonFromDataSource | mcl_connectivity/src/json.c:903-964 | one data source |
| ItemJson.JsonFromDataPoint | mcl_connectivity/src/json.c:837-901 | one data point |
| ItemJson.DataPointArray | mcl_connectivity/src/json.c:797-835 | the list of points as an array, failing at the first incomplete one |
| ItemReader.PayloadBack | mcl_connectivity/src/json.c:370-397 | the payload tree of every item read by member name gives all values of the item: time series, event or configuration |
| ItemReader.TimeseriesBack | mcl_connectivity/src/json.c:768-1039 | for time series: time stamps, data point ids, values and quality codes, in order |
| ItemReader.EventBack | mcl_connectivity/src/json.c:606-693 | for events: all members, with the severity as a number; empty optional texts are not reported |
| ItemReader.IncompleteEvent | mcl_connectivity/src/json.c:606-693 | what an event without type or version becomes |
| ItemReader.ConfigurationBack | mcl_connectivity/src/json.c:723-964 | for configurations: sources and points with all members |
| ItemReader.MetaBack | mcl_connectivity/src/json.c:326-368 | the meta tree read by member name says what the item is, and has the details of its kind |
| ItemReader.DecimalBack | mcl_connectivity/src/json.c:606-640 | the digits of a severity stand for it |
| Json.PrintSize | mcl_connectivity/src/json.c:1335-1349 | what the source measures by printing a tree and counting is the sum over its members of their lengths, escape growth included |
| JsonReader.PrintedIsRead | mcl_connectivity/src/json.c:355-368 | every printed tree is read back by a reader of RFC 8259: the printer escapes what must be escaped, and different trees never print alike |
| ConfigurationParser.ConfigurationRoundTrip | mcl_connectivity/src/json.c:1588-1624 | parsing the serialized tree of every configuration that can be serialized gives the same configuration back |
| ConfigurationParser.DataSourceRoundTrip | mcl_connectivity/src/json.c:1523-1586 | the same for one source with its optional members and points |
| ConfigurationParser.DataPointRoundTrip | mcl_connectivity/src/json.c:1454-1521 | the same for one point |
| ConfigurationParser.ParseConfiguration | mcl_connectivity/src/json.c:1588-1624 | the parser computes the specified configuration or its first error |
| ConfigurationParser.ParseDataSource | mcl_connectivity/src/json.c:1523-1586 | the same for a source |
| ConfigurationParser.ParseDataPoint | mcl_connectivity/src/json.c:1454-1521 | the same for a point |
| ConfigurationParser.FillDataSources | mcl_connectivity/src/json.c:1411-1452 | the list is filled in order, up to the first element that fails |
| ConfigurationParser.DataPointIs | mcl_connectivity/src/json.c:1454-1521 | for any JSON: the members of a point by name, or the error of the first one that is missing or of the wrong type |
| ConfigurationParser.DataSourceIs | mcl_connectivity/src/json.c:1523-1586 | the same for a source |
| ConfigurationParser.ConfigurationIs | mcl_connectivity/src/json.c:1588-1624 | the same for a configuration |
| ConfigurationParser.DataPointsAre | mcl_connectivity/src/json.c:1411-1452 | a list of points is read in order, up to the first one that cannot be read |
| ConfigurationParser.DataSourcesAre | mcl_connectivity/src/json.c:1411-1452 | the same for sources |
| Base64.RoundTrip | mcl_core/src/base64.c:143-369 | every non-empty byte string is encoded to an accepted text that decodes to it |
| Base64.EncodedSize | mcl_core/src/base64.c:310-319 | the encoded length is four for every started group of three |
| Base64.EncodeCharIs | mcl_core/src/base64.c:33-82 | the two encoding tables are the alphabets of RFC 4648 |
| Base64.GroupIsBigEndian | mcl_core/src/base64.c:334-358 | the characters of a group are the digits to the base of 64 of the number that its bytes are to the base of 256; missing bytes give padding |
| Base64.GroupAt | mcl_core/src/base64.c:325-358 | each group of three bytes stands at its place in the text |
| Base64.EncodedIs | mcl_core/src/base64.c:159-196 | what is accepted: whole groups of letters of the alphabet with at most two padding characters behind them |
| Base64.Canonical | mcl_core/src/base64.c:143-299 | encoding what was decoded gives an accepted text back if and only if its unused bits are zero |
| Base64.EncodeWithTable | mcl_core/src/base64.c:301-369 | the shift-and-mask encoder writes the defined text and a terminator |
| Base64.PutDigits | mcl_core/src/base64.c:334-338 | the four digits of a group, last to first, with padding |
| Base64.DecodeWithTable | mcl_core/src/base64.c:143-241 | given memory, the decoder accepts exactly whole groups of the alphabet with at most two padding characters at the end, and writes exactly their bytes and a terminator |
| Base64.DecodeQuantum | mcl_core/src/base64.c:243-299 | a quantum is decoded exactly if it can be read; only bytes that padding does not stand for are written |
| Base64.CountPadding | mcl_core/src/base64.c:165-182 | the backward scan counts the padding, or reports too much of it |
| Base64.CheckShape | mcl_core/src/base64.c:161-196 | the checks before decoding are exactly well-shapedness |
| Base64.OctetsOfGroup | mcl_core/src/base64.c:252-295 | the shift-and-mask composition of four characters is the group's bytes |
| Base64.DecodeInvertsEncode | mcl_core/src/base64.c:33-82 | the decoding table inverts the encoding table, in both alphabets |
| Base64.EncodeInvertsDecode | mcl_core/src/base64.c:33-82 | and the other way round on all characters it accepts |
| Base64.EmptyIsNotAccepted | mcl_core/src/base64.c:159-162 | nothing encodes to the empty text, which is not accepted |
| Hmac.HmacSha256 | mcl_core/src/hmac.c:20-161 | the result is the one of RFC 2104, section 2, for every key and data over any hash; every error is the first that occurs, and each of the three hashes must have the right length |
| Hmac.HmacByBytes | mcl_core/src/hmac.c:18-161 | the result byte by byte: the key, or its hash, combined with 0x36 in the inner and 0x5C in the outer block |
| Hmac.ErrorsInOrder | mcl_core/src/hmac.c:30-110 | the errors before the first of the two hashes, in their order |
| Hmac.ErrorsOfHashes | mcl_core/src/hmac.c:107-153 | the errors of the two hashes |
| Hmac.FillPad | mcl_core/src/hmac.c:87-104 | a key buffer starts with the zero-padded key combined with the pad |
| Hmac.LongKeyActsAsItsHash | mcl_core/src/hmac.c:42-52 | a key longer than a block and its hash authenticate alike |
| Hmac.TrailingZerosAreIgnored | mcl_core/src/hmac.c:87-104 | zeros at the end of a short key make no difference |
| CorrelationId.ExpandInPlace | mcl_connectivity/src/connectivity_processor.c:609-626 | expanding bytes from the upper half of their own buffer gives their hexadecimal text, for every length |
| CorrelationId.GenerateCorrelationId | mcl_connectivity/src/connectivity_processor.c:609-626 | the id is the text of the random bytes, or their error is passed on |
| CorrelationId.HexRoundTrip | mcl_connectivity/src/connectivity_processor.c:618-622 | the text determines the bytes |
| CorrelationId.HexAt | mcl_connectivity/src/connectivity_processor.c:618-622 | the two digits of each byte stand at its place, upper half first, in lower case |
| DataLakeBody.BodyFromObjects | mcl_data_lake/src/data_lake_json.c:46-154 | for any mix of objects with and without a path and any subtenant the filled text is the specified one, with the terminator right behind it |
| DataLakeBody.BodySizeIsExact | mcl_data_lake/src/data_lake_json.c:328-361 | the computed size is the length of the text that is written |
| DataLakeBody.GetBodySize | mcl_data_lake/src/data_lake_json.c:328-361 | the sizing pass computes that size |
| DataLakeBody.CalculateTotalPathSize | mcl_data_lake/src/data_lake_json.c:244-268 | number and total length of the paths |
| DataLakeBody.AppendElements | mcl_data_lake/src/data_lake_json.c:86-126 | the filling loop writes all elements separated by commas |
| DataLakeTree.BodyIsJson | mcl_data_lake/src/data_lake_json.c:80-150 | the text is the printed JSON it stands for if and only if nothing in it needs escaping |
| DataLakeTree.QuotedPathIsNotJson | mcl_data_lake/src/data_lake_json.c:80-150 | a path with a quotation mark gives a body that is not the JSON it stands for |
| DataLakeTree.RequestIsRead | mcl_data_lake/src/data_lake_json.c:80-150 | if nothing needs escaping, a reader of JSON who knows the member names finds each path behind the client id and a slash, in order, and the subtenant |
| SignedUrls.UrlsAreTakenInOrder | mcl_data_lake/src/data_lake_json.c:270-308 | for each path the objects with it take the URLs offered for it in order, one each, until one of both runs out |
| SignedUrls.CompleteIff | mcl_data_lake/src/data_lake_json.c:310-326 | all objects with a path have a URL if and only if enough are offered for each path |
| SignedUrls.EntryOffers | mcl_data_lake/src/data_lake_json.c:188-229 | an entry with client id, slash and path, and a URL, offers the URL for the path |
| SignedUrls.OtherEntries | mcl_data_lake/src/data_lake_json.c:188-229 | entries whose path is too short, missing or no text, or whose URL is missing or no text |
| SignedUrls.OtherResponses | mcl_data_lake/src/data_lake_json.c:168-186 | responses that are missing, unreadable or without the array |
| SignedUrls.ListedUrlsAreTaken | mcl_data_lake/src/data_lake_json.c:156-242 | with a response that lists paths and URLs, the objects with a path take its URLs in order, and all have one if and only if enough are listed for each path |
| SignedUrls.ClearAndMatch | mcl_data_lake/src/data_lake_processor.c:211-264 | success if and only if the response can be read and offers, or lists, enough URLs for each path, otherwise the first error; whatever the result, each path's objects have taken its URLs in order |
| SignedUrls.MatchSignedUrls | mcl_data_lake/src/data_lake_json.c:156-242 | the objects take what the response offers up to its first unreadable entry, and the code is the first error |
| SignedUrls.MatchEntries | mcl_data_lake/src/data_lake_json.c:188-229 | the loop over the entries |
| SignedUrls.FindMatchingObject | mcl_data_lake/src/data_lake_json.c:270-308 | the first waiting object with the path takes the URL; an entry without a URL changes nothing |
| SignedUrls.CheckSignedUrls | mcl_data_lake/src/data_lake_json.c:310-326 | the check reports exactly whether an object with a path lacks a URL |

## Left out

- Memory: freeing, and which of the many small allocations inside JSON building fails, are not modelled; a
  failed build of meta data or payload is one condition of the surroundings. A member that the JSON library
  drops silently for want of memory is not modelled.
- Store.Store.Add: ids do not wrap around at the width of `mcl_size_t`, and sizes do not overflow, because all numbers are unbounded; the list's own count limit is modelled.
- HTTP, TLS, headers, URLs, status codes: building the request around a body, sending it and evaluating the response are one result per round, any code but the two that only the exchange itself produces.
- JsonReader.PrintedIsRead: the reader takes no insignificant white space, which the printer does not write, and of characters given by four digits only those of ASCII.
- Items are not changed by their owner between being added and being sent, and files not between sizing and
  reading; validity is checked when an item is added.
- Time stamps are checked for their length only; custom data has the size of its buffer.
- The JSON library: trees and a compact printer with its escaping stand for it; details given as JSON text are trees whose printed form is measured.
- ItemJson.JsonFromItemMeta: memory failures of the JSON builder are a condition of the writer's source, so building a tree never fails for want of memory.
- Processor.ExchangeItem: a build without file support, which rejects every file, is not modelled.
- Multipart.AddTuple: a JSON text of meta data or payload is built before the writer starts instead of when its state is reached, because building it has no effect on the buffer.
- Base64.DecodeWithTable: the two 256-entry tables are given by their ranges, and characters are bytes.
- Generating boundaries: any text of the right length and characters, or a failure.
- Hashing, random numbers, signatures, tokens: a hash is any function that may fail, random bytes are an input; tokens only concatenate what base64 gives.
- The data point mapping, onboarding, key rotation, string search, GUID and time formatting, configuration setters, null checks and logging are separate from the upload and not modelled.
