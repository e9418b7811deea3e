# Verified model of the DHCP/RADIUS server

The repository is a RADIUS server that answers DHCP servers: it looks clients up in an in-memory
database of binds, asks a Lua script or an HTTP backend for an address, and comes with tools that
replay and measure traffic. This project models its stateful and byte-level parts in Dafny and
proves what they promise. Check everything with `dafny verify dfyconfig.toml`.

| module | file | part of the program |
|---|---|---|
| Prelude, Text, Radius | Prelude.dfy, Text.dfy, Radius.dfy | filters and bytes; decimal numbers, trimming and splitting as the Go library does them; RADIUS packets on the wire |
| MacAddr | MacAddr.dfy | the one MAC format that all keys use |
| BindIndexes | BindIndex.dfy | a bind source: the table by id and four secondary indexes, updated in place |
| ClientDb | ClientDb.dfy | lines, live events and lookup keys of the client database |
| ReloadProtocol | ReloadProtocol.dfy | reloads against live events, coarse steps |
| FineReload, FineContents, FineRefinement | FineReload.dfy, FineContents.dfy, FineRefinement.dfy | the same with steps split where the locks are released, what the store then holds, and how the two relate |
| Stores | Store.dfy | the store object: snapshot, queue, lookups |
| LiveStore | LiveStore.dfy | the same object under use by many goroutines, its operations cut where the locks are released |
| InFlight | InFlight.dfy | the 256-slot in-flight table of radbench |
| Capture | Capture.dfy | pcap files, VLAN tags, IPv4 and UDP |
| PairMatching | PairMatching.dfy | requests and responses of a capture |
| LuaJson, JsonDecode | LuaJson.dfy, JsonDecode.dfy | Lua tables to JSON and back |
| VendorAttributes, PacketDump | VendorAttributes.dfy, PacketDump.dfy | vendor-specific attributes (section 5.26 of RFC 2865) and their dump |
| ReplyMessage | ReplyMessage.dfy | the Reply-Message text, printed in Lua and parsed in Go |
| AuthSources, AnswerCache | AuthSources.dfy, AnswerCache.dfy | source selection with quarantine, and the answer cache |

## Steps

Each theorem about interleavings says what one step is.

* `ReloadProtocol` and the methods of `Stores.Store` take `ApplyBindEvent` as one step and the end of
  a reload (drain and replay) as another. Here nothing is lost and the order of arrival is kept.
* `FineReload` splits the steps where the program releases `pendingMu` (clientdb/store.go:128,
  clientdb/live.go:132) and between looking up the snapshot and patching it. Here every event is
  still in exactly one place, but a later event can overtake an earlier one, or an earlier one can
  land on a snapshot that was requested after it. `FineContents` says, for every run, what the store
  holds: the last load with the events that took effect on it; and when exactly these are the ones
  since the reload began, in order. `FineRefinement` builds a run for each of the two mishaps, and
  maps the runs without them to coarse runs.
  `LiveStore.Live` performs these steps on the real maps; an index that a goroutine looked up before a
  reload stays an object that it can still patch.
* `InFlight` takes each section under the connection's lock as one step; timers that have gone off
  but wait for the lock, and writes that have not returned, are part of the state.
* `AuthSources` takes each locked section as one step, so any number of posts may be under way.
* `AnswerCache` takes each cache access as one step; an eviction may come at any moment.

## Where the code and its documentation part

* clientdb/store.go:121 promises the order of arrival for events queued during a reload; with the
  steps that the locks allow it fails (`FineRefinement.OvertakenReplay`). The order of processing is that
  of arrival exactly when no direct event is applied while a replay is unfinished
  (`FineReload.ArrivalOrderIff`); the events in effect on the current snapshot are those since its reload
  began, in order, exactly when none applied to it is older than that or overtakes a replay
  (`FineContents.EffectsInOrderIff`).
* tools/pcapreplay/pcap.go:113 speaks of up to two VLAN tags; the loop takes off any number of 0x88a8
  tags (`Capture.TaggedDecodesLikePlain`, `Capture.StrippableExamples`).
* tools/pcapreplay/pcap.go:34-37 promises that damaged packets are skipped; an IPv4 total length below
  the header length makes line 163 panic (`Capture.ReadPanicsIff`), and a file cut inside a record is
  an error as a whole (`Capture.ReadCut`).
* macaddr/macaddr.go:1-2 speaks of one format; 17 bare hex digits are returned as they are
  (`MacAddr.RemoteIDColonMacIff`).
* `AddVendor` accepts an empty value but no reader ever finds it (`VendorAttributes.HeldOfOne`).

## Model

| member | source | states |
|---|---|---|
| Text.AtoiItoa | clientdb/store.go:266-269 | a decimal port text reads back as its number, over the whole 64-bit range |
| Text.ItoaInjective | clientdb/bindindex.go:41-43 | different ports print differently, so port texts can serve as keys |
| Text.AtoiIff | clientdb/store.go:233 | which texts read as a number, and as which: digits with a sign or not that stand for an integer of 64 bits; any other text reads as 0, or as the nearest limit if its digits are too many |
| Text.TrimIs | clientdb/store.go:192 | trimming keeps the middle of a text: nothing but spaces goes, and no space stays at either end |
| Text.SplitJoin | tools/pcapreplay/replymessage.go:28 | splitting undoes joining where no field holds the separator |
| Text.JoinSplit | clientdb/store.go:192 | joining undoes splitting, for every text |
| Text.SplitFields | clientdb/store.go:192 | no field of a split line holds the separator |
| Text.JoinInjective | clientdb/bindindex.go:42-43 | two parts joined by a separator that the first cannot hold can be told apart again |
| MacAddr.Normalize | macaddr/macaddr.go:12-33 | both loops build the canonical form: the upper-cased hex digits, with colons if there are twelve |
| MacAddr.CanonicalText | macaddr/macaddr.go:10-33 | a text normalizes to its hex digits of either case in upper case, in their order and whatever lies between them: twelve in pairs with colons, any other number bare |
| MacAddr.CanonicalIdempotent | macaddr/macaddr.go:10-33 | normalizing twice is normalizing once |
| MacAddr.AlikeIffSameDigits | macaddr/macaddr.go:12-33 | two inputs normalize alike exactly when their upper-cased hex digits are the same |
| MacAddr.CanonicalAlphabet | macaddr/macaddr.go:15-32 | a normal MAC holds hex digits and colons only, so neither `\|` nor `;` |
| MacAddr.RemoteIDFormsAgree | macaddr/macaddr.go:35-51 | the 6-byte, 8-byte, 18-byte and ASCII forms of one MAC give the same colon MAC |
| MacAddr.RawDigits | macaddr/macaddr.go:45-48 | byte i of a raw MAC becomes its two upper-case digits, the high one first, and a colon |
| MacAddr.RemoteIDEmptyIff | macaddr/macaddr.go:39-51 | nothing comes of any other length, nor of a text that is neither a colon MAC nor bare digits |
| MacAddr.RemoteIDNormal | macaddr/macaddr.go:39-51 | every result is a fixed point of normalization |
| MacAddr.RemoteIDColonMacIff | macaddr/macaddr.go:39-51 | the result is empty or a colon MAC exactly unless the input is 17 bare hex digits |
| MacAddr.RemoteIDTextAccepted | macaddr/macaddr.go:41-44 | which 17-byte texts are accepted, both ways |
| BindIndexes.AppendedAgrees | clientdb/bindindex.go:51-53 | appending a bind under its key keeps an index equal to the scan of the live binds, under every key |
| BindIndexes.DeletedAgrees | clientdb/bindindex.go:64-70 | deleting an id under the old bind's key does too, and leaves no empty list |
| BindIndexes.DescribeAfterPut | clientdb/bindindex.go:46-55 | all five maps describe one list of binds after an insertion |
| BindIndexes.DescribeAfterRemove | clientdb/bindindex.go:57-72 | and after a removal |
| BindIndexes.BindIndex.constructor | clientdb/bindindex.go:21-29 | a new index is valid and empty |
| BindIndexes.BindIndex.AppendEachKey | clientdb/bindindex.go:31-44 | which of the four indexes gain the bind, and under which key |
| BindIndexes.BindIndex.DeleteEachKey | clientdb/bindindex.go:31-44 | which of the four indexes lose it |
| BindIndexes.BindIndex.Put | clientdb/bindindex.go:48-55 | the live list loses the id and gains the bind at its end, every map still describes it, and the result says whether the id existed |
| BindIndexes.BindIndex.Remove | clientdb/bindindex.go:58-72 | the live list loses exactly this id, in all maps |
| BindIndexes.BindIndex.Count | clientdb/bindindex.go:74-78 | the size of the table by id is the number of live binds |
| BindIndexes.LastOpDecides | clientdb/bindindex.go:46-72 | after any sequence of puts and removes the live binds are those whose last operation is a put, in the order of those puts |
| ClientDb.IPRoundTrip | clientdb/store.go:307-315 | an address is read back from its decimal number |
| ClientDb.IPIff | clientdb/store.go:307-315 | an address is read from exactly the decimal numbers of 32 bits, and is their four bytes |
| ClientDb.BindLine | clientdb/store.go:221-235 | which lines are binds, and which field becomes what, for any fields joined with `;` and with spaces around them or not |
| ClientDb.DeviceLine | clientdb/store.go:192-204 | the same for devices |
| ClientDb.LastLineWins | clientdb/store.go:209-238 | what is loaded is exactly the last line of each id, in the order of those lines |
| ClientDb.LoadedNormal | clientdb/store.go:218-237 | every bind ever loaded has normal MACs, an id and a port that fits |
| ClientDb.AcceptedNormal | clientdb/live.go:155-172 | so has every bind that a live event stores |
| ClientDb.JudgeFits | clientdb/live.go:136-180 | which events are refused and why, and what the others put or remove, in terms of action, id, hex digits of the MAC and the number of the address |
| ClientDb.EventIsDone | clientdb/live.go:136-180 | on the binds of all sources: "add" and "update" leave one bind of the id, at the end, as the record describes it, "delete" leaves none, all other binds stay in their order; a refused event changes nothing |
| ClientDb.LineAgreesWithEvent | clientdb/live.go:136-180 | a line and its "add" event have the same effect exactly when the record has a readable address and no port without a device |
| ClientDb.LoadIsReplayOfAdds | clientdb/store.go:209-238 | loading any such lines is replaying their "add" events on an empty source |
| ClientDb.PortTextFacts | clientdb/store.go:266-269 | the port text of a query equals that of a bind exactly when it reads as that number |
| ClientDb.KeyIffWanted | clientdb/store.go:264-283 | a bind is filed under the looked-up key exactly when the query wants it |
| ClientDb.LookupIsScan | clientdb/store.go:259-292 | the list under the looked-up key is the linear scan, for every query |
| ClientDb.ScanFinds | clientdb/store.go:256-292 | the scan finds exactly the binds that answer the query, in their order: a MAC counts if it has a hex digit, a port if there is a device |
| ReloadProtocol.BalanceStep | clientdb/store.go:115-134 | one step of any kind keeps contents and queue equal to a load and the events since its reload began |
| ReloadProtocol.Balance | clientdb/store.go:115-167 | so does every run |
| ReloadProtocol.NothingLost | clientdb/store.go:115-167 | contents followed by the queue are the last published load followed by exactly the events since that reload began, in order; coarse steps |
| ReloadProtocol.NothingLostSinceStart | clientdb/live.go:123-134 | the same before the first publication |
| ReloadProtocol.EveryPublishHasBegin | clientdb/store.go:136-156 | every publication belongs to a reload, its load has exactly the configured sources and none empty |
| ReloadProtocol.EventsApply | clientdb/live.go:125-134 | events are queued in order during a reload and applied in order outside one |
| ReloadProtocol.FailedReloadInvisible | clientdb/store.go:121-142 | a reload that fails leaves what its events alone would have left |
| FineReload.StepConserves | clientdb/store.go:118-134 | no fine step drops or duplicates an event, and the queue is empty unless a reload runs |
| FineReload.EveryEventInOnePlace | clientdb/live.go:125-134 | in every fine run each accepted event is queued, drained, held by one goroutine or processed, exactly once |
| FineReload.OrderSoFar | clientdb/store.go:128-133 | up to any point of a fine run the order holds if nothing overtook, and is lost for good if something did |
| FineReload.ArrivalOrderIff | clientdb/store.go:121-134 | at rest, events were processed in the order of arrival if and only if no direct event was applied during an unfinished replay |
| FineContents.ContentsAreEffects | clientdb/live.go:136-172 | in every fine run, with any number of goroutines, the contents are the last published load with exactly the events that took effect on that snapshot, in the order of their effects |
| FineContents.StepInLine | clientdb/store.go:128-133 | a step that disturbs nothing keeps all newer tickets in line: in effect, to be replayed, held, queued |
| FineContents.DisturbedSpoils | clientdb/store.go:128-133 | a step that applies an older event, or one ahead of a replay, breaks the line |
| FineContents.EffectsInOrderIff | clientdb/store.go:115-134 | at rest, after a last publication, the events in effect are those accepted since its reload began, in order, if and only if no later step disturbed them; then the contents are that load with exactly these events |
| FineContents.EveryRunCovered | clientdb/store.go:115-156 | a run has no publication, or a last one by a reload that began before it: one of the two neighbouring rows applies |
| FineContents.EffectsInOrderIffSinceStart | clientdb/live.go:123-137 | the same before any reload has published, for all events |
| FineRefinement.StepStandsFor | clientdb/live.go:125-171 | a guarded fine step is a coarse step or none |
| FineRefinement.GuardedRunRefines | clientdb/store.go:115-134 | so a guarded fine run is a legal coarse run |
| FineRefinement.GuardedNothingLost | clientdb/store.go:115-134 | at rest such a run holds the last load and exactly the events since its reload began, as a case of `FineContents.EffectsInOrderIff` |
| FineRefinement.OvertakenReplay | clientdb/store.go:128-133 | builds a run, with one subscriber, in which an add is overtaken by its delete and stays |
| FineRefinement.LeftBehindEvent | clientdb/live.go:132-137 | builds a run, with one subscriber, in which an old delete hits a newer load |
| Stores.LoadDevices | clientdb/store.go:181-207 | the loop keeps the last device of each normal MAC |
| Stores.LastDeviceWins | clientdb/store.go:189-206 | a device is found under a MAC exactly if a line has it, and is that of the last such line |
| Stores.LoadableIff | clientdb/store.go:136-154 | a load goes through exactly if the devices and every source answered with at least one usable line each |
| Stores.PutLine | clientdb/store.go:220-236 | what the loop of loadBinds does with one line |
| Stores.LoadBinds | clientdb/store.go:209-238 | the loop gives a valid index that holds what the lines say |
| Stores.LoadAll | clientdb/store.go:136-154 | a load succeeds exactly when every source answered and none is empty, and holds each source's lines |
| Stores.Store.constructor | clientdb/store.go:53-68 | a store starts on its first snapshot with an empty queue |
| Stores.Decide | clientdb/live.go:136-180 | the branches of applyBindEvent: which error, or which put or remove, as `ClientDb.JudgeFits` says |
| Stores.Store.PatchIndex | clientdb/live.go:147-172 | a patch of an index looked up before changes its source by one step if it is still current, and nothing visible otherwise |
| Stores.Store.Patch | clientdb/live.go:147-172 | on the current index it changes one source by one step and no other |
| Stores.Store.StoreSnapshot | clientdb/store.go:156 | the swap of the snapshot |
| Stores.Store.ApplyNow | clientdb/live.go:136-180 | an event does to the sources what `ClientDb.EventIsDone` says, with its error |
| Stores.Store.ApplyBindEvent | clientdb/live.go:123-134 | the event step of the coarse protocol: queued during a reload, and otherwise done at once, with its error |
| Stores.Store.BeginReload | clientdb/store.go:118-120 | its begin step |
| Stores.Store.LoadAndPublish | clientdb/store.go:136-156 | its publish step exactly when the load is complete; otherwise nothing changes |
| Stores.Store.Replay | clientdb/store.go:129-133 | the queue is applied in order |
| Stores.Store.FinishReload | clientdb/store.go:121-134 | its finish step |
| Stores.Store.GetDeviceByMac | clientdb/store.go:251-254 | the device under the normal MAC |
| Stores.Store.FindBinds | clientdb/store.go:256-292 | exactly the binds of the source that answer the query, in the order of their last put |
| Stores.Store.GetBindByID | clientdb/store.go:294-305 | the live bind with this id, if any |
| LiveStore.PatchLogged | clientdb/live.go:136-172 | the index that a goroutine holds is the one of its event's source, or none any more; its patch shows only in the first case |
| LiveStore.PublishLogged | clientdb/store.go:156 | after a publication all indexes looked up before are outdated |
| LiveStore.Live.constructor | clientdb/store.go:70-92 | the record of a new store is the start of a fine run |
| LiveStore.Live.Accept | clientdb/live.go:125-132 | ApplyBindEvent up to its unlock is the accept step |
| LiveStore.Live.LookUp | clientdb/live.go:137 | the lookup is the look step, and the object found is kept |
| LiveStore.Live.Apply | clientdb/live.go:141-180 | the rest of applyBindEvent, on the object looked up then, is the apply step, with its error: on a current index the event is done, on any other the contents stay |
| LiveStore.Live.BeginReload | clientdb/store.go:118-120 | the begin step |
| LiveStore.Live.PublishSnapshot | clientdb/store.go:156 | the publish step |
| LiveStore.Live.LoadAndPublish | clientdb/store.go:136-156 | that step exactly when the load is complete; otherwise nothing changes |
| LiveStore.Live.DrainQueue | clientdb/store.go:124-128 | the drain step |
| LiveStore.Live.ReplayOne | clientdb/store.go:129-133 | one turn of the replay loop is the replay step |
| Stores.New | clientdb/store.go:70-109 | there is a store exactly when the devices URL is set, the first load is complete and the subscription, if any, succeeds |
| InFlight.FirstFreeIsFirst | tools/radbench/main.go:112-121 | the identifier chosen is the first free one in cyclic byte order |
| InFlight.NoneFreeIffAllTaken | tools/radbench/main.go:112-121 | none is found exactly when all 256 are taken |
| InFlight.StepBalanced | tools/radbench/main.go:78-177 | every step keeps claims = released + occupied, and the counters in step with the releases |
| InFlight.StepSound | tools/radbench/main.go:78-177 | every step keeps each slot's occupant unreleased, in the slot it claimed, with a timer to come |
| InFlight.RunSound | tools/radbench/main.go:78-177 | so does every interleaving |
| InFlight.RunKeeps | tools/radbench/main.go:98-174 | in every interleaving no flight is forgotten: it is in its slot or has been released |
| InFlight.EveryFlightAccounted | tools/radbench/main.go:98-174 | each flight is either in its slot or released exactly once, and claims = answered + timed out + cleared + occupied |
| InFlight.OnlyOwnRelease | tools/radbench/main.go:101-104 | an occupant leaves its slot only by its own release: no old timer, reply or failure frees a new occupant |
| InFlight.EveryReleaseFrees | tools/radbench/main.go:98-174 | and by every one: in every run a failed write of the occupant, its timer's callback or an authentic reply under its identifier frees the slot with just this release, and leaves it no timer |
| InFlight.OthersFreeNothing | tools/radbench/main.go:98-174 | no other event but a send touches the table, the releases or a set timer |
| InFlight.ArmedHolds | tools/radbench/main.go:92-103 | a timer that is set belongs to a flight in its slot |
| InFlight.ErrorsCounted | tools/radbench/main.go:86-163 | the two error counters count exactly the failed encodings and writes, and the short or wrong responses |
| InFlight.NoTimerNoFlight | tools/radbench/main.go:123-133 | once no timer is left, every flight is released |
| InFlight.SendClaims | tools/radbench/main.go:78-96 | a send is refused exactly when the table is full, and otherwise claims the first free slot and sets its timer |
| InFlight.SendErrIsNotARelease | tools/radbench/main.go:99-107 | a legal run in which sendErr counts a flight that was answered |
| InFlight.Conn.constructor | tools/radbench/main.go:67-76 | a new connection has an empty table |
| InFlight.Conn.FreeID | tools/radbench/main.go:112-121 | the loop finds the first free identifier and leaves nextID behind it |
| InFlight.Conn.Send | tools/radbench/main.go:78-98 | the send step on the array |
| InFlight.Conn.WriteReturned | tools/radbench/main.go:99-109 | the step of a returned write |
| InFlight.Conn.Expire | tools/radbench/main.go:123-133 | the step of a timer |
| InFlight.Conn.Read | tools/radbench/main.go:135-177 | the step of a datagram |
| Radius.ParseIff | third_party/layeh-radius/packet.go:46-69 | a packet is read exactly if its length is what it says, from 20 to 4095 bytes, and attributes fill it; code and identifier are its first two bytes |
| Radius.ParsedValues | third_party/layeh-radius/attributes.go:20-48 | each type gets its values on the wire, in their order |
| Radius.OfTypePositions | third_party/layeh-radius/attributes.go:40-43 | these are the values at exactly the positions of that type |
| PairMatching.SeenKeeps | tools/pcapreplay/main.go:118-137 | each datagram keeps the pairs first-in first-out and the queues equal to the unused requests |
| PairMatching.RunIsFifo | tools/pcapreplay/main.go:110-137 | so does every trace: pairs share a key, requests come first, none is used twice, per-key order is kept, none is passed over or left out |
| PairMatching.FifoUnique | tools/pcapreplay/main.go:110-137 | there is only one such matching |
| PairMatching.MatchesIffFifo | tools/pcapreplay/main.go:110-137 | so the matcher and the description agree in both directions |
| PairMatching.PairedIffOldest | tools/pcapreplay/main.go:110-137 | over datagrams: a request and a reply are paired exactly if the request is the oldest unused one that the reply mirrors, in addresses, client port and identifier |
| PairMatching.FifoIsMatched | tools/pcapreplay/main.go:110-143 | so the matching is fixed by the datagrams, and so is the number of requests left over |
| PairMatching.RequestsConserved | tools/pcapreplay/main.go:139-143 | requests = pairs + unmatched requests |
| PairMatching.MatchPairs | tools/pcapreplay/main.go:114-144 | the loop returns the attributes and replies of that matching, and the number of requests left over |
| PairMatching.CountWaiting | tools/pcapreplay/main.go:139-142 | the queue lengths add up to the unused requests in any map order |
| Capture.StripStaysInside | tools/pcapreplay/pcap.go:112-120 | the VLAN loop never runs past the frame |
| Capture.DecodeUDP | tools/pcapreplay/pcap.go:105-139 | the method with its loop decodes as specified, on every input, and terminates |
| Capture.ReadUDPPackets | tools/pcapreplay/pcap.go:38-101 | the reading loop computes the file's packets, on every input |
| Capture.MagicIsNumber | tools/pcapreplay/pcap.go:50-58 | the magic is one number, written in the byte order of the file |
| Capture.NoCapture | tools/pcapreplay/pcap.go:45-63 | without it, or with less than a global header, reading is an error |
| Capture.DecodeCutPacket | tools/pcapreplay/pcap.go:141-185 | a packet cut anywhere gives the payload as far as it was captured, or the reason it is skipped, whatever options, padding and other header fields it has |
| Capture.StripFrom | tools/pcapreplay/pcap.go:113-123 | the loop ends behind the tags, or before the first tag it does not take off |
| Capture.TaggedDecodesLikePlain | tools/pcapreplay/pcap.go:107-124 | a tagged frame decodes like the plain one exactly when every 0x8100 tag is among the first two |
| Capture.StrippableExamples | tools/pcapreplay/pcap.go:113-114 | three 0x88a8 tags come off, three 0x8100 tags do not |
| Capture.ReadWritten | tools/pcapreplay/pcap.go:66-100 | a well-framed file is read record by record, whatever the frames hold, and panics exactly when a frame does |
| Capture.ReadCut | tools/pcapreplay/pcap.go:69-83 | a file cut inside a record is an error, unless an earlier frame panics |
| Capture.CaptureRoundTrip | tools/pcapreplay/pcap_test.go:15-69 | reading a written capture gives back exactly the datagrams from or to the port, in order and unchanged, with their times in nanoseconds, for both byte orders, all three link types and frames of any shape |
| Capture.ReadPanicsIff | tools/pcapreplay/pcap.go:105-163 | for every link type, reading panics exactly when some frame carries a UDP packet whose total length is below its header length |
| Capture.TotalTooShortExample | tools/pcapreplay/pcap.go:163 | an Ethernet frame that does |
| LuaJson.AllIndexesIffArray | script/json.go:79-98 | the flag computed key by key says exactly that the key set is {1..n} with n > 0 |
| LuaJson.ToJSONValue | script/json.go:52-69 | encodes as specified and terminates on every heap, cyclic ones included |
| LuaJson.VisitCell | script/json.go:81-99 | what one callback writes into the array, the object and the flag |
| LuaJson.TableToJSONValue | script/json.go:71-108 | the loop gives the array with each element in its own cell, or the object, or the first error, in any iteration order |
| LuaJson.TableEncodes | script/json.go:71-108 | a table with exactly the keys 1..n becomes the array of its cells, any other the object with a field for the text of each key, string or number; of keys with one text the last visited counts |
| LuaJson.RejectedIff | script/json.go:52-92 | nothing is rejected but functions and the like, tables inside 64 others, and tables with a key that is no string or number or with a rejected value |
| LuaJson.CyclesRejected | script/json.go:12-13 | a table that contains itself, at whatever distance, is rejected at every depth |
| LuaJson.ArrayIff | script/json.go:73-108 | a decoded array comes back exactly when it is not empty, holds no null and its elements come back |
| LuaJson.ObjectIff | script/json.go:73-108 | a decoded object comes back exactly when it holds no null and its fields come back |
| LuaJson.RoundTripIff | script/json.go:52-132 | decoding then encoding is the identity exactly on values with at most 64 nested containers, no null inside a container and no empty array |
| JsonDecode.StillRepresents | script/json.go:110-132 | filling other tables does not disturb a decoded value |
| JsonDecode.LuaState.FromJSONValue | script/json.go:110-132 | the result represents the value in new tables, and all older tables are unchanged |
| JsonDecode.LuaState.FromArray | script/json.go:118-123 | the same for the loop over an array |
| JsonDecode.LuaState.FromObject | script/json.go:124-129 | the same for the loop over an object, in any map order |
| JsonDecode.LuaState.RoundTrip | script/json.go:17-36 | the two script functions, one after the other, on every value |
| VendorAttributes.VendorRoundTrip | third_party/layeh-radius/attribute.go:249-272 | a vendor payload of 1 to 249 bytes comes back with its vendor |
| VendorAttributes.WalkSplits | radius/redback/generated.go:37-46 | the walk splits any payload into records and a tail without losing a byte |
| VendorAttributes.WalkUnique | radius/redback/generated.go:37-46 | and no other split exists |
| VendorAttributes.StuckIff | radius/redback/generated.go:37-41 | the walk stops exactly where no record begins |
| VendorAttributes.HeldOfMany | radius/redback/generated.go:31-49 | what an attribute of many records and a tail holds, for every vendor and type |
| VendorAttributes.HeldOfOne | radius/redback/generated.go:17-46 | what one added attribute holds, for every vendor and type; nothing if the value is empty |
| VendorAttributes.AddedGains | radius/redback/generated.go:17-29 | adding a value appends exactly it for its vendor and type and changes nothing else |
| VendorAttributes.AppendValues | radius/redback/generated.go:37-46 | the inner loop appends the values of the type in one payload |
| VendorAttributes.Packet.AddVendor | radius/redback/generated.go:17-29 | succeeds exactly up to 247 bytes; then every vendor and type reads as before, plus the value |
| VendorAttributes.Packet.GetsVendor | radius/redback/generated.go:31-49 | the loops collect the values in order |
| VendorAttributes.Packet.LookupVendor | radius/redback/generated.go:51-69 | the head of what GetsVendor gives, or false where it gives nothing |
| VendorAttributes.Packet.SetExtraAttribute | radius/extraattr.go:47-71 | which error, or which change, for every name and value |
| PacketDump.ValueTextInjective | radius/dump.go:90-98 | a printed value stands for one value only |
| PacketDump.ValueTextIs | radius/dump.go:90-98 | printable values print between quotes, all others byte by byte in upper-case hex |
| PacketDump.EscapedRest | radius/dump.go:97 | a quote or backslash in a value is escaped, every other byte stands for itself |
| PacketDump.DumpText | radius/dump.go:24-28 | each record prints in its place under the names of its vendor and type, the tail behind them |
| PacketDump.DumpShort | radius/dump.go:63-66 | an attribute without a vendor prints as a whole |
| PacketDump.DumpVSA | radius/dump.go:62-88 | the loop prints every record and the tail |
| PacketDump.PartsInjective | radius/dump.go:71-87 | the printed parts determine records and tail |
| PacketDump.DumpInjective | radius/dump.go:62-98 | two attributes that print alike are the same bytes |
| ReplyMessage.ParseReplyMessage | tools/pcapreplay/replymessage.go:23-49 | the loop parses as specified |
| ReplyMessage.PrintText | script/examples/auth.lua:189-196 | the text of a report |
| ReplyMessage.ParseIff | tools/pcapreplay/replymessage.go:21-49 | which texts are read, and as what: of each kind of field the last one counts, in whatever order they come |
| ReplyMessage.LastFieldsCount | tools/pcapreplay/replymessage.go:28-47 | the same for any fields |
| ReplyMessage.RoundTripIff | tools/pcapreplay/replymessage.go:9-49 | the parser undoes the printer exactly when neither text holds `;` and the numbers fit 64 bits |
| ReplyMessage.LoadedParseTypes | clientdb/store.go:191-205 | no loaded parse type holds `;` |
| ReplyMessage.ServedReportsRoundTrip | script/examples/auth.lua:189-196 | so a report about a loaded device, named by a remote id, parses back exactly where its numbers fit 64 bits |
| ReplyMessage.Deliver | radius/extraattr.go:48-60 | through a packet, a report comes back from the attribute exactly where its texts hold no `;`, its numbers fit and its text has at most 253 bytes |
| ReplyMessage.DeliverServed | tools/pcapreplay/main.go:230-240 | the same for a report about a loaded device: numbers and length decide |
| AuthSources.StillAlive | api/api.go:206-211 | a source that never failed is alive |
| AuthSources.Balanced | api/api.go:186-195 | in every run two sources that never failed differ by at most one request |
| AuthSources.RequestsAreChoices | api/api.go:195 | a source's counter is the number of times it was chosen |
| AuthSources.TotalIsChoices | api/api.go:182-196 | the counters, in any order of the map, add up to the choices made |
| AuthSources.RestStep | api/api.go:124-132 | a step keeps a failed source at rest or ends its rest only after the timeout |
| AuthSources.Quarantine | api/api.go:124-132 | a source that failed at time t is not chosen again until later than t + timeout |
| AuthSources.RevivedIff | api/api.go:124-132 | after its last failure a source is alive exactly if some tick since came later than the timeout |
| AuthSources.Api.constructor | api/api.go:85-89 | every source starts alive and unasked |
| AuthSources.Api.Choose | api/api.go:183-196 | the loop, in any map order, finds an alive source with the fewest requests, and none only if none is alive |
| AuthSources.Api.Disable | api/api.go:206-209 | the failure step |
| AuthSources.Api.Revive | api/api.go:125-131 | the tick step, in any map order |
| AuthSources.Api.Fetch | api/api.go:182-218 | which result, and which steps, for every outcome of the post, when no other call comes between; a bad status disables nothing |
| AnswerCache.AccountedStep | api/api.go:140-179 | every step keeps each stored or carried answer traceable to a fetch for the same key |
| AnswerCache.EveryAnswerAccounted | api/api.go:138-179 | every answer is what the backend sent for a request equal but for its class, valid for min(lease, ActualizeTimeout): fetched just then, or still valid, or at any time before only if its own fetch failed |
| AnswerCache.LeaseIs | api/api.go:169 | the lease is the seconds of the answer in nanoseconds, modulo 64 bits |
| AnswerCache.StaysStored | api/api.go:168-177 | an answer stays stored, for every request equal but for its class, until it is evicted or replaced |
| AnswerCache.FoundAgain | api/api.go:147-156 | until it runs out every such request is served it, from then on the backend is asked |
| AnswerCache.StaleServed | api/api.go:138-164 | a request whose fetch fails is served an answer fetched before it asked, however old |
| AnswerCache.WritesStayOutside | radius/handler.go:120 | in every run, whatever the receivers write to their answers, the stored answers and those carried by requests are the ones of the run without the writes |
| AnswerCache.AnswersUnaffected | radius/handler.go:120 | so every answer is given as if nobody had written to an earlier one |
| AnswerCache.Api.Lookup | api/api.go:140-156 | the hit or the question step, from any state, and for a hit a new object, unlike all answers given before |
| AnswerCache.Api.Finish | api/api.go:158-179 | the step that ends a request, whatever has happened to the cache since its lookup |
| AnswerCache.Api.Get | api/api.go:138-179 | the two in sequence: the backend is asked only where no fresh answer is stored |
| AnswerCache.Api.Relabel | radius/handler.go:120 | the write step: this one answer object changes, the cache and all other answers do not |
| AnswerCache.Api.Answered | radius/handler.go:120-125 | a request and then the handler's write, as steps |

## Left out

- HTTP, Redis, sockets, files, tickers, logging and counters for monitoring: a load is a list of lines or a failure, a clock is a number that does not go back, a datagram is its bytes.
- Text is a sequence of characters: bytes that are no UTF-8, and letters outside ASCII whose upper case is ASCII, are not distinguished.
- Lookups hand out values: sharing of slices and of the `*Bind` between the five maps, and the capacity of a slice, are not modelled; each map holds the bind itself.
- The read-write lock of an index: a lookup is taken as one step.
- Scanner limits: a line of more than one megabyte, which ends a load with an error, is just a failed load here.
- Stores.New: whether the Redis subscription succeeds is a parameter.
- `Close` and the refresh goroutine: one goroutine reloads, one subscriber delivers events.
- InFlight: a response authenticator is taken to fit one request only (MD5 is not modelled), latency statistics and the noFreeID counter of the caller are left out.
- PairMatching.MatchPairs: keys hold the address bytes where the program holds their text, which is as distinct for the four-byte addresses that the capture yields.
- LuaJson.RoundTripIff: numbers are reals, so infinities and rounding are not modelled; the JSON text itself, the HTML escaping and the table internals of gopher-lua are assumed, a table being its cells and an order in which each is visited once.
- JsonDecode.LuaState.RawSet: only for a key that the table does not have, which is how the decoder uses it.
- VendorAttributes.Packet.GetsVendor: takes the vendor as an argument, where the generated code has one copy for vendor 2352; `_Redback_SetVendor`, `_Redback_DelVendor` and the per-attribute wrappers repeat the pattern.
- VendorAttributes.Packet.SetExtraAttribute: takes the table of names as an argument.
- ClientDb.LineAgreesWithEvent: the event is what `ApplyBindEvent` receives. A published message carries id, address and port as JSON numbers, so for a line whose id is no number the event exists only as a direct call.
- ReplyMessage.Deliver: how a text becomes bytes is a parameter; the encoding of the whole packet between the two ends is not part of it.
- ReplyMessage.RoundTripIff: a number is an integer printed in decimal; how the Lua printer writes numbers beyond 64 bits is not modelled, only that the parser does not read them back.
- AuthSources.Api.Fetch: one call with nothing between its two locked sections; `Choose` and `Disable` are the sections on their own, and the runs of the module interleave them freely.
- AnswerCache.Api.Answered: one request with nothing between its steps; `Lookup`, `Finish` and `Relabel` are the steps on their own, and the runs of the module interleave them freely.
- AuthSources.Api.Revive: one tick reads the clock once for all sources.
- AnswerCache.Api.Get: one request with nothing between its two steps; the cache key is the request with its class erased, taking the digest of its JSON text as collision-free; expiry in the cache library is an eviction at some moment; a timestamp does not overflow; the map of extra attributes, which the stored entry and the answers share and nothing writes to, is part of the body.
- The queues for post-auth and accounting, the Lua engine and its globals, the request handler's branches and the site policy of the example script: plain branching without a law of their own.
- Encoding of whole RADIUS packets: only parsing is needed by the tools modelled here.
