# Pomelo core logic in Dafny

This project models the logic at the centre of the Pomelo game-server
framework and its tools, and proves properties of it.

- **bearcat-ha client.** The availability client keeps a connection state and two tables. `haState` maps a group name to its master, slaves and unavailable nodes. `indexs` maps a group name to a round-robin cursor. `getClient` uses both; ZooKeeper callbacks update them.
- **Watcher strategy.** It decides which nodes are available: `elect` sums signed votes over the watchers' snapshots, and `electNode` takes a majority test for one node.
- **Source map consumer** of the admin front-end. It covers the Base64 VLQ decoder, the `_parseMap` segment loop with its mapping and reverse-mapping tables, and the two lookups.
- **socket.io connector.** It decodes the package header (big-endian id, route length, route, body) and encodes responses and pushes.
- **Inspector protocol correlator.** It allocates callback ids, counts pending responses, checks arguments against a command signature, and dispatches responses, events and deferred scripts.
- **Front-end helpers:**
  - hex stepping, vendor-prefix stripping, quote scanning and used-property marking in the styles sidebar;
  - URL completion and link text;
  - the Base64 size estimate of the image view;
  - the grouping, counting and cookie statistics of the page audits;
  - the visible-window search of the memory statistics.

Each module corresponds to one source file, except two. `SourceMapRoundTrip` holds the round-trip proof about `SourceMap`. `JsRuntime` holds the JavaScript semantics several modules share:
- int32 wrap-around and `<<`;
- `|` on int32 values;
- whitespace trimming;
- `indexOf`/`lastIndexOf`/`substring`;
- decimal number text.

Objects whose fields the source updates in place are classes:
- `HaClient.HaClient`;
- `SourceMap.StringCharIterator` and `SourceMap.SourceMapParser`;
- `InspectorBackend.Backend`;
- `MemoryStatistics.MemoryStatistics`.

Their loops are methods with invariants, proved against specification functions. The pure code is functions and lemmas.

## Model

| member | source | states |
|---|---|---|
| HaClient.SelectSlave | tool/bearcat-ha/lib/haClient.js:338-344 | no slaves selects nothing; otherwise, from a stored cursor that is absent or not negative, a slave is selected and the new cursor r lies in [1, k] with the selected slave at r - 1 (a cursor at or past the end restarts at 0) |
| HaClient.RoundRobinFrom | tool/bearcat-ha/lib/haClient.js:338-344 | from a stored cursor c in [0, k], successive calls with no update in between return slaves[(c + j) mod k] for j = 0, 1, 2, ... |
| HaClient.RoundRobinFromStart | tool/bearcat-ha/lib/haClient.js:338-344 | with no stored cursor, successive calls return slaves[0], slaves[1], ..., slaves[k-1], slaves[0], ... |
| HaClient.ApplyAllContents | tool/bearcat-ha/lib/haClient.js:164-172 | after the children are loaded, a name has a state exactly when it had one or some child brought a state for it; names no child brought a state for keep their old state |
| HaClient.HaClient.constructor | tool/bearcat-ha/lib/haClient.js:29-51 | both tables are empty, no client is held, no timer or event exists, and the state is what `initZK` leaves from INIT: by rank, either INIT with no attempt, or CONNECTING with attempt 0 created, its connect timeout armed and its `once` handler waiting |
| HaClient.HaClient.Restart | tool/bearcat-ha/lib/haClient.js:53-60 | does nothing in CONNECTING or RECONNECTING; otherwise it has the effect of `zkReconnect` |
| HaClient.HaClient.InitZK | tool/bearcat-ha/lib/haClient.js:62-123 | does nothing when the state ranks at or above CONNECTED; otherwise the state becomes CONNECTING and a new client is created, numbered after the earlier ones, with its own connect timeout armed and its own `once('connected')` handler waiting; tables, events, the held client and the reconnect timer are unchanged |
| HaClient.HaClient.ZkReconnect | tool/bearcat-ha/lib/haClient.js:125-145 | does nothing while a reconnect timer exists; otherwise both tables are emptied, the state is RECONNECTING, and a timer with an interval in [3000, 7999] is armed |
| HaClient.HaClient.ClearUpTimer | tool/bearcat-ha/lib/haClient.js:147-152 | no reconnect timer remains |
| HaClient.HaClient.ClearUp | tool/bearcat-ha/lib/haClient.js:154-162 | both tables are empty, the state is INIT, and the client is closed if there was one |
| HaClient.HaClient.ReconnectTimerFired | tool/bearcat-ha/lib/haClient.js:138-143 | when the state ranks below CONNECTING (and below CONNECTED) the timer starts a new attempt exactly as `initZK` does; in every other case, including a state ranking below CONNECTING but not below CONNECTED, nothing changes |
| HaClient.HaClient.ConnectTimeoutFired | tool/bearcat-ha/lib/haClient.js:76-80 | an attempt's pending connect timeout sets the state to TIMEOUT, emits `timeout` and is spent, even when another attempt's client has connected; a timeout its own `once` handler cleared changes nothing |
| HaClient.HaClient.OnConnected | tool/bearcat-ha/lib/haClient.js:82-106 | the state becomes CONNECTED and the reconnect timer is cleared; the first `connected` of an attempt clears only that attempt's timeout, makes its client the held one and lists the children, so a later attempt that connects lists them again; other attempts' timers are untouched |
| HaClient.HaClient.Disconnected | tool/bearcat-ha/lib/haClient.js:108-112 | has the effect of `zkReconnect` |
| HaClient.HaClient.SetState | tool/bearcat-ha/lib/haClient.js:273-283 | a falsy state leaves `haState` as it was; otherwise `haState[name]` is replaced and every other entry is unchanged; a data watch is armed for a new name, and no event is emitted |
| HaClient.HaClient.ChildrenChange | tool/bearcat-ha/lib/haClient.js:164-172 | `haState` is the old table with every child's state set in turn, and the data watches armed are those for names not yet known |
| HaClient.HaClient.InitialChildrenLoaded | tool/bearcat-ha/lib/haClient.js:93-99 | the children are applied as above, then the state is READY and `ready` is emitted |
| HaClient.HaClient.ChildrenWatchFired | tool/bearcat-ha/lib/haClient.js:176-181 | the children list is fetched again exactly when the watch reports a children change |
| HaClient.HaClient.DataWatchFired | tool/bearcat-ha/lib/haClient.js:228-242 | a deleted node is removed as `removeState` does; a data change fetches the node again and re-arms the watch; any other event only re-arms the watch |
| HaClient.HaClient.OnDataChange | tool/bearcat-ha/lib/haClient.js:251-271 | a falsy state changes nothing; a new name emits exactly `nodeAdd`; a known name emits `change`, then `masterChange` exactly when the master differs |
| HaClient.HaClient.RemoveState | tool/bearcat-ha/lib/haClient.js:285-292 | deletes only that name and emits `nodeRemove` with the removed state; for an absent name nothing changes and no event is emitted |
| HaClient.HaClient.CheckValid | tool/bearcat-ha/lib/haClient.js:294-320 | true exactly when the group is known and the client is its master, or is among its slaves or its unavailable nodes; false for an unknown group |
| HaClient.HaClient.GetClient | tool/bearcat-ha/lib/haClient.js:323-356 | below READY it returns nothing and changes nothing; an unknown group returns nothing and reconnects; role "slave" selects round-robin and stores the new cursor; any other role returns the master; a falsy selection reconnects unless a reconnect timer is pending |
| WatcherStrategy.Elect | tool/bearcat-ha/lib/watcher/watcherStrategy.js:18-58 | a name is available exactly when it is mentioned and its signed tally is positive, and unavailable exactly when it is mentioned and its tally is 0 or less; neither list repeats a name |
| WatcherStrategy.ElectPartition | tool/bearcat-ha/lib/watcher/watcherStrategy.js:18-58 | the two sets are disjoint and together are exactly the mentioned names |
| WatcherStrategy.NamesMentioned | tool/bearcat-ha/lib/watcher/watcherStrategy.js:18-58 | a name is mentioned exactly when some snapshot lists it as available or unavailable |
| WatcherStrategy.TallyPermutation | tool/bearcat-ha/lib/watcher/watcherStrategy.js:18-58 | snapshots in any order give the same tally |
| WatcherStrategy.ElectOrderIndependent | tool/bearcat-ha/lib/watcher/watcherStrategy.js:18-58 | the partition, taken as sets, does not depend on the order of the snapshots |
| WatcherStrategy.ElectNode | tool/bearcat-ha/lib/watcher/watcherStrategy.js:66-77 | true exactly when the score is positive, that is, when fewer than half of the snapshots list the node as unavailable; false for no snapshots |
| WatcherStrategy.NodeScoreMajority | tool/bearcat-ha/lib/watcher/watcherStrategy.js:66-77 | the score is the number of snapshots less twice the number that list the node as unavailable |
| WatcherStrategy.SilentSnapshot | tool/bearcat-ha/lib/watcher/watcherStrategy.js:18-77 | a snapshot silent about a node adds 0 to its `elect` tally but +1 to its `electNode` score |
| WatcherStrategy.ElectAndElectNodeDisagree | tool/bearcat-ha/lib/watcher/watcherStrategy.js:18-77 | for three snapshots (available, silent, unavailable) `elect` calls the node unavailable while `electNode` calls it available |
| SioConnector.ParseIntField | lib/connectors/sioconnector.js:132-142 | the loop computes the big-endian value of the low bytes of the characters, wrapped to int32; a length of 0 or less reads 0 |
| SioConnector.ShortFieldValue | lib/connectors/sioconnector.js:132-142 | for up to 3 bytes the result is the plain big-endian value, below 256^len |
| SioConnector.FourByteSign | lib/connectors/sioconnector.js:132-142 | a 4-byte field is negative exactly when its first byte is 0x80 or more |
| SioConnector.Substr | lib/connectors/sioconnector.js:111-112 | `substr` clips at the end of the string and yields the empty string past it |
| SioConnector.Decode | lib/connectors/sioconnector.js:103-119 | the route length is below 256, and route followed by body is the whole text after the 5-character header |
| SioConnector.DecodePackage | lib/connectors/sioconnector.js:92-119 | round trip: decoding an int32 id header, a route-length character, a route shorter than 256 and any body gives back the id, the route and the body |
| SioConnector.DecodeShort | lib/connectors/sioconnector.js:111-112 | a text shorter than its header and route gives the available suffix as route and an empty body |
| SioConnector.Encode | lib/connectors/sioconnector.js:83-89 | a truthy request id gives a response carrying the id and the body; a falsy one, 0 included, gives a push carrying the route and the body |
| SourceMap.BuildBase64Map | tool/pomelo-admin-web/public/front/CompilerScriptMapping.js:197-202 | the keys are exactly the 64 alphabet characters, each maps to its position, and no two keys share an index |
| SourceMap.Base64IndexInAlphabet | tool/pomelo-admin-web/public/front/CompilerScriptMapping.js:198-201 | a character has an index exactly when it is in the alphabet, and the index is its position there |
| SourceMap.SourceMapParser.DecodeVLQ | tool/pomelo-admin-web/public/front/CompilerScriptMapping.js:335-350 | the value read and the new position are those of the specification `DecodeAt` |
| SourceMap.SourceMapParser.ReadUnsigned | tool/pomelo-admin-web/public/front/CompilerScriptMapping.js:337-344 | the do-loop consumes the digits up to and including the first one without the continuation bit, adding each digit's low 5 bits at shift 5k in int32 |
| SourceMap.DecodeAt | tool/pomelo-admin-web/public/front/CompilerScriptMapping.js:335-350 | decoding moves past at least one character |
| SourceMap.VlqShortIsStandard | tool/pomelo-admin-web/public/front/CompilerScriptMapping.js:335-350 | for up to 6 digits the value equals the Source Map Revision 3 reading: base-32 digits, least significant first, with bit 0 as the sign |
| SourceMap.DecodeEncoded | tool/pomelo-admin-web/public/front/CompilerScriptMapping.js:335-350 | round trip: decoding the standard encoding of any value of magnitude below 2^29 gives back the value and moves exactly past the encoding |
| SourceMap.LoneDigit | tool/pomelo-admin-web/public/front/CompilerScriptMapping.js:335-350 | a lone digit d below 32 reads as d/2, negated when d is odd, and the iterator moves by one; a position past the end reads as digit 0 |
| SourceMap.StringCharIterator.constructor | tool/pomelo-admin-web/public/front/CompilerScriptMapping.js:375-379 | the iterator holds the text and starts at position 0 |
| SourceMap.StringCharIterator.Next | tool/pomelo-admin-web/public/front/CompilerScriptMapping.js:382-385 | returns the character at the position, or none past the end, and advances by one |
| SourceMap.StringCharIterator.Peek | tool/pomelo-admin-web/public/front/CompilerScriptMapping.js:387-390 | returns the character at the position, or none past the end, without moving |
| SourceMap.SkipLines | tool/pomelo-admin-web/public/front/CompilerScriptMapping.js:301-305 | each ';' advances the line by one and resets the column to 0; the run stops at the first other character |
| SourceMap.SourceMapParser.constructor | tool/pomelo-admin-web/public/front/CompilerScriptMapping.js:195-209 | the Base64 map is built, the tables start empty, and the payload is read into them |
| SourceMap.SourceMapParser.ParsePayload | tool/pomelo-admin-web/public/front/CompilerScriptMapping.js:257-263 | a payload with sections parses each section at its offset; otherwise the payload is parsed as one map |
| SourceMap.SourceMapParser.ParseSections | tool/pomelo-admin-web/public/front/CompilerScriptMapping.js:265-271 | the sections are parsed in order and parsing stops at the first that throws |
| SourceMap.ParsedSectionsStops | tool/pomelo-admin-web/public/front/CompilerScriptMapping.js:265-271 | once a section throws, later sections change nothing |
| SourceMap.SourceMapParser.RegisterSources | tool/pomelo-admin-web/public/front/CompilerScriptMapping.js:280-291 | every source URL is canonicalised against the map's URL, gets an empty reverse table, and gets its content when the map has one |
| SourceMap.SourceMapParser.ParseMap | tool/pomelo-admin-web/public/front/CompilerScriptMapping.js:273-328 | (corrected reading, see Findings) the tables end as the specification fold over the entries of the mappings text |
| SourceMap.SourceMapParser.ReadMappings | tool/pomelo-admin-web/public/front/CompilerScriptMapping.js:293-327 | (corrected reading, see Findings) the loop records exactly the entries `Segments` reads, in order, and stops at the first failed record |
| SourceMap.SourceMapParser.RecordNext | tool/pomelo-admin-web/public/front/CompilerScriptMapping.js:297-327 | (corrected reading, see Findings) one loop pass either consumes at least one character and records its entry, or ends the loop with every entry accounted for |
| SourceMap.SourceMapParser.ReadSegment | tool/pomelo-admin-web/public/front/CompilerScriptMapping.js:310-322 | (corrected reading, see Findings) the segment at the position gives the entry it pushes, if any, followed by what the text after it gives; the source URL follows the source index |
| SourceMap.SourceMapParser.ReadSourceFields | tool/pomelo-admin-web/public/front/CompilerScriptMapping.js:311-321 | the source index, source line, source column and optional name deltas give exactly one entry for the advanced values, followed by what the rest of the text gives; the source URL is the one at the new source index |
| SourceMap.SourceMapParser.RecordMapping | tool/pomelo-admin-web/public/front/CompilerScriptMapping.js:323-325 | the mapping is appended; the reverse table keeps the first [line, column] per source line; a source with no reverse table throws |
| SourceMap.TableWrite | tool/pomelo-admin-web/public/front/CompilerScriptMapping.js:324-325 | writing a source line sets that entry and grows the array length only for an array index, 0 to 2^32 - 2 |
| SourceMap.TopIndexWrite | tool/pomelo-admin-web/public/front/CompilerScriptMapping.js:324-325 | a write at 2^32 - 2 grows an empty array to length 2^32 - 1, and a write at 2^32 - 1 leaves the length at 0 |
| SourceMap.RecordAllStops | tool/pomelo-admin-web/public/front/CompilerScriptMapping.js:323-325 | once a record throws, later entries change nothing |
| SourceMap.SourceMapParser.FindEntry | tool/pomelo-admin-web/public/front/CompilerScriptMapping.js:228-244 | an empty table gives none; otherwise the result brackets the query; on a sorted table it is the entry at the last index not after the query, or the first entry |
| SourceMap.FloorIndex | tool/pomelo-admin-web/public/front/CompilerScriptMapping.js:228-244 | the last index whose entry is not after the query, or 0 when none is |
| SourceMap.FloorUnique | tool/pomelo-admin-web/public/front/CompilerScriptMapping.js:228-244 | on a sorted table only that index brackets the query |
| SourceMap.SourceMapParser.FindEntryReversed | tool/pomelo-admin-web/public/front/CompilerScriptMapping.js:246-255 | returns the entry at the first source line at or after the query that has one, else the first mapping |
| SourceMap.TrailingColumnFinding | tool/pomelo-admin-web/public/front/CompilerScriptMapping.js:309-326 | the mappings "A" push one zero entry as written, and none when read as corrected |
| SourceMapRoundTrip.MappingsRoundTrip | tool/pomelo-admin-web/public/front/CompilerScriptMapping.js:297-327 | round trip: parsing the serialised text of well-formed segments and line breaks yields exactly the entries the items describe |
| InspectorBackend.Backend.constructor | tool/pomelo-admin-web/public/front/InspectorBackend.js:33-45 | ids start at 1, nothing is pending, and all tables are empty |
| InspectorBackend.Backend.Wrap | tool/pomelo-admin-web/public/front/InspectorBackend.js:49-61 | hands out the current id and then increments it; the id was unused; the given function, or a fresh no-op named after the method, is stored under it, and the method name is written on a given function, replacing the name an earlier command wrote there; every stored id stays below the next one |
| InspectorBackend.Backend.RegisterCommand | tool/pomelo-admin-web/public/front/InspectorBackend.js:63-75 | records the command's reply argument names |
| InspectorBackend.Backend.RegisterEvent | tool/pomelo-admin-web/public/front/InspectorBackend.js:77-82 | records the event's parameter names |
| InspectorBackend.Backend.Invoke | tool/pomelo-admin-web/public/front/InspectorBackend.js:84-87 | sends one message under a fresh id and counts one more pending response |
| InspectorBackend.Backend.SendMessageToBackend | tool/pomelo-admin-web/public/front/InspectorBackend.js:89-129 | sends exactly when the arguments fit the signature; then one callback and one pending response are added and the params are the supplied values; otherwise nothing changes |
| InspectorBackend.SplitCallback | tool/pomelo-admin-web/public/front/InspectorBackend.js:91-92 | a function in last position is taken off as the callback; otherwise the arguments are kept as they are |
| InspectorBackend.ParamsOfKeys | tool/pomelo-admin-web/public/front/InspectorBackend.js:94-119 | params has a key exactly when a parameter of that name received a supplied argument |
| InspectorBackend.Backend.WrapCallbackAndSendMessageObject | tool/pomelo-admin-web/public/front/InspectorBackend.js:131-144 | the message goes out under the id `_wrap` hands out, and the pending count grows with the callback table |
| InspectorBackend.Backend.RegisterDomainDispatcher | tool/pomelo-admin-web/public/front/InspectorBackend.js:153-156 | records the domain's dispatcher |
| InspectorBackend.Description | tool/pomelo-admin-web/public/front/InspectorBackend.js:168-178 | a description exists exactly for the reserved codes of section 5.1 of the JSON-RPC 2.0 specification and -32000 |
| InspectorBackend.ReplyArguments | tool/pomelo-admin-web/public/front/InspectorBackend.js:198-211 | the error comes first, then the result fields in reply-argument order when there is a result |
| InspectorBackend.Backend.DispatchResponse | tool/pomelo-admin-web/public/front/InspectorBackend.js:165-223 | returns whether the dispatch threw: an error reported with a truthy `data` that has no `join` function throws in the report, and then nothing is reported, run or removed and the count is kept; otherwise it reports every error but code -32000; the callback the id finds (by number or by its decimal text) runs once with the error and the result fields named by the reply arguments of the method name the function carries now, and is removed, the count following the table; an id that finds no stored callback changes neither; with nothing pending the queued scripts then run |
| InspectorBackend.ReportThrowsOnData | tool/pomelo-admin-web/public/front/InspectorBackend.js:180-193 | an error with a text `data` and any code but -32000 throws while it is reported; the same error with code -32000, or one without `data`, does not |
| InspectorBackend.KeyOfMeans | tool/pomelo-admin-web/public/front/InspectorBackend.js:196 | a response id finds callback k exactly when it is the number k or the string of k's decimal digits |
| InspectorBackend.SharedCallbackScenario | tool/pomelo-admin-web/public/front/InspectorBackend.js:49-61 | one function given to two commands in flight answers the first response, reached by the string id "1", with the second command's reply arguments |
| InspectorBackend.EventArguments | tool/pomelo-admin-web/public/front/InspectorBackend.js:243-248 | event arguments are the params' fields in registered order, none without params |
| InspectorBackend.DomainName | tool/pomelo-admin-web/public/front/InspectorBackend.js:225-226 | the domain is the text before the first '.', and contains no '.' |
| InspectorBackend.SplitJoin | tool/pomelo-admin-web/public/front/InspectorBackend.js:225-227 | splitting "domain.function" gives back the domain and the function |
| InspectorBackend.Backend.DispatchEvent | tool/pomelo-admin-web/public/front/InspectorBackend.js:224-258 | an unknown domain, unimplemented function or unregistered event is dropped; otherwise the dispatcher function is called once with the params' fields in registered order |
| InspectorBackend.Backend.Dispatch | tool/pomelo-admin-web/public/front/InspectorBackend.js:158-259 | throws exactly for a response whose report throws; a response has exactly the effect stated for `DispatchResponse` (nothing changed when the report throws; otherwise report, callback run and removed, scripts run when idle); an event makes exactly the call stated for `DispatchEvent` and leaves the callbacks, the count, the queue and the reports as they were |
| InspectorBackend.Backend.RunAfterPendingDispatches | tool/pomelo-admin-web/public/front/InspectorBackend.js:269-283 | the script is queued; the queue runs, emptied first, only when nothing is pending |
| StylesSidebar.AlteredHexNumber | tool/pomelo-admin-web/public/front/StylesSidebarPane.js:163-192 | non-hex input or a result above 16^len - 1 gives the input back; a negative result clamps to 0; otherwise it is upper-case hex of exactly the input's length with value max(0, n + delta) |
| StylesSidebar.PaddedUpperHex | tool/pomelo-admin-web/public/front/StylesSidebarPane.js:188-190 | the zero-padding loop gives upper-case hex of the requested length with the same value |
| StylesSidebar.CanonicalPropertyName | tool/pomelo-admin-web/public/front/StylesSidebarPane.js:194-202 | short input, input not starting with '-', and input where no vendor prefix is followed by a character come back unchanged; any other result is a non-empty part of the name that follows a vendor-prefix match and runs up to the first line terminator |
| StylesSidebar.CanonicalIsLeftmost | tool/pomelo-admin-web/public/front/StylesSidebarPane.js:196-201 | a name of 9 or more characters starting with '-' whose leftmost match is at i gives the text after the prefix at i, up to the first line terminator, and never the name itself |
| StylesSidebar.CanonicalOfPrefixed | tool/pomelo-admin-web/public/front/StylesSidebarPane.js:194-202 | "-webkit-", "-khtml-" or "-apple-" followed by a non-empty name without line terminators strips to that name |
| StylesSidebar.ShouldCommitValueSemicolon | tool/pomelo-admin-web/public/front/StylesSidebarPane.js:2161-2175 | true exactly when no quote is open before the cursor; a quote opens on ' or " and closes only on the same character, and a backslash in a string skips the next character |
| StylesSidebar.QuotedStringCloses | tool/pomelo-admin-web/public/front/StylesSidebarPane.js:2161-2175 | a complete quoted string leaves no quote open |
| StylesSidebar.MarkFirstPass | tool/pomelo-admin-web/public/front/StylesSidebarPane.js:561-591 | the first pass gives the specification marks, used names and priority flag; the lemmas below say what those are |
| StylesSidebar.MarkRule | tool/pomelo-admin-web/public/front/StylesSidebarPane.js:570-590 | one rule's mark is its live, parsed names less those used, and it reports whether one of them carries a priority |
| StylesSidebar.LiveNamesMeans | tool/pomelo-admin-web/public/front/StylesSidebarPane.js:570-590 | a name is live in a rule exactly when one of its declarations is live, parsed and canonicalises to it |
| StylesSidebar.FirstMarkIsFirstRule | tool/pomelo-admin-web/public/front/StylesSidebarPane.js:561-591 | a rule's mark holds a name exactly when it is the first counted rule declaring the name and the name was not given |
| StylesSidebar.FirstMarkUnique | tool/pomelo-admin-web/public/front/StylesSidebarPane.js:561-591 | a name is marked in at most one rule |
| StylesSidebar.UsedIsUnionOfMarks | tool/pomelo-admin-web/public/front/StylesSidebarPane.js:561-591 | the used names end as the names given plus the union of all marks |
| StylesSidebar.MarkPriorities | tool/pomelo-admin-web/public/front/StylesSidebarPane.js:593-620 | the second pass gives the specification result; it fails, as the source throws, when it reaches a rule never marked |
| StylesSidebar.PriorityRunMeans | tool/pomelo-admin-web/public/front/StylesSidebarPane.js:593-620 | within one rule, a name stays marked exactly as its last live declaration decides: none keeps the old mark; one with !important keeps it when no earlier rule or declaration had it !important; one without keeps the old mark only when it never had !important so far |
| StylesSidebar.PriorityRulesMeans | tool/pomelo-admin-web/public/front/StylesSidebarPane.js:593-620 | after the second pass a walked rule is marked with a name exactly as `KeepsAfterPriorities` decides from the rule's own declarations, its first-pass mark and whether an earlier walked rule declared the name live with !important |
| StylesSidebar.LaterRuleLoses | tool/pomelo-admin-web/public/front/StylesSidebarPane.js:593-620 | once a walked rule has declared a name live with !important, every later walked rule that declares the name loses it |
| StylesSidebar.MarkUsedProperties | tool/pomelo-admin-web/public/front/StylesSidebarPane.js:556-621 | the first pass, then the second when any priority occurred, as specified above |
| ResourceUtils.CompleteURL | tool/pomelo-admin-web/public/front/ResourceUtils.js:258-302 | an href with a scheme, or a trimmed data: or javascript: href, comes back unchanged; otherwise the result exists exactly when the base parses, and is the href resolved against it |
| ResourceUtils.ProtocolRelative | tool/pomelo-admin-web/public/front/ResourceUtils.js:295-297 | "//" keeps only the base's scheme |
| ResourceUtils.RootRelative | tool/pomelo-admin-web/public/front/ResourceUtils.js:299 | a single leading '/' resolves against scheme://host[:port] |
| ResourceUtils.QueryRelative | tool/pomelo-admin-web/public/front/ResourceUtils.js:278-290 | a leading '?' replaces the base's query |
| ResourceUtils.DirectoryRelative | tool/pomelo-admin-web/public/front/ResourceUtils.js:291-294 | any other href is appended to the base directory, up to and including its last '/' |
| ResourceUtils.FirstDocument | tool/pomelo-admin-web/public/front/ResourceUtils.js:231-238 | the nearest ancestor with a document URL, or none |
| ResourceUtils.ResourceURLForRelatedNode | tool/pomelo-admin-web/public/front/ResourceUtils.js:223-251 | an empty url, or one with "://" after its first character, comes back as it is; a javascript: url gives null; otherwise the nearest document resolves it, or the resource scan answers |
| ResourceUtils.FrameOwnerURL | tool/pomelo-admin-web/public/front/ResourceUtils.js:231-238 | the resolution by the nearest ancestor with a document URL, whatever it gives |
| ResourceUtils.FormatLinkText | tool/pomelo-admin-web/public/front/ResourceUtils.js:183-189 | the display name, then ':' and more exactly when a line number is given |
| ResourceUtils.FormatLinkTextLine | tool/pomelo-admin-web/public/front/ResourceUtils.js:186-187 | the text after ':' is decimal digits that read back as the line number plus one |
| ImageView.Base64ToSize | tool/pomelo-admin-web/public/front/ImageView.js:115-125 | 0 for empty content; otherwise between 3n/4 - 2 and 3n/4, and exactly 3n/4 when neither of the last two characters is '=' |
| ImageView.OnlyLastTwoCount | tool/pomelo-admin-web/public/front/ImageView.js:119-123 | apart from the length, only the last two characters decide the size |
| ImageView.WholeQuanta | tool/pomelo-admin-web/public/front/ImageView.js:115-125 | for a length that is a multiple of 4 the size is a whole number in [3n/4 - 2, 3n/4] |
| ImageView.EncodedSize | tool/pomelo-admin-web/public/front/ImageView.js:115-125 | on an encoding by section 4 of RFC 4648 the estimate is exactly the number of bytes encoded |
| AuditRules.GetDomainToResourcesMap | tool/pomelo-admin-web/public/front/AuditRules.js:45-64 | the loop builds the specification grouping |
| AuditRules.Push | tool/pomelo-admin-web/public/front/AuditRules.js:56-61 | one entry is appended under its host, and a new host is added to the key order |
| AuditRules.GroupedMeans | tool/pomelo-admin-web/public/front/AuditRules.js:45-64 | a host is a key exactly when some kept resource has it, and its list is the kept resources with that host, each once, in input order |
| AuditRules.GroupedKeys | tool/pomelo-admin-web/public/front/AuditRules.js:45-64 | the host of every kept resource is a key of the dictionary |
| AuditRules.GroupedTotal | tool/pomelo-admin-web/public/front/AuditRules.js:45-64 | the lists under the keys hold exactly as many entries as resources are kept |
| AuditRules.GroupedFull | tool/pomelo-admin-web/public/front/AuditRules.js:61 | when full resources are asked for, every entry is a full resource |
| AuditRules.CombineExternalResources | tool/pomelo-admin-web/public/front/AuditRules.js:135-155 | the rule reports exactly when some domain has more than the allowance plus one resources; the violation count sums the counts of the domains over the allowance |
| AuditRules.PenalizeDomains | tool/pomelo-admin-web/public/front/AuditRules.js:141-151 | the counting loop over the domains gives the specification count and report |
| AuditRules.PenaltyZero | tool/pomelo-admin-web/public/front/AuditRules.js:141-151 | the penalty is never negative, and it is 0 exactly when no domain has more than the allowance plus one resources |
| AuditRules.OverfullIffPenalty | tool/pomelo-admin-web/public/front/AuditRules.js:141-151 | some domain has more than the allowance plus one resources exactly when the penalty is not 0 |
| AuditRules.IsCacheableResource | tool/pomelo-admin-web/public/front/AuditRules.js:564-567 | true exactly for status codes 200, 203, 206, 300, 301, 304 and 410 |
| AuditRules.CacheableAndNonCacheableResources | tool/pomelo-admin-web/public/front/AuditRules.js:458-471 | the loop gives the specification partition |
| AuditRules.PartitionMeans | tool/pomelo-admin-web/public/front/AuditRules.js:458-471 | resources with a non-cacheable status code are dropped; every other resource lands in exactly one of the two lists, by the explicit non-cacheable test |
| AuditRules.Average | tool/pomelo-admin-web/public/front/AuditRules.js:1193-1199 | the loop gives 0 for no sizes, else the total over the count rounded half up |
| AuditRules.MaxSize | tool/pomelo-admin-web/public/front/AuditRules.js:1201-1207 | at least 0 and at least every size, and equal to one of them unless it is 0 |
| AuditRules.MaxSizeAttained | tool/pomelo-admin-web/public/front/AuditRules.js:1201-1207 | for sizes of 0 or more the maximum is one of them |
| AuditRules.Max | tool/pomelo-admin-web/public/front/AuditRules.js:1201-1207 | the loop gives the specification maximum |
| AuditRules.MapResourceCookies | tool/pomelo-admin-web/public/front/AuditRules.js:1158-1166 | the callback receives exactly the matching (resource, cookie) pairs |
| AuditRules.MatchedMeans | tool/pomelo-admin-web/public/front/AuditRules.js:1158-1176 | a pair is passed exactly when the resource and the cookie match |
| AuditRules.CookieResourcePairs | tool/pomelo-admin-web/public/front/AuditRules.js:1161-1164 | one cookie against every key in order gives the specification pairs for that cookie |
| AuditRules.CallbackForResourceCookiePairs | tool/pomelo-admin-web/public/front/AuditRules.js:1168-1176 | the resources of one domain whose url the cookie matches, in order, each paired with the cookie |
| AuditRules.CollectCookieBytes | tool/pomelo-admin-web/public/front/AuditRules.js:1329-1332 | bytes per url are the sum of the sizes of the cookies matched to it |
| AuditRules.BytesDictMeans | tool/pomelo-admin-web/public/front/AuditRules.js:1329-1332 | a url is a key exactly when it was matched, with its total size |
| AuditRules.BytesOverAll | tool/pomelo-admin-web/public/front/AuditRules.js:1315-1320 | summing the bytes over keys that include every url gives the total size of all pairs |
| AuditRules.CollectCookiesByDomain | tool/pomelo-admin-web/public/front/AuditRules.js:1223-1231 | the cookies are grouped by the `domain` of the resource each cookie was matched to, in order |
| AuditRules.CookiesDictMeans | tool/pomelo-admin-web/public/front/AuditRules.js:1223-1231 | a domain is a key exactly when some cookie was matched to a resource with that `domain`, with those cookies in order |
| AuditRules.CookieStats | tool/pomelo-admin-web/public/front/AuditRules.js:1244-1251 | one statistic per domain: its average and maximum cookie size |
| AuditRules.HugeCookieDomains | tool/pomelo-admin-web/public/front/AuditRules.js:1257-1261 | a domain is listed exactly when its maximum cookie size exceeds 1000 |
| AuditRules.BigAverageDomains | tool/pomelo-admin-web/public/front/AuditRules.js:1263-1270 | a domain is listed exactly when its average is above the threshold and below 1000 |
| AuditRules.ListedDomains | tool/pomelo-admin-web/public/front/AuditRules.js:1244-1270 | a domain is listed huge, or big-average, exactly when its matched cookies have a maximum over 1000, or an average in the band; no domain is listed twice |
| AuditRules.PerDomainStats | tool/pomelo-admin-web/public/front/AuditRules.js:1244-1251 | one statistic per domain that was sent cookies, each domain once, computed from its cookies |
| AuditRules.StatsMeans | tool/pomelo-admin-web/public/front/AuditRules.js:1244-1251 | a domain has a statistic over 1000 (or an average in the threshold band) exactly when its matched cookies have that maximum (or average) |
| AuditRules.CookieSize | tool/pomelo-admin-web/public/front/AuditRules.js:1209-1285 | no report without cookies; otherwise the average over all cookies, the huge and big-average domains of the matched pairs (each once), and a violation count equal to the two lists' lengths added |
| AuditRules.CountResources | tool/pomelo-admin-web/public/front/AuditRules.js:1307-1309 | the count of the kept static resources |
| AuditRules.BadUrls | tool/pomelo-admin-web/public/front/AuditRules.js:1315-1320 | the urls that were sent cookies, each once in first-seen order, and the total of the cookie bytes sent |
| AuditRules.StaticCookieless | tool/pomelo-admin-web/public/front/AuditRules.js:1301-1327 | reports exactly when the kept static resources and the urls sent cookies both reach the minimum; the report carries the total cookie bytes, those urls and their number |
| MemoryStatistics.MemoryStatistics.constructor | tool/pomelo-admin-web/public/front/MemoryStatistics.js:36-39 | no counters, and an empty window |
| MemoryStatistics.MemoryStatistics.Reset | tool/pomelo-admin-web/public/front/MemoryStatistics.js:210-213 | the counters are emptied and nothing else changes |
| MemoryStatistics.MemoryStatistics.AddTimelineEvent | tool/pomelo-admin-web/public/front/MemoryStatistics.js:254-263 | exactly one counter is appended, timed by the end time when truthy and the start time otherwise |
| MemoryStatistics.MemoryStatistics.CalculateVisibleIndexes | tool/pomelo-admin-web/public/front/MemoryStatistics.js:276-302 | the boundaries are taken in milliseconds and the window is the scan's; no counters give 0/-1; on sorted non-empty counters 0 <= minimum <= maximum < length |
| MemoryStatistics.VisibleIndexesSorted | tool/pomelo-admin-web/public/front/MemoryStatistics.js:281-297 | on sorted times the scan gives the window stated without the scan: the minimum is the last index at or before the start, or 0; the maximum is the last index at or before the end when that lies after the minimum's, else length - 1 |
| MemoryStatistics.VisibleWindowMeans | tool/pomelo-admin-web/public/front/MemoryStatistics.js:279-297 | the minimum is the last time at or before the start, or 0; the maximum is the last time in (start, end], or length - 1 when there is none |
| MemoryStatistics.MemoryStatistics.RecordIndexAt | tool/pomelo-admin-web/public/front/MemoryStatistics.js:347-357 | the result lies in the window; every record up to it is not right of x; the next one is |
| MemoryStatistics.MemoryStatistics.ValueRange | tool/pomelo-admin-web/public/front/MemoryStatistics.js:455-466 | the minimum and maximum bound every value in the window and are both attained; none without counters |
| JsRuntime.ShiftLeftIsJsShift | lib/connectors/sioconnector.js:136 | the modelled `<<` is ToInt32 of ToInt32(x) times 2^(s mod 32) |
| JsRuntime.IndexOfOneChar | tool/pomelo-admin-web/public/front/ResourceUtils.js:279 | `indexOf` of a one-character string is the index of that character |

## Left out

- Scoping: several front-end files replace `var` with `let` in ways JavaScript rejects or reads differently. The model follows the evident function-scoped (`var`) reading at each place and does not model the failures:
  - CompilerScriptMapping.js:130 and :132 declare `let data` twice in one block. This is a SyntaxError, so the whole file fails to load.
  - StylesSidebarPane.js:674-677 and ImageView.js:82-85 use `if (...) let ...`. A declaration is not allowed there, so this is a SyntaxError that stops each file from loading.
  - CompilerScriptMapping.js:341-344 reads `digit` in the `do`-`while` condition, outside the block that declares it. This throws a ReferenceError when run.
  - AuditRules.js:698, :717-723 and :733-734 read block-scoped names outside their blocks, inside `ImageDimensionsRule`, which is not modelled.
- HaClient: the numeric values of `HASTATE` are a parameter (`rank`), because `./util/haClientState` is not part of this model. The `<`/`>=` guards compare ranks where the source compares the values; `restart`'s `==` tests compare the phases themselves, which agrees with the source when distinct phases have distinct values.
- HaClient: ZooKeeper I/O is left out. Requests are recorded in a ghost log, and the ZooKeeper callbacks are methods.
- HaClient: timers fire as method calls.
- HaClient: the `Math.random` jitter is a nondeterministic choice in [3000, 7999].
- HaClient: JSON parsing of node data is left out. A node's state arrives already parsed.
- HaClient: `haState` and `indexs` are plain objects, so a group named after an inherited `Object.prototype` member (such as "constructor") finds a function before any state is stored for it. The source then emits `change` and `masterChange` instead of `nodeAdd`, arms no data watch, and throws a TypeError in `checkValid` and in a slave lookup. The model's maps have no inherited names, so such a group is treated like any other unknown name.
- WatcherStrategy: keys such as `__proto__` and inherited `Object.prototype` names are not modelled; dictionaries are maps.
- WatcherStrategy: the order in which `for ... in` visits keys is taken as insertion order.
- AuditRules: the order in which `for ... in` visits keys is taken as insertion order. JavaScript visits integer-like keys (a host such as "1234") first, in numeric order; only the order of the listed urls and domains depends on this.
- SourceMapRoundTrip.MappingsRoundTrip: stated for deltas of magnitude below 2^29 only. Beyond that the int32 shifts of `_decodeVLQ` wrap, and the round trip fails.
- SourceMap: JavaScript's -0 is not distinguished from 0.
- SourceMap.SourceMapParser.ParseMap: follows the corrected end-of-segment test of the Findings row, not `_isSeparator(peek())` alone; on mappings ending in a lone column field it records no entry where the source records a zero one.
- SourceMap.SourceMapParser.ReadMappings: records the corrected `Segments`, as stated for `ParseMap`.
- SourceMap.SourceMapParser.RecordNext: its loop pass uses the corrected end-of-segment test, as stated for `ParseMap`.
- SourceMap.SourceMapParser.ReadSegment: tests `IsSeparator(it.Peek()) || !it.HasNext()` after the column field, where the source tests only `_isSeparator(peek())`; `SourceMap.TrailingColumnFinding` models the test as written.
- SourceMap: `_canonicalizeURL` is a parameter, because `asParsedURL` is not part of this model.
- SourceMap: `loadSourceMapForScript` (synchronous HTTP and `JSON.parse`) is left out, as is the UI bookkeeping of `addScript` and `reset`.
- SourceMap: `_reverseMappingsBySourceURL` is a plain object, so a source URL named after an inherited `Object.prototype` member (such as "toString", kept as is when the map's URL does not parse) finds a function. The source then creates no reverse table for it, and `sources()` does not list it. The model's map has no inherited names, so it creates an empty table and lists the URL.
- SioConnector: `JSON.parse` of the body is left out. The body is kept as text.
- SioConnector: a NaN request id is left out.
- SioConnector: `composePush` returns the JSON text of `{route, body}`; `Encode` returns the structured `Push(route, body)`, and the text rendering by `JSON.stringify` is not modelled.
- SioConnector: `start` and `stop` are socket plumbing and are left out.
- InspectorBackend: `_callbacks` is a plain object, so a response id such as "toString" or "constructor" finds an inherited `Object.prototype` function; the source then calls it and decrements `_pendingResponsesCount` without deleting anything. The model's callback table is a map without inherited names, so such an id finds nothing and changes nothing.
- InspectorBackend: values have no arrays, so an error whose `data` is an array, which `join` renders without throwing, cannot be expressed. An error with its own `toString` or `valueOf` property, which shadows the one `dispatch` installs, is treated like any other object.
- InspectorBackend: console output is left out.
- InspectorBackend: `reportProtocolError` appears only as a ghost list of reported ids; its text is left out.
- InspectorBackend: `Date.now` timing is left out.
- InspectorBackend: the `window` globals of `registerCommand` are left out.
- InspectorBackend: `loadFromJSONIfNeeded` (XHR and `eval`) is left out.
- InspectorBackend: callbacks and scripts are recorded as calls; re-entrant calls from inside a callback are not modelled.
- Strings: JavaScript strings are sequences of UTF-16 code units, while a Dafny `char` is a Unicode scalar value. Lengths, indices and `charCodeAt` are exact for text within the Basic Multilingual Plane and differ for characters outside it. This affects `SioConnector`'s byte reads (`charCodeAt(i) & 0xff`), the `length < 9` test of `canonicalPropertyName`, the length in `_base64ToSize` and the indexing of `shouldCommitValueSemicolon`.
- StylesSidebar: `parseInt` is exact; the precision limits of floating point and `isFinite` are not modelled.
- StylesSidebar: `alteredFloatNumber` is floating point and is left out.
- StylesSidebar: the DOM-bound rest of the pane is left out.
- StylesSidebar: `foundPriorityProperties` and `usedProperties` are plain objects, so a canonical name such as "constructor" is `in` them from the start. The source then deletes the mark of a live `constructor: x !important` declaration in the second pass, and the model keeps it. The model's maps and sets have no inherited names.
- ResourceUtils: `asParsedURL` is a parameter.
- ResourceUtils: the resource scan of `resourceURLForRelatedNode` is the parameter `scanned`.
- ResourceUtils: `displayNameForURL` is left out.
- ImageView: sizes are real numbers, since the source does not round.
- ImageView: the DOM-bound rest of ImageView.js is left out, as is TimelineGrid.js.
- AuditRules: the sorting of listed domains by size is left out; the lists keep first-seen order.
- AuditRules: the cookie report lists entries of the form `resourceDomain(domain) + ": " + bytesToString(size)`; `HugeCookieDomains`, `BigAverageDomains` and `CookieSize` list the bare domains, and the text rendering is not modelled.
- AuditRules: the dictionaries are plain objects, so a host or domain named after an inherited `Object.prototype` member (such as "constructor") finds a function, and the source throws a TypeError at `.push`. The model's maps have no inherited names, and such an entry is filed like any other.
- AuditRules: `Resource.Type` values are parameters.
- AuditRules: the cookie matching functions are parameters.
- AuditRules: `Math.round` is modelled on integer totals as rounding half up.
- AuditRules: `_isExplicitlyNonCacheable` and the `Date.parse` freshness checks are left out.
- AuditRules: the DOM-driven rules are left out, including `ImageDimensionsRule`.
- AuditRules: gzip savings and percentages are floating point and are left out.
- MemoryStatistics: `_calculateXValues` and the canvas drawing are left out. A counter's x is absent until computed.
- MemoryStatistics: the minimum and maximum times start as `undefined` in the source. The model starts them at the constructor's values, with the index window 0/-1.
- MemoryStatistics: NaN times are not modelled.
- MemoryStatistics.MemoryStatistics.RecordIndexAt: requires an in-range window, because the source throws a TypeError outside it.
- MemoryStatistics.MemoryStatistics.ValueRange: requires an in-range window, because the source throws a TypeError outside it.
- Left out entirely as I/O, reflection or framework glue:
  - HeapSnapshotWorkerDispatcher.js;
  - hybridconnector.js;
  - the ZooKeeper client wrapper, the watcher cluster and the cron jobs;
  - the ExtJS admin pages;
  - the socket.io client.

## Findings

| source | as written | input that shows it | evidently intended | confidence | as-written member | corrected member |
|---|---|---|---|---|---|---|
| tool/pomelo-admin-web/public/front/CompilerScriptMapping.js:309-326 | after the column field only `_isSeparator(peek())` is tested, and it is false at the end of the text, so the four source fields are read past the end as 0 | mappings "A" | a segment of one field at the end of the text pushes nothing, as one before a separator does | high, not executed | SourceMap.TrailingColumnFinding | SourceMapRoundTrip.MappingsRoundTrip |
