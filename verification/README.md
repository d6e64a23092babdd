# Verified model of the monitoring agent

The agent watches the services of one machine. This project models four parts of it in Dafny and
proves what they promise.

**Service discovery.** A manager keeps a list of services; each service has listening sockets, main
processes and sub-processes. Detectors scan the process directory again and again, file every
process under a service and merge what they find with what they know. The host is a snapshot (parents,
live pids, executables, descriptors); every step of a run may see a different one. `ServiceModel` says
what each operation makes of the list as a value, `ServiceClass` and `ManagerClass` are the objects
that are updated in place and are proved to do just that, and `Ownership`, `OwnershipRuns`, `MainTree`,
`SocketMerge`, `Placement`, `Scan` and `Convergence` hold the theorems. A process from a configuration has pid 0, and a process
that is gone reports parent 0, so ownership is about non-zero pids.

**Texts.** `SocketCodec` and `SocketClass` are the printed and parsed forms of a socket address,
`ServiceConfig` is what a service's configuration keeps and what is rebuilt from it, `SavedRuns` that
in every state of a run. `Numerals` and `Text` are the C library's number and string functions they
use, with 64-bit `unsigned long`, and `Sequences` what is common to all about sequences.

**The HTTP library.** `ByteStream` is a connection as a reader sees it: bytes received, bytes to
come, and reads that may take in more than they need. On it stand `Chunked` (RFC 7230, section 4.1),
`HttpHeader`, `HttpRequest` and `HttpResponse` (sections 3.1, 3.2 and 3.3.2), each proved for every way
the bytes may arrive. `ClientSession` and `ClientClass` are the pool of connections and the
retrying sessions, `Query` is percent coding (RFC 3986, sections 2.1 and 2.3) and query parsing.

**Metrics and shutdown.** `History` is the bounded history of a resource against the unbounded log,
`Rate` the counters that wrap at 2^32, `PidAccumulation` the sums over processes, and `IoCollector`
joins them with discovery: that every process is filed once is why the history of a per-process
counter is safe. `StopProtocol` is the worker thread against the destructor, in every interleaving.

The methods are the code's own operations; their `ensures` equate the new state with a function of the
old one, and the lemmas about that function are the results. `npos` is -1 throughout.

Where code and documentation differ the code is followed: a chunk of negative length ends a response,
with a content that may depend on arrival (`Chunked.ContentIndependentOfArrival` says when);
`getline`-based parsing accepts bare newlines and drops the last character of every line; a query key
may hold '=', since the last one splits.

## Model

| member | source | states |
|---|---|---|
| OwnershipRuns.EveryPidOnce | src/servicesManager.cpp:211-284 | along every run of detection steps, each with its own answers from the host, every non-zero pid is filed at most once over all services and over the two lists of each |
| OwnershipRuns.OwnedSlots | src/servicesManager.cpp:264-274 | the same slot by slot: two places with the same non-zero pid are one place |
| OwnershipRuns.VisitOwned | src/servicesManager.cpp:690-728 | one directory entry of the scan keeps single ownership |
| OwnershipRuns.VisitKnows | src/servicesManager.cpp:690-728 | one entry makes nobody but the visited process known and forgets no live process |
| OwnershipRuns.UnitOwned | services/sdbus/systemdbus.cpp:311-330 | a unit found by the other detector keeps single ownership |
| OwnershipRuns.PruneOwned | src/services.cpp:471-488 | dropping dead sub-processes keeps single ownership |
| Ownership.AddMainKnows | src/services.cpp:578-608 | adding a main process loses nobody, whichever list processes end up in |
| Ownership.AddMainUnique | src/services.cpp:578-608 | it files no process twice |
| Ownership.EraseDeadKnows | src/services.cpp:801-806 | updating a main process can forget only a dead one |
| Ownership.UpdateFromOwned | src/services.cpp:852-884 | merging a newcomer into one service of the list keeps single ownership of the whole list |
| Ownership.AddServiceOwned | src/servicesManager.cpp:211-241 | so does adding a newcomer, wherever it goes |
| Ownership.AddServiceKnows | src/servicesManager.cpp:211-241 | and no process of the list or of the newcomer is lost, unless it is dead |
| Scan.PassIsComplete | src/servicesManager.cpp:686-728 | after one pass every selected socket held by a listed main process is listed, by source, in the service of that process |
| Scan.DiscoveryFixpoint | src/servicesManager.cpp:638-733 | on an unchanging host any further passes, in any orders and whatever the enhancers answer, leave the number of services and everything but the sub-processes as the first pass left it |
| Scan.VisitSettles | src/servicesManager.cpp:690-728 | an entry settles the visited process for good: it is known with its sockets listed, or no scan makes a service of it |
| Scan.PassAgain | src/servicesManager.cpp:690-728 | over a settled list a pass changes nothing but sub-processes |
| Scan.VisitFiles | src/servicesManager.cpp:690-728 | the visited process is known afterwards, unless it is black-listed or holds no selected socket, and always if its parent is known |
| Scan.OnePassAdoptsChildren | src/servicesManager.cpp:705-709 | with parents enumerated first one pass leaves the known processes closed under the child relation |
| Scan.DescendantsWithinPasses | src/servicesManager.cpp:705-709 | in any enumeration orders a live descendant is known after as many passes as there are generations |
| SocketMerge.MergeOverrides | src/services.cpp:864-874 | a merge turns the source-to-socket map into the old one overridden by the new one, without repeated sources |
| SocketMerge.MatchedMergeKeepsSources | src/services.cpp:786-795 | merging a service that compared equal changes no set of sources |
| SocketMerge.SetSocketHas | src/services.cpp:566-576 | adding a socket adds exactly its source and repeats none |
| SocketMerge.UpdateFromHas | src/services.cpp:852-884 | the sources after a merge are those of both sides |
| SocketMerge.SourcesAlongRuns | src/servicesManager.cpp:222-240 | along every run no service lists a source twice and no source is lost from the whole |
| MainTree.AddMainIndependent | src/services.cpp:578-601 | no main process becomes the parent of another one |
| MainTree.UpdateFromIndependent | src/services.cpp:852-863 | nor across a merge |
| MainTree.MainsNeverParentAndChild | src/services.cpp:578-601 | while parents do not change, in every reachable state no main process is the parent of another one |
| ServiceClass.SetSockets | src/services.cpp:151-180 | reading the descriptors keeps each socket id once, and keeps the old list if the directory is unreadable |
| ServiceClass.Service.HavePID | src/services.cpp:622-628 | answers whether either list has the pid |
| ServiceClass.Service.HaveSocketId | src/services.cpp:610-614 | answers whether a live main process holds the socket |
| ServiceClass.Service.HaveSource | src/services.cpp:767-773 | answers whether a socket has the source |
| ServiceClass.Service.Equals | src/services.cpp:786-795 | answers whether names and types agree and the sources are contained |
| ServiceClass.Service.NeedsSocketFrom | src/services.cpp:774-785 | answers whether the other service has a socket that is listed here but held by nobody |
| ServiceClass.Service.SetSock | src/services.cpp:566-576 | becomes the service with the socket and, if it is the first, the key |
| ServiceClass.Service.ForgetSource | src/services.cpp:865-870 | loses the first socket with the source |
| ServiceClass.Service.AddHeldSockets | src/servicesManager.cpp:697-701 | gains every socket of the table that a live main process holds |
| ServiceClass.Service.RefreshProcess | src/services.cpp:630-636 | only the process that the pid finds first is read again |
| ServiceClass.Service.AddSubProcess | src/services.cpp:602-608 | gains the process unless the pid is there |
| ServiceClass.Service.DemoteChildren | src/services.cpp:589-596 | the erase loop moves exactly the children, in order |
| ServiceClass.Service.AddMainProcess | src/services.cpp:578-601 | becomes what the value model says, in the three cases of child, parent and stranger |
| ServiceClass.Service.UpdateMainProcess | src/services.cpp:801-811 | replaces the first dead process that ran the same program |
| ServiceClass.Service.UpdateFromService | src/services.cpp:852-884 | takes over main processes and sockets one by one |
| ServiceClass.Service.GetPIDs | src/services.cpp:471-488 | lists main pids, then those of the sub-processes still alive, and forgets the dead ones |
| ServiceClass.Service.SetDefaultConfig | src/services.cpp:512-530 | saves sources, paths, key and host in order |
| ServiceClass.Service.LoadSocketLines | src/services.cpp:396-399 | adds the sockets of the lines, up to the first that throws |
| ServiceClass.Service.LoadFields | src/services.cpp:400-406 | takes key and host, then the processes, then the default host |
| ServiceClass.FromConfig | src/services.cpp:389-408 | builds the service the value model loads, or fails where a line throws |
| ManagerClass.Manager.GetServiceOf | src/servicesManager.cpp:264-274 | the first service that knows the pid |
| ManagerClass.Manager.Recipient | src/servicesManager.cpp:222-234 | the first service the new one equals, else the first it is a missing part of |
| ManagerClass.Manager.TakeService | src/servicesManager.cpp:222-240 | merges into the recipient or appends |
| ManagerClass.Manager.AddService | src/servicesManager.cpp:211-241 | the same after the enhancers renamed the new service |
| ManagerClass.Manager.HandleSubProcess | src/servicesManager.cpp:276-284 | the first service that knows the parent gains the sub-process |
| ManagerClass.Manager.Detect | src/servicesManager.cpp:715-724 | the service built around a process that holds a socket |
| ManagerClass.Manager.IsListed | src/servicesManager.cpp:617-636 | answers whether some rule of the list matches, the name deciding over the path |
| ManagerClass.Manager.VisitEntry | src/servicesManager.cpp:690-728 | one entry of the process directory in all its cases |
| ManagerClass.Manager.VisitUnit | services/sdbus/systemdbus.cpp:311-330 | one unit of the service manager |
| ManagerClass.Manager.PidsOfService | src/services.cpp:471-488 | asking for pids is the pruning step of the runs |
| ManagerClass.Manager.Find | src/servicesManager.cpp:638-733 | the whole scan is the pass the theorems speak of |
| SocketCodec.SourceRoundTrip | src/services.cpp:46-67 | reading back a printed source gives the same type, address and port, for all 16-bit groups and 32-bit ports |
| SocketCodec.SourceInjective | src/services.cpp:99-110 | two sockets with the same source are the same |
| SocketCodec.HexGroupsOfJoin | src/services.cpp:57-65 | the over-long pieces of the v6 branch still read each group |
| SocketCodec.DottedGroupsOfJoin | src/services.cpp:54-56 | the extraction of a dotted address reads each group |
| SocketCodec.UniqNameReplaces | src/services.cpp:567-571 | the two replacements in a source make the key, and do not throw |
| SocketCodec.UniqNameInjective | src/services.cpp:567-571 | two sockets with the same key are the same |
| SocketCodec.KernelRoundTrip4 | src/services.cpp:68-75 | the bytes of the kernel's little-endian word come back in network order, with the port |
| SocketCodec.KernelRoundTrip6 | src/services.cpp:77-89 | so do the eight groups of the four words |
| SocketClass.Address.SetFrom | src/services.cpp:68-75 | assigns those fields, or throws |
| SocketClass.Address.SetFrom6 | src/services.cpp:77-89 | assigns those fields, or throws |
| SocketClass.Address.SetFromText6 | src/services.cpp:57-65 | the eight assignments give the groups of the text |
| ServiceConfig.ConfigRoundTrip | src/services.cpp:389-408 | loading what was saved rebuilds the sockets and the paths in order and the key; the host exactly when it was non-empty or the machine has none either |
| ServiceConfig.SaveIsStable | src/services.cpp:512-530 | saving the reloaded service writes the same configuration |
| ServiceConfig.LoadedIsConfigured | src/services.cpp:389-408 | whatever loads starts the runs where their invariants need them: distinct sources, only pid-0 processes |
| ServiceConfig.SocketsRoundTrip | src/services.cpp:396-399 | loading saved sources adds them one by one, none being a repeat |
| ByteStream.Buffer.ReadUntil | sws/client_http.hpp:365-375 | whatever is received at once, the first delimiter of the whole stream is found |
| ByteStream.FoundEarly | sws/client_http.hpp:371-375 | what is found in the bytes received is what would be found in all of them |
| Chunked.ReadChunked | sws/client_http.hpp:435-493 | however the stream arrives, the outcome is the one decoding the whole stream gives: body, early end, exception; the content differs at most in the bytes received beyond the end, and how many these are is stated |
| Chunked.ReadData | sws/client_http.hpp:449-483 | the part of it behind a length line |
| Chunked.DecodeInvertsEncode | sws/client_http.hpp:435-493 | decoding a chunked body, cut in any way and with any size digits and extensions, gives the data in order and stops right behind it |
| Chunked.ArrivalDoesNotMatter | sws/client_http.hpp:435-493 | a chunked response ends with exactly the data in the buffer, for every segmentation and over-read |
| HttpHeader.ReadFields | sws/server_http.hpp:383-396 | the header loop reads what the parse of the text gives and stops behind the first line without a colon |
| HttpHeader.FieldsRoundTrip | sws/server_http.hpp:383-396 | printed fields come back in the same order, nothing more being consumed |
| HttpHeader.BlankEndsBlock | sws/server_http.hpp:313-323 | the first empty line of a printed header is the one that ends it |
| HttpHeader.BlankTerminates | sws/server_http.hpp:383-396 | with an empty line received the loop ends, and not behind that line |
| HttpHeader.ParseFieldsEarly | sws/server_http.hpp:313-323 | bytes beyond the header do not change what is read |
| HttpRequest.CreateRequestHeader | sws/client_http.hpp:278-292 | prints the request line, the host, the fields |
| HttpRequest.WriteRequest | sws/client_http.hpp:162-182 | then the length unless the content is empty, and the content |
| HttpRequest.ReadHeader | sws/server_http.hpp:366-405 | reads the request line and the fields, or rejects |
| HttpRequest.ReadRequestAndContent | sws/server_http.hpp:306-364 | for every arrival: the handler is called with the parsed request once the announced bytes are there, or the request is dropped or an error reported |
| HttpResponse.WriteResponse | sws/server_http.hpp:60-94 | prints the status line, the fields, a length if there is content and none was given |
| HttpResponse.ReadResponseHeader | sws/client_http.hpp:323-344 | reads the status line and the fields |
| HttpResponse.ReadResponse | sws/client_http.hpp:363-433 | for every arrival the outcome of the framing that the header announces |
| ClientSession.AdvanceKeeps | sws/client_http.hpp:363-433 | one handler keeps a session and its connection in step; the connection is released exactly with the callback |
| ClientSession.AcquireKeeps | sws/client_http.hpp:254-274 | after a request every pooled connection is in use, those that were are untouched, and the one handed out was not |
| ClientSession.CompleteKeeps | sws/client_http.hpp:349-493 | the end of any operation keeps the invariant of pool and sessions |
| ClientSession.PoolIsExclusive | sws/client_http.hpp:254-274 | no connection is held by two outstanding sessions, and the pool never exceeds the peak of outstanding sessions |
| ClientSession.PeakIsLargest | sws/client_http.hpp:254-274 | that peak is the largest number of sessions outstanding so far |
| ClientClass.Client.SweepConnections | sws/client_http.hpp:257-266 | the erase loop keeps the connections in use and the first idle one |
| ClientClass.Client.GetConnection | sws/client_http.hpp:254-274 | hands out that one or a new one, marked in use |
| ClientClass.Client.Request | sws/client_http.hpp:162-185 | starts a session over it |
| ClientClass.Client.HeaderRead | sws/client_http.hpp:368-433 | goes on with the framing, reconnects once, or gives up |
| ClientClass.Client.Deliver | sws/client_http.hpp:349-493 | every completion does what the state machine says |
| Query.UrlEncode | collectors/diskusage.cpp:17-38 | keeps unreserved characters and writes every other octet as two upper-case digits |
| Query.PercentDecode | sws/utility.hpp:53-74 | the index loop decodes escapes and plus signs from left to right |
| Query.DecodeInvertsEncode | sws/utility.hpp:53-74 | decoding undoes encoding for all octet strings |
| Query.EncodedHasNoSeparator | collectors/diskusage.cpp:17-38 | an encoded value can stand in a query |
| Query.ParseQueryString | sws/utility.hpp:79-109 | the one-pass index loop equals splitting at ampersands, then each field at its last equals sign, dropping empty keys, decoding values |
| Query.SplitInvertsJoin | sws/utility.hpp:86-99 | splitting undoes joining fields without separators |
| Query.JoinInvertsSplit | sws/utility.hpp:86-99 | every query is the join of its fields, none of which holds a separator |
| Query.QueryRoundTrip | sws/utility.hpp:79-109 | a printed list of pairs is parsed back exactly when every key is non-empty and free of ampersands |
| History.Ressource.Next | src/collectors.cpp:39-52 | a new newest row, copied from the last, and the oldest dropped |
| History.Ressource.GetRows | src/collectors.cpp:71-76 | the recent rows, oldest first |
| History.Ressource.GetText | src/collectors.cpp:54-69 | the listing of the same rows |
| History.HistoryRefinesLog | src/collectors.cpp:39-52 | the history is always the last rows of the unbounded log of ticks, newest first, unset properties carried forward |
| History.HistoryInLogOrder | src/collectors.cpp:54-76 | both forms give, of those rows, the ones at or after the time asked for, in log order |
| History.PollAnswer | src/collectors.cpp:71-76 | what a client that asks from its last timestamp gets, and which rows are lost when too many arrived |
| History.PollingMissesNothing | src/collectors.cpp:71-76 | over a whole run such a client sees every timestamp when at most `size` rows arrive between polls |
| Rate.TickRessource.SetTickValue | include/collectors.h:71-77 | reports the rate from the wrapped difference and remembers the value |
| Rate.DifferenceIsAdvance | include/collectors.h:71-77 | the wrapped difference is the true advance exactly when that is below 2^32 |
| Rate.RateBounds | include/collectors.h:71-77 | the rate is the floor of advance over frequency |
| Rate.RatesAddUp | include/collectors.h:68-81 | over a run the rates times the frequency add up to the advance, short by less than the frequency per tick |
| PidAccumulation.PidRessource.Tick | src/collectors.cpp:107-112 | a new row once anything is known, zero for every known name; without a value nothing happens, whatever the size |
| PidAccumulation.PidRessource.SetPidValue | src/collectors.cpp:114-122 | adds a positive increase of a process to the newest row and stores the value |
| PidAccumulation.FaultsExactlyWhen | src/collectors.cpp:107-122 | the empty history is indexed exactly when, in the first round with reports, one report adds to an earlier one |
| PidAccumulation.NeverFaults | src/collectors.cpp:107-122 | with one report per process and tick it never is |
| PidAccumulation.RowOfRound | src/collectors.cpp:107-122 | a row's number is the factor times the sum of positive increases of the processes known before |
| PidAccumulation.RowsAddUp | src/collectors.cpp:107-122 | over a run the rows add up to the factor times the whole gain |
| PidAccumulation.RunTelescopes | src/collectors.cpp:107-122 | for counters that never go back, to the factor times the sum of last less first |
| IoCollector.CollectOnce | services/io.cpp:21-45 | a round reports every counter once if every process is listed once |
| IoCollector.UniqueListsOnce | src/services.cpp:471-488 | a service that files no process twice lists no process twice |
| IoCollector.IoHistoryIsSafe | services/io.cpp:21-45 | whatever discovery does between the rounds, the I/O history is never indexed while empty |
| StopProtocol.StopIsSafe | include/collectors.h:98-113 | in every interleaving: no wakeup is lost, at most one more round begins after the flag is cleared, join returns only to an exited worker |
| StopProtocol.NeverStuck | src/servicesManager.cpp:167-192 | a step is possible until the join returned |
| StopProtocol.JoinReturns | src/servicesManager.cpp:167-192 | after the kill at most six steps remain, and they end with the join returning |
| StopProtocol.MutexIsReleased | include/collectors.h:98-108 | the worker holds the mutex for one step while the destructor waits for it |
| ServiceModel.GetService | src/servicesManager.cpp:270-274 | the first service that knows the pid, or none |
| ServiceModel.MatchIndex | src/servicesManager.cpp:222-227 | the first service that the new one equals, or none |
| ServiceModel.NeedIndex | src/servicesManager.cpp:229-234 | the first service that the new one is a missing part of, or none |
| ServiceModel.DeadIndex | src/services.cpp:802-807 | the first dead main process that ran the program, or none |
| ServiceModel.SourceIndex | src/services.cpp:865-870 | the first socket with the source, or none |
| ServiceModel.HeldIndex | src/servicesManager.cpp:715-716 | the first socket of the table that the process holds, or none |
| ServiceModel.Dedup | src/services.cpp:151-180 | the descriptors recorded are exactly those read |
| ServiceClass.HasDescriptor | src/services.cpp:212-219 | answers whether the socket id is among the descriptors |
| ServiceClass.Service.LoadProcesses | src/services.cpp:404-406 | adds the configured processes in order |
| ManagerClass.Manager.MergeAt | src/servicesManager.cpp:224-225 | only the chosen service takes the new one over |
| ManagerClass.Manager.UpdateKnown | src/servicesManager.cpp:690-704 | a known process is read again and its service gains the sockets it holds |
| ManagerClass.Manager.DetectNew | src/servicesManager.cpp:712-728 | the first socket of the table that the process holds makes a service, once |
| ByteStream.Buffer.ReadExactly | sws/client_http.hpp:380-391 | takes in exactly the bytes asked for, or reports the end of the stream |
| ByteStream.Buffer.GetLine | sws/client_http.hpp:440-441 | the line up to the first newline leaves the buffer |
| Chunked.TakeChunk | sws/client_http.hpp:451-462 | the data leaves the buffer, with the two characters behind it |
| HttpRequest.StartLineRead | sws/server_http.hpp:366-381 | the printed request line is read back |
| HttpRequest.HeaderRoundTrip | sws/server_http.hpp:366-405 | the printed header ends where the wait for it ends, and reads back |
| HttpResponse.HeaderRoundTrip | sws/client_http.hpp:323-344 | the printed header ends where the wait for it ends, and reads back |
| ClientClass.Client.ConnectSession | sws/client_http.hpp:519-550 | an open socket is written to, a closed one connected first |
| ClientClass.Client.Callback | sws/client_http.hpp:169-179 | releases the connection and calls back |
| ClientClass.Client.GiveUp | sws/client_http.hpp:354-359 | closes the socket, then calls back |
| ClientClass.Client.OtherDone | sws/client_http.hpp:349-493 | every handler but the header's starts the next operation, calls back or gives up |
| Query.TakeField | sws/utility.hpp:86-91 | the saved positions give the pair of the field just read |
| Query.ParsedKeys | sws/utility.hpp:86-91 | no parsed key is empty or holds a separator |
| PidAccumulation.PidRessource.ZeroAll | src/collectors.cpp:110-111 | the newest row gets a zero for every known name |
| PidAccumulation.IncreaseFromStart | src/collectors.cpp:114-122 | reported once per tick, a process adds what it gained since the ticks before |
| StopProtocol.RankFalls | include/collectors.h:98-113 | from the moment `terminate` is set every step of either thread brings the end closer |
| Ownership.AddMainTakesOver | src/services.cpp:578-601 | when a stranger takes over its children, moving them between the lists files none of them twice |
| Chunked.FinishNegative | sws/client_http.hpp:447-473 | a negative length ends the response: of what has been received behind its line, and one byte more if -1 found nothing, two characters are dropped and the rest is content |
| Chunked.ContentIndependentOfArrival | sws/client_http.hpp:435-493 | for every stream: the content is the same in every arrival exactly when nothing follows the body or, after a negative length, no more follows than is dropped or was waited for |
| Chunked.NegativeDependsOnArrival | sws/client_http.hpp:460-472 | for every stream that starts with a length line of -2 or less: the content with only the line received and with everything received, which differ exactly when more than two bytes follow |
| SocketCodec.FromSourceValid | src/services.cpp:46-67 | the constructor throws exactly when the address would start past the end; otherwise its fields are in range, however malformed the text and whatever they held before |
| SocketCodec.KernelValid | src/services.cpp:68-89 | the fields read from a kernel text are in range |
| SavedRuns.RunValid | src/servicesManager.cpp:211-241 | along every run all sockets have fields in range |
| SavedRuns.LoadedListStarts | src/services.cpp:389-408 | a list of loaded services meets the starting conditions of all invariants |
| SavedRuns.EveryStateSurvives | src/services.cpp:512-530 | every service of every state reached from loaded configurations is rebuilt from what it saves |
| SavedRuns.LinesAreValid | src/services.cpp:32-44 | every socket of the four kernel tables has fields in range |
| Convergence.VisitGrows | src/servicesManager.cpp:690-709 | after the first pass a process becomes known exactly when it is visited and its parent is known, and nobody is forgotten |
| Convergence.PassesReach | src/servicesManager.cpp:705-709 | after as many passes everyone within so many generations of a known process is known, and nobody who does not descend from one |
| Convergence.PassRecords | src/servicesManager.cpp:690-696 | once every child is known a pass reads the descriptors of every live sub-process |
| Convergence.ListConverges | src/servicesManager.cpp:638-733 | the first pass, as many as the deepest descendant has generations, and one more for its descriptors, reach a list that no further pass changes in anything |
| Convergence.DepthIsFinite | src/servicesManager.cpp:705-709 | no descendant is further away than one generation more than there are live processes |
| Convergence.AlwaysConverges | src/servicesManager.cpp:638-733 | so the list always converges |
| HttpHeader.Lookup | sws/server_http.hpp:329 | looking a name up gives any field with the name, or none |
| HttpHeader.ReadLength | sws/server_http.hpp:329-340 | the length that such a field announces, or the error of one that cannot be read |
| HttpHeader.PrintedLength | sws/server_http.hpp:69-70 | a printed length reads back |
| HttpRequest.RequestRoundTrip | sws/server_http.hpp:323-405 | for every arrival and every lookup the handler sees method, path, version "1.1" and the fields the client sent, and content that starts with the body, exactly the body when nothing follows; lengths the caller gives must read as that of the body |
| HttpRequest.ExactlyTheBody | sws/server_http.hpp:323-360 | with nothing following, the handler sees exactly the body in every arrival and lookup exactly when every length the caller gave reads as that of the body |
| HttpResponse.ReadFraming | sws/client_http.hpp:376-419 | counted, chunked, until the connection closes, or nothing, as the fields looked up say |
| HttpResponse.ResponseRoundTrip | sws/client_http.hpp:363-433 | for every arrival and every lookup the client sees version, status and fields the server sent, and content that starts with the body, exactly the body when nothing follows; what the fields of the handler say must fit |
| HttpResponse.ExactlyTheBody | sws/client_http.hpp:363-433 | with nothing following, the callback sees exactly the body in every arrival and lookup exactly when every length the handler gave reads as that of the body and an empty body without one is not announced as chunked |
| HttpResponse.ChunkedResponseRoundTrip | sws/client_http.hpp:396-399 | a response announced as chunked gives exactly what its chunks carry |
| ClientSession.OpenKeeps | sws/client_http.hpp:162-185 | right after a request the pool is as large as the number of outstanding sessions |
| ClientSession.HandleOk | sws/client_http.hpp:349-493 | a handler that starts from no pending operation leaves one or has called back, never both nor neither |
| ClientSession.CallbackExactlyOnce | sws/client_http.hpp:363-433 | for every sequence of outcomes the pending operations and the callbacks of a session are together one; it reconnects at most once, and at most nine operations end outside a chunked body |
| ClientClass.Client.Launch | sws/client_http.hpp:349-352 | one more operation of the session is pending |
| ClientClass.Client.GoOn | sws/client_http.hpp:449-493 | starts the next operation or calls back |
| Placement.AddMainPlaces | src/services.cpp:578-608 | a child of a main process becomes a sub-process; any other process the last main one, exactly its own children leaving for the sub-processes; a nameless service takes its name |
| Placement.UpdateMainReplaces | src/services.cpp:801-811 | the added process takes the place of the first dead one that ran the same program |
| Placement.UpdateMainAdds | src/services.cpp:801-811 | without such a one nobody is replaced |
| Placement.FirstSocketKey | src/services.cpp:566-571 | the first socket gives a service without a key its key, no other one changes it |
| Placement.HeldExactly | src/servicesManager.cpp:697-701 | exactly the sockets of the table that a live main process holds are added |
| Placement.NewcomerIsTakenOver | src/servicesManager.cpp:211-234 | a newcomer that some service equals, or failing that lacks a socket from, makes no service: the first such one takes it over, knowing its live main processes and overriding its sources by the newcomer; every other service is unchanged |
| Placement.WantedHasRecipient | src/servicesManager.cpp:222-234 | a match wins over a need, and the recipient is unique |
| Placement.StrangerIsAppended | src/servicesManager.cpp:235-240 | a newcomer nobody wants becomes the last service |
| Placement.NewcomerReplacesDead | src/servicesManager.cpp:222-234 | in the service that takes it over, its process replaces the first dead one of the same program |
| Placement.VisitKnowsExactly | src/servicesManager.cpp:693-728 | a live process is known after its visit exactly when it was, its parent was, or it is neither black-listed nor without a selected socket |
| Placement.IdleIsPassedOver | src/servicesManager.cpp:705-716 | such a process changes nothing |
| Placement.ChildIsFiled | src/servicesManager.cpp:276-284 | an unknown child becomes the last sub-process of the first service that knows its parent, and nothing else changes |
| Placement.VisitCreates | src/servicesManager.cpp:712-726 | the service made of a process is named after its program, keyed by the first socket it holds, and has exactly the sockets it holds |
| Placement.UnitCreates | services/sdbus/systemdbus.cpp:320-329 | the service made of a unit is named after its program and keyed by the unit |
| Placement.UnitKnowsExactly | services/sdbus/systemdbus.cpp:311-330 | the process of a unit is known afterwards exactly when it was or its program has a name |
| Placement.MatchesExactly | src/services.cpp:786-795 | equal are services of one name and type, the sources of the newcomer all being listed |
| Placement.NeedsExactly | src/services.cpp:774-785 | a socket is lacking that is listed, held by no live main process, and offered by the newcomer |
| Placement.BaseNameIs | src/services.cpp:126-131 | the name of a program is what follows the last slash of its path |
| Placement.ListedExactly | src/servicesManager.cpp:617-636 | a process is listed exactly when a rule gives its name, or gives no name and its path |
| Placement.ExeOfReplaced | src/services.cpp:115-127 | the mark of a replaced file is taken off a path, and nothing else is |
| ServiceConfig.MissingMembers | src/services.cpp:389-408 | without its members the key is that of the first socket, the host that of the machine; the name is that of the first process |
| SocketCodec.DottedFails | src/services.cpp:54-56 | an extraction at the end assigns nothing, one without a digit 0, one that overflows the largest value; the fields behind keep what they held |
| Numerals.StrtoulExtremes | src/services.cpp:51-65 | the numbers read saturate, and a negative one wraps around |
| Chunked.CutShort | sws/client_http.hpp:476-491 | a chunked body of which any part at the end is missing is never taken for a whole one |
| Chunked.LostConnectionFails | sws/client_http.hpp:476-491 | a connection lost before the end of the last chunk is an error for the callback, wherever it is lost and however the bytes before arrived |
| Chunked.BadLengthThrows | sws/client_http.hpp:445 | a length that is no number or does not fit throws |
| HttpHeader.SameNameExactly | sws/utility.hpp:21-26 | names are compared character by character, letters in either case |
| HttpHeader.LengthReads | sws/server_http.hpp:333 | a length is the number its digits make, if that fits |
| HttpHeader.LengthUnreadable | sws/server_http.hpp:332-339 | a value that starts with no digit, blank or sign is no length |
| HttpHeader.FieldForms | sws/server_http.hpp:385-393 | a field may do without the blank behind its colon, and one that ends with the colon is dropped |
| HttpRequest.AnyCaseServed | sws/server_http.hpp:329-360 | a request whose single length field spells its name in any case and reads as the length of the body is served with that body, for every arrival |
| HttpRequest.AnyCaseCutShort | sws/server_http.hpp:341-364 | as long as any part of it is missing the handler is not called and the end of the stream is an error |
| HttpRequest.RequestCutShort | sws/server_http.hpp:341-364 | the same for every printed request |
| HttpRequest.UnreadableLengthRejected | sws/server_http.hpp:332-339 | a request with a length that cannot be read reaches no handler |
| HttpRequest.AcceptedExactly | sws/server_http.hpp:366-405 | a line is accepted exactly when it is a method, a path and a version in the form of HTTP, and split there |
| HttpResponse.StatusLineRead | sws/client_http.hpp:326-332 | version and status of any status line are read back |
| HttpResponse.AnyCaseRead | sws/client_http.hpp:376-395 | a response whose single length field spells its name in any case is read with exactly so many bytes, for every arrival |
| HttpResponse.AnyCaseCutShort | sws/client_http.hpp:379-394 | cut short, it is an error, or a lost connection within the header |
| HttpResponse.ChunkedResponseCutShort | sws/client_http.hpp:396-399 | a chunked response that is cut anywhere behind its header is an error for the callback, and a lost connection within it |
| HttpResponse.ReadUntilClosed | sws/client_http.hpp:400-417 | a response of an earlier version, or one that says so, without a length is all that comes until the connection closes |
| HttpResponse.LexLessExactly | sws/client_http.hpp:400 | versions are compared at the first position where they differ |
| ClientSession.LostHeader | sws/client_http.hpp:421-432 | in every reachable state a header that cannot be read makes the session reconnect the first time, its connection in use and closed, and calls back the second time, releasing it |
| ClientSession.OtherFailure | sws/client_http.hpp:349-361 | any other operation that fails calls back at once and releases the connection, closed |
| ClientSession.OperationSucceeds | sws/client_http.hpp:349-493 | one that succeeds is followed by the next over the same connection or by the callback |
| ClientSession.AcquireReuses | sws/client_http.hpp:254-274 | the first idle connection is used again as it is, and a new one made exactly when none is idle |
| ClientSession.RequestStarts | sws/client_http.hpp:519-550 | a session writes at once over an open connection and resolves first otherwise |
| Query.DecodeInvertsEncodeForm | sws/utility.hpp:63-70 | a blank may be encoded as a plus sign |
| Query.DecodeAnyEscape | sws/utility.hpp:58-62 | escapes hold digits of either case |
| Query.DecodePlainText | sws/utility.hpp:57-70 | other text stays, and so does a percent sign too close to the end |
| Query.FieldForms | sws/utility.hpp:86-91 | a field without an equals sign is a key with an empty value, one without a key is dropped |
| History.NewestRow | src/collectors.cpp:39-48 | the newest row holds for every property the value it was set to last, however many ticks ago, and the time of the last tick |
| History.LogChangesLast | src/collectors.cpp:39-52 | nothing but the newest row is ever changed |
| PidAccumulation.HistoryIsKept | src/collectors.cpp:39-52 | after every run the history holds the last `size` of the rows the ticks made, each as it stood when its round was over |
| PidAccumulation.FrontIsTimed | src/collectors.cpp:39-47 | the row at the front carries the time of the last tick |
| IoCollector.CollectsExactly | services/io.cpp:21-45 | a round reports exactly the counters in the files of the listed processes, with their values |
| StopProtocol.WorkerGoesOn | src/servicesManager.cpp:179-190 | as long as it is not told to stop the worker does not exit |
| StopProtocol.TimeoutStartsRound | src/servicesManager.cpp:181-189 | a wait that times out leads to another round |
| StopProtocol.SpuriousWakeWaits | include/collectors.h:100-103 | any other waking leads back to the wait |

## Left out

- ClientSession.CallbackExactlyOnce: says that a session has called back or waits for one operation, not that the network ends every operation; handlers do not throw, headers and chunk lengths being readable there (`HttpResponse` and `Chunked` say what happens when they are not).
- StopProtocol.JoinReturns: counts from the moment `terminate` is set; that the waiting destructor is ever granted the mutex is the scheduler's part, `StopProtocol.MutexIsReleased` says that it is released.
- PidAccumulation.PidRessource.Tick: once a value is known it asks for a history that keeps at least one row, and `History.Ressource.Set` for a row to write to, as the code does without checking.
- HttpRequest.RequestRoundTrip: the fields of a multimap keep the order of a sequence; a lookup may give any field with the name.
- Process objects are values: a `process` shared between two services is not seen to change in both. The merge that shares one discards the other holder at once.
- A sign in front of a group of a dotted address: extraction takes it for a character that is no digit. The fields of a socket that its constructors leave unset hold arbitrary values, which are parameters.
- Which lines of the kernel's socket tables are selected (listening states, the loopback filter): the selected table is an input. Reading `/proc` itself is the snapshot.
- Loading plugins, the JSON text of a configuration (a configuration is its four members), its "collectors" and "parsers" members, handlers, log monitors, and writing template files.
- `isBlackout` of the unit handler, which adds a process after asking only its own service: it is not a step of the runs.
- Proxies, TLS, timeouts as time, pipelining, chunk trailers, routing, and the content of a response that was retried after a reconnect (its buffer is not cleared).
- Rounding of doubles: arithmetic is on reals. Timestamps are arbitrary numbers, increasing where a theorem says so.
- Data races on unguarded flags and lists: each step is atomic.
- Shutdown of collectors and log parsers, which join their threads while holding the lock these need; incremental log reading; pages, swagger output, Lua bindings, status codes and the simple collectors.
