# A verified model of rmw_zzdds

`rmw_zzdds` puts the ROS 2 middleware interface (RMW) on top of zzdds, an
implementation of OMG DDS. This project models the parts of it that keep state
or transform data, in Dafny, and proves what they promise. Run
`dafny verify dfyconfig.toml` to check all of it.

## What is modelled

**Events** (`EventStatus`, `EventSlot`, `EventEndpoint`, `EventProtocol`,
`EventRuns`, `EventQuiescence`, `EventFailures`). Each (endpoint, event type)
keeps zzdds's status with its untaken changes, a count of untaken events, how
many of them a callback was told about, a callback and a guard condition, under
one mutex. `EventEndpoint.Endpoint` has these fields and one method for each
critical section; the method's contract ties it to a function of `EventSlot`.
`EventProtocol` interleaves those sections with transitions of zzdds and with
late, unordered listener runs. Status meanings are those of section 2.2.4.1 of
OMG DDS 1.4: a getter reports the fold of the whole history. `EventRuns` proves
the invariant of every interleaving and theorems over whole runs.

The design comment of the source says that every change is counted exactly once.
`EventQuiescence` says exactly when, for every type but liveliness changed: in
every run something is uncounted exactly as long as no section has counted since
the newest transition (`UncountedUntilCounted`). So when no listener run is
pending and the getter calls of listeners succeed, a transition is missed exactly
when the newest one happened without an installed listener and nothing has counted
since (`MissedIffUnwatched`). A run in which this cannot happen once the event is
initialised is *disciplined*:

- the getter calls of listeners and of the end of an initialisation succeed;
- a matched-count query between the creation of an event's guard and the
  installation of its listener finds nothing;
- a listener mask that includes the status is installed only when no older mask
  that lacks it is still to be installed.

At the quiescence of a disciplined run nothing is missed. In every run, a
registered callback has not been told everything counted exactly when an
initialisation counted something while it was registered and neither a
registration nor a take has caught up since (`LateIffLeftBehind`). The code does
not enforce the discipline; `EventFailures` gives the exact condition of each
failing section and runs, from the start, that end with something missed or
untold.

**Type support** (`Bytes`, `Cdr*`). The generator is a compiler from ROS message
types to code that writes and reads XCDR1 (section 7.4.1 of DDS-XTypes 1.3), with
a back end for C++ and one for C messages. `CdrWriter` and `CdrReader` hold the
statements that it emits, the generator as a function, and an interpreter with
names, scopes and loop variables; an undeclared or redeclared local, an access out
of bounds and an allocation beyond the remaining bytes are the outcome `Stuck`.
`CdrTypes` holds the direct encoder and decoder that the emitted code is compared
with; `CdrLayout` gives the bytes that it writes and accepts for each kind of type,
and `CdrVector` the two vectors of bytes in the repository's tests. `CdrMessages` holds the generator's loops as methods, with the shared
counter, and the theorems about whole messages. A message nested in another is its
list of members. The C generator refuses types in which a sequence directly holds
an array or a sequence; the theorems are about every message for which a back end
generates code (and, for reading, whose sequence elements take at least one byte),
which includes all of rosidl's. The loops of the C writer, which share one
variable, would be wrong for sequences of sequences (`CdrNesting`), but that text
is never put into a file.

**Taking, loans and services** (`Taking`, `Loans`, `LoanRuns`, `ServiceFrames`,
`ServiceRuns`). zzdds's replies to `take_raw` are a script, and loans have to be
given back once. The take functions are described by that script with the
samples of ignored local publications filtered out. Loaned messages are modelled
as an endpoint with a set, and as runs of several threads whose calls are cut
where the mutex is released. Service messages are frames on top of this; runs
have any number of clients and servers, and a network that delivers published
frames late, in any order and repeatedly. GUIDs of different clients differ, and
servers answer only requests that they took.

**Wait set** (`Durations`, `WaitSets`). The five attach loops with rollback, the
wait, whose answer is a parameter, and the five result loops over arrays. The
number of entries is taken to be below 2^64.

**Discovery and names** (`Discovery`, `Strings`, `TypeNames`, `ServiceGraph`).
The index from instances to endpoints against the graph cache, and the manglings
of types, services and topics. Instance handles and key hashes are taken to
determine each other and to differ from local GIDs.

## What the code does that its documentation does not say

- A matched-count query while an event is being initialised, and two concurrent
  initialisations on one endpoint, can leave events uncounted with no listener
  run to come for them (`EventFailures.QueryDuringInitRun`,
  `EventFailures.StaleMaskRun`), although `rmw_event.cpp:71-82` says that every
  change is counted exactly once and that the listener of every initialised event
  stays installed. They stay uncounted until the next section that counts: after
  the query that is the listener run of the next transition, a take or another
  query; after the stale installation no listener runs until another
  initialisation (`EventQuiescence.UnwatchedUntilInstalled`).
- Initialising an event again while it has a callback counts events without
  telling the callback (`EventFailures.ReinitialisedRun`).
- The comment at `__init__.py:322-324` says that every valid element takes at
  least one byte; an empty structure or array takes none, and a sequence of them
  is refused (`CdrWire.CheckRefusesEmptyElement`). ROS messages without members
  get a dummy member, so `CdrTypes.WellFormed` excludes them.
- A batch of discovery data that is cut short loses the samples after the broken
  one, so an endpoint that was reported gone stays in the cache
  (`Discovery.CutShortKeepsGoneEndpoint`); and when consuming the readers fails,
  the change of the writers is not announced by that call
  (`Discovery.WriterFoundSilently`).
- A ROS topic that begins with `/rq` or `/rr` is not listed, whatever follows
  (`ServiceGraph.TopicRoundTrip`).
- A type with a namespace `dds_` between others demangles to another name
  (`TypeNames.DemanglingRoundTrip`).
- The largest timeout means forever for acknowledgments but is refused by a wait
  (`Durations.ForeverIsOutOfRange`).

## Model

| member | source | states |
|---|---|---|
| `EventStatus.AddChangesCatchesUp` | rmw_zzdds_cpp/src/rmw_event.cpp:96-179 | Adding the changes to a stored status that has read a prefix of the history gives the status that has read all of it, with the changes since the last take, the newest counts and the last-handle or last-policy field of the newest occurrence |
| `EventStatus.UntakenExact` | rmw_zzdds_cpp/src/rmw_event.cpp:181-200 | For every type but liveliness changed, untaken_events is exactly the number of transitions between the last take and the latest read (matches plus unmatches, or occurrences), so no conversion to size_t loses anything |
| `EventStatus.EstimateBounded` | rmw_zzdds_cpp/src/rmw_event.cpp:194-198 | The liveliness estimate never exceeds the number of transitions it stands for |
| `EventStatus.EstimateIsLargest` | rmw_zzdds_cpp/src/rmw_event.cpp:194-198 | The estimate is the larger of the two absolute changes, so an initialisation finds it zero only when neither count changed |
| `EventStatus.ChangesAreDifferences` | rmw_zzdds_cpp/src/rmw_event.cpp:96-179 | The change fields are the difference between the counts now and at the last take |
| `EventStatus.BaselineIsLastTake` | rmw_zzdds_cpp/src/rmw_event.cpp:402-416 | For liveliness changed, count minus change is exactly the status at the last take |
| `EventStatus.TakenStatus` | rmw_zzdds_cpp/src/rmw_event.cpp:674-708 | Zeroing the change fields gives the status whose last take is its latest read |
| `EventEndpoint.Endpoint.constructor` | rmw_zzdds_cpp/include/rmw_zzdds_cpp/endpoint_impl.hpp:35-46 | A new endpoint has no guards, callbacks or counts, and zero statuses |
| `EventEndpoint.Endpoint.ReadStatus` | rmw_zzdds_cpp/src/rmw_event.cpp:202-301 | A successful getter call advances the stored status of its type, a failed one changes nothing; no other type changes |
| `EventEndpoint.Endpoint.CountEventsLocked` | rmw_zzdds_cpp/src/rmw_event.cpp:306-316 | Counting triggers the guard, and counts as reported exactly when there is a callback, which is then told the same number |
| `EventEndpoint.Endpoint.UncountedEvents` | rmw_zzdds_cpp/src/rmw_event.cpp:340-345 | Adding the result to the count gives the larger of the count and the untaken events, so the subtraction never wraps |
| `EventEndpoint.Endpoint.OnStatus` | rmw_zzdds_cpp/src/rmw_event.cpp:322-357 | A listener run is the read, then the exact or (for liveliness) the estimating count; even a failed read is followed by counting; no other type changes |
| `EventEndpoint.Endpoint.ReadMatchedCount` | rmw_zzdds_cpp/src/rmw_event.cpp:362-381 | A matched-count query counts what its read found exactly when the event exists; without a guard it only reads |
| `EventEndpoint.Endpoint.SetCallback` | rmw_zzdds_cpp/src/rmw_event.cpp:791-795 | The first section of registration stores the callback given, also when that is none, and changes nothing else |
| `EventEndpoint.Endpoint.AfterSetCallback` | rmw_zzdds_cpp/src/rmw_event.cpp:434-450 | The second section tells a callback what no callback was told and marks it reported; with no callback it changes nothing |
| `EventEndpoint.Endpoint.CreateGuard` | rmw_zzdds_cpp/src/rmw_event.cpp:510-519 | Creates the guard once, untriggered; fails, changing nothing, when there is none and none can be created |
| `EventEndpoint.Endpoint.ListenerMask` | rmw_zzdds_cpp/src/rmw_event.cpp:474-483 | The mask covers exactly the statuses among the endpoint's types whose event has a guard |
| `EventEndpoint.Endpoint.FinishInit` | rmw_zzdds_cpp/src/rmw_event.cpp:524-533 | Reads, fills in the count only if it is zero, and sets the trigger to whether the count is non-zero |
| `EventEndpoint.Endpoint.TakeEvent` | rmw_zzdds_cpp/src/rmw_event.cpp:668-775 | A take hands out the status with its changes, zeroes the changes, the count and the reported count and clears the trigger; a failed read leaves all of it |
| `EventSlot.ReadingAdds` | rmw_zzdds_cpp/src/rmw_event.cpp:96-179 | A successful reading takes over the counts reported and adds the differences to the changes; a failed one changes nothing |
| `EventSlot.CountingTriggers` | rmw_zzdds_cpp/src/rmw_event.cpp:306-316 | Below the limit of size_t, counting adds to the count, triggers an existing guard, and tells and counts as reported if and only if there is a callback |
| `EventSlot.ListeningCounts` | rmw_zzdds_cpp/src/rmw_event.cpp:318-381 | A listener, even when its reading fails, brings the count up to the untaken events, or for liveliness counts one event unless the counts passed are those of the last take, and tells what it counts; a matched-count query does so only with a reading and a guard |
| `EventSlot.RegistrationTells` | rmw_zzdds_cpp/src/rmw_event.cpp:434-450 | The second section of a registration tells exactly the difference of count and reported count, unless that is zero or there is no callback |
| `EventSlot.InitialisationFills` | rmw_zzdds_cpp/src/rmw_event.cpp:510-533 | A missing guard is created untriggered; the last section fills in a zero count only, and triggers exactly for a non-zero count |
| `EventSlot.TakeResets` | rmw_zzdds_cpp/src/rmw_event.cpp:668-775 | A take that fails changes nothing; one that succeeds leaves no change, count, reported count or trigger and keeps the callback, and what it hands out is the status read, whenever size_t can hold its counts |
| `EventProtocol.CountingExact` | rmw_zzdds_cpp/src/rmw_event.cpp:338-357 | A listener that runs after any other reads leaves the count equal to the untaken transitions it can see, tells the difference, and never decreases the count |
| `EventProtocol.TakeSettles` | rmw_zzdds_cpp/src/rmw_event.cpp:660-775 | A successful take hands out exactly the changes since the previous take and leaves nothing counted or untaken |
| `EventProtocol.ListenerKeepsInv` | rmw_zzdds_cpp/src/rmw_event.cpp:322-357 | A late listener run, in any order, keeps the invariant |
| `EventProtocol.MatchedQueryKeepsInv` | rmw_zzdds_cpp/src/rmw_event.cpp:362-381 | A matched-count query keeps the invariant |
| `EventProtocol.TakeKeepsInv` | rmw_zzdds_cpp/src/rmw_event.cpp:660-775 | A take keeps the invariant |
| `EventProtocol.AfterSetCallbackKeepsInv` | rmw_zzdds_cpp/src/rmw_event.cpp:434-450 | The second section of a registration keeps the invariant |
| `EventProtocol.InitKeepsInv` | rmw_zzdds_cpp/src/rmw_event.cpp:494-538 | Every section of initialisation, including the separate installation of the listener, keeps the invariant |
| `EventProtocol.StepKeepsInv` | rmw_zzdds_cpp/src/rmw_event.cpp:65-94 | Every step of the protocol keeps the invariant: the stored status is the fold of a prefix, nothing is counted without a guard, trigger means counted, reported <= counted <= untaken, and what was handed out and told is conserved |
| `EventRuns.RunKeepsInv` | rmw_zzdds_cpp/src/rmw_event.cpp:65-94 | The invariant holds at every mutex release of every interleaving |
| `EventRuns.Conservation` | rmw_zzdds_cpp/src/rmw_event.cpp:96-179 | In every run the sum of all changes handed out by takes plus the untaken changes is the stored count, which is zzdds's count at the latest read |
| `EventRuns.PrefixGrows` | rmw_zzdds_cpp/src/rmw_event.cpp:65-76 | In every run the stored status is the fold of a prefix of the history, and the prefix and the taken part of it only grow |
| `EventRuns.ReportedCountedUntaken` | rmw_zzdds_cpp/src/rmw_event.cpp:303-345 | In every run reported <= counted, nothing wraps, and an existing guard is triggered exactly when something is counted; for every type but liveliness changed also counted <= untaken events |
| `EventRuns.NeverOvertold` | rmw_zzdds_cpp/src/rmw_event.cpp:78-92 | For every type but liveliness changed: over a whole run all callbacks together are told of no more events than zzdds made transitions |
| `EventRuns.ReportedWasTold` | rmw_zzdds_cpp/src/rmw_event.cpp:303-336 | In every run the reported count is exactly the number of events told to callbacks since the last take |
| `EventRuns.MatchedCountExact` | rmw_zzdds_cpp/src/rmw_event.cpp:362-381 | In every run a matched-count query answers with matches minus unmatches at that moment |
| `EventRuns.LivelinessBaseline` | rmw_zzdds_cpp/src/rmw_event.cpp:402-416 | In every run a liveliness listener counts one event exactly when the status passed to it differs from the one at the last take |
| `EventRuns.CallbackIsNewest` | rmw_zzdds_cpp/src/rmw_event.cpp:782-809 | In every run the registered callback, with its user data, is that of the newest registration, and none after a registration of none |
| `EventRuns.TellsNewest` | rmw_zzdds_cpp/src/rmw_event.cpp:306-336 | In every run each step tells nothing or tells at least one event, once, to the callback and user data of the newest registration |
| `EventRuns.ClearedIsSilent` | rmw_zzdds_cpp/src/rmw_event.cpp:782-809 | After a registration of none nothing is told until another callback is registered |
| `EventQuiescence.StepCounts` | rmw_zzdds_cpp/src/rmw_event.cpp:318-381 | A transition leaves something uncounted; a successful take or query on an existing event, and a listener run or an initialisation that ends with a zero count whose reading is up to date, leave nothing uncounted; whether something is uncounted does not change otherwise |
| `EventQuiescence.UncountedUntilCounted` | rmw_zzdds_cpp/src/rmw_event.cpp:65-84 | In every run, for every type but liveliness changed, something is uncounted exactly when no section has counted since the newest transition |
| `EventQuiescence.MissedIffUnwatched` | rmw_zzdds_cpp/src/rmw_event.cpp:65-84 | When no listener run is pending and the getter calls of listeners succeeded, something is missed exactly when the newest transition happened without an installed listener and no section has counted since |
| `EventQuiescence.UnwatchedUntilInstalled` | rmw_zzdds_cpp/src/rmw_event.cpp:464-492 | Without an installed listener and a pending run, no listener runs until a mask that includes the status is installed |
| `EventQuiescence.NothingMissed` | rmw_zzdds_cpp/src/rmw_event.cpp:65-84 | At quiescence of a disciplined run (see above) the counted events are exactly the transitions since the last take |
| `EventQuiescence.LateIffLeftBehind` | rmw_zzdds_cpp/src/rmw_event.cpp:432-450 | In every run, of every type, a registered callback has not been told all counted events exactly when an initialisation counted something without telling it and neither a registration nor a take has caught up since |
| `EventQuiescence.EverythingToldIff` | rmw_zzdds_cpp/src/rmw_event.cpp:432-450 | When no listener run is pending and the getter calls of listeners succeeded, the events told since the last take are exactly the transitions since then if and only if none went unwatched and no initialisation left the callback behind |
| `EventQuiescence.EverythingTold` | rmw_zzdds_cpp/src/rmw_event.cpp:432-450 | At quiescence of a disciplined run the events told since the last take are exactly the transitions since then if and only if no initialisation left the callback behind |
| `EventFailures.FinishInitMisses` | rmw_zzdds_cpp/src/rmw_event.cpp:525-530 | The last section of an initialisation leaves something uncounted exactly when the count is not zero and less than what its reading finds |
| `EventFailures.FinishInitTells` | rmw_zzdds_cpp/src/rmw_event.cpp:524-533 | It leaves a registered callback behind exactly when nothing had been counted and its reading finds something |
| `EventFailures.QueryDuringInitLosesEvents` | rmw_zzdds_cpp/src/rmw_event.cpp:520-533 | A transition after a matched-count query, both between the computation of the listener mask and its installation, is uncounted at the end of the initialisation, with no listener run pending, exactly when the query found something |
| `EventFailures.QueryDuringInitRun` | rmw_zzdds_cpp/src/rmw_event.cpp:494-538 | A complete run, from the start, that ends in that state |
| `EventFailures.StaleMaskLosesEvents` | rmw_zzdds_cpp/src/rmw_event.cpp:464-492 | After an installation the next transition has a listener run exactly when the installed mask includes the status |
| `EventFailures.StaleMaskRun` | rmw_zzdds_cpp/src/rmw_event.cpp:464-538 | A complete run in which two initialisations on one endpoint end with the listener uninstalled and a transition uncounted, with no run pending and no mask left to be installed |
| `EventFailures.ReinitialisedRun` | rmw_zzdds_cpp/src/rmw_event.cpp:494-538 | A complete run in which initialising again counts a transition that no callback is told of, with nothing pending |
| `Bytes.FromToBytes` | rosidl_typesupport_zzdds_cpp/rosidl_typesupport_zzdds_cpp/__init__.py:33-48 | An integer of a fixed width survives being written and read in either byte order |
| `Bytes.ToFromBytes` | rosidl_typesupport_zzdds_cpp/rosidl_typesupport_zzdds_cpp/__init__.py:33-48 | Bytes survive being read and written as an integer |
| `CdrTypes.Padding` | rosidl_typesupport_zzdds_cpp/rosidl_typesupport_zzdds_cpp/__init__.py:33-48 | The least padding that aligns a position, counted from the end of the encapsulation header |
| `Bytes.ToBytesIsNumber` | rosidl_typesupport_zzdds_cpp/rosidl_typesupport_zzdds_cpp/__init__.py:33-48 | The bytes of a number of each width, in both orders, against a table of quotients by the powers of 256 |
| `CdrLayout.ScalarLayout` | rosidl_typesupport_zzdds_cpp/rosidl_typesupport_zzdds_cpp/__init__.py:33-48 | Each primitive takes its width of 1, 2, 4 or 8 bytes, in the byte order, after the zeros that align it |
| `CdrLayout.TextLayout` | rosidl_typesupport_zzdds_cpp/rosidl_typesupport_zzdds_cpp/__init__.py:134-146 | A string is its length plus one in four aligned bytes, its bytes and a zero; it is in bounds exactly up to its bound and below 2^32 - 1 |
| `CdrLayout.UnitLayout` | rosidl_typesupport_zzdds_cpp/rosidl_typesupport_zzdds_cpp/__init__.py:147-160 | Each unit of a wide string takes two bytes, in order |
| `CdrLayout.WideLayout` | rosidl_typesupport_zzdds_cpp/rosidl_typesupport_zzdds_cpp/__init__.py:147-160 | A wide string is twice its length in four aligned bytes and its units of two bytes each, without a terminator |
| `CdrLayout.ContainerLayout` | rosidl_typesupport_zzdds_cpp/rosidl_typesupport_zzdds_cpp/__init__.py:161-186 | A sequence is its length in four aligned bytes and then its elements; arrays and messages are their elements and members alone |
| `CdrLayout.ElementsLayout` | rosidl_typesupport_zzdds_cpp/rosidl_typesupport_zzdds_cpp/__init__.py:165-186 | One more element comes after the bytes of those before it, at the position they end |
| `CdrLayout.MembersLayout` | rosidl_typesupport_zzdds_cpp/rosidl_typesupport_zzdds_cpp/__init__.py:190-196 | The same for one more member |
| `CdrLayout.ScalarAccepted` | rosidl_typesupport_zzdds_cpp/rosidl_typesupport_zzdds_cpp/__init__.py:254-265 | A primitive is read as v exactly where the bytes of v are, after any bytes in the gap; only a bool refuses bytes, those above 1 |
| `CdrLayout.TextAccepted` | rosidl_typesupport_zzdds_cpp/rosidl_typesupport_zzdds_cpp/__init__.py:266-279 | A string is read exactly from a length of at least one, its bytes and a zero, within the buffer and the bound |
| `CdrLayout.WideAccepted` | rosidl_typesupport_zzdds_cpp/rosidl_typesupport_zzdds_cpp/__init__.py:280-306 | A wide string is read exactly from an even length in bytes and that many bytes of units, within the buffer and the bound |
| `CdrLayout.SequenceAccepted` | rosidl_typesupport_zzdds_cpp/rosidl_typesupport_zzdds_cpp/__init__.py:316-339 | A sequence is read exactly from a length within the bound and that many elements after it |
| `CdrWire.DecodeInvertsEncode` | rosidl_typesupport_zzdds_cpp/rosidl_typesupport_zzdds_cpp/__init__.py:250-340 | Decoding the direct encoding of any in-bounds value, at any position and before any suffix, gives the value and stops at the suffix |
| `CdrWire.MembersRoundTrip` | rosidl_typesupport_zzdds_cpp/rosidl_typesupport_zzdds_cpp/__init__.py:343-349 | The same for the members of a message |
| `CdrWire.WellFormedSequencesOccupy` | rosidl_typesupport_zzdds_cpp/rosidl_typesupport_zzdds_cpp/__init__.py:322-326 | In a type without empty structures and arrays every sequence element takes at least one byte, by induction over types |
| `CdrWire.CheckIsHarmless` | rosidl_typesupport_zzdds_cpp/rosidl_typesupport_zzdds_cpp/__init__.py:322-326 | For such types the up-front length check never changes what is accepted, decoded or consumed, on any input |
| `CdrWire.CheckHarmlessIffOccupies` | rosidl_typesupport_zzdds_cpp/rosidl_typesupport_zzdds_cpp/__init__.py:322-326 | The check is harmless on all inputs exactly when elements take at least one byte |
| `CdrWire.CheckRefusesEmptyElement` | rosidl_typesupport_zzdds_cpp/rosidl_typesupport_zzdds_cpp/__init__.py:322-326 | For elements of no bytes it refuses a valid encoding |
| `CdrWire.DecodedInBounds` | rosidl_typesupport_zzdds_cpp/rosidl_typesupport_zzdds_cpp/__init__.py:266-339 | Whatever the input, a decoded value has the shape and the bounds of its type |
| `CdrObjects.ReplaceThenAt` | rosidl_typesupport_zzdds_cpp/rosidl_typesupport_zzdds_cpp/__init__.py:336-337 | Assigning to a part of an object and reading it back gives what was assigned |
| `CdrWriter.WriterCorrect` | rosidl_typesupport_zzdds_cpp/rosidl_typesupport_zzdds_cpp/__init__.py:124-187 | Running the statements that either generator emits to write a type writes its direct encoding, or returns false exactly when the value is out of bounds; it never gets stuck |
| `CdrWriter.MembersCorrect` | rosidl_typesupport_zzdds_cpp/rosidl_typesupport_zzdds_cpp/__init__.py:190-196 | The same for the members kept by serialize_members |
| `CdrWriter.KeptAppends` | rosidl_typesupport_zzdds_cpp/rosidl_typesupport_zzdds_cpp/__init__.py:190-196 | The kept members are in the order of the message, each kept one once |
| `CdrNesting.CorrectIffSupported` | rosidl_typesupport_zzdds_cpp/rosidl_typesupport_zzdds_cpp/__init__.py:420-441 | The text of _c_write_value alone, for every type with non-empty arrays and sequences: it is correct on all values exactly when no sequence is directly an element of a sequence |
| `CdrNesting.Overruns` | rosidl_typesupport_zzdds_cpp/rosidl_typesupport_zzdds_cpp/__init__.py:436-440 | For the other such types, for which reading raises and so no file results, that text would run out of bounds |
| `CdrNesting.NestedSequenceMiswritten` | rosidl_typesupport_zzdds_cpp/rosidl_typesupport_zzdds_cpp/__init__.py:436-440 | The smallest such case, one octet in a sequence in a sequence |
| `CdrReaderCorrect.ReaderCorrect` | rosidl_typesupport_zzdds_cpp/rosidl_typesupport_zzdds_cpp/__init__.py:250-340 | Running the statements that either generator emits to read a type makes the decision of the checked decoder on every input, fills in its value whatever the object held, stops where it stops, keeps numbered locals distinct, and never allocates more elements than bytes remain |
| `CdrReaderCorrect.MembersFill` | rosidl_typesupport_zzdds_cpp/rosidl_typesupport_zzdds_cpp/__init__.py:343-349 | The same for all members of a message, with one counter |
| `CdrReaderCorrect.LoopFills` | rosidl_typesupport_zzdds_cpp/rosidl_typesupport_zzdds_cpp/__init__.py:332-338 | An emitted element loop decodes one element per index into its place |
| `CdrReaderCorrect.SizeIsChecked` | rosidl_typesupport_zzdds_cpp/rosidl_typesupport_zzdds_cpp/__init__.py:316-330 | What follows the reading of a length, so also the resize, runs only if the length is within the remaining bytes and the bound; otherwise the reader returns false |
| `CdrNames.CppGenerates` | rosidl_typesupport_zzdds_cpp/rosidl_typesupport_zzdds_cpp/__init__.py:316-339 | The C++ back end generates code for every type |
| `CdrNames.GeneratedSupported` | rosidl_typesupport_zzdds_cpp/rosidl_typesupport_zzdds_cpp/__init__.py:455-473 | Every type for which the C back end generates code is one for which its writer text is correct |
| `CdrNames.WellFormedGenerated` | rosidl_typesupport_zzdds_cpp/rosidl_typesupport_zzdds_cpp/__init__.py:455-473 | Both back ends generate code for every rosidl type |
| `CdrMessages.SequenceFunctions` | rosidl_typesupport_zzdds_cpp/rosidl_typesupport_zzdds_cpp/__init__.py:455-473 | Knows the runtime functions of exactly the element types that are neither arrays nor sequences |
| `CdrMessages.ReadValue` | rosidl_typesupport_zzdds_cpp/rosidl_typesupport_zzdds_cpp/__init__.py:250-340 | The imperative generator, with its shared counter, raises exactly when, for C, some sequence directly holds an array or a sequence, and otherwise emits the statements the theorems are about and leaves the same counter |
| `CdrMessages.DeserializeMembers` | rosidl_typesupport_zzdds_cpp/rosidl_typesupport_zzdds_cpp/__init__.py:343-349 | The loop over members, with a fresh counter, raises exactly then, and otherwise emits those statements |
| `CdrMessages.SerializeMembers` | rosidl_typesupport_zzdds_cpp/rosidl_typesupport_zzdds_cpp/__init__.py:190-196 | The loop over members, with keys_only, emits the statements for the members it keeps |
| `CdrMessages.GenerateFile` | rosidl_typesupport_zzdds_c/resource/idl__type_support_c.cpp.em:70-153 | A file results exactly for messages in which, for C, no sequence directly holds an array or a sequence, with the statements the theorems are about |
| `CdrMessages.WellFormedMessages` | rosidl_typesupport_zzdds_cpp/rosidl_typesupport_zzdds_cpp/__init__.py:455-473 | For rosidl messages both back ends generate a file and sequence elements take room, as the next theorems ask |
| `CdrMessages.SerializeEncodes` | rosidl_typesupport_zzdds_cpp/resource/idl__type_support.cpp.em:58-81 | Every generated serializer writes the header and the direct encoding, or refuses exactly what is out of bounds |
| `CdrVector.GoldenVector` | rmw_zzdds_test/test/test_static_type_support.cpp:27-78 | Either back end serializes the record of the tests to the 64 bytes that they expect, header included |
| `CdrVector.KeyVector` | rmw_zzdds_test/test/test_static_type_support.cpp:147-172 | What either back end hashes for the keyed record of the tests is 01 02 03 04, whatever its label |
| `CdrMessages.DeserializeDecodes` | rosidl_typesupport_zzdds_cpp/resource/idl__type_support.cpp.em:64-96 | Every generated deserializer, for messages whose sequence elements take room, agrees with the direct decoder on every payload, whatever the object held before |
| `CdrMessages.RoundTrip` | rosidl_typesupport_zzdds_cpp/resource/idl__type_support.cpp.em:58-96 | What either back end wrote, followed by anything, either back end reads back |
| `CdrMessages.BackendsAgree` | rosidl_typesupport_zzdds_cpp/rosidl_typesupport_zzdds_cpp/__init__.py:385-569 | Where both back ends generate code, they write the same bytes and key bytes, and accept the same payloads with the same result |
| `CdrMessages.DeserializedIsWritable` | rosidl_typesupport_zzdds_cpp/resource/idl__type_support.cpp.em:58-96 | Whatever was deserialized can be serialized |
| `CdrMessages.HeaderNamesOrder` | rosidl_typesupport_zzdds_cpp/resource/idl__type_support.cpp.em:83-96 | A payload is read as big endian behind 00 00 and as little endian behind 00 01, whatever the two bytes of options |
| `CdrMessages.OtherHeadersRefused` | rosidl_typesupport_zzdds_cpp/resource/idl__type_support.cpp.em:83-96 | Any other header, or a payload without one, is refused |
| `CdrMessages.KeyBytesEncode` | rosidl_typesupport_zzdds_cpp/resource/idl__type_support.cpp.em:128-150 | What is hashed is the big-endian encoding of the key members alone, from position zero, if they are in bounds |
| `CdrMessages.KeyBytesIdentifyKeys` | rosidl_typesupport_zzdds_cpp/resource/idl__type_support.cpp.em:128-150 | The key bytes of two messages are equal exactly when their @key members are |
| `ServiceFrames.SequenceRoundTrip` | rmw_zzdds_cpp/src/rmw_service.cpp:48-63 | Decoding an encoded sequence number gives it back, for every int64 |
| `ServiceFrames.BytesRoundTrip` | rmw_zzdds_cpp/src/rmw_service.cpp:48-63 | Encoding a decoded one gives the bytes back, for every eight bytes |
| `ServiceFrames.EncodeSequence` | rmw_zzdds_cpp/src/rmw_service.cpp:48-54 | The loop writes the big-endian two's complement form and no other byte of the buffer |
| `ServiceFrames.DecodeSequence` | rmw_zzdds_cpp/src/rmw_service.cpp:56-63 | The loop, which shifts a 64-bit word, reads that form |
| `ServiceFrames.FrameRoundTrip` | rmw_zzdds_cpp/src/rmw_service.cpp:87-90 | GUID, sequence number and payload can be taken apart as they were put together |
| `ServiceFrames.ReframeRoundTrip` | rmw_zzdds_cpp/src/rmw_service.cpp:118-130 | Every frame of at least 24 bytes is the frame of what it is taken apart into |
| `ServiceFrames.FrameLayout` | rmw_zzdds_cpp/src/rmw_service.cpp:48-90 | Bytes 0 to 15 of a frame are the GUID, 16 to 23 the two's complement of the sequence number with its most significant byte first, and the payload follows |
| `ServiceFrames.SkippedAreForeign` | rmw_zzdds_cpp/src/rmw_service.cpp:107-124 | What is dropped are exactly the leading frames, of more than 24 bytes, whose GUID differs from the expected one; without an expected one nothing is dropped |
| `ServiceFrames.PublishServiceMessage` | rmw_zzdds_cpp/src/rmw_service.cpp:65-96 | Publishes exactly the frame of the request's identity and payload, or reports the first call that fails and publishes nothing |
| `ServiceFrames.TakeOwnFrame` | rmw_zzdds_cpp/src/rmw_service.cpp:107-124 | The loop drops exactly the leading frames with another GUID and takes what follows exactly if it is a valid sample of a known publication, of more than 24 bytes that the buffer can hold |
| `ServiceFrames.TakeServiceMessage` | rmw_zzdds_cpp/src/rmw_service.cpp:98-143 | Drops exactly the leading frames with another GUID, then reports the first other reply by its case: nothing, malformed, undecodable (the header is written all the same) or taken; so on a queue of frames the first own one, or without an expected GUID the first, is taken with its identity and payload exactly when that decodes; every loan is given back |
| `ServiceFrames.TakesFirstOwn` | rmw_zzdds_cpp/src/rmw_service.cpp:98-143 | On a queue of frames, exactly those before the first own one are dropped, and that one carries the identity and payload it was published with |
| `ServiceRuns.AcceptedReplyAnswersOwnRequest` | rmw_zzdds_cpp/src/rmw_service.cpp:358-441 | In every run, each reply a client accepts was sent by a server that had taken a request of that same client with that identity and payload, in this order |
| `ServiceRuns.IdentifiesOneRequest` | rmw_zzdds_cpp/src/rmw_service.cpp:375-376 | In every run (GUID, sequence number) identifies one request, as long as no client numbers more than 2^64 of them |
| `ServiceRuns.NumbersCount` | rmw_zzdds_cpp/src/rmw_service.cpp:375-376 | The first request has number 1 and each the next one, until the counter of 64 bits wraps |
| `Taking.Subscription.TakeVisibleSample` | rmw_zzdds_cpp/src/rmw_data_plane.cpp:365-398 | Takes the first reply that is not skipped: its code, NO_DATA for an empty take whose loan goes back, an error for a malformed one, and otherwise OK with the only loan that is kept; it terminates |
| `Taking.Subscription.ReplyKinds` | rmw_zzdds_cpp/src/rmw_data_plane.cpp:1272-1309 | Which replies carry a sample, deliver and are idle, by the fields that zzdds fills in |
| `Taking.Subscription.TakeWithInfo` | rmw_zzdds_cpp/src/rmw_data_plane.cpp:1272-1309 | Delivers the first such reply exactly when it has data, decodes and comes from a known publication; is idle without error on no sample or no data; otherwise fails; gives back every loan |
| `Taking.Subscription.Take` | rmw_zzdds_cpp/src/rmw_data_plane.cpp:1147-1182 | As above without the publisher, but failing when the loan cannot be returned |
| `Taking.Subscription.TakeSerializedWithInfo` | rmw_zzdds_cpp/src/rmw_data_plane.cpp:1311-1354 | The same for serialized messages, growing the buffer only when it is too small |
| `Taking.Subscription.TakeUpTo` | rmw_zzdds_cpp/src/rmw_data_plane.cpp:1372-1380 | The loop delivers, in order, the first count of the leading replies that deliver, and reports whether it ended at an error |
| `Taking.Subscription.TakeSequence` | rmw_zzdds_cpp/src/rmw_data_plane.cpp:1356-1384 | Delivers in order the first count of the leading replies that deliver; stops at the first idle one, which it uses up; on an error *taken counts what was delivered and the sizes are not updated |
| `Taking.Subscription.SamplesDeliver` | rmw_zzdds_cpp/src/rmw_data_plane.cpp:1356-1384 | On a queue of samples that decode and come from known publications, it delivers the first count of the leading samples with data and cannot fail |
| `Taking.Peers.ShownAreReplies` | rmw_zzdds_cpp/src/rmw_data_plane.cpp:353-363 | Filtering keeps only replies that are not from ignored local publications |
| `Taking.Peers.FirstShown` | rmw_zzdds_cpp/src/rmw_data_plane.cpp:390-396 | What is skipped are exactly the leading samples of known publications with a local GUID, and only if local publications are ignored |
| `Taking.Peers.NothingHidden` | rmw_zzdds_cpp/src/rmw_data_plane.cpp:390-396 | Nothing is skipped if local publications are not ignored |
| `Loans.Endpoint.Borrow` | rmw_zzdds_cpp/src/rmw_data_plane.cpp:749-781 | Lends out a new message, or leaves nothing behind |
| `Loans.Endpoint.Return` | rmw_zzdds_cpp/src/rmw_data_plane.cpp:783-802 | Succeeds exactly for a message lent out and destroys it; otherwise fails without effect |
| `Loans.Endpoint.PublishLoaned` | rmw_zzdds_cpp/src/rmw_data_plane.cpp:804-825 | Ends the loan even if publishing fails; a message not lent out is refused without effect |
| `Loans.Endpoint.TakeLoan` | rmw_zzdds_cpp/src/rmw_data_plane.cpp:400-462 | Lends out a message exactly when a sample with data was taken, decoded and given back, the loan recorded and (if asked) its publisher known; every other case has its code and leaves nothing behind |
| `Loans.Endpoint.DestroyLoans` | rmw_zzdds_cpp/src/rmw_data_plane.cpp:709-712 | Destroys exactly the messages still lent out |
| `LoanRuns.StepKeepsInv` | rmw_zzdds_cpp/src/rmw_data_plane.cpp:400-462 | Every section of every loan function keeps the invariant that each message alive has exactly one holder |
| `LoanRuns.OneHolder` | rmw_zzdds_cpp/src/rmw_data_plane.cpp:749-825 | In every run a message is alive exactly when one endpoint has lent it out or one call carries it, never both or two |
| `LoanRuns.Conservation` | rmw_zzdds_cpp/src/rmw_data_plane.cpp:749-825 | In every run the messages created are those destroyed plus those alive |
| `LoanRuns.NothingLeft` | rmw_zzdds_cpp/src/rmw_data_plane.cpp:1126-1129 | When all endpoints are destroyed and no call is at work, no message is left |
| `LoanRuns.SecondGiveBackFails` | rmw_zzdds_cpp/src/rmw_data_plane.cpp:1216-1235 | Giving a message back a second time fails without effect, until the same endpoint lists that address again |
| `LoanRuns.LendingSteps` | rmw_zzdds_cpp/src/rmw_data_plane.cpp:400-462 | The steps of a borrow or a take of a loan together do what Loans.Endpoint.Borrow and TakeLoan do: lend out the message, or nothing |
| `LoanRuns.GivingBackSteps` | rmw_zzdds_cpp/src/rmw_data_plane.cpp:783-825 | The steps of a return or a publication together do what Loans.Endpoint.Return and PublishLoaned do |
| `Durations.ToDdsDuration` | rmw_zzdds_cpp/src/rmw_wait.cpp:67-88 | Converts exactly the timeouts below 2^31 seconds, to the normalised duration of the same length, and no timeout to the infinite one |
| `Durations.AcknowledgmentTimeout` | rmw_zzdds_cpp/src/rmw_data_plane.cpp:885-901 | Converts the same timeouts to the same durations, except that the largest one means forever |
| `Durations.RepresentableIff` | rmw_zzdds_cpp/src/rmw_wait.cpp:67-88 | The times below 2^31 seconds are exactly those some duration represents |
| `Durations.RepresentsOnce` | rmw_zzdds_cpp/src/rmw_wait.cpp:67-88 | The duration is unique, so the two conversions agree |
| `WaitSets.AttachAll` | rmw_zzdds_cpp/src/rmw_wait.cpp:202-270 | One attach loop attaches the conditions up to the first refused entry and reports that entry's error |
| `WaitSets.DetachAll` | rmw_zzdds_cpp/src/rmw_wait.cpp:273-275 | Detaches exactly what was attached |
| `WaitSets.KeepActive` | rmw_zzdds_cpp/src/rmw_wait.cpp:281-313 | An entry stays exactly when its condition is active |
| `WaitSets.KeepFired` | rmw_zzdds_cpp/src/rmw_wait.cpp:287-294 | The same for guard conditions, and exactly those that fired are cleared |
| `WaitSets.Contains` | rmw_zzdds_cpp/src/rmw_wait.cpp:59-65 | Membership |
| `WaitSets.ValidateArray` | rmw_zzdds_cpp/src/rmw_wait.cpp:43-57 | Accepts exactly the arrays without null entries |
| `WaitSets.Wait` | rmw_zzdds_cpp/src/rmw_wait.cpp:153-316 | On every exit no condition stays attached that was not before, so an empty wait set stays empty; the code is that of the first obstacle (a null entry, too many entries for a limited set, a timeout out of range, failed bookkeeping, an entry that cannot be attached), and otherwise OK, TIMEOUT or an error as zzdds answers; after OK or TIMEOUT an entry stays exactly when its condition was active, and only triggers of guard conditions that fired are cleared; otherwise arrays and triggers are unchanged |
| `WaitSets.FirstRefusalAt` | rmw_zzdds_cpp/src/rmw_wait.cpp:210-270 | The error is that of the first entry that cannot be attached, in the order subscriptions, guard conditions, services, clients, events |
| `WaitSets.NoRefusal` | rmw_zzdds_cpp/src/rmw_wait.cpp:210-270 | There is no such error exactly when every entry belongs to the context and has a condition that zzdds attaches |
| `WaitSets.RefusalAt` | rmw_zzdds_cpp/src/rmw_wait.cpp:210-270 | The error is that of the first refused entry: invalid argument for another context, error for a failed attach, and always invalid argument for events |
| `Discovery.Context.ConsumeSample` | rmw_zzdds_cpp/src/graph_discovery.cpp:101-168 | One sample without data removes its instance and the endpoint indexed under it; one that announces an endpoint indexes it under its key hash and adds it if it is new; others change nothing, and it fails for a missing or malformed payload or type hash; it says whether the cache changed |
| `Discovery.EndpointGidBytes` | rmw_zzdds_cpp/src/graph_discovery.cpp:26-36 | The GID of sample i is bytes 16 i to 16 i + 15 of the hashes, or zeros if there are not that many |
| `Discovery.SucceedsIff` | rmw_zzdds_cpp/src/graph_discovery.cpp:91-173 | Reading one built-in reader succeeds exactly when there is nothing to read, or every sample with data has a payload that parses and the loan can be returned |
| `Discovery.Context.ConsumeReader` | rmw_zzdds_cpp/src/graph_discovery.cpp:80-174 | Carries out a batch up to its first broken sample; fails exactly when one is broken or the loan cannot be returned; changed becomes true exactly when some sample altered the cache |
| `Discovery.Refresh` | rmw_zzdds_cpp/src/graph_discovery.cpp:177-206 | Writers first; readers only if that succeeded; notifies exactly when both succeeded and something changed |
| `Discovery.WriterFoundSilently` | rmw_zzdds_cpp/src/graph_discovery.cpp:177-206 | A new writer changes the cache in a call that announces nothing, because the readers cannot be taken |
| `Discovery.CacheHoldsDiscovered` | rmw_zzdds_cpp/src/graph_discovery.cpp:80-206 | After any batches, also cut short ones, and any local changes, the remote endpoints in the cache are exactly the values of the instance map, and exactly those the carried-out samples say exist, with the first description since each appeared |
| `Discovery.CutShortIffBroken` | rmw_zzdds_cpp/src/graph_discovery.cpp:110-149 | All samples of a batch are carried out exactly when none is broken |
| `Discovery.CutShortKeepsGoneEndpoint` | rmw_zzdds_cpp/src/graph_discovery.cpp:102-119 | A batch with a broken sample loses what follows: an endpoint reported gone stays in the cache |
| `TypeNames.ReplaceColons` | rmw_zzdds_cpp/src/rmw_graph.cpp:95-99 | The loop replaces every double colon, from the left, by a slash |
| `TypeNames.DemangleDdsType` | rmw_zzdds_cpp/src/rmw_graph.cpp:86-101 | The in-place edits give the unmarked, stripped, slashed name |
| `TypeNames.DemangledIsKept` | rmw_zzdds_cpp/src/rmw_graph.cpp:86-101 | Demangling a generated name drops the first dds_ after the first namespace |
| `TypeNames.DemanglingRoundTrip` | rosidl_typesupport_zzdds_cpp/rosidl_typesupport_zzdds_cpp/__init__.py:360-362 | Demangling a generated type name gives the ROS name exactly when there is a namespace and after a later namespace dds_ only more of them follow |
| `TypeNames.OtherNames` | rmw_zzdds_cpp/src/rmw_graph.cpp:86-101 | A name that the generator did not make only has its colons replaced, if it has no dds_ to lose and no underscore at its end |
| `TypeNames.GeneratedName` | rosidl_typesupport_zzdds_cpp/rosidl_typesupport_zzdds_cpp/__init__.py:360-362 | The generated name of a type of a package, written out |
| `TypeNames.DemangleDdsServiceType` | rmw_zzdds_cpp/src/rmw_graph.cpp:103-117 | Strips at most one of the two suffixes |
| `TypeNames.ServiceTypeRoundTrip` | rmw_zzdds_cpp/src/rmw_graph.cpp:103-117 | The request and the response type of a service are both listed as the service type |
| `Strings.JoinInjective` | rosidl_typesupport_zzdds_cpp/rosidl_typesupport_zzdds_cpp/__init__.py:360-362 | Joined names determine their parts |
| `ServiceGraph.ServiceTopics` | rmw_zzdds_cpp/src/rmw_service.cpp:152-166 | Accepts exactly absolute names with another character, and gives /rq, the name and Request, and /rr, the name and Reply, from which the graph recovers the name |
| `ServiceGraph.ServiceOfIff` | rmw_zzdds_cpp/src/rmw_graph.cpp:126-133 | A topic is taken for an endpoint of a service exactly when it is prefix, non-empty name and suffix |
| `ServiceGraph.ServiceNameRecovered` | rmw_zzdds_cpp/src/rmw_graph.cpp:119-139 | The service name is recovered from both its topics, and neither is taken for the other |
| `ServiceGraph.ServiceTopicsInjective` | rmw_zzdds_cpp/src/rmw_service.cpp:158-159 | Request and reply topics are injective and disjoint |
| `ServiceGraph.TopicRoundTrip` | rmw_zzdds_cpp/src/rmw_graph.cpp:159-165 | A ROS topic is listed under its own name exactly when it does not begin with /rq or /rr |
| `ServiceGraph.DdsTopicNames` | rmw_zzdds_cpp/src/rmw_data_plane.cpp:76-88 | A native topic keeps its name, of up to 263 characters; any other is prefixed with rt, up to 261 |
| `ServiceGraph.DemangledTopicIff` | rmw_zzdds_cpp/src/rmw_graph.cpp:159-165 | A DDS topic is listed under a name exactly when it is rt and that name, which begins with a slash but not like a service topic |
| `ServiceGraph.TopicTakenForRequest` | rmw_zzdds_cpp/src/rmw_graph.cpp:126-133 | A ROS topic is taken for a request topic exactly when it has the form of one |
| `ServiceGraph.ExtractServiceTopics` | rmw_zzdds_cpp/src/rmw_graph.cpp:119-139 | Lists a service with a type exactly when some endpoint shows it |
| `ServiceGraph.IntersectServices` | rmw_zzdds_cpp/src/rmw_graph.cpp:141-152 | Lists exactly what both list, and no service without a type |
| `ServiceGraph.ListServices` | rmw_zzdds_cpp/src/rmw_graph.cpp:198-240 | A service is listed exactly when request and reply endpoints both show it with the type |
| `ServiceGraph.OffersIff` | rmw_zzdds_cpp/src/rmw_graph.cpp:119-139 | An endpoint shows a service with a type exactly when its topic is prefix, name and suffix and any of its types lists as that type |

## Left out

- The internals of zzdds, zidl and rmw_dds_common: their calls are parameters (a
  reply, or whether the call succeeds) or small methods with the contract that
  the source relies on.
- zidl's primitives: a boolean byte other than 0 and 1 is refused, a string's
  length counts its NUL, a wide string's length is in bytes without a NUL. Their
  sources are not part of this model. Running out of writer space or memory and
  freeing a wide string are not modelled; nor is `long double`, which the
  generator refuses.
- Integer overflow of zzdds's int32 counts, which are taken to stay in range.
- Publishers and subscriptions are one class with all event types; a status field
  of the source is an element of an array. User data and the callback's own run,
  outside the mutex, are only recorded as what was told.
- EventRuns.LivelinessBaseline: counts of liveliness changed are estimates by
  design, so only the baseline, conservation, reported <= counted and the trigger
  are proved for it, not exactness at quiescence.
- The choice of an event's supported types and masks, and all argument
  validation, error strings and identifier checks.
- Construction and destruction of contexts, nodes and endpoints, the listener
  thread, and QoS mapping.
- The key hash itself, content filters, timestamps of reception, and the
  generator's headers and includes.
- Taking.Subscription.TakeWithInfo: after an error the message may hold what
  decoding left; the contract says nothing about that element.
- Taking.RawReader gives loans back in the order of a stack; loans of other
  threads on the same reader are not modelled, and the set of matched and local
  publications does not change during a call.
- rmw_take_serialized_message without info: the same as the one with info, except
  for one error code.
- ServiceFrames.TakeServiceMessage: the buffer can grow up to a fixed limit
  instead of failing at arbitrary times.
- LoanRuns: a caller gives back no address that it was not given, so not that of
  a message listed by a call still at work.
- WaitSets.Wait: which conditions zzdds cannot attach is fixed during a call, and
  the five arrays are different arrays.
- Discovery: participants, QoS and type hashes are one description; the cache
  keeps writers and readers apart, and the model is of one kind.
- The order in which the graph functions list names, and copying the results into
  C arrays.
- Node names, endpoint information, availability of servers and the graph channel.
