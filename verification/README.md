# Verification of the event loop, TEM, INI and duration code

Six stateful components are modelled here, each in the form its source has: classes whose
methods relink nodes, overwrite arrays and move counters, proved against small state machines
over plain values. The hard statements are about those machines: what every run keeps, who is
served when, what is undone by what.

`dafny verify dfyconfig.toml` checks the whole project.

## The components

**Timers** (`TimerRuns.dfy`, `DelayQueue.dfy`). The specification is a list of pending entries
with absolute deadlines, the tokens that fired and those that were cancelled. `DelayQueue` is
the circular doubly linked list in which every node stores only the time after its predecessor
and a sentinel holds ETERNITY; its methods are proved to take the steps of the specification.
The clock is a parameter of each call. `long` is taken to be 64 bits wide, and the `(int)` sign
tests of the subtraction operators are modelled as truncations to 32 bits. A delay is honoured
exactly when it is below the sum of all deltas; a longer one is carried round the ring past the
sentinel and comes due early, and one of more than INT_MAX seconds may also be wiped out by the
truncation; `WipedLands` says where such an entry goes. The loop of `synchronize` ends only if
the clock has moved by less than the sum of all deltas since the last synchronisation, or by so
much, at least 2^31 seconds, that the truncation stops it early. `SynchronizeEndsExactly` is
the exact condition; the methods require the first half of it. The token counter is one for the
whole process in the source and one for each queue here. The handler of a due entry runs after
`HandleAlarm` returned that entry, already out of the queue, so that anything it does to its
own token finds it fired.

**Event triggers** (`Triggers.dfy`). The 32-bit maps are bit vectors, the handler and data
tables are arrays, and both fast paths are kept. A handler is returned to the caller with its
argument, and is called there. In the source the search of `SingleStep` calls it before it
notes the trigger as last used, so a handler that creates triggers sees the older note.

**Background sockets** (`Sockets.dfy`). The ring of handler descriptors, its iterator, the
three fd sets and the two scans of `SingleStep`. What `select` reports is a parameter; nothing
is assumed about it. `moveSocketHandling` onto a socket that is registered already leaves two
descriptors for one socket; the model says exactly when that happens.

**TEM** (`TemProtocol.dfy`, `TemEndings.dfy`, `TemStarts.dfy`, `TemOverflow.dfy`,
`TemQueue.dfy`). The protocol is a state machine in which any number of senders and the TEM
thread interleave one critical section, overflow test or callback boundary at a time; the two
overflow tests run outside the lock, as in the source. The list and its three critical sections
are also proved on a linked ring, and the draining loop on that ring, against whatever other
threads insert between two pops. Three things that one might expect are false, and each has a
lemma with a reachable state and a theorem with the exact condition. A timeout callback that
sends to its own thread, with the mutex held, can leave it blocked for ever with the event
queued (`LostWakeup`); nothing else is ever lost (`NoLostWakeup`). A timeout callback can run
after a stop event was handled (`CallbackAfterStop`), exactly when the wait before had timed
out (`StopSilencesExactly`). The comment at `common/tem/tem.c:392-400` says that an early
signal makes the thread wait for the rest of its time; without the reset flag the code counts
that case as timed out and calls back (`EarlySignalCallsBack`, `EarlyWakeExactly`), over and
over until the time is up (`EarlyWakeSpins`). Besides, a one-shot start can call back twice
(`OneShotTwice`), but only with a limit of zero after a wait that timed out (`OneShotOnce`).
The model follows the code.

**INI files** (`Dictionary.dfy`, `IniText.dfy`, `IniLine.dfy`, `IniLoad.dfy`, `IniLoading.dfy`,
`IniDump.dfy`, `IniRoundTrip.dfy`, `IniEntries.dfy`, `IniSettings.dfy`, `IniLookup.dfy`). The
slot-array dictionary, the line parser as small scanners, the loader as a loop over what `fgets`
returns, the dumper and the key normalisation of `iniparser_getstring`. The guard against long
lines at `common/iniparser/iniparser.c:756` is never taken, because `fgets` cuts the line first.
A successful section or value line overwrites the error count, so a syntax error is fatal only
when none of those follows it. A dictionary without sections does not survive a dump: every name
comes back behind a colon (`PlainDumpThenLoad`). The normalisation of looked-up keys is wrong
for keys with a blank in them, a colon that is not first and no blank before it: such a key is
looked up as itself followed by a second copy of its last part. Keys without blanks escape this
only by an early return (`EarlyReturnAgreesExactly`).

**Hash table** (`HashTable.dfy`). Chained buckets relinked in place when the bucket array grows
fourfold, and the iterator. The multiplicative hash is that of
`common/live555/BasicUsageEnvironment/include/BasicHashTable.hh:93-95`. Its fields are 32 bits
wide, so the number of entries is kept below 3 * 2^30, where the last rebuild fits.

**Durations** (`Duration.dfy`, `DurationGrammar.dfy`). The printer and the parser of
xsd:duration, with the lexical space of section 3.2.6.1 of XML Schema Part 2 as an independent
definition between the two, and a grammar of exactly the texts that the parser accepts, which
is wider. A fraction is rounded to the nearest binary32 number, ties to even; its product with
1000.0 is exact in double precision and is then truncated, so a millisecond part comes back one
too low whenever the rounding went down. Signed overflow is taken to wrap, and `%lld` to
saturate.

`Seqs.dfy` holds the two sequence edits that the linked lists share, and `Options.dfy` the type
of a value that may be missing. `Characters.dfy` holds the blanks that both text readers skip.

## Model

| member | source | states |
|---|---|---|
| Timeval.GeIsNumeric | common/live555/BasicUsageEnvironment/DelayQueue.cpp:28-32 | On normalised times the two-field comparison is the comparison of microsecond counts. |
| Timeval.MinusIsNumeric | common/live555/BasicUsageEnvironment/DelayQueue.cpp:42-65 | Subtracting something no larger keeps the value normalised and is exact while the seconds fit in 31 bits; beyond that the truncating sign test can only turn the result into zero. |
| Timeval.MinusWipes | common/live555/BasicUsageEnvironment/DelayQueue.cpp:42-51 | The result is zero instead of the difference exactly when the whole seconds of the difference are negative as a 32-bit `int`. |
| Timeval.ElapsedIsForward | common/live555/BasicUsageEnvironment/DelayQueue.cpp:201-210 | What a synchronisation counts is the difference of the two clock readings to the microsecond, and nothing when the clock went back or when the seconds between look negative as an `int`. |
| Timeval.ForwardAddsUp | common/live555/BasicUsageEnvironment/DelayQueue.cpp:201-210 | However often a clock is read that takes no such step, the counted times add up to last reading minus first: none is lost or counted twice. |
| Timeval.FromMicroseconds | common/live555/BasicUsageEnvironment/BasicTaskScheduler0.cpp:62-63 | The interval made of a microsecond count is normalised and denotes that count. |
| TimerRuns.RunKeepsInv | common/live555/BasicUsageEnvironment/DelayQueue.cpp:126-220 | Over every run of add, update, remove, synchronize and alarm: tokens stay unique, and what has fired followed by what is pending is the stable sort by deadline of what was armed and not withdrawn. |
| TimerRuns.TokenFate | common/live555/BasicUsageEnvironment/BasicTaskScheduler0.cpp:59-74 | From the empty queue, in every run each issued token is in exactly one of pending, fired and cancelled, and no other token is in any of them. |
| TimerRuns.FiringOrder | common/live555/BasicUsageEnvironment/DelayQueue.cpp:179-189 | In every run entries fire in deadline order, first in first out among equals, each once, never before its deadline, and nothing pending comes before anything fired. |
| TimerRuns.OrderIsUnique | common/live555/BasicUsageEnvironment/DelayQueue.cpp:126-141 | A collection of entries has one arrangement by deadline and insertion, so the queue order is determined by what was armed. |
| TimerRuns.StaleTokenIgnored | common/live555/BasicUsageEnvironment/DelayQueue.cpp:151-170 | Cancelling or updating a token that fired, was cancelled or was never issued leaves the whole state as it was. |
| TimerRuns.HonouredExactlyBelowTotal | common/live555/BasicUsageEnvironment/DelayQueue.cpp:130-137 | In every run a newly scheduled entry is pending with exactly the requested time left if and only if that is below the sum of all deltas at that moment, the sentinel's included. |
| TimerRuns.UpdateHonouredExactly | common/live555/BasicUsageEnvironment/DelayQueue.cpp:143-149 | In every run an update of a pending entry leaves it pending with exactly the new delay if and only if that is below the sum of all deltas then. |
| TimerRuns.LateEternityWraps | common/live555/BasicUsageEnvironment/DelayQueue.cpp:130-137 | The run that fails: ten seconds after the start a delay of ETERNITY is scheduled, and the entry has ten seconds left; the walk has no other outcome. |
| TimerRuns.OthersUntouched | common/live555/BasicUsageEnvironment/DelayQueue.cpp:126-220 | Every other pending entry comes out of every call, a synchronisation and an alarm included, with its time left reduced by exactly the clock time the call counted, unless the alarm fires it; a cancel counts none. |
| TimerRuns.TimeRunsDown | common/live555/BasicUsageEnvironment/DelayQueue.cpp:126-220 | Over any run, an entry that no call names has its time left reduced by exactly the clock time counted, or has fired, and then at least its time left was counted. |
| TimerRuns.DueAdvances | common/live555/BasicUsageEnvironment/DelayQueue.cpp:179-189 | An entry that is due is never overtaken: an alarm fires it or brings it one place forward, and no other call puts anything before it. |
| TimerRuns.DueFires | common/live555/BasicUsageEnvironment/DelayQueue.cpp:179-189 | No starvation: a due entry at place k fires within k + 1 alarms, whatever is scheduled, updated or cancelled in between. |
| TimerDeltas.PrefixSums | common/live555/BasicUsageEnvironment/DelayQueue.cpp:213-219 | The deltas from the head through entry i add up to max(0, deadline minus elapsed time). |
| TimerDeltas.TotalIsConserved | common/live555/BasicUsageEnvironment/DelayQueue.cpp:113-115 | All deltas with the sentinel's, plus the elapsed time, are always ETERNITY. |
| TimerDeltas.AdvancedFits | common/live555/BasicUsageEnvironment/DelayQueue.cpp:213-219 | Zeroing the deltas that elapsed and shortening the next one takes the same clock time off every entry. |
| TimerDeltas.SynchronizeEndsExactly | common/live555/BasicUsageEnvironment/DelayQueue.cpp:213-218 | For every clock step the loop comes to an end if and only if the step is below the sum of all deltas, or the sign test wipes out what is left of it before the sentinel is reached, which needs at least 2^31 seconds; otherwise its guard holds for ever. |
| TimerDeltas.PlaceStep | common/live555/BasicUsageEnvironment/DelayQueue.cpp:130-135 | One step of the walk of addEntry keeps the requested time modulo the sum of all deltas, also when it passes the sentinel, and brings the walk nearer to its end. |
| TimerDeltas.WipedLands | common/live555/BasicUsageEnvironment/DelayQueue.cpp:42-51 | Where a delay lands that the truncating sign test wipes out on the walk: due together with the entry it was to be carried past, or at once when that is the sentinel. |
| TimerDeltas.InsertedFits | common/live555/BasicUsageEnvironment/DelayQueue.cpp:130-140 | Where the walk stops is the stable rank of the new deadline, and splitting the delta there leaves all other entries' times as they were. |
| TimerDeltas.RemovedFits | common/live555/BasicUsageEnvironment/DelayQueue.cpp:156-162 | Adding the removed delta to the successor leaves all other entries' times as they were. |
| DelayQueues.DelayQueue.constructor | common/live555/BasicUsageEnvironment/DelayQueue.cpp:113-116 | A new queue is the sentinel alone and refines the initial state. |
| DelayQueues.DelayQueue.Synchronize | common/live555/BasicUsageEnvironment/DelayQueue.cpp:201-220 | On the linked list: every entry's time left, and the sentinel's, falls by exactly the microseconds the clock went forward, down to zero; a backward step only resets the reference time. |
| DelayQueues.DelayQueue.Walk | common/live555/BasicUsageEnvironment/DelayQueue.cpp:130-135 | The loop ends, for every delay, at the first entry that the remaining delay cannot pay: at the delay modulo the sum of all deltas up to ETERNITY, and above that where the paid and wiped-out amounts say. |
| DelayQueues.DelayQueue.AddEntry | common/live555/BasicUsageEnvironment/DelayQueue.cpp:126-141 | The relinked list is the old queue after the clock step with the new entry at its stable place. |
| DelayQueues.DelayQueue.LinkBefore | common/live555/BasicUsageEnvironment/DelayQueue.cpp:136-140 | Splicing keeps the ring well linked both ways and changes no delta. |
| DelayQueues.DelayQueue.Unlink | common/live555/BasicUsageEnvironment/DelayQueue.cpp:159-163 | Unlinking keeps the ring well linked both ways and leaves the entry detached. |
| DelayQueues.DelayQueue.FindEntryByToken | common/live555/BasicUsageEnvironment/DelayQueue.cpp:191-199 | Finds the entry of a pending token, and null exactly when the token is not pending. |
| DelayQueues.DelayQueue.ScheduleDelayedTask | common/live555/BasicUsageEnvironment/BasicTaskScheduler0.cpp:59-68 | Refines the schedule step, negative delays counting as zero, and returns the newest token. |
| DelayQueues.DelayQueue.UnscheduleDelayedTask | common/live555/BasicUsageEnvironment/BasicTaskScheduler0.cpp:70-74 | Refines the cancel step; an entry comes back exactly when the state changed. |
| DelayQueues.DelayQueue.UpdateEntry | common/live555/BasicUsageEnvironment/DelayQueue.cpp:143-149 | Refines the update step for a queued entry. |
| DelayQueues.DelayQueue.UpdateEntryByToken | common/live555/BasicUsageEnvironment/DelayQueue.cpp:151-154 | Refines the update step by token; for a token that is not queued the clock is not read and nothing changes. |
| DelayQueues.DelayQueue.TimeToNextAlarm | common/live555/BasicUsageEnvironment/DelayQueue.cpp:172-177 | Returns the time left for the head, reading the clock only when that is not zero already. |
| DelayQueues.DelayQueue.HandleAlarm | common/live555/BasicUsageEnvironment/DelayQueue.cpp:179-189 | Refines the alarm step: at most one entry, the head, leaves the queue, and only when it is due; the clock is read only when the head is not due already. |
| TemQueues.TemQueue.Link | common/tem/list.h:119-127 | Linking a node between neighbours keeps the ring well linked both ways and changes no event. |
| TemQueues.TemQueue.AddHead | common/tem/list.h:177-180 | list_add puts the node right after the head. |
| TemQueues.TemQueue.AddTail | common/tem/list.h:137-140 | list_add_tail puts the node at the end. |
| TemQueues.TemQueue.Delete | common/tem/list.h:149-168 | list_del of the node at any place leaves the others in order. |
| TemQueues.TemQueue.AddEvent | common/tem/tem.c:127-131 | The first critical section of a push: the event at the tail and both totals raised, modulo 2^32. |
| TemQueues.TemQueue.InsertBracket | common/tem/tem.c:154-158 | The second critical section: DROP at the head, DROP_END at the tail, two more events. |
| TemQueues.TemQueue.Pop | common/tem/tem.c:210-225 | A pop takes the head event and its size off the totals, or finds the queue empty and changes nothing. |
| TemQueues.EventMonitor | common/tem/tem.c:227-321 | Against any insertions by other threads between its pops, the draining loop ends with the queue empty, having handled every event as the reference drain does. |
| TemQueues.DrainObeys | common/tem/tem.c:240-267 | After a drain the time limit is what the last handled event says that sets one, the thread is to run unless an EXIT was handled, and the one-shot flag is on if it was or a one-shot start was handled. |
| TemQueues.DrainBalanced | common/tem/tem.c:268-305 | Whatever is inserted meanwhile, draining a balanced queue handles all that was pushed in push order, drops exactly the wrapped events and leaves the drop counter at zero, so that resetting it on the next call forgets nothing. |
| TemSafety.MutexStep | common/tem/tem.c:322-460 | Every step keeps mutual exclusion: who stands where agrees with who holds the thread mutex. |
| TemSafety.SenderSignalStep | common/tem/tem.c:452-460 | Every sender step keeps the signal rule: past the drain, what another thread pushed has some other thread between push and signal, and what is queued was pushed by another thread or by the timeout callback, with no exception. |
| TemSafety.ThreadSignalStep | common/tem/tem.c:356-413 | The same for every step of the TEM thread. |
| TemSafety.BalancedEnclose | common/tem/tem.c:154-158 | Putting a bracket around a balanced queue leaves it balanced, at any depth. |
| TemSafety.BracketStep | common/tem/tem.c:229-311 | In every step the 16-bit drop counter is the true depth modulo 65536 and each event meets it at the number of brackets put around it. |
| TemSafety.CountStep | common/tem/tem.c:127-131 | In every step the list count is the queue length and the data count the sum of queued sizes, both modulo 2^32. |
| TemSafety.LogStep | common/tem/tem.c:233-312 | In every step handled, in hand and queued events make up the pushed events in push order, and the freed buffers are those of the handled data events. |
| TemSafety.RunKeepsAll | common/tem/tem.c:107-460 | All of these hold after every legal interleaving. |
| TemSafety.NoLostWakeup | common/tem/tem.c:359-382 | In every interleaving, a blocked TEM thread to which another thread has sent since the last drain has another thread between its push and its signal, whatever its own callback did; and when nobody else owes a signal, an event is queued if and only if the timeout callback sent to its own thread. |
| TemLostWakeup.LostWakeup | common/tem/tem.c:368-382 | A reachable state in which that loss happened: the timeout callback sent to its own thread, which is blocked with no time limit, the event queued and nobody left to signal. |
| TemLostWakeup.CallbackAfterStop | common/tem/tem.c:368-376 | A reachable state in the timeout callback after the last event handled was a stop, the wait before having timed out. |
| TemCallbacks.StopSilencesExactly | common/tem/tem.c:343-376 | In every run, between a stop event and the next start event the timeout callback runs if and only if there is one, the last wait before the stop had timed out, and the drain under the mutex ends with the thread still to run. |
| TemCallbacks.EarlyWakeExactly | common/tem/tem.c:384-418 | In every run, a thread with a time limit that comes to its decision waits again if and only if its time is over or the reset flag is set, and its callback took less than the limit; otherwise the wait counts as timed out, and before the next start event the callback runs if and only if there is one and the next drain ends with the thread still to run. |
| TemCallbacks.EarlyWakeSpins | common/tem/tem.c:356-418 | In every run with the reset flag off, from an early wake on and as long as the time is not over and no start event is handled, the thread never waits with a time limit again, and while it has one every drain under the mutex is followed by the callback. |
| TemStarts.MonitorGoesOn | common/tem/tem.c:255-260 | In every run a monitor start handled with the one-shot flag off sets the limit, and through every callback it stays, until another start, a stop or an exit is handled. |
| TemStarts.TimedOutCallsBack | common/tem/tem.c:359-413 | In every run a wait has a time limit exactly when the thread has one; when it times out, the callback runs before the next start event if and only if there is a callback and the drain that follows ends with the thread still to run. |
| TemStarts.ZeroMonitorSpins | common/tem/tem.c:340-358 | A monitor with a limit of zero calls back after every drain outside the mutex and never waits. |
| TemStarts.OneShotLimit | common/tem/tem.c:261-267 | A one-shot start sets the limit until a callback ends, which lifts it. |
| TemStarts.OneShotFlag | common/tem/tem.c:261-378 | In every run the flag is on exactly when a one-shot start was handled and no callback has ended since; stops and monitor starts do not turn it off. |
| TemStarts.OneShotOnce | common/tem/tem.c:261-378 | In every run, after a start event that leaves the one-shot flag on, the callback begins at most once before the next start event, however long that takes; at most twice when the limit is zero and the wait before had timed out. |
| TemStarts.OneShotTwice | common/tem/tem.c:346-376 | A reachable second callback of that kind: a one-shot start with limit zero after a wait that timed out calls back outside the mutex and, nothing else handled, again inside. |
| TemLostWakeup.EarlySignalCallsBack | common/tem/tem.c:384-418 | A reachable state in the timeout callback with no wait having timed out in the run. |
| TemSafety.DropsExactlyTheWrapped | common/tem/tem.c:268-305 | In every run an event goes to the drop callback if and only if the number of brackets inserted while it was queued is not a multiple of 65536; the depth never underflows and is zero whenever the queue is found empty. |
| TemOverflow.BracketsMatchOverflows | common/tem/tem.c:132-180 | In every run each sender inserts one bracket for each data event of its own after which it finds the data count or the event count above its limit with dropping on, and none for anything else; the event count is tested exactly when the data count passed. One step of each may still be to come. |
| TemOverflow.NothingDropped | common/tem/tem.c:132-180 | In every run in which no test finds the queue over a limit, no event is dropped. |
| TemSafety.Accounting | common/tem/tem.c:286-291 | In every run events are handled in push order, none lost or invented; each sent buffer is freed exactly once, when its event is handled; the totals agree with the queue. |
| TemExit.GoneOnlyAfterExit | common/tem/tem.c:343-353 | If the thread is gone, some step of the run was a pop that found the queue empty after an EXIT was handled, with everything pushed before it handled; nothing is handled after it, and the queue holds exactly what was pushed later. Once an EXIT was handled the thread never waits. |
| TemSafety.NoDeadlock | common/tem/tem.c:322-460 | Short of rest some thread can always go on without a new send or a spurious wakeup. |
| TemSafety.RestMeansDone | common/tem/tem.c:322-460 | At rest with the thread alive the queue is empty and everything pushed has been handled in order, if and only if the timeout callback has not sent to its own thread since the last drain. |
| Dictionaries.MemDouble | common/iniparser/dictionary.c:39-51 | The copy is twice as long, starts with the old contents and is zero after them. |
| Dictionaries.Dictionary.constructor | common/iniparser/dictionary.c:126-148 | A new dictionary is the empty map with at least DICTMINSZ slots. |
| Dictionaries.Dictionary.HashOf | common/iniparser/dictionary.c:96-113 | The loop computes the hash that the slots cache. |
| DictionarySlots.HashOfA | common/iniparser/dictionary.c:96-113 | A published value of that hash, for "a". |
| Dictionaries.Dictionary.Search | common/iniparser/dictionary.c:199-209 | The scan that compares hashes first finds the same slot as comparing keys alone. |
| Dictionaries.Dictionary.Get | common/iniparser/dictionary.c:192-213 | Returns the value the map has for the key, or the default. |
| Dictionaries.Dictionary.Double | common/iniparser/dictionary.c:273-287 | Doubling the three arrays keeps the map and the count. |
| Dictionaries.Dictionary.Set | common/iniparser/dictionary.c:241-304 | The arrays come to hold the old map with the key set, keys distinct and cached hashes right. |
| Dictionaries.Dictionary.Unset | common/iniparser/dictionary.c:317-357 | The arrays come to hold the old map without the key, and the same map when it was not there. |
| DictionarySlots.SetMaps | common/iniparser/dictionary.c:241-304 | Setting a key in the slots is setting it in the map; the count of used slots grows by one exactly when the key is new. |
| DictionarySlots.SetKeepsOrder | common/iniparser/dictionary.c:241-304 | While nothing has been removed, a new key comes last in slot order and setting an old one again moves nothing. |
| DictionarySlots.UnsetMaps | common/iniparser/dictionary.c:317-357 | Freeing a slot is removing the key from the map; the count falls by one exactly when the key was there. |
| DictionarySlots.GrownHasRoom | common/iniparser/dictionary.c:273-297 | After the growth step a free slot always exists. |
| DictionarySlots.GrownMaps | common/iniparser/dictionary.c:273-287 | The growth step preserves every entry. |
| IniText.StrLwc | common/iniparser/iniparser.c:53-71 | The bounded copy is the lower-cased text, cut to the buffer; with no text or a buffer of no size the buffer stays as it was. |
| IniText.StrStrip | common/iniparser/iniparser.c:89-113 | The result is the text without leading blanks, cut to the buffer, without trailing blanks; with no text or a buffer of no size the buffer stays as it was. |
| IniText.LwcFolds | common/iniparser/iniparser.c:53-71 | Lower-casing makes two texts equal if and only if they differ in nothing but the case of the letters A to Z. |
| IniText.LwcFixed | common/iniparser/iniparser.c:53-71 | It leaves no capital letter, and leaves a text as it was exactly when that has none. |
| IniLine.ParseLineInto | common/iniparser/iniparser.c:594-694 | The line status, section, key and value are those of the scanner patterns in their order. |
| IniLine.ReadValueKeeps | common/iniparser/iniparser.c:639-665 | A stripped value is read back unchanged if and only if it has no ; or #, is not a pair of quotes, and does not open with a quote that something follows. |
| IniLine.ParsedKeyIsGood | common/iniparser/iniparser.c:594-694 | Every key that comes out of the parser is trimmed, lower-case, without = and not starting with #. |
| IniSettings.SectionIsNormal | common/iniparser/iniparser.c:625-638 | Every section name that comes out of the parser is trimmed and lower-case. |
| IniSettings.HeaderRead | common/iniparser/iniparser.c:625-638 | A name in brackets, in any case and with blanks around it, names that section in lower case. |
| IniSettings.SettingRead | common/iniparser/iniparser.c:639-667 | A key, an equals sign with any blanks around it and a text give the key in lower case and the value that the text stands for. |
| IniSettings.PlainValue | common/iniparser/iniparser.c:641-667 | A text without comment marks that does not open with a quote stands for itself, two quotes inside included. |
| IniSettings.CommentedValue | common/iniparser/iniparser.c:641-657 | What follows the first ; or # is left out, with the blanks before it. |
| IniSettings.QuotedValue | common/iniparser/iniparser.c:639-665 | Quotes of either kind come off with whatever follows the closing one; comment marks between them are text. |
| IniSettings.EmptyQuotes | common/iniparser/iniparser.c:658-665 | Two quotes of either kind stand for the empty value. |
| IniSettings.ErrorExactly | common/iniparser/iniparser.c:615-692 | A line is a syntax error if and only if it is not blank, not a comment, not in brackets, and has no equals sign or nothing in front of it. |
| IniLoad.Load | common/iniparser/iniparser.c:710-826 | The loop over chunks computes the reference reading of the whole text into a real dictionary, and null exactly when that fails. |
| IniLoad.ReadLine | common/iniparser/iniparser.c:751-818 | One fgets and one pass of the loop body do what the reference reading does. |
| IniLoading.SplitLineReads | common/iniparser/iniparser.c:751-812 | Splitting any line at any point with a backslash before the newline loads the same dictionary, for pieces within the buffer. |
| IniLoading.FailsExactly | common/iniparser/iniparser.c:784-823 | Loading fails if and only if a syntax error is followed by no section or value line. |
| IniLoading.LastSectionForgives | common/iniparser/iniparser.c:790-798 | So a section line at the end makes any file load, whatever errors came before. |
| IniSettings.SaysNothing | common/iniparser/iniparser.c:615-624 | A comment or blank line between whole lines of a file changes nothing in what is loaded. |
| IniSettings.LoadedNames | common/iniparser/iniparser.c:710-826 | Whatever a file holds, every name in the loaded dictionary is without capital letters, and every name and value lies on one line. |
| IniSettings.SettingFound | common/iniparser/iniparser.c:382-826 | The whole way: a setting under a section header, at the end of any file of whole lines, is found by iniparser_getstring with its value, in whatever case header, key and query are written, when none of them has blanks inside. |
| IniDump.GetNSec | common/iniparser/iniparser.c:211-228 | Counts the section names. |
| IniDump.GetSecName | common/iniparser/iniparser.c:244-267 | Returns the n-th section name in slot order, or nothing. |
| IniDump.Dump | common/iniparser/iniparser.c:316-365 | Writes exactly the dump text: every section with the entries that belong to it, or every entry when there is no section. |
| IniSettings.EntryColumns | common/iniparser/iniparser.c:355-358 | Every value is written three characters after its key, which is padded to thirty. |
| IniSettings.OneSectionDump | common/iniparser/iniparser.c:340-362 | The text of a dictionary with one section and one key, to the character. |
| IniRoundTrip.InSectionIs | common/iniparser/iniparser.c:345-353 | For keys that can be dumped, the prefix test selects exactly the keys whose part before the first colon is the section. |
| IniEntries.EntrySurvives | common/iniparser/iniparser.c:594-694 | In any state of the reader with nothing stored under that name, reading the line written for a key and value stores just that pair and nothing else, if and only if the pair is good, which is a condition on the two texts alone; texts with a newline are covered, and are not good. |
| IniRoundTrip.DumpThenLoad | common/iniparser/iniparser.c:316-365 | Loading the text that the dumper writes gives back the same map, for every dictionary whose entries are good and whose sections exist. |
| IniSettings.PlainDumpThenLoad | common/iniparser/iniparser.c:328-339 | A dictionary without sections does not come back: its dump loads, each value right, but with every name behind a colon. |
| IniSettings.PlainMapHas | common/iniparser/iniparser.c:328-339 | Which entries those are: for each slot the colon and its key in lower case, with its value, or "(null)" where there was none, and none other without a colon in front. |
| IniLookup.StrStripForGetString | common/iniparser/iniparser.c:116-191 | The in-place loops, with their two early returns, compute the normalisation that the lemmas below are about. |
| IniLookup.EarlyReturnAgreesExactly | common/iniparser/iniparser.c:140-186 | For a key without blanks the early return gives what the rest of the function would give, if and only if the colon is first or the key fills the buffer. |
| IniLookup.EarlyReturnNeeded | common/iniparser/iniparser.c:140-186 | The rest of the function would turn "a:b" into "a:b:b". |
| IniLookup.GetString | common/iniparser/iniparser.c:382-398 | Looks up the normalised, lower-cased key in the map. |
| IniLookup.NormalisesExactly | common/iniparser/iniparser.c:116-191 | The normalisation removes the blanks around the first colon, as it is meant to, if and only if the key is not of the garbled kind: a blank somewhere, a colon that is not first, and no blank before it. |
| IniLookup.IdempotentExactly | common/iniparser/iniparser.c:116-191 | For every key, normalising twice differs from normalising once if and only if the stripped key has a blank before the colon and another inside the section or the key, or has blanks but none before the colon and the doubled text either leaves room in the buffer or is cut just after a blank. |
| IniLookup.ExampleUnsettled | common/iniparser/iniparser.c:116-191 | A failing key of the first two kinds: "sec:my key". |
| IniLookup.ExampleCut | common/iniparser/iniparser.c:116-191 | Failing keys of the last kind: "s:", 1094 characters, a blank and 903 characters. |
| IniLookup.GarbledKey | common/iniparser/iniparser.c:140-186 | What a garbled key of any length is looked up as: the whole key, a colon, and its last part again, as far as the buffer goes. |
| IniLookup.BlankInKeyIsLost | common/iniparser/iniparser.c:140-186 | The example "sec:my key". |
| IniLookup.VariantFound | common/iniparser/iniparser.c:382-398 | A spelling in other cases and with blanks at the ends and around the colon finds its entry if and only if a blank stands before the colon, or there is no section, or there is no blank inside. |
| IniLookup.CaseInsensitive | common/iniparser/iniparser.c:382-398 | Keys of the same letters in whatever case are looked up as the same key, garbled or not. |
| HashKeys.Index | common/live555/BasicUsageEnvironment/BasicHashTable.cpp:255-277 | Every key of every type selects a bucket within the mask. |
| HashTables.BasicHashTable.constructor | common/live555/BasicUsageEnvironment/BasicHashTable.cpp:34-41 | A new table has four buckets and is the empty map. |
| HashTables.BasicHashTable.LookupKey | common/live555/BasicUsageEnvironment/BasicHashTable.cpp:129-139 | Walking the selected chain finds the entry, and null exactly when the key is not in the map. |
| HashTables.BasicHashTable.Lookup | common/live555/BasicUsageEnvironment/BasicHashTable.cpp:86-92 | Returns the value the map has, or NULL. |
| HashTables.BasicHashTable.InsertNewEntry | common/live555/BasicUsageEnvironment/BasicHashTable.cpp:159-169 | The new entry at the front of its chain extends the map, and the count. |
| HashTables.BasicHashTable.DeleteEntry | common/live555/BasicUsageEnvironment/BasicHashTable.cpp:186-210 | Relinking past the entry removes its key from the map and no other. |
| HashTables.BasicHashTable.Remove | common/live555/BasicUsageEnvironment/BasicHashTable.cpp:76-84 | Removes the key and says whether it was there. |
| HashTables.BasicHashTable.Add | common/live555/BasicUsageEnvironment/BasicHashTable.cpp:56-74 | The map with the key set, the old value returned, each key once in the bucket its hash selects, and fewer entries than three times the buckets. |
| HashTables.MoveOne | common/live555/BasicUsageEnvironment/BasicHashTable.cpp:241-249 | Relinking one entry into its new bucket: the old and the new chains together hold every key once. |
| HashTables.MoveAll | common/live555/BasicUsageEnvironment/BasicHashTable.cpp:238-250 | Relinking all entries in place leaves the old chains empty and the new ones holding the same map. |
| HashTables.BasicHashTable.Rebuild | common/live555/BasicUsageEnvironment/BasicHashTable.cpp:222-253 | Four times the buckets, shift and mask to match, and the same map on the same entries. |
| HashTables.RoomToRebuild | common/live555/BasicUsageEnvironment/BasicHashTable.cpp:71-71 | Below 3 * 2^30 entries a table that is full can still quadruple within its 32-bit fields. |
| HashTables.Iterator.Next | common/live555/BasicUsageEnvironment/BasicHashTable.cpp:102-114 | Successive calls return the entries of the chains in order, one each, and then NULL. |
| HashTables.FlatDistinct | common/live555/BasicUsageEnvironment/BasicHashTable.cpp:98-114 | No key is met twice in a pass. |
| HashTables.FullPass | common/live555/BasicUsageEnvironment/BasicHashTable.cpp:98-114 | A full pass meets every entry of the map, with its value, exactly once. |
| TriggerBits.RotateBit | common/live555/BasicUsageEnvironment/BasicTaskScheduler.cpp:193-195 | The rotating mask and the trigger number stay together, round the end too. |
| TriggerBits.BitsEmpty | common/live555/BasicUsageEnvironment/BasicTaskScheduler.cpp:180-180 | The bitmap is zero exactly when no trigger awaits handling. |
| TriggerBits.BitsOfClear | common/live555/BasicUsageEnvironment/BasicTaskScheduler0.cpp:110-110 | Clearing bits removes exactly those triggers. |
| TriggerBits.BitsOfOr | common/live555/BasicUsageEnvironment/BasicTaskScheduler0.cpp:142-142 | Or-ing bits adds exactly those triggers. |
| EventTriggers.EventTriggers.constructor | common/live555/BasicUsageEnvironment/BasicTaskScheduler0.cpp:46-53 | Nothing awaits, nothing is handled, and mask 1 names trigger 31. |
| EventTriggers.EventTriggers.CreateEventTrigger | common/live555/BasicUsageEnvironment/BasicTaskScheduler0.cpp:84-107 | Takes the first trigger without a handler after the last used one, going round, and returns its mask; returns 0 exactly when there is none. |
| EventTriggers.EventTriggers.DeleteEventTrigger | common/live555/BasicUsageEnvironment/BasicTaskScheduler0.cpp:109-127 | The fast path and the scan both clear exactly the triggers of the id. |
| EventTriggers.EventTriggers.TriggerEvent | common/live555/BasicUsageEnvironment/BasicTaskScheduler0.cpp:129-143 | Records the data for, and marks as awaiting, exactly the triggers of the id. |
| EventTriggers.EventTriggers.DispatchTrigger | common/live555/BasicUsageEnvironment/BasicTaskScheduler.cpp:180-209 | The fast path and the search both dispatch the first awaiting trigger after the last used one, going round. |
| TriggerRuns.NextIsNearest | common/live555/BasicUsageEnvironment/BasicTaskScheduler.cpp:188-207 | The dispatched trigger is an awaiting one at the least cyclic distance. |
| TriggerRuns.CalledAsTriggered | common/live555/BasicUsageEnvironment/BasicTaskScheduler0.cpp:84-143 | In every run, creations and deletions included, a dispatch takes a trigger that was triggered and neither dispatched nor deleted since, and calls the handler it was created with, with the data of the last triggerEvent that named it; it calls nothing when there is no such trigger, or no handler. |
| TriggerRuns.CreatedApart | common/live555/BasicUsageEnvironment/BasicTaskScheduler0.cpp:84-107 | A new trigger takes a number without a handler and leaves every other trigger's handler and data as they were; it fails exactly when all 32 have handlers. |
| TriggerRuns.ReusedLast | common/live555/BasicUsageEnvironment/BasicTaskScheduler0.cpp:84-127 | A number created and then deleted is the next to be created only if no other is free, whatever was triggered and deleted in between. |
| TriggerRuns.Fair | common/live555/BasicUsageEnvironment/BasicTaskScheduler.cpp:180-209 | A pending trigger at cyclic distance d is dispatched within d dispatches, whatever else is triggered, deleted or created meanwhile, as long as no creation searches past it. |
| TriggerRuns.CreationPasses | common/live555/BasicUsageEnvironment/BasicTaskScheduler0.cpp:84-107 | A creation moves the note of the last used trigger on; a pending trigger keeps its distance or comes nearer if and only if the number created comes before it or is the last used one again. |
| HandlerSets.HandlerSet.LinkFirst | common/live555/BasicUsageEnvironment/BasicTaskScheduler0.cpp:148-159 | Constructing a descriptor before the first one keeps the ring well linked both ways. |
| HandlerSets.HandlerSet.Unlink | common/live555/BasicUsageEnvironment/BasicTaskScheduler0.cpp:161-165 | Destroying a descriptor keeps the ring well linked both ways. |
| HandlerSets.HandlerIterator.Next | common/live555/BasicUsageEnvironment/BasicTaskScheduler0.cpp:226-235 | Yields the descriptors in list order and then null. |
| HandlerSets.HandlerSet.LookupHandler | common/live555/BasicUsageEnvironment/BasicTaskScheduler0.cpp:205-212 | Finds the first descriptor for the socket, and null exactly when there is none. |
| HandlerSets.HandlerSet.AssignHandler | common/live555/BasicUsageEnvironment/BasicTaskScheduler0.cpp:179-191 | Overwrites the descriptor for the socket in place, or puts a new one first. |
| HandlerSets.HandlerSet.ClearHandler | common/live555/BasicUsageEnvironment/BasicTaskScheduler0.cpp:193-196 | Takes out the descriptor for the socket, if any. |
| HandlerSets.HandlerSet.MoveHandler | common/live555/BasicUsageEnvironment/BasicTaskScheduler0.cpp:198-203 | Renumbers the descriptor for the socket, if any, where it stands. |
| SocketSchedulers.BasicTaskScheduler.SetBackgroundHandling | common/live555/BasicUsageEnvironment/BasicTaskScheduler.cpp:215-238 | Refines the set step on list, fd sets and maximum together. |
| SocketSchedulers.BasicTaskScheduler.MoveSocketHandling | common/live555/BasicUsageEnvironment/BasicTaskScheduler.cpp:240-256 | Refines the move step on list, fd sets and maximum together. |
| SocketSchedulers.BasicTaskScheduler.HandleSocket | common/live555/BasicUsageEnvironment/BasicTaskScheduler.cpp:129-176 | The two scans call at most one handler: the first due one after the last handled socket, going round; the reported conditions are handed to it. |
| SocketRuns.SetKeepsInv | common/live555/BasicUsageEnvironment/BasicTaskScheduler.cpp:215-238 | Setting or clearing keeps one descriptor per registered socket, each fd-set bit on exactly when the descriptor asks for it, and the maximum above every registered number. |
| SocketRuns.MoveKeepsInvExactly | common/live555/BasicUsageEnvironment/BasicTaskScheduler.cpp:240-256 | A move keeps that if and only if it does not land on another registered socket. |
| SocketRuns.MoveOntoRegistered | common/live555/BasicUsageEnvironment/BasicTaskScheduler.cpp:240-256 | The failing run: sockets 3 and 4 are set, and moving 3 onto 4 breaks the invariant. |
| SocketRuns.RunKeepsInv | common/live555/BasicUsageEnvironment/BasicTaskScheduler.cpp:215-256 | So does every run of sets, clears and moves without such a landing. |
| SocketRuns.SetLookup | common/live555/BasicUsageEnvironment/BasicTaskScheduler.cpp:215-238 | After a set or clear the socket has the new handler or none, and every other socket the one it had. |
| SocketRuns.MoveLookup | common/live555/BasicUsageEnvironment/BasicTaskScheduler.cpp:240-256 | After a move the new number has the old handler, the old number none, and every other socket the one it had. |
| SocketRuns.SetKeepsTurns | common/live555/BasicUsageEnvironment/BasicTaskScheduler.cpp:215-238 | A set or clear leaves the other sockets' handlers in list order and the note of the last one called, on which turns depend. |
| SocketRuns.SetThenClear | common/live555/BasicUsageEnvironment/BasicTaskScheduler.cpp:215-238 | Clearing a newly set socket gives back handlers and fd sets, and the whole state if and only if the maximum was above the socket and its successor, or was the socket's number. |
| SocketRuns.MoveBack | common/live555/BasicUsageEnvironment/BasicTaskScheduler.cpp:240-256 | Moving a handler to a free number and back gives back handlers and fd sets, and the whole state if and only if the maximum was clear of that number in the same way or nothing was moved. |
| SocketRuns.MaxStaysBelow | common/live555/BasicUsageEnvironment/BasicTaskScheduler.cpp:215-256 | In every run the maximum passed to select is at most one above the highest socket that was given a handler. |
| SocketScan.ResultsMeet | common/live555/BasicUsageEnvironment/BasicTaskScheduler.cpp:145-149 | The test on bit masks is the test that some reported condition is asked for. |
| SocketScan.ReportsAre | common/live555/BasicUsageEnvironment/BasicTaskScheduler.cpp:145-153 | The mask handed to a handler has each of the bits 2, 4 and 8 exactly when that condition is reported and watched for. |
| SocketScan.CallsTheCallable | common/live555/BasicUsageEnvironment/BasicTaskScheduler.cpp:143-176 | A step calls a handler that is not null and for which some condition it asks for is reported, and calls nobody exactly when there is none. |
| SocketScan.CallGoesOn | common/live555/BasicUsageEnvironment/BasicTaskScheduler.cpp:130-176 | After a call, the next step calls the due handler that comes soonest after the one called, going round. |
| SocketScan.IdleStartsOver | common/live555/BasicUsageEnvironment/BasicTaskScheduler.cpp:157-176 | After a step that called nobody, the next starts from the front of the list. |
| SocketScan.Fair | common/live555/BasicUsageEnvironment/BasicTaskScheduler.cpp:129-176 | With n handlers, one that stays due is called within n steps, whatever the other sockets do. |
| SocketScan.NoOvertaking | common/live555/BasicUsageEnvironment/BasicTaskScheduler.cpp:129-176 | While one handler stays due and uncalled no other is called twice. |
| Durations.PrintDuration | common/onvif/duration.c:71-104 | For every 64-bit value the printed text is the rendering of the canonical items; for the least value it is the text with negative items. |
| Durations.ClockSums | common/onvif/duration.c:83-90 | The days, hours, minutes, seconds and milliseconds are in range and add up to the duration. |
| DurationParser.ParseDuration | common/onvif/duration.c:113-186 | The two loops compute the reference parse of the text, and zero when there is none. |
| DurationRoundTrip.ParsesLexicalSpace | common/onvif/duration.c:113-186 | Every text of section 3.2.6.1 of XML Schema Part 2 is accepted and means the sum of its numbers at 31104000000, 2592000000, 86400000, 3600000, 60000 and 1000 milliseconds a piece, plus its fraction, times its sign, in 64 bits. |
| DurationGrammar.AcceptsExactly | common/onvif/duration.c:113-186 | The parser accepts a text if and only if it is a sentence of this grammar: perhaps a minus, P, numbers with Y, M or D in any order and number, then perhaps T and numbers with H, M or S, and perhaps a number, a point and digits followed by anything; a number is blanks, perhaps a sign, and digits. |
| DurationGrammar.SentenceParses | common/onvif/duration.c:113-186 | And a sentence means the last number of each unit, saturated to 64 bits, at those same milliseconds a piece. |
| DurationRoundTrip.TotalIs | common/onvif/duration.c:182-183 | The nested product and sum of the source is one fixed number of milliseconds for each unit. |
| DurationRoundTrip.WrapsAround | common/onvif/duration.c:182-183 | A total beyond 64 bits differs from the sum by a multiple of 2^64. |
| DurationRoundTrip.PrintsLexicalSpace | common/onvif/duration.c:71-104 | Every printed value but the least is in that lexical space. |
| DurationRoundTrip.MinOutsideLexicalSpace | common/onvif/duration.c:74-78 | The least value is printed outside it. |
| DurationRoundTrip.MinRejected | common/onvif/duration.c:168-171 | The least value's text is rejected by the parser. |
| DurationRoundTrip.BarePAccepted | common/onvif/duration.c:122-152 | An accepted text outside that lexical space: a bare P, which is zero. |
| DurationRoundTrip.RoundTrip | common/onvif/duration.c:71-186 | Reading back a printed value gives it exactly, or one millisecond nearer to zero when the float nearest its fraction lies below the fraction. |
| DurationRoundTrip.RoundTripsExactly | common/onvif/duration.c:71-186 | Exact if and only if the value is not the least and that float does not lie below. |
| DurationRoundTrip.RoundedNear | common/onvif/duration.c:183-183 | Whole seconds are always exact, and nothing is off by more than a millisecond. |
| DurationRoundTrip.FiveMilliseconds | common/onvif/duration.c:168-183 | A concrete failure: five milliseconds come back as four. |
| SingleMillis.MillisBack | common/onvif/duration.c:168-183 | Three fraction digits through a float, a multiplication and a truncation: the same number, or one less exactly when the float lies below. |
| DurationRoundTrip.ShortFraction | common/onvif/duration.c:168-183 | One, two or three fraction digits are as many tenths, hundredths or thousandths of a second, or one millisecond less exactly when the float lies below. |
| SingleMillis.MillisScales | common/onvif/duration.c:168-183 | Only the value of a fraction counts: zeros at its end change nothing. |
| SingleMillis.MillisNear | common/onvif/duration.c:168-183 | Any fraction, however long, comes out as its milliseconds rounded down, up to an error of one part in 33554 of a millisecond before the rounding. |
| SingleMillis.SignificandFits | common/onvif/duration.c:170-170 | The significand used has 24 bits, unless the fraction is too small for that. |
| SingleMillis.RoundDivNearest | common/onvif/duration.c:170-170 | And no other significand is nearer. |
| Decimals.Dec | common/onvif/duration.c:91-99 | What %d writes is non-empty, all digits, and has the value written. |

## Left out

- IniRoundTrip.DumpThenLoad: states that good entries are enough for a whole file; that they are needed is stated line by line, in IniEntries.EntrySurvives.
- DurationParser.ParseDuration: does not model an exponent after the fraction, which `%g` would read; the fraction is taken to end there.
- DurationGrammar.SentenceParses: likewise gives a fraction with an exponent the value without it.
- DurationGrammar.AcceptsExactly: takes an exponent without digits for text after the fraction, as glibc does; ISO C has `%g` fail on it.
- SocketSchedulers.BasicTaskScheduler.HandleSocket: the handler is returned and not called, so one that runs the event loop again or changes the registrations inside its own call is not modelled.
- EventTriggers.EventTriggers.DispatchTrigger: likewise for a trigger's handler.
- HashTables.BasicHashTable.Add: asks for fewer than 3 * 2^30 entries; the source's 32-bit fields overflow beyond that.
- DelayQueues.DelayQueue.AddEntry: asks that the clock has moved by less than the sum of all deltas, and so do the other methods that synchronize; TimerDeltas.SynchronizeEndsExactly says for which larger steps, all of at least 2^31 seconds, the source returns.
- select, sockets, gettimeofday and pthread calls: what they report is a parameter or a step of the state machine, and errors from them are not modelled.
- Data races on the awaiting map when triggerEvent is called from another thread: it is one step here.
- Failed allocations, and the error returns that only they cause.
- Printing to files and logs: the dumper returns its text.
- The registry of TEM nodes with list_find, TemOpen and the part of TemClose after the exit event, and TemConfigTimer changing the attributes while the thread runs: the thread's time limit is read afresh at each start event.
- AddTime and absolute wake-up times in tem.c: whether the wait is due to expire is a free choice in each step.
- The buffer get and set calls of tem.c: plain guarded copies.
- dictionary_getVal and dictionary_getNumberOfSection, which depend on slots lying side by side, and the number and boolean readers built on iniparser_getstring.
- Destructors that free whole structures, and the debug printing of the hash table.
- Locale: isspace and tolower are those of the C locale.
- The rest of live555 and ONVIF, generated or concerned with devices and the network.
