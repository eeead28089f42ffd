# A verified model of pktvisor

pktvisor watches network traffic and exports metrics. This project models the parts of it that keep state or
transform bytes under an invariant, and proves what they keep. `dafny verify dfyconfig.toml` checks all of it.

- **Policies** (`Registry.dfy`, `PolicyManager.dfy`). Loading a policy creates inputs, handlers and resources
  policies in shared registries. Any step may fail, and the load then takes everything back. Removing a policy tears
  down exactly what nothing else uses. `Registry` says what a load and a removal make of the registries, and proves
  the invariant over every history; `PolicyManager.Manager` is the code, step by step, proved to do that. A failure
  may be injected at every step of a load (`fails` says which steps fail, numbered in order), and undoing does not fail.
- **Metrics windows** (`MetricsWindow.dfy`, `WindowRuns.dfy`, `WindowMerge.dfy`). A handler counts events in a deque
  of time buckets that shifts as time goes on; an exporter hands out every closed window. `WindowRuns` is the system of
  one event thread and one exporter: testing for a shift, shifting and counting are separate steps, and the exporter may
  run between any two of them, fail part way, or run late. `WindowMerge` merges buckets.
- **Merged export** (`MergedExport.dfy`, `MergedRuns.dfy`, `MergedTime.dfy`). One push merges one closed window of every
  handler of a policy, one bucket per class of handlers. `MergedExport.Merger` is the push loop on fixed windows;
  `MergedRuns` lets every handler shift between any two steps of it, and `MergedTime` says when the pushes stay in step.
- **Label text** (`Utf8Labels.dfy`, `PrometheusText.dfy`, `PrometheusSerializer.dfy`, `PrometheusReader.dfy`). Label values
  are arbitrary bytes, written as UTF-8 with decimal escapes, escaped again for the Prometheus text format, and grouped by
  metric family. `PrometheusReader` is a reader of that format, which gives back what was written.
- **DNS messages** (`DnsNames.dfy`, `DnsReading.dfy`, `DnsRecords.dfy`, `DnsParse.dfy`, `DnsList.dfy`, `DnsLayer.dfy`,
  `DnsRuns.dfy`, `DnsItems.dfy`). Names with compression pointers (section 4.1.4 of RFC 1035), and the linked list of
  records that must tile the bytes of a message while records are added, removed, renamed and resized. `DnsReading` says
  what any bytes decode to. `DnsRuns` runs any sequence of operations on a new or a parsed message, and `DnsItems` says
  what they do to the values that records hold, which are the values read back.
- **Frame Streams** (`ControlFrames.dfy`, `ControlCodec.dfy`, `IoThread.dfy`, `IoWorker.dfy`, `IoRuns.dfy`). Control
  frames and their codec, and the I/O thread that owns queued frames. `IoThread` says what the thread's functions do to
  the queues; `IoWorker.Worker` is that code on its fixed output array; `IoRuns` interleaves it with producers, whose test
  for shutdown and insertion are separate steps, and with the caller that destroys it.
- **Small engines** (`LruList.dfy`, `Transactions.dfy`): the bounded cache and the transaction manager.

`Bytes.dfy` and `Wrappers.dfy` hold shared types.

Where the code does less than one might expect, the exact condition is proved:

- The byte counter of the output queue wraps at 2^32, so two or more pending frames stay under the buffer hint exactly
  if the first is shorter than 2^32 - 4 bytes (`IoRuns.PendingUnderHint`, `IoThread.OverHint`).
- The control frame encoder counts the header in its limit of 512 bytes and the decoder does not, so a decoded frame
  with header can be encoded again exactly if it is at most 512 bytes long (`ControlFrames.EncodeOfDecode`,
  `ControlFrames.LongHeaderFrame`).
- Adding a DNS record of an earlier section than the first record's links the new node and the old head to each other;
  in every other case the list stays sound (`DnsLayer.Layer.AddResource`, `DnsLayer.CycleIsNoList`). So an answer added
  after an additional record spoils a new message (`DnsRuns.AnswerAfterAdditional`), and every sequence of operations
  without such a step keeps it sound (`DnsRuns.DoAll`).
- Reading a message that already has records puts what is read in front of them. The list stays sound exactly if nothing
  is read (`DnsLayer.Layer.ParseResources`, `DnsRuns.BuildThenParse`).
- A merged push is in step exactly if no handler's window expired unmerged (`MergedRuns.PickInStep`), which is to say if
  each handler has shifted fewer times than it keeps buckets beyond the windows pushed (`MergedTime.PickInStepIff`). A
  run in which one handler gets ahead of another breaks it (`MergedTime.PickSkips`).
- A window is lost exactly if a shift comes when `periods - 1` or more have come since the last export, as long as the
  stream has not ended (`WindowRuns.LossIff`, `WindowRuns.TwoShiftsLose`).
- The difference of two normalised stamps is the time between them exactly if the seconds are in order
  (`Transactions.DiffIsElapsedIff`, `Transactions.DiffOutOfOrder`).
- A purge of transactions goes by whole seconds, so it may be early. A transaction it takes was still in time exactly if
  the nanoseconds make up for the rest (`Transactions.PurgedInTimeIff`, `Transactions.PurgedEarly`), and a purge is never
  early exactly if the time to live is whole seconds and the purge comes in the last nanosecond of a second
  (`Transactions.PurgesOnlyLateIff`).
- A first stamp given to a recorded stream keeps the windows chained exactly if none has closed, or it repeats the live
  bucket's start (`MetricsWindow.SetStartKeepsIff`).

Modelling decisions:

- An input is named after its tap, so a policy has a different input for each tap. A user policy is not named
  `<input>-resources`, and a policy is identified by its name. Loads and removals are atomic with respect to each other.
- The two clock readings of a metrics manager's constructor are less than a period apart, and in `WindowRuns` a recorded
  stream's start is set before the first shift.
- The writer of the I/O thread is a function that says which writes succeed, and each input queue a bounded FIFO. An entry
  without a deallocation callback counts as freed when its turn comes. Producers have left `submit` before the queues are
  freed.
- Name buffers and record buffers of 256 bytes are sequences that grow. A decoded name is read from a buffer of zeros.
- Inserting and deleting bytes of a DNS layer either succeeds or leaves it as it was (`room`).
- A time of day is a number of seconds and nanoseconds, and the quotient of nanoseconds by a million a real number.

## Model

| member | source | states |
|---|---|---|
| Registry.Without | src/InputStream.h:55-66 | Detaching a policy leaves exactly the other attached policies, and changes nothing if it was not attached |
| Registry.LoadedOk | src/Policies.cpp:84-242 | A successful load keeps the invariant: every policy runs, is attached to its inputs and owns registered handlers; every input has a user policy; every handler has one owner |
| Registry.RemovedOk | src/Policies.cpp:304-350 | Removing any registered policy keeps that invariant |
| Registry.AnotherUser | src/Policies.cpp:334-350 | An input that a removal keeps still has a user policy attached |
| Registry.StaleResources | src/Policies.cpp:334-350 | No resources policy outlives its input |
| Registry.LoadThenRemove | src/Policies.cpp:84-350 | Loading a policy and then removing it gives back all three registries and every attachment list as they were |
| Registry.NoUsersNothingLeft | src/Policies.cpp:304-350 | With no user policy registered there is no input, no handler and no resources policy |
| Registry.RunOk | src/Policies.cpp:84-350 | The invariant holds after every history of loads, failed loads and removals |
| Registry.RunHolds | src/Policies.cpp:84-350 | After every history the registries hold exactly what the loaded user policies need: their inputs, each with just those attached that read it, their handlers, running, and beside these only resources policies of such inputs |
| Registry.RunReflects | src/Policies.cpp:84-350 | The user policies registered are those loaded and not removed since, each with its parsed inputs and handlers |
| Registry.LoadWatches | src/Policies.cpp:189-233 | A load adds a resources policy for exactly the inputs it creates, if the resources handler is available |
| Registry.RemoveAllUsers | src/Policies.cpp:304-350 | Removing every user policy, in any order, from any reachable state leaves nothing |
| PolicyManager.Manager.constructor | src/AbstractManager.h:77-108 | The registries start empty |
| PolicyManager.Manager.Stop | src/Policies.cpp:396-420 | Stopping a running policy detaches it from each input, which runs on exactly if it ran and another policy is left on it, and stops its handlers; a stopped policy is left alone |
| PolicyManager.Manager.RemoveInputIfUnused | src/Policies.cpp:334-350 | Removes the resources policy of an input that only it is left on, then the input if nothing is |
| PolicyManager.Manager.Rollback | src/Policies.cpp:97-140 | From any state a load can reach, the rollback gives back the registries as they were before it |
| PolicyManager.Manager.RemovePolicy | src/Policies.cpp:304-333 | Refused exactly if the policy is not registered; otherwise the registries become what removal means, and the invariant holds |
| PolicyManager.Manager.TearDown | src/Policies.cpp:311-332 | Stops the policy, removes its handlers, then each input it leaves unused |
| PolicyManager.Manager.RemoveHandlers | src/HandlerManager.h:51-62 | Takes exactly these handlers out of the map |
| PolicyManager.Manager.RemoveInputs | src/InputStreamManager.h:42-53 | Takes the inputs a load created out of the map, which then is what it was |
| PolicyManager.Manager.Detach | src/InputStream.h:55-66 | A reused input is after the rollback's detaching as it was before the load |
| PolicyManager.Manager.AddHandlers | src/Policies.cpp:189-193 | Registers handlers in order, and stops at a failing step or a taken name with everything before it still registered |
| PolicyManager.Manager.OpenInput | src/Policies.cpp:154-165 | Reuses an input of that name or creates one, and keeps what rolling back needs |
| PolicyManager.Manager.AttachTap | src/InputStream.h:44-54 | Attaches the policy to a tap's input and creates its handlers, keeping what rolling back needs |
| PolicyManager.Manager.Start | src/Policies.cpp:363-395 | Starts handlers, then inputs, one step each; works exactly if no step fails, and else undoes what it started |
| PolicyManager.Manager.StartResources | src/Policies.cpp:219-233 | Starts and attaches a new input's resources policy, and fails exactly if one of its two steps does |
| PolicyManager.Manager.RegisterResources | src/Policies.cpp:219-233 | Registers a new input's resources policy, running and attached, or leaves the policy map as it was |
| PolicyManager.Manager.Load | src/Policies.cpp:84-242 | For any number of taps and handlers and a failure at any step: the load works exactly if no name it needs is taken and none of its steps fails; then the registries are what a load means, and otherwise exactly as before |
| PolicyManager.LoadStepsIs | src/Policies.cpp:84-242 | How many steps a load has at which it may fail, by taps, handlers and new inputs |
| PolicyManager.Manager.TryLoad | src/Policies.cpp:84-242 | Up to the first failing step, either the registries are what a load means and every step was done, or they are as before and a step failed or a name was taken |
| PolicyManager.Manager.Build | src/Policies.cpp:143-242 | Whatever step fails, the load has kept a journal from which the registries as they were can be given back |
| PolicyManager.ReadyIsLoaded | src/Policies.cpp:84-242 | What the steps of a load have built at the end is what a load means |
| PolicyManager.LeftIsRemoved | src/Policies.cpp:304-350 | What the steps of a removal leave is what a removal means |
| MetricsWindow.ShiftedBuckets | src/AbstractMetricsManager.h:288-317 | After a shift: a new live bucket, the previous one closed, the others unchanged, at most `periods` in all |
| MetricsWindow.ShiftKeeps | src/AbstractMetricsManager.h:288-317 | A shift keeps the buckets chained: each closed window ends where the next one starts |
| MetricsWindow.Handler.constructor | src/AbstractMetricsManager.h:395-433 | One live bucket, between 1 and 10 periods, and the next window due in 60 seconds |
| MetricsWindow.Handler.PeriodShift | src/AbstractMetricsManager.h:288-317 | The new window, and the bucket that expired |
| MetricsWindow.Handler.NewEvent | src/AbstractMetricsManager.h:362-378 | Shifts if due, then counts the event in the live bucket |
| MetricsWindow.Handler.SetStartTstamp | src/AbstractMetricsManager.h:467-476 | Restarts the live bucket and the period at a recorded stream's first stamp, at any time, and says when the windows are still chained |
| MetricsWindow.SetStartKeepsIff | src/AbstractMetricsManager.h:467-476 | The windows are still chained exactly if none has closed or the stamp repeats the live start, and a closed live bucket's length agrees |
| MetricsWindow.Handler.SetEndTstamp | src/AbstractMetricsManager.h:477-482 | Closes the live bucket at a recorded stream's last stamp |
| MetricsWindow.Handler.SetRecordedStream | src/AbstractMetricsManager.h:483-489 | Marks the manager and its live bucket as recorded, and keeps the windows chained |
| MetricsWindow.Handler.CheckPeriodShift | src/AbstractMetricsManager.h:506-515 | Shifts if due, and does nothing otherwise |
| MetricsWindow.Handler.NextClosedWindowStart | src/AbstractMetricsManager.h:606-617 | The start of the first window an export after this mark would hand out |
| MetricsWindow.Handler.WindowClosed | src/AbstractMetricsManager.h:625-645 | Hands out every closed window not sent before, oldest first, and marks the newest; a failing write marks none |
| MetricsWindow.Handler.Export | src/Policies.cpp:583-605 | A failed export leaves neither a mark nor a part of a window in the scope |
| MetricsWindow.StartsDecrease | src/AbstractMetricsManager.h:321-332 | Older buckets start earlier |
| MetricsWindow.StartsAfterIff | src/AbstractMetricsManager.h:321-332 | Whether a window is after the mark is decided by the nanosecond |
| WindowRuns.RunGood | src/AbstractMetricsManager.h:288-332 | In every reachable state: windows went out in strictly increasing order of start and whole; every window is sent, lost or pending, and only one of these; no event and no sample is missing |
| WindowRuns.NoLoss | src/AbstractMetricsManager.h:304-313 | With fewer than `periods - 1` shifts since the last export before every shift, nothing is ever lost |
| WindowRuns.LossIff | src/AbstractMetricsManager.h:304-313 | While the stream has not ended, a step loses a window exactly if it is a shift beyond that bound |
| WindowRuns.TwoShiftsLose | src/AbstractMetricsManager.h:304-313 | A run that loses a window with an event: two periods, and two shifts with no export between |
| WindowRuns.NoLossInRealTime | cmd/pktvisord/main.cpp:638-647 | With real-time stamps, 60-second periods and an export at least every 30 seconds, no window is ever lost |
| WindowRuns.ExportSendsAll | src/AbstractMetricsManager.h:619-645 | If nothing was lost, an export leaves no closed window unsent |
| WindowRuns.NoneLate | src/AbstractMetricsManager.h:194-203 | While events are counted in open buckets, none comes after its window was sent |
| WindowRuns.LastsAPeriod | src/AbstractMetricsManager.h:362-378 | In every run a window that began with a shift or at a stream's first stamp is shifted on exactly by a stamp 60 seconds or more later, so that it lasts at least that long |
| WindowRuns.ConservedNext | src/AbstractMetricsManager.h:288-317 | Every step conserves events, and those looked into deeply, over sent, lost and unsent windows |
| WindowRuns.ExportInOrder | src/AbstractMetricsManager.h:625-645 | What an export hands out comes after everything sent before |
| WindowRuns.PendingNewest | src/AbstractMetricsManager.h:321-332 | What an export hands out is the newest closed buckets, oldest first |
| WindowRuns.MarkAfterExport | src/AbstractMetricsManager.h:625-645 | After an export exactly the live bucket is unsent, unless it is closed |
| WindowRuns.ShiftUnsent | src/AbstractMetricsManager.h:304-313 | A shift loses a window exactly if every bucket of a full window is unsent |
| WindowMerge.MultipleMerge | src/AbstractMetricsManager.h:783-813 | Refuses a period out of range, and otherwise merges the newest buckets, which the result spans, and that into a given one |
| WindowMerge.MergedSpans | src/AbstractMetricsManager.h:174-192 | Merged buckets: the counts are the sums, the start is the first of them, the end the last, and the length all lengths together |
| WindowMerge.SpansNext | src/AbstractMetricsManager.h:174-192 | Merging one more bucket adds its counts and length and widens the span to it |
| WindowMerge.SpansBoth | src/AbstractMetricsManager.h:174-192 | So does merging a bucket that is itself merged |
| WindowMerge.MergedLengthTelescopes | src/AbstractMetricsManager.h:100-133 | The merged length is the span from the oldest bucket's start to where the newest one has got: its end, the present, or a recorded stream's start |
| WindowMerge.ClosedMerge | src/AbstractMetricsManager.h:761-782 | Merges the closed window with this start, which a new bucket then spans, and is refused exactly if none is held |
| WindowMerge.FindClass | src/Policies.cpp:614-640 | Finds the bucket of a handler's class, or knows there is none |
| WindowMerge.GetMergedBuckets | src/Policies.cpp:614-640 | One bucket per bucket class, made by every handler of the class merging in turn, each exactly once, whatever order the map iterates in |
| MergedExport.NextMergedWindows | src/Policies.cpp:509-528 | The first pending window of every handler, or none exactly if a handler has none |
| MergedExport.Merger.PushAll | src/Policies.cpp:568-580 | The loop ends; push number `j` holds the `j`-th pending window of every handler; the scope holds every push done, one bucket per class that spans its windows, with every event once, and nothing else; it stops at a failed write or when some handler has no window left |
| MergedExport.Merger.PushOne | src/Policies.cpp:568-580 | Each turn uses up one pending window of every handler, or changes neither mark nor scope |
| MergedExport.WindowsAt | src/Policies.cpp:572-578 | Finds one window of every handler, each by its start |
| MergedExport.ExportMerged | src/Policies.cpp:538-550 | Writes all merged buckets, or leaves the scope as it was, exactly if writing one fails |
| MergedExport.MergeSpans | src/Policies.cpp:574-578 | Every merged bucket spans exactly the windows of the handlers of its class |
| MergedExport.MergeConserves | src/Policies.cpp:574-578 | The merged buckets count every event of the windows they are made of, once |
| MergedExport.PushesConserve | src/Policies.cpp:568-580 | So do all pushes together |
| MergedExport.UnsentAfterFirst | src/Policies.cpp:509-528 | Handing out one window leaves exactly the rest pending |
| MergedExport.PushAdvances | src/Policies.cpp:568-580 | A push moves every handler on by one window |
| MergedRuns.LockStep | src/Policies.cpp:530-580 | While no window expires unmerged, the `j`-th push holds exactly the `j`-th closed window of every handler, whichever closes first |
| MergedRuns.PickInStep | src/Policies.cpp:509-528 | The windows picked are the next of every handler exactly if none was skipped |
| MergedRuns.NextInHistory | src/AbstractMetricsManager.h:606-617 | A handler that merged its first `j` closed windows has exactly the later ones pending |
| MergedRuns.PushedOnce | src/Policies.cpp:530-580 | Whatever expires, no window is pushed twice and each handler's go out in order |
| MergedRuns.StepExtends | src/AbstractMetricsManager.h:288-317 | No step of a handler changes which windows it closed before |
| MergedTime.NoneSkippedIff | src/AbstractMetricsManager.h:304-313 | No window expired unmerged exactly while every handler has shifted fewer times than it keeps buckets beyond the pushes |
| MergedTime.PickInStepIff | src/Policies.cpp:509-528 | In every run within these bounds so far, the next push is in step exactly if the pick is within them |
| MergedTime.PickSkips | src/Policies.cpp:509-528 | A run whose pick takes the second window of one handler and the first of another |
| MergedTime.OneShift | cmd/pktvisord/main.cpp:638-647 | Between two exports that work, at most 30 seconds apart, a handler shifts at most once |
| MergedTime.InStepInRealTime | src/Policies.cpp:568-580 | With real-time stamps, such exports and no handler too far ahead of another, every push is in step |
| Utf8Labels.SequenceIsScalar | src/Metrics.cpp:96-131 | A sequence the byte ranges accept is the RFC 3629 encoding of a scalar value |
| Utf8Labels.ScalarIsSequence | src/Metrics.cpp:96-131 | The encoding of every scalar value is accepted, with its length, whatever follows |
| Utf8Labels.Utf8Iff | src/Metrics.cpp:141-151 | A value is accepted exactly if it is a concatenation of encodings of scalar values |
| Utf8Labels.RoundTrip | src/Metrics.cpp:165-185 | Reading the escapes back gives every byte string as it was |
| Utf8Labels.Injective | src/MetricLabels.h:14-20 | No two values are written alike |
| Utf8Labels.EscapeIsUtf8 | src/Metrics.cpp:165-185 | What is written is always UTF-8 |
| Utf8Labels.EscapeLength | src/Metrics.cpp:165-185 | Each escape adds three bytes, and there is one exactly if the value needs it |
| Utf8Labels.ChangedIff | src/Metrics.cpp:153-169 | A value is changed exactly if it needs an escape |
| Utf8Labels.NeedsEscapeIff | src/Metrics.cpp:153-163 | A value needs an escape exactly if it is not UTF-8 or holds a backslash before three digits |
| Utf8Labels.EscapeIsSpelled | src/Metrics.cpp:165-185 | Byte by byte, exactly those in no well-formed sequence and backslashes before three digits are written by number |
| Utf8Labels.DigitsComeThrough | src/Metrics.cpp:133-139 | Digits at the front of an escaped value are the value's own |
| Utf8Labels.Utf8SequenceLength | src/Metrics.cpp:96-131 | The loop finds the length of the well-formed sequence at an index, or 0 |
| Utf8Labels.IsUtf8Value | src/Metrics.cpp:141-151 | The scan accepts exactly UTF-8 |
| Utf8Labels.LabelValueNeedsEscape | src/Metrics.cpp:153-163 | The scan finds whether the value is not UTF-8 or holds a backslash before three digits |
| Utf8Labels.Utf8LabelValue | src/Metrics.cpp:165-185 | The value written is UTF-8, reads back as the value, differs from it exactly if that is not UTF-8 or looks escaped, and escapes exactly the bytes that need it |
| PrometheusText.QuotedPrefixFree | src/PrometheusSerializer.h:97-113 | A quoted text is told from what follows it, so quoting is injective |
| PrometheusText.QuotedOneLine | src/PrometheusSerializer.h:97-113 | A quoted text holds no newline |
| PrometheusText.HelpInjective | src/PrometheusSerializer.h:115-125 | Different help texts are written differently, each on one line |
| PrometheusText.ShownEffective | src/PrometheusSerializer.h:127-152 | A line shows exactly the effective labels, per call before static |
| PrometheusText.OwnLast | src/PrometheusSerializer.h:127-152 | A call's own labels come last, in their order, after static ones |
| PrometheusText.ShownDistinct | src/PrometheusSerializer.h:127-152 | No label name is shown twice |
| PrometheusText.LabelsInjective | src/PrometheusSerializer.h:97-152 | With identifier-shaped names, two label sets render alike only if their effective labels are equal |
| PrometheusSerializer.BasesInOrder | src/PrometheusSerializer.h:22-73 | One header per family, in the order of first writes |
| PrometheusSerializer.GroupsCover | src/PrometheusSerializer.h:22-73 | The families hold as many lines as there were writes |
| PrometheusSerializer.OfInOrder | src/PrometheusSerializer.h:22-56 | A family's lines are those of the writes with its name, in the order they were made |
| PrometheusSerializer.FirstHelpIs | src/PrometheusSerializer.h:22-35 | A family's help is the first that is not empty |
| PrometheusSerializer.SameText | src/PrometheusSerializer.h:22-73 | Two histories that agree in the order of families and in each family's writes have the same text |
| PrometheusSerializer.SwapBases | src/PrometheusSerializer.h:22-56 | Two writes of different families change places without changing the order of families exactly if not both are the first of theirs |
| PrometheusSerializer.SwapDoesNotShow | src/PrometheusSerializer.h:22-73 | So how writes of families already begun are interleaved does not show in the text |
| PrometheusSerializer.OneLine | src/PrometheusSerializer.h:22-56 | A line ends at its only newline, whatever the label values hold |
| PrometheusSerializer.CollectedNext | src/PrometheusSerializer.h:22-56 | One more write: the first type wins, the first non-empty help wins, and its line comes last in its family |
| PrometheusSerializer.AppendEscaped | src/PrometheusSerializer.h:97-113 | Appends the value in UTF-8 with escapes, quoted |
| PrometheusSerializer.AppendHelpEscaped | src/PrometheusSerializer.h:115-125 | Appends the escaped help text |
| PrometheusSerializer.AppendLabels | src/PrometheusSerializer.h:127-152 | Appends the labels shown, joined by commas, in braces, with no comma left over |
| PrometheusSerializer.Serializer.constructor | src/PrometheusSerializer.h:76-82 | A serializer starts without writes |
| PrometheusSerializer.Serializer.Write | src/PrometheusSerializer.h:22-56 | The serializer holds the grouping of all writes so far |
| PrometheusSerializer.Serializer.Finalize | src/PrometheusSerializer.h:58-73 | The text is the stable group-by of the writes: each family's header once, then its lines in write order |
| PrometheusReader.TextReads | src/PrometheusSerializer.h:22-73 | A reader of the format gets from the text of any history the families in first-write order, each with its help, its type, and its series with names, labels and values |
| PrometheusReader.SampleReads | src/PrometheusSerializer.h:36-55 | A series' line is read back: full name, labels as UTF-8, value |
| PrometheusReader.LabelsRead | src/PrometheusSerializer.h:127-152 | Labels are read back whatever follows the closing brace |
| PrometheusReader.QuotedReads | src/PrometheusSerializer.h:97-113 | A quoted value is read back whatever follows its closing quote |
| PrometheusReader.HelpReads | src/PrometheusSerializer.h:115-125 | An escaped help text is read back |
| PrometheusReader.KindReads | src/PrometheusSerializer.h:85-95 | Each type is written by the name the format gives it |
| DnsNames.Decode | libs/visor_dns/DnsResource.cpp:54-149 | The loop, which calls itself for a pointer, ends on every buffer and offset, reads only inside the layer, and computes what `DnsReading.NameIs` describes |
| DnsNames.CopyName | libs/visor_dns/DnsResource.cpp:90-99 | Copies the name a pointer leads to up to 255 bytes in all |
| DnsNames.Encode | libs/visor_dns/DnsResource.cpp:151-187 | The loop over the words of a name computes its encoding |
| DnsNames.EncodeLabels | libs/visor_dns/DnsResource.cpp:151-187 | A name is written as each label with its length, and a zero |
| DnsNames.EncodePointer | libs/visor_dns/DnsResource.cpp:158-176 | A prefix and `#off` are written as the prefix's labels and a two-byte pointer |
| DnsNames.AnyName | libs/visor_dns/DnsResource.cpp:151-187 | Any text at all is words with dots and a last word, or a pointer |
| DnsNames.AnyNameEncoded | libs/visor_dns/DnsResource.cpp:151-187 | What any text is encoded as: each word with its length, a zero, or two bytes for a pointer from 0 to 255 and nothing for another |
| DnsNames.RoundTrip | libs/visor_dns/DnsResource.cpp:54-187 | A name of labels of 1 to 191 bytes, 256 in all with their lengths, decodes at any offset to itself with its encoded length |
| DnsNames.PointerRoundTrip | libs/visor_dns/DnsResource.cpp:54-187 | `prefix.#off` decodes to the prefix, a dot and the name at `off`, 255 bytes in all |
| DnsNames.PointerToName | libs/visor_dns/DnsResource.cpp:54-187 | A prefix and a pointer to a stored name decode to the joined name |
| DnsNames.DecodedFits | libs/visor_dns/DnsResource.cpp:54-149 | On any bytes, a name's length counts no byte beyond the layer but a final zero, and its text fits in 256 bytes |
| DnsNames.TextNoZero | libs/visor_dns/DnsResource.cpp:54-149 | A decoded name holds no zero |
| DnsReading.NameIs | libs/visor_dns/DnsResource.cpp:54-149 | What any bytes decode to, by the labels that stand there and what stops them: a zero, a pointer by the number it holds, half a pointer, the end, or a label that is too long |
| DnsReading.LabelsAt | libs/visor_dns/DnsResource.cpp:71-130 | Everywhere there are such labels |
| DnsReading.EveryPointer | libs/visor_dns/DnsResource.cpp:74-78 | Any two bytes from 192 on are a pointer to some fourteen-bit number |
| DnsReading.PointedName | libs/visor_dns/DnsResource.cpp:74-107 | Labels, a pointer to any such number and a name written there read as one name, up to the twentieth pointer |
| DnsReading.TooDeep | libs/visor_dns/DnsResource.cpp:65-67 | Beyond that there is no name |
| DnsReading.PointerToItself | libs/visor_dns/DnsResource.cpp:64-107 | A pointer to itself is followed until the depth runs out, and names nothing |
| DnsReading.IllegalPointer | libs/visor_dns/DnsResource.cpp:76-86 | A pointer into the header or past the end makes the whole name illegal, whatever bytes its labels hold |
| DnsRecords.InsertTiles | libs/visor_dns/DnsLayer.cpp:93-104 | Bytes put in at a record's start make a new record there, and the message is still header, records and rest |
| DnsRecords.ReplaceTiles | libs/visor_dns/DnsResource.cpp:214-247 | So do other bytes in place of a record's |
| DnsRecords.RemoveTiles | libs/visor_dns/DnsLayer.cpp:106-117 | So does taking a record's bytes out |
| DnsRecords.SizeOfRec | libs/visor_dns/DnsResource.cpp:309-321 | A record's size read from the message is the length of its bytes |
| DnsParse.RecordOk | libs/visor_dns/DnsLayer.cpp:160-182 | A record that fits in the message is well-formed |
| DnsParse.FullCounts | libs/visor_dns/DnsLayer.cpp:129-158 | A full parse holds as many records of each section as the header counts |
| DnsParse.ParsesBack | libs/visor_dns/DnsLayer.cpp:129-209 | Records that tile a message, by section and with names that read back, are what reading it finds |
| DnsParse.ParsedStands | libs/visor_dns/DnsLayer.cpp:129-182 | What a parse finds stands there one after the other, by section, each name as long as its record says |
| DnsList.MoveFollowing | libs/visor_dns/DnsLayer.cpp:93-117 | Moves the offsets of the nodes after a position, and no other |
| DnsList.FindBefore | libs/visor_dns/DnsLayer.cpp:717-741 | Finds the node before a given one, or that it is not in the list |
| DnsList.FirstsInserted | libs/visor_dns/DnsLayer.cpp:459-489 | After an insertion the pointers still lead to the first record of each section |
| DnsList.FirstsRemoved | libs/visor_dns/DnsLayer.cpp:755-763 | After a removal too |
| DnsLayer.Layer.constructor | libs/visor_dns/DnsLayer.cpp:33-47 | A new message is sound and has no records |
| DnsLayer.Layer.Received | libs/visor_dns/DnsLayer.cpp:21-31 | A received message has not been read |
| DnsLayer.Layer.ParseResources | libs/visor_dns/DnsLayer.cpp:119-209 | Succeeds exactly if there are at most 100 records and each fits; on a message without records list, pointers, bytes and header counts then agree, and on one with records the list stays sound exactly if nothing is read |
| DnsLayer.Layer.ExtendLayer | libs/visor_dns/DnsLayer.cpp:93-104 | Inserts bytes and moves the offsets of the records after them, or changes nothing |
| DnsLayer.Layer.ShortenLayer | libs/visor_dns/DnsLayer.cpp:106-117 | Removes bytes and moves the offsets of the records after them, or changes nothing |
| DnsLayer.Layer.AddQuery | libs/visor_dns/DnsLayer.cpp:500-552 | A new node for the query comes after the last one, with its name, type and class as bytes, and list, pointers, bytes and counts agree; or nothing changes |
| DnsLayer.Layer.AddResource | libs/visor_dns/DnsLayer.cpp:424-498 | The record comes last in its section, unless the list starts with a later section: then two nodes lead to each other |
| DnsLayer.Layer.AddRecord | libs/visor_dns/DnsLayer.cpp:584-593 | Adds a record, with a new node, and counts it in the header; list, pointers, bytes and counts agree |
| DnsLayer.Layer.RemoveResource | libs/visor_dns/DnsLayer.cpp:717-768 | Takes exactly this record out of list and bytes; refused exactly if it is not in the list or the layer cannot be shortened |
| DnsLayer.Layer.RemoveRecord | libs/visor_dns/DnsLayer.cpp:573-582 | Removes a record and counts one less in its section |
| DnsLayer.Layer.SetName | libs/visor_dns/DnsResource.cpp:214-247 | The record has the new encoded name in place of the old one and is otherwise the same; everything still agrees |
| DnsLayer.Layer.SetData | libs/visor_dns/DnsResource.cpp:359-442 | The record has the new data and its length; everything still agrees |
| DnsLayer.AssembleQuery | libs/visor_dns/DnsLayer.cpp:500-510 | The buffer of a new query holds its name, then its type and its class as two-byte numbers |
| DnsLayer.AssembleResource | libs/visor_dns/DnsLayer.cpp:427-451 | The buffer of a new record holds its name, then its type, class, time to live and length as numbers of two, two, four and two bytes, then its data |
| DnsLayer.RenamedFields | libs/visor_dns/DnsResource.cpp:214-247 | Another name leaves type, class, time to live and data |
| DnsLayer.WithDataFields | libs/visor_dns/DnsResource.cpp:417-441 | Other data leaves name, type, class and time to live, and has its length before it |
| DnsLayer.CycleIsNoList | libs/visor_dns/DnsLayer.cpp:459-489 | Two nodes that lead to each other are no list |
| DnsRuns.DoAll | libs/visor_dns/DnsLayer.cpp:424-768 | Every sequence of additions, removals, renamings and changes of data that links no earlier section before the head keeps list, pointers, bytes and header counts in agreement, and makes of the records what the operations do in turn |
| DnsRuns.ParseAndDo | libs/visor_dns/DnsLayer.cpp:119-768 | So it does on any received message that is read whole |
| DnsRuns.ParsesToItself | libs/visor_dns/DnsLayer.cpp:119-209 | A sound message whose names read back is read as its own records |
| DnsRuns.ParsedIff | libs/visor_dns/DnsLayer.cpp:119-209 | A first parse finds certain records exactly if they stand from byte 12 on, by section, as many of each as the header says and at most 100 |
| DnsRuns.BuildAndParse | libs/visor_dns/DnsLayer.cpp:33-593 | A message built by any such sequence with round-tripping names is read back as the same records by who receives it |
| DnsRuns.BuildThenParse | libs/visor_dns/DnsLayer.cpp:119-593 | Reading a message that was built and not sent keeps it sound exactly if it has no records |
| DnsRuns.AnswerAfterAdditional | libs/visor_dns/DnsLayer.cpp:459-489 | A new message with an additional record and then an answer has two nodes that lead to each other |
| DnsItems.AllAfterHold | libs/visor_dns/DnsLayer.cpp:424-768 | Any sequence of operations does to the records' bytes what it does to their values |
| DnsItems.FieldsRead | libs/visor_dns/DnsResource.cpp:189-212 | Type, class, time to live and data are read from a message as the record holds them |
| DnsItems.ReadItem | libs/visor_dns/DnsResource.cpp:189-321 | Reads the values of a record through its node |
| DnsItems.HeaderShows | libs/visor_dns/DnsLayer.cpp:547-593 | The number of records of each section stands in the header's two bytes for it |
| DnsItems.BuildAndRead | libs/visor_dns/DnsLayer.cpp:33-593 | Who receives a message built by any sequence of operations with round-tripping names reads exactly the values these make, and their numbers in the header |
| ControlFrames.DecodeOfEncode | 3rd/fstrm/fstrm/control.c:238-494 | Decoding an encoded frame gives its kind and the content types its kind may carry |
| ControlFrames.EncodeOfDecode | 3rd/fstrm/fstrm/control.c:238-494 | What is accepted is the byte form of what is returned; it can be encoded again, with header exactly if it is at most 512 bytes |
| ControlFrames.LongHeaderFrame | 3rd/fstrm/fstrm/control.c:238-415 | A frame with header that is decoded and cannot be encoded again |
| ControlFrames.FrameLength | 3rd/fstrm/fstrm/control.c:362-415 | The encoder's size is the length of the frame |
| ControlFrames.FrameShows | 3rd/fstrm/fstrm/control.c:417-494 | A frame's bytes: with header a zero and the length of the rest, then the number of its kind, 1 to 5, and a field for each content type its kind may carry |
| ControlFrames.FieldShows | 3rd/fstrm/fstrm/control.c:470-490 | A field's bytes: the number 1, the length, and the content type |
| ControlFrames.EncodableIff | 3rd/fstrm/fstrm/control.c:362-415 | The limits are 256 bytes for a content type and 512 for a frame, with its header if it has one |
| ControlFrames.LoadBe32 | 3rd/fstrm/fstrm/fstrm-private.h:80-93 | Reads a big-endian integer and moves on, or fails without moving exactly if four bytes are not left |
| ControlFrames.StoreBe32 | 3rd/fstrm/fstrm/fstrm-private.h:95-108 | Writes a big-endian integer and nothing else, or fails without writing |
| ControlFrames.LoadBytes | 3rd/fstrm/fstrm/fstrm-private.h:110-121 | Reads bytes and moves on, or fails without moving |
| ControlFrames.StoreBytes | 3rd/fstrm/fstrm/fstrm-private.h:123-134 | Writes bytes and nothing else, or fails without writing |
| Bytes.Be32RoundTrip | 3rd/fstrm/fstrm/fstrm-private.h:80-108 | A stored integer is loaded back |
| Bytes.FromBe32RoundTrip | 3rd/fstrm/fstrm/fstrm-private.h:80-108 | A loaded integer is stored as the same bytes |
| Bytes.Be32Is | 3rd/fstrm/fstrm/fstrm-private.h:95-108 | A stored integer is the number its bytes stand for, most significant first |
| Bytes.FromBe32Is | 3rd/fstrm/fstrm/fstrm-private.h:80-93 | So is a loaded one |
| ControlCodec.ControlFrame.Decode | 3rd/fstrm/fstrm/control.c:238-360 | Succeeds exactly on the byte forms of frames, and then holds that frame |
| ControlCodec.ControlFrame.EncodedSize | 3rd/fstrm/fstrm/control.c:362-415 | Succeeds exactly if content types and frame are within their limits, with the length of the frame |
| ControlCodec.ControlFrame.Encode | 3rd/fstrm/fstrm/control.c:417-494 | Fills exactly the encoded size with the byte form, and writes nothing if the frame or the buffer does not allow it |
| IoThread.UnderHint | 3rd/fstrm/fstrm/iothr.c:479-522 | Two or more pending frames are under the hint exactly if the first does not wrap the counter |
| IoThread.OverHint | 3rd/fstrm/fstrm/iothr.c:479-522 | A first frame of 2^32 - 3 bytes lets a second join it |
| IoThread.TookOutq | 3rd/fstrm/fstrm/iothr.c:479-522 | Taking a frame keeps the output queue within its size and its byte counter right |
| IoThread.TookOwned | 3rd/fstrm/fstrm/iothr.c:497-542 | Taking a frame keeps every acceptance accounted for: queued, pending or freed |
| IoThread.TookOrdered | 3rd/fstrm/fstrm/iothr.c:497-542 | Taking a frame keeps each queue's frames in order of acceptance on their way to the writer |
| IoWorker.Worker.constructor | 3rd/fstrm/fstrm/iothr.c:232-335 | The thread starts with empty queues |
| IoWorker.Worker.Submit | 3rd/fstrm/fstrm/iothr.c:420-446 | Failure exactly when shutting down, invalid exactly for bad arguments, again exactly if the queue is full; otherwise the frame is last in its queue |
| IoWorker.Worker.FlushOutput | 3rd/fstrm/fstrm/iothr.c:457-477 | Hands the pending frames to an open writer in one write and frees each; the writer is open afterwards exactly if it was and the write, if there was one, did not fail |
| IoWorker.Worker.MaybeFlushOutput | 3rd/fstrm/fstrm/iothr.c:479-495 | Flushes if the queue is full or the next frame would reach the hint; then there is room |
| IoWorker.Worker.ProcessQueueEntry | 3rd/fstrm/fstrm/iothr.c:497-522 | Queues a frame for an open writer, and frees it otherwise |
| IoWorker.Worker.ProcessQueues | 3rd/fstrm/fstrm/iothr.c:524-542 | Takes one frame of each queue, in order, and counts them; none exactly if all are empty |
| IoWorker.Worker.ShutDown | 3rd/fstrm/fstrm/iothr.c:596-612 | Ends with all queues empty, nothing pending and the writer closed |
| IoWorker.Worker.FreeQueues | 3rd/fstrm/fstrm/iothr.c:345-359 | Frees every frame still queued |
| IoWorker.Worker.Destroy | 3rd/fstrm/fstrm/iothr.c:361-385 | Every frame has been freed as often as it was accepted |
| IoRuns.RunGood | 3rd/fstrm/fstrm/iothr.c:420-643 | In every reachable state the output queue fits and frames are in order |
| IoRuns.FreedOnce | 3rd/fstrm/fstrm/iothr.c:345-385 | When destroying ends, every accepted frame was freed exactly once, and nothing else, across failures, closes, reopens and late submissions |
| IoRuns.NotFreedEarly | 3rd/fstrm/fstrm/iothr.c:420-542 | At no time is a frame freed twice, or freed while queued or pending |
| IoRuns.HandedInOrder | 3rd/fstrm/fstrm/iothr.c:420-542 | Each queue's frames reach the writer in order of acceptance, none twice, and the output queue never exceeds its size |
| IoRuns.PendingUnderHint | 3rd/fstrm/fstrm/iothr.c:479-522 | In every reachable state two or more pending frames are under the hint exactly if the first does not wrap the counter |
| IoRuns.NothingSkipped | 3rd/fstrm/fstrm/iothr.c:457-542 | While the writer stays open it gets exactly the accepted frames of each queue, in order |
| IoRuns.OpenNext | 3rd/fstrm/fstrm/iothr.c:447-477 | The writer is closed by a write that fails and by the end of the thread, and opened only by a turn that opens it |
| IoRuns.WritesNext | 3rd/fstrm/fstrm/iothr.c:457-495 | A step writes all that is pending exactly if it flushes, which it does on a timeout, at the end, and for a frame that finds the queue full or brings it to the hint |
| IoRuns.TakeNext | 3rd/fstrm/fstrm/iothr.c:497-522 | A frame that is taken is pending exactly if the writer was open, and dropped otherwise |
| IoRuns.ReopenedBetween | 3rd/fstrm/fstrm/iothr.c:457-576 | In every run there is a turn that opens the writer between a write that failed and the next one |
| IoRuns.DroppedAfterFailure | 3rd/fstrm/fstrm/iothr.c:457-522 | From a write that failed until such a turn nothing is written and every frame taken is dropped |
| LruList.HoldsMostRecent | src/VisorLRUList.h:60-91 | After any puts the list holds the maximum number of most recently put keys, latest first, with their latest values |
| LruList.AllPutsRecent | src/VisorLRUList.h:60-91 | Without a maximum it holds every key put |
| LruList.PutLimited | src/VisorLRUList.h:71-88 | What was evicted makes no difference to what is held after another put |
| LruList.LastPutOk | src/VisorLRUList.h:60-91 | What the last put of a key is |
| LruList.Cache.constructor | src/VisorLRUList.h:37-48 | A list starts empty |
| LruList.Cache.Put | src/VisorLRUList.h:60-91 | The entry comes first, its key's old entry goes, else the last if there are too many; list and map agree; evicted exactly if the list was full and the key new |
| LruList.Cache.GetValue | src/VisorLRUList.h:113-120 | The value held for the key, if any, and nothing changes |
| LruList.Cache.EraseElement | src/VisorLRUList.h:126-134 | Takes out the key's entry and nothing else |
| Transactions.TimespecDiff | libs/visor_transaction/TransactionManager.h:24-37 | For normalised stamps the result is normalised, and is the time between them exactly if the seconds are in order |
| Transactions.DiffIsElapsedIff | libs/visor_transaction/TransactionManager.h:24-37 | The difference is the time between the stamps exactly if the seconds are in order, and by how much it is off otherwise |
| Transactions.DiffOutOfOrder | libs/visor_transaction/TransactionManager.h:24-37 | Two stamps whose difference is not the time between them |
| Transactions.LateIff | libs/visor_transaction/TransactionManager.h:61-92 | The test by seconds and milliseconds is the comparison with the whole time to live, for every split |
| Transactions.UnpurgedInTime | libs/visor_transaction/TransactionManager.h:94-106 | What a purge leaves, if it started by then, would still end in time |
| Transactions.PurgedInTimeIff | libs/visor_transaction/TransactionManager.h:94-106 | Exactly when a transaction that a purge takes was still in time |
| Transactions.PurgesOnlyLateIff | libs/visor_transaction/TransactionManager.h:94-106 | A purge takes only late transactions exactly if the time to live is whole seconds and it comes in a second's last nanosecond |
| Transactions.PurgedEarly | libs/visor_transaction/TransactionManager.h:94-106 | A purged transaction that was still in time |
| Transactions.TransactionManager.constructor | libs/visor_transaction/TransactionManager.h:61-69 | The time to live is split into seconds and milliseconds |
| Transactions.TransactionManager.StartTransaction | libs/visor_transaction/TransactionManager.h:71-74 | Opens a transaction |
| Transactions.TransactionManager.MaybeEndTransaction | libs/visor_transaction/TransactionManager.h:76-92 | Closes exactly this transaction; too late exactly if its total, which is the time it took if the seconds are in order, is at least the time to live in nanoseconds |
| Transactions.TransactionManager.PurgeOldTransactions | libs/visor_transaction/TransactionManager.h:94-106 | Takes out exactly the transactions as old as the seconds of the time to live, and counts them |

## Left out

- The tick timer of 3rd/timer: its claims are easy.
- Pushes of the live window of unclosed policies, and how often they are made.
- `simple_merge`, and the contents of sketches, top lists, histograms and rates: a bucket has its counters, stamps and flags.
- The merged-JSON cache, YAML and JSON, HTTP routes, logging and the command line.
- Event proxies and the count of an input's consumers: handlers connect when started and disconnect when stopped.
- How a handler's name is composed of its policy's, tap's and module's: a tap lists its handlers by name.
- Interleavings of loads and removals, and the memory model.
- Overflow of the 64-bit event counters.
- The fixed 256-byte buffers of names and records.
- Cached decoded names and their lower-case form, forced or partial parsing, and the lookup of records by name.
- How record data of each DNS type is made: it is given as bytes, or as a failure.
- The files, sockets and negotiation of Frame Streams, and the ring buffers of its queues.
- When the I/O thread tries to open its writer again: any turn may.
- Geographic databases, the public suffix list, host specifications, HTTP checks, sFlow and NetFlow.
- WindowMerge.GetMergedBuckets: assumes, as the code does, that equal classes have equal schema keys.
- DnsNames.RoundTrip: is stated for names whose labels have no dot or zero and do not start with a hash sign.
- PolicyManager.Manager.RemoveHandlers: does not model that a handler with consumers is not removed, nor that it is stopped
  first; it is called after the policy was stopped, and what is removed is not looked at again.
- PolicyManager.Manager.RemoveInputs: does not model that an input with consumers is not removed, nor that it is stopped
  first, for the same reason.
- MergedTime.InStepInRealTime: is stated for streams that have not ended and for handlers that stay close to each other;
  by `MergedTime.PickInStepIff`, handlers that drift apart for ever come to skip windows.
- PrometheusReader.TextReads: is stated for label names that are identifiers, metric names without newline, space or brace
  that do not start with a hash sign, and numbers without a newline, as the format wants them; the reader is this model's.
- DnsItems.BuildAndRead: is stated for names that read back, of at most 256 bytes, and for at most 100 records.
