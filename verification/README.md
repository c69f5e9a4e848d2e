# Verified models of the QMK firmware's stateful engines

This project models, in Dafny, the parts of the QMK keyboard firmware whose behaviour comes from
state that builds up over many calls, and proves what those parts do over every run, every input
or every reachable state. Constants that a keyboard chooses (rows, columns, layers, buffer sizes,
terms, resolutions, page sizes) are parameters wherever the source lets a keyboard choose them.

`dafny verify dfyconfig.toml` checks everything.

| file | what it models |
|---|---|
| `TappingModel.dfy` | the tap/hold resolver of `quantum/action_tapping.c` as a transition function |
| `TappingConservation.dfy`, `TappingDecision.dfy`, `TappingNested.dfy` | what it keeps over whole runs, how it chooses between tap and hold, and what becomes of a tap key inside another |
| `TappingCount.dfy`, `TappingSequence.dfy` | how it counts taps, and which strokes continue a sequence of taps |
| `TappingOrder.dfy`, `TappingRuns.dfy`, `TappingLimits.dfy` | exactly which builds keep every key's events in order, and exactly which tell the host of presses and releases in turn |
| `TappingEngine.dfy` | the same resolver in place, with its ring buffer, proved equal to the transition function |
| `DynamicMacro.dfy` | the two-ended macro recorder of `quantum/dynamic_macro.h` |
| `DeferredExec.dfy` | the deferred executor table and its token allocator |
| `LayerActions.dfy` | keycode-to-action compiler and the interpreter of compiled layer actions |
| `LayerCache.dfy`, `LayerResolution.dfy` | layer resolution and the bit-sliced source-layer cache |
| `Display.dfy` | the ST7565 dirty-block display cache |
| `Uf2.dfy`, `Uf2Decode.dfy` | the UF2 encoder and decoder, and what the decoder makes of any file |
| `HexToUf2.dfy`, `HexRecords.dfy` | the Intel HEX converter: from writes to pages, and from records to addresses |
| `DynamicKeymap.dfy`, `MacroText.dfy` | the EEPROM keymap, encoder and macro areas, and the macro parser |
| `RotaryEncoder.dfy` | quadrature decoding and the replay of the other half's turns |
| `MatrixScan.dfy` | matrix differencing with ghost filtering |
| `MatrixToHost.dfy` | scanning and the tap/hold resolver together: what all calls of `process_record` tell the host of each key |
| `PageWrite.dfy` | page-split I2C and SPI EEPROM writes |
| `Bytes.dfy`, `Grid.dfy` | bytes, single bits and powers of two; matrix positions and tables of rows |

Code that updates state in place is a class or a method with loops; each such method is proved
equal to a function of its old state, and the theorems are about that function.

## What turned out differently from what the code or its comments say

- **Tap/hold order.** A release can be delivered before the press it belongs to, so that the key stays down.
  `TappingLimits.OrderKeptIff` says which builds never do that: those in which nothing ever waits (no tap key, a term of
  0, or "hold on other key press" with no release retained), and those with one fixed term and either "hold on other
  key press" or a single tap key and not both permissive hold and a retained release. Every other build has a run
  that breaks the order, for every choice of keys and every term. The condition is also exact when the buffer may
  overflow: what is left of a key's events is then still in order (`TappingLimits.NoneOvertakesIff`).
- **Invented releases.** With two tap keys and "hold on other key press" real events keep their order, but a key can be
  reported released twice: its counted tap is released when the other tap key goes down, and once more by its own
  release. What the host is told of every key alternates exactly in the builds that keep order and have at most one tap
  key or a term of 0 (`TappingLimits.ToldAlternatesIff`).
- **Permissive hold.** A key whose early release is retained, at the front of the buffer, turns the tap key into a hold
  when it is pressed again, although no key was tapped (`TappingDecision.PressAgainHolds`); the event after that leaves
  before everything that waited. In every other case the documented condition decides
  (`TappingDecision.DecidesAsDocumented`).
- **Layer-mod keys.** The shift `mod << 4` for right-hand modifiers (`quantum/keymap_common.c:149`) sends the
  right-hand flag into the lowest bit of the layer field, so `LM(2, MOD_RCTL)` switches layer 3. The layer is the one
  named exactly when the modifiers are left-hand ones or the layer is odd (`LayerActions.LayerModReachesIff`).
- **Macro parser.** The comment at `quantum/dynamic_keymap.c:295` says that sending cannot go past the end of the
  macro area. It does, exactly when the area ends in a null and holds exactly `id` nulls (`MacroText.OverrunsIff`).
- **UF2 gaps.** `outp += b"\x00\x00\x00\x00"` adds integers to a list of byte strings, so that a file of one family with
  any gap between its blocks cannot be decoded at all (`Uf2Decode.OneFamilyDecodesIff`, `Uf2.PagesRoundTrip`). Only a
  file of several families, decoded without asking for one, is spared: its list is emptied at the last block, unless
  that one is marked to be skipped, and it decodes to nothing, gaps or not (`Uf2Decode.DecodesIff`). The messages built with `"..." + ptr` raise an exception of
  their own; a bad block stops the conversion instead of being skipped.
- **HEX records** that go back to a page after another one start a second block for it. Every page is one block holding
  its image exactly when no record does that (`HexToUf2.ImageIff`), and the blocks ascend exactly when the page
  addresses of the data never go down (`HexToUf2.SortedIff`).
- **Deferred execution** runs early for delays of 2^31 ms and more (`DeferredExec.NeverEarlyIff`).
- **Display.** Exactly three byte-sized cursor arguments put the cursor where the next glyph overruns the buffer
  (`Display.OverrunsExactlyAt`, `Display.SpillsIff`), and `st7565_write_raw_byte` cuts an index outside the buffer to
  the byte right behind it (`drivers/lcd/st7565.c:334`, `Display.Driver.WriteRawByte`). The display stays coherent
  even then.
- **Encoder.** The pulse counter is a signed byte: steps are conserved over every run exactly when the resolution
  is below 128 (`RotaryEncoder.ConservesIff`). `encoder_update` looks its resolution up at the index local to the
  half (`quantum/encoder.c:168`), although `encoder_init` puts the right half's resolutions behind the left's; a half
  counts by its own resolutions exactly when the two entries agree or both are too large ever to turn
  (`RotaryEncoder.OwnResolutionIff`).
- **I2C EEPROM.** Every page of a block is sent to the bank of the block's first byte
  (`drivers/eeprom/eeprom_i2c.c:127`), and the packet is filled with a `uint8_t` index
  (`drivers/eeprom/eeprom_i2c.c:115`), a loop that ends exactly for pieces shorter than 256 bytes
  (`PageWrite.PacketLoopEndsIff`). A block is copied exactly when it stays in one bank and every piece is shorter than
  that (`PageWrite.CopiesIff`); inside one bank it is copied up to the first longer piece (`PageWrite.StopsShort`).

## Model

| member | source | states |
|---|---|---|
| `TappingConservation.RunConserves` | quantum/action_tapping.c:86-119 | over every run, with settings that may change at every call, each event received is delivered once, undecided, waiting or discarded by an overflow, as multisets |
| `TappingConservation.StepKeeps` | quantum/action_tapping.c:86-119 | one call keeps the invariant and accounts for its event |
| `TappingConservation.ProcessTappingKeeps` | quantum/action_tapping.c:177-434 | `process_tapping` delivers or takes up a record it reports handled and loses no other event |
| `TappingConservation.EnqueueKeeps` | quantum/action_tapping.c:440-468 | a queued record is accounted for in the buffer or, on overflow, with everything else that is discarded |
| `TappingConservation.DrainKeeps` | quantum/action_tapping.c:107-115 | the buffer loop loses and repeats nothing |
| `TappingConservation.NeverReleasedUncounted` | quantum/action_tapping.c:495-499 | in no reachable state is `tapping_key` released with count 0 |
| `TappingConservation.SyntheticReleasesDeliveredTap` | quantum/action_tapping.c:298-312 | whatever was delivered without being received releases a tap that was really delivered before it with a count above 1 |
| `TappingRuns.PerKeyOrder` | quantum/action_tapping.c:177-434 | for every build that satisfies the condition and every well-formed run without overflow, the real events of each key, delivered, held and waiting, are its received events in order (invented releases aside) |
| `TappingRuns.OrderThroughOverflow` | quantum/action_tapping.c:86-119 | for every such build and every well-formed run, overflows included, they are a subsequence of its received events |
| `TappingRuns.ToldInTurn` | quantum/action_tapping.c:298-312 | for every such build with at most one tap key or a term of 0, and every well-formed run without overflow, what `process_record` is told of each key alternates, invented releases included |
| `TappingRuns.RunInOrder` | quantum/action_tapping.c:86-119 | the invariant of every run behind these: what is pending of a key was received last, what was delivered of it is a subsequence of the rest, and a tapping key that is down was pressed last |
| `TappingRuns.TickFlushes` | quantum/action_tapping.c:330-336 | one tick past the term delivers all that was held or waiting, so nothing is lost |
| `TappingOrder.StepInOrder` | quantum/action_tapping.c:86-119 | one call keeps every key's order, whatever state it finds |
| `TappingOrder.StepUndecided` | quantum/action_tapping.c:183-289 | the same while the tap key is undecided |
| `TappingOrder.StepOverflows` | quantum/action_tapping.c:93-101 | a call that overflows leaves nothing held or waiting; at most the held key was delivered before |
| `TappingOrder.OvertakesQueue` | quantum/action_tapping.c:243-272 | the release of a key pressed before the tap overtakes the buffer without any key seeing its events reordered |
| `TappingOrder.DrainUndecided` | quantum/action_tapping.c:107-115 | the buffer loop while the tap key stays undecided reorders no key |
| `TappingOrder.FlushAsHold` | quantum/action_tapping.c:330-336 | a tap key that turns into a hold leaves with everything queued behind it, in order |
| `TappingOrder.FlushAsTap` | quantum/action_tapping.c:185-199 | a tap key that turns into a tap leaves with everything queued behind it, in order |
| `TappingDecision.TapOrHold` | quantum/action_tapping.c:183-289 | for any events of other keys inside the term that fit the buffer, the tap key released inside it is a hold exactly when another key was pressed in the "hold on other key press" mode or tapped in the "permissive hold" mode, or a retained release at the front was undone by a press in that mode, else a tap counted 1; the exact trace: early releases that are not retained go ahead of an undecided tap key, everything else follows it in order, but for the event right after such a press |
| `TappingDecision.HoldAtTermEnd` | quantum/action_tapping.c:330-336 | in every mode the end of the term makes it a hold, with the same exact trace |
| `TappingDecision.OthersFollow` | quantum/action_tapping.c:205-287 | the exact state after any such events: settled and delivered, or undecided with what waits and what went ahead |
| `TappingDecision.SettlesHold` | quantum/action_tapping.c:205-238 | the event that settles the hold comes right behind what waited |
| `TappingDecision.SettlesTap` | quantum/action_tapping.c:185-199 | the release that settles the tap comes right behind what waited, with the same count as the press |
| `TappingDecision.GoesAhead` | quantum/action_tapping.c:243-272 | the release of a key that was down before goes ahead of the undecided tap key |
| `TappingDecision.Stalls` | quantum/action_tapping.c:107-115 | in the permissive mode the press of a key whose retained release is at the front settles the hold in the buffer loop, which leaves everything waiting with no tap in progress |
| `TappingDecision.LeavesFirst` | quantum/action_tapping.c:86-119 | the next event then leaves before everything that waited |
| `TappingDecision.DecidesAsDocumented` | quantum/action_tapping.c:205-238 | with no retained early release, or in another mode, the documented condition alone decides |
| `TappingDecision.PressAgainHolds` | quantum/action_tapping.c:205-238 | in the permissive mode a retained release followed by the press of its key chooses the hold, although no key was tapped |
| `TappingDecision.TypedIffPressed` | quantum/action_tapping.c:471-478 | a release finds its press waiting exactly when the key went down after the tap key |
| `TappingNested.NestedTap` | quantum/action_tapping.c:495-512 | a tap key pressed and released inside its own term while another one is undecided, with other keys around it: when the outer term runs out the outer key is a hold and everything follows in order, the inner key as a tap counted 1, nothing left waiting |
| `TappingNested.NestedHold` | quantum/action_tapping.c:495-512 | an inner key held past its own term is a hold instead, and its release still waits |
| `TappingNested.RepeatWaits` | quantum/action_tapping.c:387-389 | an interrupted tap pressed and released again while it waits: the press is taken up without looking for its release, which only settles it |
| `TappingLimits.OrderKeptIff` | quantum/action_tapping.c:86-119 | every well-formed run without overflow keeps the real events of every key, in order, exactly when the build satisfies the condition on its tap keys, retained releases, term and hold settings (invented releases aside) |
| `TappingLimits.NoneOvertakesIff` | quantum/action_tapping.c:86-119 | in every well-formed run, overflows included, the real events of every key not lost are in order exactly when the build satisfies the same condition |
| `TappingLimits.ToldAlternatesIff` | quantum/action_tapping.c:298-312 | in every well-formed run without overflow what `process_record` is told of every key, invented releases included, alternates exactly when the build satisfies that condition and has at most one tap key or a term of 0 |
| `TappingLimits.InventedReleaseRepeats` | quantum/action_tapping.c:298-312 | any two tap keys and any term, with hold on other key press: a run in which a key is told released twice in a row |
| `TappingLimits.OrderBroken` | quantum/action_tapping.c:86-119 | a build that fails the condition has a run without overflow in which a real event of some key overtakes another, and what is told of it does not alternate |
| `TappingLimits.SecondTapKeyReorders` | quantum/action_tapping.c:107-115 | any two tap keys, any term, without hold on other key press: a run whose release is delivered before its press |
| `TappingLimits.PermissiveHoldReorders` | quantum/action_tapping.c:205-238 | any tap key and any other key whose release is retained, with permissive hold: such a run |
| `TappingLimits.ChangingTermReorders` | quantum/action_tapping.c:183-183 | any tap key and a term that may change, without hold on other key press: such a run |
| `TappingLimits.RetainedReleaseReorders` | quantum/action_tapping.c:243-267 | a changing term and a retained release, with hold on other key press: a run whose press is delivered before the release before it |
| `TappingCount.StrokesAreCounted` | quantum/action_tapping.c:373-389 | any number of quick strokes with any ticks between is delivered as taps counted min(n, 15), and nothing else is |
| `TappingCount.FirstStroke` | quantum/action_tapping.c:182-199 | the first stroke is held back and then delivered as a tap counted 1 |
| `TappingCount.NextStroke` | quantum/action_tapping.c:290-297 | each later stroke is delivered at once, counted one more up to 15 |
| `TappingCount.TicksInTerm` | quantum/action_tapping.c:373-418 | ticks inside the term leave a tap in progress alone |
| `TappingSequence.SequentialIff` | quantum/action_tapping.c:373-403 | after a counted tap and any events of other keys inside the term, a press of the tap key is delivered at once, counted one more, exactly when no other key went down, the tap had not been interrupted, and the press is inside both terms; otherwise nothing is delivered and the key is undecided |
| `TappingSequence.SessionFollows` | quantum/action_tapping.c:183-418 | any number of strokes of the tap key with any events of other keys during and between them: exactly what is delivered, with which counts, and whether the next stroke can continue |
| `TappingSequence.TapExpires` | quantum/action_tapping.c:409-418 | once the term after its release is over, every event is handled as if the tap had never been |
| `TappingSequence.ReleaseOfTap` | quantum/action_tapping.c:290-297 | the release of a counted tap ends the sequence exactly when it was held past the term |
| `TappingSequence.OthersAfterTap` | quantum/action_tapping.c:398-407 | other keys pass straight through behind a tap, and one that goes down interrupts it |
| `TappingSequence.OtherTapKeyStarts` | quantum/action_tapping.c:298-318 | another tap key pressed during or after a tap is taken up undecided; the release invented for a held tap counted more than once carries the time of the press and the tap's count |
| `TappingEngine.Engine.Enq` | quantum/action_tapping.c:440-460 | on the ring: the record joins the waiting sequence unless seven wait already |
| `TappingEngine.Engine.Clear` | quantum/action_tapping.c:462-465 | nothing waits afterwards |
| `TappingEngine.Engine.IsTyped` | quantum/action_tapping.c:471-478 | whether the opposite event of the same key waits |
| `TappingEngine.Engine.ScanTapped` | quantum/action_tapping.c:495-512 | the in-place scan refines the model's: the first release inside the term settles the tap |
| `TappingEngine.Engine.Process` | quantum/action_tapping.c:177-434 | the in-place step refines `ProcessTapping`: state, trace, record and result |
| `TappingEngine.Engine.ProcessUndecided` | quantum/action_tapping.c:183-289 | refines the undecided case |
| `TappingEngine.Engine.ProcessHeld` | quantum/action_tapping.c:290-326 | refines the cases of a settled tap that is still held |
| `TappingEngine.Engine.ProcessReleased` | quantum/action_tapping.c:373-418 | refines the case of a released tap key |
| `TappingEngine.Engine.ProcessWaiting` | quantum/action_tapping.c:107-115 | the loop over the ring refines the model's loop over the waiting sequence |
| `TappingEngine.Engine.ActionTappingProcess` | quantum/action_tapping.c:86-119 | the whole call on the ring equals one step of the model |
| `DynamicMacro.RunFits` | quantum/dynamic_macro.h:154-260 | over every run the two macros together fit the array |
| `DynamicMacro.OtherRecordingsKeepMacro` | quantum/dynamic_macro.h:201-257 | no run that never starts recording a slot changes what playing that slot emits |
| `DynamicMacro.PlaybackOfRecording` | quantum/dynamic_macro.h:77-142 | start, any events, stop, play: emits the events with leading releases dropped, cut to the free capacity, trailing presses trimmed; the other macro plays as before |
| `DynamicMacro.RecordingTakes` | quantum/dynamic_macro.h:104-122 | what is stored part-way through any recording |
| `DynamicMacro.RunPassesOn` | quantum/dynamic_macro.h:201-259 | over every run exactly the inputs are passed on that are neither the release of a start or play key while nothing is recorded nor a stop or play key while something is |
| `DynamicMacro.RunDoes` | quantum/dynamic_macro.h:201-239 | over every run recording begins with the release of a start key and ends with the press of the stop key, and only so |
| `DynamicMacro.OnlyPlayKeysPlay` | quantum/dynamic_macro.h:213-218 | after every run, what is played on an input: the macro of its slot for the release of a play key while nothing is recorded, and nothing on any other |
| `DynamicMacro.TrimKeepsLongestPrefix` | quantum/dynamic_macro.h:128-142 | trimming keeps the longest prefix that does not end in a press |
| `DynamicMacro.Recorder.PlayBack` | quantum/dynamic_macro.h:77-93 | walking from either end emits exactly the stored records, in order |
| `DynamicMacro.Recorder.RecordKey` | quantum/dynamic_macro.h:104-122 | the equality check alone keeps every write inside the array and off the other macro |
| `DynamicMacro.Recorder.RecordEnd` | quantum/dynamic_macro.h:128-142 | the end pointer stops behind the trimmed macro |
| `DynamicMacro.Recorder.ProcessRecord` | quantum/dynamic_macro.h:154-260 | the array and its pointers refine the model's step: what is played, what is passed on, and both macros |
| `DeferredExec.AllocatesIffUnused` | quantum/deferred_exec.c:30-40 | the wrapping search ends, and finds a token exactly when one of the 255 is unused; the token found is non-zero and unused |
| `DeferredExec.Pigeonhole` | quantum/deferred_exec.c:18-40 | a table of at most 255 entries with a free slot leaves a token unused |
| `DeferredExec.RunKeepsTokensDistinct` | quantum/deferred_exec.c:46-151 | over every run of defer, extend, cancel and task, with other tables moving the shared token counter, live tokens are non-zero and pairwise distinct |
| `DeferredExec.DeferSucceedsIffSlotFree` | quantum/deferred_exec.c:46-73 | in every such state a defer succeeds exactly when it has a delay, a callback and a free slot, and changes nothing otherwise |
| `DeferredExec.DeferStores` | quantum/deferred_exec.c:53-68 | it puts callback, argument and trigger time into a free slot under the next usable token, and changes nothing else |
| `DeferredExec.DeferredFires` | quantum/deferred_exec.c:46-151 | from the call on, over every run that leaves the token alone: the firings invoke the callback given with the argument given, the first with trigger start + delay modulo 2^32, and for a delay below 2^31 none before that |
| `DeferredExec.FiresAt` | quantum/deferred_exec.c:118-149 | the first task that runs less than 2^31 ms behind its time fires an entry, once |
| `DeferredExec.LivesUntilZero` | quantum/deferred_exec.c:134-147 | over every such run the slot is freed when the callback returns 0, and not before |
| `DeferredExec.ExtendMovesTrigger` | quantum/deferred_exec.c:75-93 | extending succeeds exactly for a live token and a delay, and moves only that entry's trigger, to the delay from now |
| `DeferredExec.CancelBlanks` | quantum/deferred_exec.c:95-116 | cancelling succeeds exactly for a live token, and blanks only that entry |
| `DeferredExec.RunsOncePerMillisecond` | quantum/deferred_exec.c:118-123 | a task within 2^31 ms of the last that ran runs exactly when its time is later |
| `DeferredExec.CancelUndoesDefer` | quantum/deferred_exec.c:95-116 | cancelling the token a defer returned restores the table |
| `DeferredExec.NeverEarlyIff` | quantum/deferred_exec.c:130-130 | an entry is never due early exactly when its delay is below 2^31 |
| `DeferredExec.DueWhenElapsed` | quantum/deferred_exec.c:130-130 | it is due once its time has come, for 2^31 ms |
| `DeferredExec.FiringTimes` | quantum/deferred_exec.c:126-149 | over every run that leaves an entry alone, its firings invoke its callback with its argument and carry its trigger plus the delays the callback returned before, modulo 2^32 |
| `DeferredExec.FiresOnce` | quantum/deferred_exec.c:126-149 | a due entry fires once in a run of the task, and no other entry under its token |
| `DeferredExec.SlotLives` | quantum/deferred_exec.c:46-151 | operations on other tokens do not touch an entry |
| `DeferredExec.Executor.CanBeUsed` | quantum/deferred_exec.c:18-28 | a token can be used when it is valid and no entry holds it |
| `DeferredExec.Executor.AllocateToken` | quantum/deferred_exec.c:30-40 | the loop ends with the next usable token, or gives up after one round |
| `DeferredExec.Executor.DeferExec` | quantum/deferred_exec.c:46-73 | refines the model: first free slot, trigger time modulo 2^32, the three rejections |
| `DeferredExec.Executor.ExtendExec` | quantum/deferred_exec.c:75-93 | refines the model: only the trigger of the token's entry changes |
| `DeferredExec.Executor.CancelExec` | quantum/deferred_exec.c:95-116 | refines the model: only the token's entry is freed |
| `DeferredExec.Executor.RunTask` | quantum/deferred_exec.c:118-151 | refines the model: which callbacks are invoked with which trigger, and the table afterwards |
| `LayerActions.RunCodesMean` | quantum/action.c:546-619 | over every run of TO, TG, DF, MO and TT keys, for every width of the layer state, the compiled codes do what the keys mean |
| `LayerActions.StrikeMeans` | quantum/action.c:546-619 | one event of any such key, layers 0 to 31 |
| `LayerActions.ToCode` | quantum/keymap_common.c:97-101 | TO moves to its layer on press: that layer is on and no other |
| `LayerActions.MoCode` | quantum/keymap_common.c:102-106 | MO turns its layer on and off, layers 16-31 included, whose code spills into the kind field |
| `LayerActions.DfCode` | quantum/keymap_common.c:107-111 | DF sets the default layer on release |
| `LayerActions.TgCode` | quantum/keymap_common.c:112-116 | TG inverts its layer on release |
| `LayerActions.TtCode` | quantum/action.c:603-614 | TT inverts its layer up to the fifth tap |
| `LayerActions.LayersAreSingleBits` | quantum/action_layer.c:160-186 | different layers are different single bits |
| `LayerActions.OwnBit` | quantum/action_layer.c:168-186 | on, off and invert act on the layer's own bit |
| `LayerActions.MomentaryUndoneIff` | quantum/action.c:617-619 | holding and releasing MO restores the state exactly when the layer was off before |
| `LayerActions.MomentaryLeavesNoTrace` | quantum/action.c:600-619 | MO pressed, any run of layer keys, MO released, all through the compiled codes, from any state inside the width: its layer is off and everything else is what the keys between alone would have made |
| `LayerActions.ToggleTwice` | quantum/action_layer.c:184-186 | toggling twice restores the state |
| `LayerActions.LayerModNamesItsLayerIff` | quantum/keymap_common.c:146-150 | an LM code names its layer exactly when the modifiers are left-hand ones or the layer is odd |
| `LayerActions.LayerModFields` | quantum/action_code.h:250-250 | what the layer and modifier fields of an LM code hold |
| `LayerActions.LayerModReachesIff` | quantum/keymap_common.c:146-150 | pressing an LM key does to the layers, in every state and every width, what turning on the layer it names does, iff its modifiers are left-hand ones or that layer is odd |
| `LayerActions.LayerModStrike` | quantum/action.c:591-599 | in every state and width, press and release: the layer its code reaches, the one named with the lowest bit set for right-hand modifiers, and the modifiers, right-hand ones in the upper half of the byte |
| `LayerActions.LayerTapCodes` | quantum/action.c:620-625 | the off-on and set-clear codes of layer-tap actions |
| `LayerActions.OperandOf` | quantum/action.c:553-556 | the operand of a bitwise layer action: its four bits in their part, its fifth bit everywhere else |
| `LayerActions.BitwiseCodes` | quantum/action.c:546-590 | a bitwise layer action through its code: default layers without events asked for, layers otherwise |
| `LayerActions.LayerModSpills` | quantum/keymap_common.c:146-150 | LM(2, right control) switches layer 3 and leaves layer 2 off |
| `LayerCache.ReplacedBit` | quantum/action_layer.c:232-242 | writing one bit of a cache byte changes that bit only |
| `LayerCache.OneMoreBit` | quantum/action_layer.c:244-257 | or-ing in the bits from the lowest up rebuilds the number |
| `LayerCache.LowExact` | quantum/action_layer.c:232-257 | a layer that fits its bits is stored exactly |
| `LayerCache.SlicedCache.Update` | quantum/action_layer.c:232-242 | for every table size the sliced write updates one entry of a plain sequence of layers |
| `LayerCache.SlicedCache.Read` | quantum/action_layer.c:244-257 | the sliced read reads that sequence |
| `LayerResolution.ResolveIsHighest` | quantum/action_layer.c:323-343 | the layer found is the highest active one where the key is not transparent, or 0 |
| `LayerResolution.PressRunsOn` | quantum/action_layer.c:299-343 | after any run a press runs on the highest layer where the key is not transparent that is on in the layer state or default state last set, or on layer 0 |
| `LayerResolution.LayersInForce` | quantum/action_layer.c:328-328 | over every run the states in force are those last set |
| `LayerResolution.LayerSwitchGetLayer` | quantum/action_layer.c:323-343 | the loop over either state's layers finds the highest one where the key is not transparent |
| `LayerResolution.ReleaseMatchesPress` | quantum/action_layer.c:299-317 | whatever layer changes and other keys come between, a release runs on the layer of its press exactly when the key is in the matrix or that layer was 0 |
| `LayerResolution.Resolver.UpdateCache` | quantum/action_layer.c:260-271 | the bit-sliced cache behaves as a map from position to layer; positions outside the matrix are ignored |
| `LayerResolution.Resolver.ReadCache` | quantum/action_layer.c:277-289 | reads that map, 0 outside the matrix |
| `LayerResolution.Resolver.StoreOrGet` | quantum/action_layer.c:299-317 | refines the model: the layer used, which on a press is the highest that is on and not transparent, its action, and the map afterwards |
| `Display.AddressesBlock` | drivers/lcd/st7565.c:174-186 | the three commands sent for a block select the panel address of its first byte |
| `Display.OverrunsExactlyAt` | drivers/lcd/st7565.c:197-206 | exactly (85, 0), (42, 2) and (21, 3) put the cursor where a glyph overruns the buffer |
| `Display.SpillsIff` | drivers/lcd/st7565.c:262-280 | drawing at the cursor leaves the memory behind the buffer alone exactly when the glyph fits |
| `Display.LineEndsMeet` | drivers/lcd/st7565.c:208-228 | newline and return both end at the start of the next page, except when no glyph fits before the page end |
| `Display.CursorGrid` | drivers/lcd/st7565.c:197-246 | the cells of a line are six bytes apart, 21 to a line; writing one moves to the next cell, and behind the last to the next line |
| `Display.CharacterDrawn` | drivers/lcd/st7565.c:262-291 | a character draws its six columns from the font, blank behind the font's end, complemented if inverted, and changes no other byte |
| `Display.NewlineBlanks` | drivers/lcd/st7565.c:208-228 | newline blanks the rest of the page in whole cells, return changes no byte |
| `Display.OverlaySame` | drivers/lcd/st7565.c:262-291 | drawing a glyph changes the buffer exactly when the bytes under it differ, which is when the block is marked |
| `Display.PlotsOnePixel` | drivers/lcd/st7565.c:351-369 | drawing a pixel changes that pixel and no other, and nothing outside the display |
| `Display.Driver.Clear` | drivers/lcd/st7565.c:145-149 | a blank buffer, cursor home, everything dirty, still coherent |
| `Display.Driver.Render` | drivers/lcd/st7565.c:157-195 | sends the first dirty block and only that one, clears its bit, stays coherent |
| `Display.Driver.RenderAll` | drivers/lcd/st7565.c:157-195 | rendering once per dirty bit makes the panel show the buffer |
| `Display.Driver.SetCursor` | drivers/lcd/st7565.c:197-206 | the cursor goes where column and line say, or home when outside, for all arguments |
| `Display.Driver.AdvancePage` | drivers/lcd/st7565.c:208-228 | buffer and cursor after a page advance, still coherent |
| `Display.Driver.AdvanceChar` | drivers/lcd/st7565.c:230-246 | the next glyph position |
| `Display.Driver.WriteChar` | drivers/lcd/st7565.c:249-292 | buffer, cursor and the memory behind the buffer after a character, still coherent |
| `Display.Driver.Pan` | drivers/lcd/st7565.c:307-323 | every page shifts by one column and keeps its edge column, still coherent |
| `Display.Driver.WriteRawByte` | drivers/lcd/st7565.c:333-338 | one byte of the buffer changes, or the byte right behind it for an index outside; still coherent |
| `Display.Driver.WriteRaw` | drivers/lcd/st7565.c:340-349 | the bytes go in at the cursor, cut at the end of the buffer, still coherent |
| `Display.Driver.WritePixel` | drivers/lcd/st7565.c:351-369 | the buffer becomes the plotted one, still coherent |
| `Display.Driver.Perform` | drivers/lcd/st7565.c:145-369 | after any sequence of calls every byte that differs from the panel lies in a dirty block; calls that keep to the buffer leave the memory behind it alone |
| `Uf2.RoundTrip` | util/uf2conv.py:36-141 | decoding an encoded image gives it back padded to whole pages and recovers its start address, with any family; an empty image gives nothing back and leaves the address alone |
| `Uf2.PagesRoundTrip` | util/uf2conv.py:36-108 | decoding the packed file of any pages succeeds exactly when they are consecutive, and then gives their bytes and address |
| `Uf2Decode.DecodesIff` | util/uf2conv.py:36-108 | any file decodes exactly when every block is accepted and no live block leaves a gap, or the list is emptied at the last block; and then to the payload of the wanted live blocks at the address where the last family asked for begins, or to nothing at 0, all from the headers alone |
| `Uf2Decode.OneFamilyDecodesIff` | util/uf2conv.py:36-108 | a file whose blocks name no two families decodes exactly when every block is accepted and there is no gap |
| `Uf2Decode.LoopAccepts` | util/uf2conv.py:46-80 | the loop gets behind a block exactly when every block so far has its magic numbers, size and gap in order |
| `Uf2.BadGapFails` | util/uf2conv.py:67-73 | a gap that is negative, too large or unaligned stops the decoder |
| `Uf2.FileFields` | util/uf2conv.py:47-49 | the decoder reads in each block the header and payload that were packed |
| `Uf2.BlockLaidOut` | util/uf2conv.py:133-138 | block k of a packed file byte by byte: magic numbers, flags, address, size, k, the number of blocks, family, payload, padding, end mark |
| `Uf2.JoinsIffConsecutive` | util/uf2conv.py:74-108 | the output list can be joined exactly when no gap was padded |
| `Uf2.ConvertToUf2` | util/uf2conv.py:120-141 | the loop builds the encoded file; an address or family beyond 32 bits is an error |
| `Uf2.TakeChunk` | util/uf2conv.py:128-137 | a page of the file, zero-filled |
| `Uf2.ConvertBlock` | util/uf2conv.py:49-107 | one turn of the decoding loop: skips, errors, padding, payload and start address |
| `Uf2.ConvertBlocks` | util/uf2conv.py:46-107 | the decoding loop over all blocks |
| `Uf2.ConvertFromUf2` | util/uf2conv.py:36-108 | the decoder computes `Decode` |
| `HexToUf2.ImageIff` | util/uf2conv.py:183-194 | every touched page is one aligned block that holds the last byte written at each address and zero elsewhere, exactly when no write returns to a page already left |
| `HexToUf2.SortedIff` | util/uf2conv.py:183-194 | the blocks' addresses strictly increase exactly when the page addresses of the data never go down |
| `HexToUf2.AscendingImage` | util/uf2conv.py:183-194 | so for data in ascending order the blocks strictly ascend, are aligned, hold the image, and none is missing or unasked for |
| `HexToUf2.ReturningSplitsPage` | util/uf2conv.py:189-191 | any return to a page after another one opens a second block with the same address |
| `HexToUf2.HexDecodes` | util/uf2conv.py:162-199 | the UF2 file of any HEX data decodes exactly when its pages follow each other without a gap |
| `HexToUf2.DecodedByte` | util/uf2conv.py:162-199 | and then each byte decoded is the last one the data put at its address, or 0 |
| `HexRecords.RecordsWrite` | util/uf2conv.py:184-194 | byte i of every data record before the end record is written at the base plus the record's address plus i, record by record in order, and nothing else is written |
| `HexRecords.BaseIs` | util/uf2conv.py:177-180 | the base is 0 before the first record that sets it; the latest type 4 record gives the upper 16 address bits, the latest type 2 record a multiple of 16 |
| `HexRecords.StartIs` | util/uf2conv.py:185-186 | the start is the address of the first data record |
| `HexRecords.ScansIff` | util/uf2conv.py:168-194 | the conversion gets through exactly when every record up to the end record has the bytes it looks at |
| `HexRecords.RecordsToFile` | util/uf2conv.py:162-199 | in the file made of the records, when no page is returned to, every data byte that no later one overwrites is at its offset in a block with its page's address |
| `HexToUf2.StoreByte` | util/uf2conv.py:189-192 | one byte goes to the current page or opens a new one |
| `HexToUf2.ScanRecords` | util/uf2conv.py:168-194 | the loop over the records: pages and first data address, or the error of a short record |
| `HexToUf2.ConvertHexToUf2` | util/uf2conv.py:162-199 | the file is the packed pages of the records |
| `DynamicKeymap.KeyWrite` | quantum/dynamic_keymap.c:105-126 | a key written reads back; every other key, every encoder and everything outside the keymap is unchanged |
| `DynamicKeymap.EncoderWrite` | quantum/dynamic_keymap.c:128-148 | the same for one encoder direction |
| `DynamicKeymap.BufferIsKeymap` | quantum/dynamic_keymap.c:176-202 | the two bytes of a key in the buffer are its keycode, and writing them is writing the key |
| `DynamicKeymap.BufferWrite` | quantum/dynamic_keymap.c:176-202 | a buffer write reads back as far as the keymap reaches and changes nothing outside it |
| `DynamicKeymap.KeysApart` | quantum/dynamic_keymap.c:105-108 | different keys have disjoint addresses, for all layer, row and column counts |
| `DynamicKeymap.EncodersApart` | quantum/dynamic_keymap.c:128-130 | different encoder directions have disjoint addresses |
| `DynamicKeymap.KeyAddrIsIndex` | quantum/dynamic_keymap.c:105-108 | keys are stored by layer, then row, then column, two bytes each |
| `DynamicKeymap.AreasAdjoin` | quantum/dynamic_keymap.c:68-82 | keymap, encoder map and macros follow each other without a byte between |
| `DynamicKeymap.OutsideIsNothing` | quantum/dynamic_keymap.c:110-147 | a position or encoder that does not exist reads as 0 and is not written |
| `DynamicKeymap.KeyInRange` | quantum/dynamic_keymap.c:63-95 | key addresses stay inside the keymap area |
| `DynamicKeymap.RunReadsKeys` | quantum/dynamic_keymap.c:105-202 | over every sequence of writes by position, encoder and buffer each key reads its last write, by position and through the buffer |
| `DynamicKeymap.RunReadsEncoders` | quantum/dynamic_keymap.c:128-202 | and each encoder direction its own |
| `DynamicKeymap.RunKeepsMacros` | quantum/dynamic_keymap.c:63-95 | and everything outside both areas is untouched, so every macro sends what it sent before |
| `DynamicKeymap.Store.Get` | quantum/dynamic_keymap.c:110-117 | the keycode at a position, 0 outside |
| `DynamicKeymap.Store.Set` | quantum/dynamic_keymap.c:119-126 | the write in place refines the model |
| `DynamicKeymap.Store.GetEncoderCode` | quantum/dynamic_keymap.c:132-139 | the keycode of an encoder direction, 0 outside |
| `DynamicKeymap.Store.SetEncoderCode` | quantum/dynamic_keymap.c:141-148 | the encoder write in place refines the model |
| `DynamicKeymap.Store.ReadBuffer` | quantum/dynamic_keymap.c:176-189 | the loop reads the buffer view |
| `DynamicKeymap.Store.WriteBuffer` | quantum/dynamic_keymap.c:191-202 | the loop writes the buffer view |
| `DynamicKeymap.Store.Reset` | quantum/dynamic_keymap.c:150-174 | every key and encoder gets its default, nothing else changes |
| `DynamicKeymap.Store.SendMacro` | quantum/dynamic_keymap.c:263-346 | sends from the bytes behind the keymap and encoder areas |
| `MacroText.SkipLands` | quantum/dynamic_keymap.c:277-291 | the scan stops right behind the id-th null, or fails exactly when there are fewer |
| `MacroText.PlayStopsAtNull` | quantum/dynamic_keymap.c:293-345 | with a null ahead no read goes past the area |
| `MacroText.PlayIsLocal` | quantum/dynamic_keymap.c:293-345 | no read goes past a null ahead: what is sent is the same whatever follows it |
| `MacroText.OverrunsIff` | quantum/dynamic_keymap.c:263-346 | a send reads past the area exactly when it ends in a null and holds exactly id nulls |
| `MacroText.LegalIsSentWhole` | quantum/dynamic_keymap.c:297-345 | the pieces sent of a legal text concatenate to it, each one character, one whole escape or one whole delay |
| `MacroText.UnknownCode` | quantum/dynamic_keymap.c:297-345 | an escape with an unknown code is sent with whatever the scratch string still holds |
| `MacroText.MalformedStops` | quantum/dynamic_keymap.c:305-341 | a null inside an escape, or a delay without a bar among its next five bytes, stops the sending there |
| `MacroText.SendsNothing` | quantum/dynamic_keymap.c:263-291 | nothing is sent for a macro that does not exist, of an area with too few nulls, or while its last byte is not null |
| `MacroText.SendsNthMacro` | quantum/dynamic_keymap.c:263-346 | with more than id nulls: the text behind the id-th null is found, nothing behind its own terminator has any influence, and a legal text is sent whole |
| `MacroText.CollectsDelay` | quantum/dynamic_keymap.c:320-341 | a delay of at most four characters is collected whole |
| `MacroText.CollectDelay` | quantum/dynamic_keymap.c:320-341 | the delay loop on the scratch string refines the model |
| `MacroText.MacroSend` | quantum/dynamic_keymap.c:263-346 | the loops compute the pieces sent and how sending ends |
| `RotaryEncoder.RunConserves` | quantum/encoder.c:163-233 | from any pulse count, over every run the sum of quadrature steps is resolution times net turns plus the change of a remainder smaller than the resolution, and the turn counter follows |
| `RotaryEncoder.UpdateConserves` | quantum/encoder.c:163-219 | one update conserves the steps |
| `RotaryEncoder.ReadFollows` | quantum/encoder.c:56-56 | one read of a shaft that moved at most one step counts exactly that step |
| `RotaryEncoder.SumIsDistance` | quantum/encoder.c:56-56 | over every run the sum of steps is the distance the shaft moved |
| `RotaryEncoder.TurnsFollowShaft` | quantum/encoder.c:163-233 | the turns reported are the distance moved in units of the resolution, to within one turn |
| `RotaryEncoder.ConservesIff` | quantum/encoder.c:178-210 | steps are conserved over all runs exactly when the resolution is below 128 |
| `RotaryEncoder.SameTurnsIff` | quantum/encoder.c:163-219 | two resolutions report the same turns over every run exactly when they are equal or both too large ever to turn |
| `RotaryEncoder.OwnResolutionIff` | quantum/encoder.c:165-171 | when a half counts by its own resolutions although it looks them up at its local index |
| `RotaryEncoder.ReplaysIff` | quantum/encoder.c:249-272 | the master replays the slave's net turns exactly when they lie in -128 to 127; its copy agrees afterwards either way |
| `RotaryEncoder.ReplaysAllIff` | quantum/encoder.c:245-274 | the same over every sequence of exchanges |
| `RotaryEncoder.MasterFollowsSlave` | quantum/encoder.c:221-274 | from the slave's pad reads to the master's replays, with any reads between any number of exchanges: they agree exactly when each batch of turns fits a signed byte |
| `RotaryEncoder.Half.UpdateEncoder` | quantum/encoder.c:163-219 | the update in place refines the model; no other encoder changes |
| `RotaryEncoder.Half.ReadEncoder` | quantum/encoder.c:224-230 | the read in place refines the model; no other encoder changes |
| `RotaryEncoder.Half.ReadAll` | quantum/encoder.c:221-233 | every encoder of the half is read, and the turns reported are theirs in order |
| `RotaryEncoder.Half.Replay` | quantum/encoder.c:250-272 | the two loops report exactly the replayed turns and leave the copy equal to the slave's counter |
| `RotaryEncoder.TurnsAre` | quantum/encoder.c:251-270 | the turns of n steps are n reports of that encoder in the direction of n |
| `RotaryEncoder.Half.UpdateRaw` | quantum/encoder.c:249-278 | the same for all counters of the other half; no other counter changes |
| `RotaryEncoder.Half.StateRaw` | quantum/encoder.c:245-247 | what the slave sends are its counters |
| `MatrixScan.DecrementSubtracts` | quantum/keyboard.c:182-185 | the bitwise decrement used for rows is subtraction of one, for every width |
| `MatrixScan.MoreThanOneCounts` | quantum/keyboard.c:182-185 | the popcount trick tells whether two bits are set, for every width |
| `MatrixScan.ShareBits` | quantum/keyboard.c:187-209 | the bit test is the sharing of two real pressed columns |
| `MatrixScan.GetRealKeys` | quantum/keyboard.c:170-180 | the row's pressed keys that the keymap defines |
| `MatrixScan.HasGhostInRow` | quantum/keyboard.c:187-209 | true exactly when the row shares two real pressed columns with another row |
| `MatrixScan.GhostedIff` | quantum/keyboard.c:187-209 | a row may hold a ghost exactly when it and another row both have two defined keys down in the same two columns |
| `MatrixScan.TraceAlternates` | quantum/keyboard.c:462-515 | over every sequence of scans each key's events alternate starting with a press, and folding them gives `matrix_previous` |
| `MatrixScan.ScanReports` | quantum/keyboard.c:489-512 | events come in row-major order, each a real change, none from a row with ghosts |
| `MatrixScan.AtScan` | quantum/keyboard.c:489-512 | a scan reports a key once, exactly when its row has no ghost and it changed |
| `MatrixScan.NothingStuck` | quantum/keyboard.c:462-515 | after a scan with every key up each key has been released as often as pressed |
| `MatrixScan.CatchesUp` | quantum/keyboard.c:489-512 | a row without ghosts is up to date after the scan |
| `MatrixScan.NoScanEvents` | quantum/keyboard.c:478-482 | the short cut for an unchanged matrix loses nothing |
| `MatrixScan.Scanner.ReportRow` | quantum/keyboard.c:497-509 | the loop over the columns reports the row's changes |
| `MatrixScan.Scanner.TakeRow` | quantum/keyboard.c:490-512 | one row: reported and remembered, or skipped for a ghost |
| `MatrixScan.Scanner.MatrixTask` | quantum/keyboard.c:446-515 | the task in place refines the model: matrix remembered, both event traces, result, and at most one tick for each millisecond |
| `MatrixToHost.HostSeesMatrix` | quantum/keyboard.c:462-515 | any scans, their events and any ticks given without overflow to the resolver of a build that keeps order and invents nothing, then a tick past the term: what all calls of `process_record` told of a key is what scanning reported; it alternates, begins with a press and ends in the state the matrix remembers |
| `MatrixToHost.NoKeyStaysDown` | quantum/keyboard.c:462-515 | and once the matrix has read every key up, each was told as released as often as pressed |
| `MatrixToHost.ScansAreWellFormed` | quantum/keyboard.c:489-512 | the events of any scans, with any ticks between, are a well-formed run of the resolver |
| `PageWrite.AddressRoundTrip` | drivers/eeprom/eeprom_i2c.c:48-54 | the chip reads back the address, up to what its bytes hold |
| `PageWrite.SplitsAtPages` | drivers/eeprom/eeprom_i2c.c:107-112 | every chunk is not empty, inside one page, contiguous with the last, and page-aligned unless first |
| `PageWrite.SplitJoins` | drivers/eeprom/eeprom_i2c.c:107-133 | the chunks concatenate to the block |
| `PageWrite.ProgramCopies` | drivers/eeprom/eeprom_i2c.c:107-127 | on a chip that wraps inside the page a write that stays inside it is a copy |
| `PageWrite.I2cCopies` | drivers/eeprom/eeprom_i2c.c:97-133 | a block inside one bank whose pieces are below 256 bytes is copied, whatever pages it spans |
| `PageWrite.CopiesIff` | drivers/eeprom/eeprom_i2c.c:97-133 | the I2C driver copies all blocks of an address and length exactly when they do not cross into another bank and every piece gets a packet |
| `PageWrite.PacketLoopEndsIff` | drivers/eeprom/eeprom_i2c.c:115-117 | the loop that fills the packet ends exactly for pieces shorter than 256 bytes |
| `PageWrite.SendableIff` | drivers/eeprom/eeprom_i2c.c:107-117 | from address, length and page size, whether every piece is |
| `PageWrite.StopsShort` | drivers/eeprom/eeprom_i2c.c:97-133 | a block inside one bank is copied exactly up to its first piece of 256 bytes or more: whole on smaller pages; on larger ones nothing, the first piece, or all of it, as the lengths of the first piece and the rest say |
| `PageWrite.StopAtIs` | drivers/eeprom/eeprom_i2c.c:107-117 | where that first piece begins, from address, length and page size |
| `PageWrite.StaysInBank` | drivers/eeprom/eeprom_i2c.c:127-127 | nothing past the bank of the first byte is written |
| `PageWrite.SpiWritesPrefix` | drivers/eeprom/eeprom_spi.c:147-205 | an early exit leaves exactly the pages before the failing one |
| `PageWrite.SpiCopies` | drivers/eeprom/eeprom_spi.c:147-205 | without a failure the block is copied |
| `PageWrite.FillTargetAddress` | drivers/eeprom/eeprom_i2c.c:48-54 | the address bytes, most significant first |
| `PageWrite.Eeprom.I2cWriteBlock` | drivers/eeprom/eeprom_i2c.c:97-133 | the loop refines the model, says whether it ever returns, and sends the chunks of the split |
| `PageWrite.Eeprom.SpiWriteBlock` | drivers/eeprom/eeprom_spi.c:147-205 | the loop refines the model and sends a prefix of the split |
| `PageWrite.Eeprom.SpiPage` | drivers/eeprom/eeprom_spi.c:152-200 | one page, or nothing when one of the three attempts fails |
| `PageWrite.Eeprom.Erase` | drivers/eeprom/eeprom_i2c.c:65-79 | the whole chip is zero afterwards, in every bank, unless its pages have 256 bytes or more, when it never returns |

## Left out

- Tap/hold resolver: `process_record` is an append to a trace; builds in which it writes its record back (mod-tap interrupts, swap hands, one-shot, combos, retro shift: `quantum/action.c:498`, `780`, `855`) are not modelled. Which keys are tap keys, both terms, the hold settings and the test that retains a release are parameters that may depend on everything delivered so far.
- TappingLimits.OrderKeptIff: "hold on other key press" is one setting of the whole build, not one for each key.
- TappingDecision.TapOrHold: no second tap key goes down inside the term; which keys are tap keys is otherwise free.
- `clear_keyboard` on overflow, which also releases keys towards the host, is not modelled.
- Macro recorder: playing does not re-enter the recorder; the layer clear, report clear and LED blinking around recording and playing are not modelled.
- Deferred executor: callbacks do not touch the table; a null table pointer is not modelled.
- Layers: the layer and modifier globals are values, so updating them in place is not shown; one-shot and layer-tap keys, swapped modifiers (`mod_config` is the identity), user and keyboard hooks, the encoder rows of the source-layer cache and the switch that disables the cache are not modelled.
- Display: rotation by 180 degrees, timeouts, switching the panel on and off; the dirty mask is a sequence of bits.
- UF2 converter: splitting HEX text into records, printing, the family file, drives and C arrays. A block that raises an exception ends the conversion; the exception's text is not modelled.
- Keymap store: the legacy VIA layout, macro buffer reads and writes, and the delay between macro keys.
- Encoder: interrupt reads and builds with a default position; direction flip only renames the two directions.
- Matrix: a build without ghost filtering is the case of a keymap that defines no key. Not modelled are the debug print and the scan-rate counter, and rows wider than 31 columns, where `1 << col` leaves the range of `int`.
- EEPROM: block reads, write-protect pin, waiting times, the write-enable latch and the width of `uintptr_t`; chips whose banks or memory are not whole pages. A driver that never returns is a result, not a loop.
- Hardware access, split transport, combos, auto shift, key overrides, mouse keys, checksums and the sending of reports.
