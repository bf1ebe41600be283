# WLDroid verification model

WLDroid runs Linux desktop programs on Android. A Wayland compositor in native code talks to
the Android input method and to shared hardware buffers, and preloaded libraries on the
program's side turn DRM and EGL calls into requests to a virtio-gpu (vtest) server. This
project models the parts of that code which keep protocol state, and proves what each of
them is relied on for. `dafny verify dfyconfig.toml` checks all of it.

| file | models |
|---|---|
| `TextInput.dfy`, `TextInputHandler.dfy` | text-input-v3: focus routing, the active input, requests to show and hide the IME |
| `Utf8.dfy` | how many bytes "delete n units around the cursor" covers |
| `Typing.dfy` | the ASCII-to-key table and the synthetic key events |
| `TextQueue.dfy`, `TextWake.dfy` | the bounded linked list between the JNI thread and the compositor, and its wake pipe |
| `InputChannel.dfy` | the single-producer single-consumer event ring with its wake pipe |
| `AhbRegistry.dfy`, `AhbReceiver.dfy`, `AhbThreads.dfy` | the hardware-buffer registry, the socket protocol that fills it, and the threads around it |
| `Toplevels.dfy` | window focus in most recently used order |
| `ShmSwap.dfy` | software presentation: double buffering, resizing, the row flip |
| `BoTable.dfy`, `InodeCache.dfy` | the DRM shim's buffer-object table and its inode cache |
| `VtestWire.dfy`, `VtestLink.dfy` | the vtest wire format, a server that parses it, and the blocking socket calls |
| `DrmShim.dfy`, `DrmRuns.dfy`, `DrmServer.dfy`, `DrmFailures.dfy`, `DrmIoctls.dfy` | the DRM ioctls as a state machine, theorems about its runs, what the server understands of them, runs in which a promise fails, and the handlers |
| `Common.dfy`, `LittleEndian.dfy` | shared types, 32-bit arithmetic, integers as bytes |

Each component has two layers. A specification on values says what one step does; the
theorems are about it and about all its runs. Classes and methods with the fields, arrays and
loops of the C code are proved to take exactly these steps. Threads are modelled by
interleaving: every atomic access, pipe operation and critical section is one step, and a
side may act on an old value of the other side's index. The server, the kernel and the
Wayland clients contribute parameters (what an answer contains, which file a descriptor
refers to, which request comes next); nothing is assumed of them beyond what the `Enabled`,
`Allowed` and `Schedule` predicates say.

Where a promise does not hold of the code as it is, the code is kept and the exact condition
is proved:

- A client with two text inputs can have the IME shown twice, or an input active that the
  IME was last asked to hide for; Show and Hide stay in turn over a run exactly when no
  input is ever turned on while another is active (`TextInput.RunSyncIff`,
  `TextInput.TwoInputsShowTwice`, `TextInput.RecommitIsSilent`).
- The serial sent back to a text-input client counts only commits received while entered
  (`TextInput.SerialCountsCommitsIff`, `TextInput.EarlyCommitIsNotCounted`).
- Requests take effect on commit, except that an enable or disable drops the committed
  surrounding text at once (`TextInput.CommitAppliesLast`, `TextInput.EnableDropsText`).
- Typing releases a key that was already held if the table types a character with it
  (`Typing.PressedKeysUnchangedIff`, `Typing.HeldKeyIsReleased`).
- The decoding loop of the synthetic keys ends at the terminator of its text exactly if no
  lead byte it comes to announces more bytes than are left, so UTF-8 may be cut between
  characters but not inside one (`Typing.EndsInsideIff`, `Typing.CutInBoundsIff`,
  `Typing.LoneLeadStepsPast`).
- A failed read of the text pipe can leave queued text with nothing to wake for
  (`TextWake.NoLostWakeupIff`, `TextWake.ReadErrorStrands`).
- A failed write of the text pipe throws away text that had been announced: one call does so
  exactly if its text is accepted and the write fails, an interleaving exactly if a clear
  still finds something that the consumer has not taken (`TextWake.CallLosesIff`,
  `TextWake.RunLosesIff`, `TextWake.FailureFreesAnnounced`).
- Unmapping the focused window hands the focus on only if it heads the list, although the
  comment at compositor/native/src/compositor_server.c:295 speaks of the focused one; a
  window that has never been focused and lies in front of it prevents that
  (`Toplevels.UnmapHandsOverIff`, `Toplevels.NewToplevelBlocksHandOver`). The focus may also
  go to a window that is not mapped, or stay with one that no longer is
  (`Toplevels.FocusMappedIff`, `Toplevels.HandOverToUnmapped`).
- A window configured to another size and then back to the one it has is resized all the
  same (`ShmSwap.ConfigureTakenIff`, `ShmSwap.BackToCurrentIsIgnored`).
- With both halves busy, a swap dispatches events once and then uses the current half
  without looking again, although the comment at
  shims/native/egl-override/egl_override.c:1497 says "if still busy"
  (`ShmSwap.NeverClobbersIff`, `ShmSwap.ClobbersIff`, `ShmSwap.ThirdSwapClobbers`,
  `ShmSwap.OtherReleaseIgnored`).
- An exported BO without a file comes back as another BO (`DrmRuns.ExportImportIff`,
  `DrmFailures.SizelessExportIsAnother`).
- A memfd BO that is imported again after its close carries a resource already given back
  (`DrmRuns.ReimportIsStaleIff`, `DrmFailures.ReimportedMemfdIsStale`); if the server has
  meanwhile used the id again for a hardware buffer, closing that BO takes the buffer's
  resource away (`DrmRuns.CloseGivesBackIff`, `DrmFailures.ReissuedIdIsGivenBack`). A
  resource is safe from that, whatever follows, exactly if nobody carries its id unknowingly
  (`DrmRuns.AhbSafeIff`), and in every run without such imports
  (`DrmRuns.AhbNeverUnreferenced`, `DrmRuns.AhbSafeFromHandshake`).
- The inode cache always evicts slot 0, so the first of 65 keys is missed
  (`InodeCache.CacheTellsLatest`, `InodeCache.FirstOfMoreIsForgotten`).
- 32-bit products and sums can come out too small (`DrmRuns.DataSizeCoversIff`,
  `DrmFailures.RowsOverflow`; `DrmRuns.SubmitsAllIff`, `DrmFailures.LargestIsSubmittedEmpty`).
- The comment at shims/native/drm-shim/src/drm_shim.c:1275-1278 says that pixels come back
  over the socket on export; the code sends a data size of 0, so the server answers nothing,
  and the model follows the code.

## Model

| member | source | states |
|---|---|---|
| TextInput.FocusRouting | compositor/native/src/text_input_handler.c:404-474 | in every reachable state the focused surface is the one that the keyboard entered last and has not left; an input is entered iff that is its client's surface, and then on it; one that is not entered has nothing pending and nothing in force; the active input is live, entered and enabled and the atomic flag mirrors it; no resource has been sent an enter while entered or a leave while not |
| TextInput.RunKeepsInv | compositor/native/src/text_input_handler.c:404-648 | the same from any state that satisfies the invariant, over any sequence of requests and focus changes |
| TextInput.StepKeepsCore | compositor/native/src/text_input_handler.c:404-648 | every request keeps routing, distinct inputs, cursors and anchors inside their text, nothing asked for while not entered and the active input live and enabled |
| TextInput.StepTells | compositor/native/src/text_input_handler.c:404-474 | every request keeps what the client of each input has been told equal to where the input is, also when a surface dies or the handler shuts down without sending leaves |
| TextInput.StepAsks | compositor/native/src/text_input_handler.c:404-421 | the IME is asked to hide exactly when the active input goes from set to unset, and to show exactly when a commit turns an input on |
| TextInput.ClearFocusKeeps | compositor/native/src/text_input_handler.c:423-438 | clearing the focus makes every input leave that had it and unsets the active one; clearing a surface that is not focused changes nothing |
| TextInput.EnterSurfaceKeeps | compositor/native/src/text_input_handler.c:452-474 | entering a surface routes every input to it and hides the IME iff one was active before |
| TextInput.RefocusForgets | compositor/native/src/text_input_handler.c:396-474 | after any change of focus no request made before is pending or in force, for the inputs that have left and for those that have just entered; a new input starts with nothing asked |
| TextInput.TurnedOnIff | compositor/native/src/text_input_handler.c:570-628 | over every run a commit makes an input active iff it is entered and its last toggle since the focus changed was an enable, and asks for Show iff it was off until then |
| TextInput.RunFocuses | compositor/native/src/text_input_handler.c:423-474 | over every run the focus follows the keyboard's enters and leaves and the ends of surfaces, and the handler is up until it is shut down |
| TextInput.CommitAppliesLast | compositor/native/src/text_input_handler.c:484-628 | a commit makes current exactly what the last request of each kind asked for, the text with the cursor and anchor given, or the nearer end of the text for one outside it, and keeps what no request touched; before it, only the committed surrounding text changes, which an enable or disable drops |
| TextInput.CommitTakesEffect | compositor/native/src/text_input_handler.c:484-628 | the same over any run of such requests on any inputs, commits of the others included: the commit of an entered input makes current what the last of its own requests of each kind asked for |
| TextInput.EnableDropsText | compositor/native/src/text_input_handler.c:484-498 | a run in which an enable takes committed surrounding text away without a commit |
| TextInput.IgnoredWhileOut | compositor/native/src/text_input_handler.c:484-581 | while not entered, requests change nothing, and a commit changes nothing but that it clears what is pending and the committed surrounding text |
| TextInput.ShowAndHideAlternate | compositor/native/src/text_input_handler.c:570-648 | while no client has two inputs, the requests over any run are strictly Show, Hide, Show, ... and the last is Show iff an input is active |
| TextInput.SyncIff | compositor/native/src/text_input_handler.c:598-611 | a step keeps the requests in turn iff it is not a commit that enables an input while its own and the global state disagree |
| TextInput.RunSyncIff | compositor/native/src/text_input_handler.c:570-648 | over any run the requests are in turn at every step iff no input is ever turned on while another is active |
| TextInput.InTurnIff | compositor/native/src/text_input_handler.c:570-648 | the same for every run from the start |
| TextInput.OneNeverDoubles | compositor/native/src/text_input_handler.c:598-611 | with one input per client no such commit exists |
| TextInput.StepKeepsSole | compositor/native/src/text_input_handler.c:570-648 | as long as no commit doubles, only the active input is ever enabled |
| TextInput.TwoInputsShowTwice | compositor/native/src/text_input_handler.c:598-602 | turning on two entered inputs one after the other asks for Show twice |
| TextInput.TwoInputsOnSurface | compositor/native/src/text_input_handler.c:669-700 | a client can come to have two such inputs |
| TextInput.RecommitIsSilent | compositor/native/src/text_input_handler.c:598-611 | with the second of two inputs turned off again, a commit of the first makes it active without asking for Show |
| TextInput.EarlyCommitIsNotCounted | compositor/native/src/text_input_handler.c:574-580 | a run in which a commit is not counted |
| TextInput.SerialCountsCommitsIff | compositor/native/src/text_input_handler.c:570-584 | over every run the serial of an input is the number of its commits received while entered modulo 2^32, and the number of all its commits iff that of the others is a multiple of 2^32 |
| TextInputHandler.Handler.MaybeSendLeave | compositor/native/src/text_input_handler.c:404-421 | resource and globals afterwards are those of the specified leave |
| TextInputHandler.Handler.ClearTextInputFocus | compositor/native/src/text_input_handler.c:423-438 | the loop over the list does what the specification does |
| TextInputHandler.Handler.HandleKeyboardEnter | compositor/native/src/text_input_handler.c:452-474 | takes the KeyboardEnter step and keeps the invariant |
| TextInputHandler.Handler.HandleKeyboardLeave | compositor/native/src/text_input_handler.c:447-450 | takes the KeyboardLeave step and keeps the invariant |
| TextInputHandler.Handler.HandleSurfaceDestroy | compositor/native/src/text_input_handler.c:440-445 | takes the DestroySurface step and keeps the invariant |
| TextInputHandler.Handler.OnSetEnabled | compositor/native/src/text_input_handler.c:484-512 | takes the Enable or Disable step, ignored while not entered |
| TextInputHandler.Handler.OnSetSurroundingText | compositor/native/src/text_input_handler.c:514-536 | takes the SetSurrounding step, with cursor and anchor brought to the nearest place in the text |
| TextInputHandler.Handler.OnSetCursorRectangle | compositor/native/src/text_input_handler.c:551-568 | takes the SetRect step |
| TextInputHandler.Handler.OnCommit | compositor/native/src/text_input_handler.c:570-628 | takes the Commit step: pending state applied, active input and IME request updated |
| TextInputHandler.Handler.OnResourceDestroy | compositor/native/src/text_input_handler.c:631-648 | takes the DestroyInput step and unlinks exactly this resource |
| TextInputHandler.Handler.OnGetTextInput | compositor/native/src/text_input_handler.c:669-700 | takes the GetTextInput step: a new resource enters at once if its client has the focus |
| TextInputHandler.Handler.Destroy | compositor/native/src/text_input_handler.c:796-824 | takes the Shutdown step |
| Utf8.DeletionOnValidText | compositor/native/src/text_input_handler.c:908-967 | on valid text and a boundary cursor the byte counts remove the fewest code points next to the cursor whose length in UTF-16, or in code points, reaches the request, exactly in code-point mode and at most one unit over otherwise, and the rest is valid UTF-8 |
| Utf8.UnitsAreLength | compositor/native/src/text_input_handler.c:908-912 | the units that the loops count for a text are its length in UTF-16, or in code points |
| Utf8.Utf16RoundTrip | compositor/native/src/text_input_handler.c:908-912 | the UTF-16 meant, with the surrogate pairs of section 2 of RFC 2781, is decoded to the text and has 16-bit units |
| Utf8.CountsAsPairIff | compositor/native/src/text_input_handler.c:879-912 | on any bytes only a complete four-byte sequence that is not overlong counts as two units |
| Utf8.DeleteBytesBefore | compositor/native/src/text_input_handler.c:914-949 | for arbitrary bytes the loops end and the count covers the fewest last code points of the text before the cursor that reach the units |
| Utf8.DeleteBytesAfter | compositor/native/src/text_input_handler.c:951-967 | the same for the first code points after the cursor |
| Utf8.DeleteByteCounts | compositor/native/src/text_input_handler.c:969-988 | both counts stay inside the text for any committed cursor; false iff no surrounding text is known |
| Utf8.FewestLastUnique | compositor/native/src/text_input_handler.c:914-949 | only one number of code points is the fewest |
| Utf8.FewestFirstUnique | compositor/native/src/text_input_handler.c:951-967 | the same after the cursor |
| Utf8.OvershootLast | compositor/native/src/text_input_handler.c:914-949 | it overshoots by at most one unit, and in code-point mode is the request or all there is |
| Utf8.OvershootFirst | compositor/native/src/text_input_handler.c:951-967 | the same after the cursor |
| Utf8.DecodeEncoded | compositor/native/src/text_input_handler.c:879-906 | the decoder gives back every scalar value encoded as in section 3 of RFC 3629, with its length |
| Utf8.ChunksOfValid | compositor/native/src/text_input_handler.c:879-906 | decoding any encoded text gives exactly its code points |
| Typing.TypingRoundTrip | compositor/native/src/text_input_handler.c:156-235 | reading the events typed for any code points through the keymap gives exactly the typable ones in order and ends with the used keys released |
| Typing.PressedKeysUnchangedIff | compositor/native/src/text_input_handler.c:147-235 | the set of pressed keys ends as it began iff the table types no character of the text with a key that is held |
| Typing.HeldKeyIsReleased | compositor/native/src/text_input_handler.c:147-235 | a keymap, table and text with which a held key ends released |
| Typing.TableIsComplete | compositor/native/src/text_input_handler.c:58-111 | the table has a key for exactly the typable characters, the key produces the character, and Shift is used only if no key produces it alone |
| Typing.BuildAsciiTable | compositor/native/src/text_input_handler.c:58-111 | the two scans build such a table, the first key winning |
| Typing.DecodeChar | compositor/native/src/text_input_handler.c:169-195 | one turn of the decoding loop at any position of any text: the announced width, and the code point or 0 for a sequence that breaks off; nothing behind the terminator is read |
| Typing.EmitSyntheticKeys | compositor/native/src/text_input_handler.c:156-235 | for any text, malformed or cut off included, the loop emits the events of each code point decoded, in turn, and ends at the terminator iff no lead byte it comes to announces more bytes than are left |
| Typing.DecodedEncoded | compositor/native/src/text_input_handler.c:165-195 | well-formed UTF-8 keeps the loop inside and decodes to its code points |
| Typing.EndsInsideIff | compositor/native/src/text_input_handler.c:162-195 | the position after the last turn is that of the terminator iff every stride fits into what is left |
| Typing.CutInBoundsIff | compositor/native/src/text_input_handler.c:162-195 | UTF-8 cut after any number of bytes keeps the loop inside iff the cut falls between two characters |
| Typing.LoneLeadStepsPast | compositor/native/src/text_input_handler.c:182-195 | a text of one lead byte that is stepped over by two bytes |
| Typing.CharRead | compositor/native/src/text_input_handler.c:196-235 | the two or four events of a character are read as that character |
| Typing.EvdevRoundTrip | compositor/native/src/text_input_handler.c:80-100 | the 32-bit conversion between the keycode spaces loses nothing |
| Typing.TimesIncrease | compositor/native/src/text_input_handler.c:147-235 | time stamps increase strictly through a text |
| TextQueue.FifoOverRuns | compositor/native/src/text_input_handler.c:1023-1091 | over any interleaving of enqueue, pop and clear the operations out are the accepted ones in order, and at most 256 operations and 256 KiB are queued |
| TextQueue.StepKeepsFifo | compositor/native/src/text_input_handler.c:1023-1091 | each critical section keeps that |
| TextQueue.PopsDrain | compositor/native/src/text_input_handler.c:1070-1091 | popping to the end delivers everything accepted |
| TextQueue.Queue.Enqueue | compositor/native/src/text_input_handler.c:1023-1044 | the acyclic list with its tail and counters grows by the operation iff it fits both limits; takes the Enqueue step of the history |
| TextQueue.FitsIff | compositor/native/src/text_input_handler.c:1023-1031 | an operation is refused iff the queue with it would not be within the limits |
| TextQueue.TotalBytesIs | compositor/native/src/text_input_handler.c:1047-1067 | the bytes counted are those of the text queued, and for each deletion its record and the units asked for |
| TextQueue.Queue.Pop | compositor/native/src/text_input_handler.c:1070-1083 | the first operation is taken off; takes the Pop step |
| TextQueue.Queue.Clear | compositor/native/src/text_input_handler.c:1085-1091 | takes Pop steps that free until the list is empty |
| TextQueue.DrainedIs | compositor/native/src/text_input_handler.c:1085-1110 | popping until nothing is left takes out what was queued, all of it, in order |
| TextQueue.Queue.EnqueueDelete | compositor/native/src/text_input_handler.c:1145-1172 | delete lengths are clamped before they are queued |
| TextWake.NoLostWakeupIff | compositor/native/src/text_input_handler.c:1093-1143 | in every interleaving a queued operation always has a wake byte, a producer or a consumer at work for it, iff no read ever fails after the last byte was read with operations queued and no wake due |
| TextWake.AttendedIff | compositor/native/src/text_input_handler.c:1093-1130 | the same for one step |
| TextWake.ReadErrorStrands | compositor/native/src/text_input_handler.c:1093-1104 | a run in which such a read leaves an operation behind |
| TextWake.ConsumerDelivers | compositor/native/src/text_input_handler.c:1093-1118 | a consumer awake dispatches everything queued, what was left behind included |
| TextWake.RunKeepsFifo | compositor/native/src/text_input_handler.c:1023-1143 | what comes out, dispatched or freed, is what was accepted, in order |
| TextWake.FreedOnlyAfterFailure | compositor/native/src/text_input_handler.c:1120-1143 | nothing accepted is thrown away over a run without a failed write |
| TextWake.RunLosesIff | compositor/native/src/text_input_handler.c:1085-1143 | over any interleaving everything taken out has been dispatched iff no clear after a failed write still finds an operation |
| TextWake.CallLosesIff | compositor/native/src/text_input_handler.c:1132-1143 | one uninterrupted call throws text away iff its operation is accepted and the wake write fails, and then exactly its own and everything queued before it |
| TextWake.FailureFreesAnnounced | compositor/native/src/text_input_handler.c:1132-1143 | a run in which operations announced before are thrown away with the one whose write fails |
| TextWake.Channel.HandleText | compositor/native/src/text_input_handler.c:1132-1143 | enqueue, then wake, or clear the queue if the write fails: the history is the one that CallLosesIff speaks of |
| TextWake.Channel.OnTextInputEvent | compositor/native/src/text_input_handler.c:1093-1118 | the pipe is drained, then everything queued dispatched in order, or nothing is taken off if a read fails |
| InputChannel.NoLostWakeup | compositor/native/src/input_handler.c:377-414 | in every interleaving, if the consumer sleeps and an event waits, the pipe holds a byte or the producer is about to write one |
| InputChannel.SpscCorrect | compositor/native/src/input_handler.c:83-111 | in every interleaving, also with old index values, the dispatched events are a prefix of the committed ones, no unread slot is overwritten and at most 255 are outstanding |
| InputChannel.ReserveRefusedIff | compositor/native/src/input_handler.c:83-90 | a reservation fails iff the tail it saw is 255 events behind, so with a current tail iff the ring is full |
| InputChannel.QuietMeansDelivered | compositor/native/src/input_handler.c:377-414 | when neither side can move by itself, everything committed has been dispatched |
| InputChannel.ConsumerDelivers | compositor/native/src/input_handler.c:377-414 | a consumer left alone dispatches everything and falls asleep |
| InputChannel.FillKeepsSlots | compositor/native/src/input_handler.c:83-90 | writing into a reserved slot touches no event still to be read |
| InputChannel.RunKeepsInv | compositor/native/src/input_handler.c:83-120 | the channel invariant over every interleaving, with what was committed and dispatched only ever appended to |
| InputChannel.LooksFullIff | compositor/native/src/input_handler.c:83-90 | the modular full test means 255 events ahead |
| InputChannel.LooksEmptyIff | compositor/native/src/input_handler.c:98-105 | the modular empty test means nothing ahead |
| InputChannel.Channel.RingReserve | compositor/native/src/input_handler.c:83-90 | takes the Reserve step |
| InputChannel.Channel.RingCommit | compositor/native/src/input_handler.c:92-96 | takes the Commit step |
| InputChannel.Channel.RingPeek | compositor/native/src/input_handler.c:98-105 | takes the Peek step |
| InputChannel.Channel.RingConsume | compositor/native/src/input_handler.c:107-111 | takes the Consume step |
| InputChannel.Channel.WakeCompositor | compositor/native/src/input_handler.c:117-120 | takes the wake step |
| InputChannel.Channel.OnInputEvent | compositor/native/src/input_handler.c:377-414 | drains the pipe, then dispatches everything committed |
| AhbRegistry.Registry.Register | compositor/native/src/ahb_registry.c:25-55 | the array acts as a map with distinct inodes: insert or update, a new key dropped at 256 entries; every reference stays accounted for, also when a buffer is registered again under its inode |
| AhbRegistry.Registry.Unregister | compositor/native/src/ahb_registry.c:57-78 | removes exactly that key, although swap-with-last reorders the slots |
| AhbRegistry.Registry.Lookup | compositor/native/src/ahb_registry.c:80-95 | is the map's lookup and hands out one more reference |
| AhbRegistry.Registry.Destroy | compositor/native/src/ahb_registry.c:97-108 | releases every entry and leaves the empty map |
| AhbRegistry.Registry.RegisteredIsAlive | compositor/native/src/ahb_registry.c:25-95 | a registered buffer's count is not zero |
| AhbRegistry.RemoveFromMap | compositor/native/src/ahb_registry.c:57-78 | swap-with-last removal removes exactly one key of the map |
| AhbRegistry.RemovedIsUnregistered | compositor/native/src/ahb_registry.c:57-78 | and keeps inodes distinct |
| AhbRegistry.UpdateIsRegistered | compositor/native/src/ahb_registry.c:28-39 | overwriting an entry is an update of the map |
| AhbRegistry.AppendIsRegistered | compositor/native/src/ahb_registry.c:40-52 | appending is an insertion |
| AhbRegistry.ReplaceConserves | compositor/native/src/ahb_registry.c:28-39 | release and acquire keep each count equal to entries plus lookups plus owners |
| AhbRegistry.AppendConserves | compositor/native/src/ahb_registry.c:40-52 | the same for a new entry |
| AhbRegistry.RemoveConserves | compositor/native/src/ahb_registry.c:57-78 | the same for a removal |
| AhbReceiver.ParseWritten | compositor/native/src/ahb_registry_receiver.c:47-91 | whatever messages a client writes are what the receiver reads |
| AhbReceiver.ReadMessage | compositor/native/src/ahb_registry_receiver.c:47-74 | reads one message off the stream as parsed |
| AhbReceiver.Handle | compositor/native/src/ahb_registry_receiver.c:60-88 | a message does to the registry what the fold says, and the receiver's own reference is released |
| AhbReceiver.HandleClient | compositor/native/src/ahb_registry_receiver.c:47-91 | over any byte stream the registry becomes the fold of the parsed messages, references conserved |
| AhbReceiver.Socket.ReadExact | compositor/native/src/ahb_registry_receiver.c:35-45 | short reads are continued to exactly the length, or to the end of the stream |
| AhbThreads.RunConserves | compositor/native/src/ahb_registry.c:25-95 | however the receiver's messages interleave with lookups and releases by other threads, every reference is accounted for after each step, only live buffers are acquired or released, and the registry is the fold of the messages handled so far |
| AhbThreads.AllMessagesFolded | compositor/native/src/ahb_registry_receiver.c:47-91 | when the receiver is through, the registry is the fold of the client's messages in their order whatever was looked up in between, and no reference of the receiver is left |
| AhbThreads.LookedUpStaysAlive | compositor/native/src/ahb_registry.c:80-95 | a buffer that a lookup gave out stays alive until that lookup is ended, through any updates and removals of its entry |
| Toplevels.RunKeepsInv | compositor/native/src/compositor_server.c:210-320 | over every run the list holds each live window once, in most recently used order, with at most one rendering-only and one other window activated |
| Toplevels.StepKeepsInv | compositor/native/src/compositor_server.c:210-320 | new, map, unmap and destroy keep that |
| Toplevels.StepTracksAlive | compositor/native/src/compositor_server.c:283-320 | the windows in the list are exactly the live ones |
| Toplevels.FocusMovesToHead | compositor/native/src/compositor_server.c:210-253 | focusing moves its window to the head and keeps the order of the rest |
| Toplevels.FocusLimitsActive | compositor/native/src/compositor_server.c:210-253 | focusing establishes the activation limit |
| Toplevels.ActivatedIff | compositor/native/src/compositor_server.c:210-320 | over every run a rendering surface, one that was ever mapped as such, is activated iff it was focused last, and any other window iff it was given the keyboard last; keyboard and text are where the handlers called have put them |
| Toplevels.RenderingMapKeepsActive | compositor/native/src/compositor_server.c:215-225 | mapping a rendering surface takes neither the activation of another window nor the keyboard nor the text, and such a window is activated iff it has the keyboard |
| Toplevels.UnmapHandsOverIff | compositor/native/src/compositor_server.c:283-303 | unmapping the window focused last hands the focus on iff another exists and no never-focused one lies in front of it |
| Toplevels.NewToplevelBlocksHandOver | compositor/native/src/compositor_server.c:283-303 | a run in which it does not |
| Toplevels.StepMappedIff | compositor/native/src/compositor_server.c:267-320 | a step leaves the window focused last mapped, if it still exists, iff it is not an unmap that hands the focus to an unmapped one or takes the one focused last without handing on |
| Toplevels.FocusMappedIff | compositor/native/src/compositor_server.c:210-320 | over every run from the start that window is mapped at every step iff no such unmap occurs |
| Toplevels.HandOverToUnmapped | compositor/native/src/compositor_server.c:295-302 | a run in which it goes to one that never was |
| Toplevels.RunKeepsText | compositor/native/src/compositor_server.c:283-320 | over every run the text-input handler is left with no surface but the live one that has the keyboard |
| Toplevels.Server.FocusToplevel | compositor/native/src/compositor_server.c:210-253 | the loop and the relinking do what the specification does |
| Toplevels.Server.OnNewToplevel | compositor/native/src/compositor_server.c:416-451 | takes the New step |
| Toplevels.Server.OnMap | compositor/native/src/compositor_server.c:267-281 | takes the Map step |
| Toplevels.Server.OnUnmap | compositor/native/src/compositor_server.c:283-303 | takes the Unmap step, the leave of the text-input handler included |
| Toplevels.Server.OnDestroy | compositor/native/src/compositor_server.c:305-320 | takes the Destroy step, the leave of the text-input handler included |
| ShmSwap.FramesStayIntact | shims/native/egl-override/egl_override.c:1423-1536 | over any run, resizes included, in which a buffer is free at each swap, every frame in flight is in memory as it was committed |
| ShmSwap.FrameStaysUntilReleased | shims/native/egl-override/egl_override.c:1423-1536 | over such a run a given frame stays in flight with exactly its pixels until its own buffer is released |
| ShmSwap.NeverClobbersIff | shims/native/egl-override/egl_override.c:1488-1502 | over any run no swap overwrites a frame in flight iff a buffer is free at each swap |
| ShmSwap.ClobbersIff | shims/native/egl-override/egl_override.c:1488-1502 | a swap overwrites a frame in flight iff both halves are busy and the dispatch does not release the current one |
| ShmSwap.OtherReleaseIgnored | shims/native/egl-override/egl_override.c:1488-1502 | a release of the other half alone does not prevent that |
| ShmSwap.ThirdSwapClobbers | shims/native/egl-override/egl_override.c:1488-1502 | from a fresh one-pixel window two swaps make both halves busy and a third overwrites the first frame |
| ShmSwap.SwapWritesFlip | shims/native/egl-override/egl_override.c:1483-1536 | a swap writes the exact flip of the image into one half that no frame in flight uses, and nothing else |
| ShmSwap.SwapsTakeTurns | shims/native/egl-override/egl_override.c:1486-1536 | a swap goes into the half that the one before did not use if that is free by then, and after a resize into the first |
| ShmSwap.FlipRow | shims/native/egl-override/egl_override.c:1503-1512 | row r of the flip is row h - 1 - r of the image |
| ShmSwap.FlipTwice | shims/native/egl-override/egl_override.c:1503-1512 | flipping twice gives the image back |
| ShmSwap.ConfigureTakenIff | shims/native/egl-override/egl_override.c:590-607 | a configured size is the one taken iff it is not the current size coming while another is pending |
| ShmSwap.TargetIsLastOther | shims/native/egl-override/egl_override.c:590-607 | over any events the size taken is the last configured one that differs from the current |
| ShmSwap.BackToCurrentIsIgnored | shims/native/egl-override/egl_override.c:590-607 | so going back to the current size is ignored |
| ShmSwap.FlipInto | shims/native/egl-override/egl_override.c:1503-1512 | the copy loop turns one half into the flip and leaves every other byte of the region |
| ShmSwap.ShmWindow.CreateShmBuffers | shims/native/egl-override/egl_override.c:425-527 | two disjoint halves of the window's size |
| ShmSwap.ShmWindow.HandleShmResize | shims/native/egl-override/egl_override.c:967-1012 | takes the resize step, also when making buffers fails |
| ShmSwap.ShmWindow.PickBuffer | shims/native/egl-override/egl_override.c:1488-1502 | chooses the half that the specification chooses |
| ShmSwap.ShmWindow.SwapBuffers | shims/native/egl-override/egl_override.c:1441-1536 | takes the Swap step |
| ShmSwap.ShmWindow.OnRelease | shims/native/egl-override/egl_override.c:393-401 | takes the release event |
| ShmSwap.ShmWindow.OnConfigure | shims/native/egl-override/egl_override.c:590-607 | takes the configure event |
| LittleEndian.BytesRoundTrip | compositor/native/src/ahb_registry_receiver.c:47-60 | n bytes hold exactly the integers below 256 to the n |
| LittleEndian.LowBytesFirst | compositor/native/src/ahb_registry_receiver.c:57-58 | the bytes that come first are the low ones |
| VtestWire.ParseOfFramed | shims/native/drm-shim/src/drm_shim.c:605-648 | the bytes of any sequence of commands parse back to exactly these commands, with the renderer name counted in bytes and payloads in words |
| VtestWire.NextOfFramed | shims/native/drm-shim/src/drm_shim.c:875-881 | a server takes exactly one framed command off the stream |
| VtestLink.Link.BlockWrite | shims/native/drm-shim/src/drm_shim.c:508-523 | short writes are continued until all bytes are out, in order, or until writing fails, which is reported |
| VtestLink.Link.BlockRead | shims/native/drm-shim/src/drm_shim.c:525-540 | short reads are continued to exactly count bytes, iff that many come; a descriptor that comes with one of them is lost |
| VtestLink.Link.RecvFd | shims/native/drm-shim/src/drm_shim.c:543-569 | takes one descriptor, or fails on plain data |
| VtestLink.Link.Handshake | shims/native/drm-shim/src/drm_shim.c:605-648 | sends the three greeting commands, agrees on the server's version and leaves nothing unread |
| VtestLink.Link.GetCaps | shims/native/drm-shim/src/drm_shim.c:743-821 | all capability bytes are consumed whatever the caller's buffer holds |
| VtestLink.Link.BusyWait | shims/native/drm-shim/src/drm_shim.c:1118-1170 | sends the wait and consumes its answer |
| VtestLink.Link.CreateResource | shims/native/drm-shim/src/drm_shim.c:873-920 | for protocol versions 2 and 3 consumes exactly the answer: header and id from version 3 on, and a descriptor iff the data size sent is not zero |
| VtestLink.Link.OutParses | shims/native/drm-shim/src/drm_shim.c:605-960 | in step, the bytes written parse back to the commands issued |
| DrmIoctls.Shim.ServeAll | shims/native/drm-shim/src/drm_shim.c:605-1450 | after any sequence of ioctls the bytes written parse to exactly the commands issued, the server reads from them just what the ioctls mean, and every byte and descriptor of the server has been consumed |
| DrmIoctls.Shim.Dispatch | shims/native/drm-shim/src/drm_shim.c:743-1450 | each ioctl takes its step, returns its result and keeps the invariant |
| DrmIoctls.Shim.ResourceCreate | shims/native/drm-shim/src/drm_shim.c:823-960 | takes the Create step, of which CreatedAsAsked speaks |
| DrmIoctls.Shim.Map | shims/native/drm-shim/src/drm_shim.c:962-982 | takes the MapBo step |
| DrmIoctls.Shim.ExecBuffer | shims/native/drm-shim/src/drm_shim.c:984-1023 | takes the Exec step |
| DrmIoctls.Shim.TransferTo | shims/native/drm-shim/src/drm_shim.c:1025-1070 | takes the TransferToHost step |
| DrmIoctls.Shim.TransferFrom | shims/native/drm-shim/src/drm_shim.c:1072-1116 | takes the TransferFromHost step |
| DrmIoctls.Shim.WaitFor | shims/native/drm-shim/src/drm_shim.c:1118-1170 | takes the Wait step, EBUSY included |
| DrmIoctls.Shim.Close | shims/native/drm-shim/src/drm_shim.c:1192-1232 | takes the GemClose step; an unknown handle is no error |
| DrmIoctls.Shim.PrimeHandleToFd | shims/native/drm-shim/src/drm_shim.c:1304-1369 | takes the HandleToFd step with the flush its kind of BO needs |
| DrmIoctls.Shim.PrimeFdToHandle | shims/native/drm-shim/src/drm_shim.c:1392-1450 | takes the FdToHandle step, invalid descriptors included |
| DrmServer.RunIsUnderstood | shims/native/drm-shim/src/drm_shim.c:743-1369 | over every run a server that reads each payload by the protocol's field positions is asked for exactly what the ioctls mean: resources with all the caller's parameters, boxes, waits that block or not, and the flush that the kind of BO needs on export |
| DrmServer.CreatedAsAsked | shims/native/drm-shim/src/drm_shim.c:848-945 | the resource asked for has the caller's parameters, and BO and cache have its geometry and data size; its id is the BO's handle below version 3 and the server's from then on |
| DrmServer.GreetingIsUnderstood | shims/native/drm-shim/src/drm_shim.c:605-648 | the handshake names the renderer, pings and offers version 3 |
| DrmServer.OutcomeFits | shims/native/drm-shim/src/drm_shim.c:743-1450 | handles given out are live, new or on the caller's file; capabilities are as much as fits; EBUSY comes iff the caller does not wait and the resource is busy; a call that names nothing known fails and changes nothing |
| DrmServer.UnknownImported | shims/native/drm-shim/src/drm_shim.c:1392-1450 | a file of which nothing is known gets a BO with its length and no resource |
| DrmServer.RunKeepsKinds | shims/native/drm-shim/src/drm_shim.c:932-945 | over every run a BO is marked as a hardware buffer iff it is on a file that is no memfd, records of closed BOs included |
| DrmRuns.RunKeepsInv | shims/native/drm-shim/src/drm_shim.c:823-1450 | over every run, a server that uses ids again included: live BOs with a file have pairwise distinct (dev, inode), handles, offsets and the cache agree with them, and who names a hardware buffer's resource unknowingly names an id used again |
| DrmRuns.ReachableInv | shims/native/drm-shim/src/drm_shim.c:605-648 | the state after the handshake, and so every reachable one, satisfies the invariant |
| DrmRuns.StepKeepsTable | shims/native/drm-shim/src/drm_shim.c:456-502 | every ioctl keeps slots and handles in agreement and no two live BOs on one file |
| DrmRuns.HandlesNeverReused | shims/native/drm-shim/src/drm_shim.c:456-479 | a closed handle is never given out again |
| DrmRuns.OffsetsNeverAlias | shims/native/drm-shim/src/drm_shim.c:493-502 | an offset from shim_map finds exactly its BO while that lives, and no BO ever after |
| DrmRuns.ImportFinds | shims/native/drm-shim/src/drm_shim.c:1373-1390 | a file with a live BO is imported as that BO |
| DrmRuns.SameBufferSameHandle | shims/native/drm-shim/src/drm_shim.c:1392-1450 | two imports of one buffer give one handle, whatever happens in between while it is open |
| DrmRuns.ExportImportIff | shims/native/drm-shim/src/drm_shim.c:1304-1450 | export then import gives the same handle iff the BO has a file |
| DrmRuns.AhbNeverUnreferenced | shims/native/drm-shim/src/drm_shim.c:1192-1232 | over every run without stale imports, a resource created on a hardware buffer stays outstanding and no RESOURCE_UNREF after its creation names it |
| DrmRuns.AhbSafeFromHandshake | shims/native/drm-shim/src/drm_shim.c:605-1450 | the same over every whole run from the handshake, the creation at any point of it |
| DrmRuns.RunHolds | shims/native/drm-shim/src/drm_shim.c:1192-1450 | over every run without stale imports, every live BO's resource is outstanding and marked for what it is, and none but hardware buffers share one |
| DrmRuns.AhbSafeIff | shims/native/drm-shim/src/drm_shim.c:1192-1450 | an outstanding hardware-buffer resource is never named in a RESOURCE_UNREF, whatever ioctls follow, iff no live BO and no cached record carries its id unmarked |
| DrmRuns.CloseGivesBackIff | shims/native/drm-shim/src/drm_shim.c:1192-1232 | closing a BO gives such a resource back iff the BO is not marked and its id is one by now; the id has then been given back before and come again |
| DrmRuns.OnlyCloseGivesBack | shims/native/drm-shim/src/drm_shim.c:743-1450 | no other ioctl does |
| DrmFailures.ReissuedIdIsGivenBack | shims/native/drm-shim/src/drm_shim.c:1192-1450 | a run in which a live hardware buffer loses its resource |
| DrmFailures.ReimportedMemfdIsStale | shims/native/drm-shim/src/drm_shim.c:1192-1450 | a run that ends with a BO on a resource already given back |
| DrmFailures.SizelessExportIsAnother | shims/native/drm-shim/src/drm_shim.c:1304-1450 | a BO that comes back from an export as another |
| DrmFailures.RowsOverflow | shims/native/drm-shim/src/drm_shim.c:864-873 | a size, stride and height whose rows are 2^32 bytes and for which 16 are sent |
| DrmFailures.LargestIsSubmittedEmpty | shims/native/drm-shim/src/drm_shim.c:993-1009 | a command buffer of 2^32 - 1 bytes goes out empty |
| DrmRuns.AhbSurvivesClose | shims/native/drm-shim/src/drm_shim.c:1192-1232 | while at most 64 buffers have been cached, create, close and re-import restore resource, geometry and kind under a new handle, and the resource is still outstanding without stale imports or if nobody carried its id |
| DrmRuns.ReimportRestoresIff | shims/native/drm-shim/src/drm_shim.c:1392-1450 | in general they are restored iff the cache has not forgotten the buffer |
| DrmRuns.ReimportIsStaleIff | shims/native/drm-shim/src/drm_shim.c:1215-1232 | without stale imports before, the resource restored by closing and importing again has been given back iff the BO is not marked as a hardware buffer |
| DrmRuns.DataSizeKeepsSign | shims/native/drm-shim/src/drm_shim.c:864-873 | the data size sent is zero iff the caller's size is, so the descriptor is expected iff it is sent |
| DrmRuns.DataSizeCoversIff | shims/native/drm-shim/src/drm_shim.c:864-873 | the size sent is the greater of the caller's size and stride times height as long as that fits 32 bits, and covers it iff it is 0, or a size was given and it fits |
| DrmRuns.SubmitsAllIff | shims/native/drm-shim/src/drm_shim.c:993-1009 | a command buffer is submitted whole, padded with zeros to words, iff its size leaves room for rounding up in 32 bits |
| BoTable.Bos.Alloc | shims/native/drm-shim/src/drm_shim.c:456-479 | a fresh zeroed slot under the next handle; a full table doubles and keeps every BO |
| BoTable.Bos.Lookup | shims/native/drm-shim/src/drm_shim.c:482-490 | finds exactly the live handles |
| BoTable.Bos.LookupByOffset | shims/native/drm-shim/src/drm_shim.c:493-502 | finds a live BO with the offset iff there is one |
| BoTable.Bos.FindByInode | shims/native/drm-shim/src/drm_shim.c:1373-1390 | finds a live BO on the file iff there is one, within the table's bounds |
| BoTable.Bos.MapOffset | shims/native/drm-shim/src/drm_shim.c:962-982 | the offset is a function of the handle and stays |
| BoTable.OffsetsDiffer | shims/native/drm-shim/src/drm_shim.c:974-977 | two live BOs never share an offset |
| InodeCache.CacheTellsLatest | shims/native/drm-shim/src/drm_shim.c:171-232 | over a whole run a hit gives what was stored last under the key, and a stored key is missed iff it sat in slot 0 of a full cache as a new key came and has not been stored since |
| InodeCache.FewKeysNoneForgotten | shims/native/drm-shim/src/drm_shim.c:168-203 | with at most 64 distinct keys the cache is a map |
| InodeCache.FirstOfMoreIsForgotten | shims/native/drm-shim/src/drm_shim.c:182-192 | after 65 stores under different keys the first is missed |
| InodeCache.StoredRecalls | shims/native/drm-shim/src/drm_shim.c:171-203 | what one store does to every lookup |
| InodeCache.StoredKeepsDistinct | shims/native/drm-shim/src/drm_shim.c:171-203 | valid slots stay a prefix with distinct keys |
| InodeCache.Cache.Store | shims/native/drm-shim/src/drm_shim.c:171-203 | the scanning loop picks the slot of the key, else the first free one, else slot 0 |
| InodeCache.Cache.Lookup | shims/native/drm-shim/src/drm_shim.c:208-232 | the scanning loop answers as the entries do |

## Left out

- Sockets, pipes, mmap, poll, dlopen, symbol interposition and logging: only their effect is kept (byte streams, a pipe's byte count, which file a descriptor refers to).
- wlroots, EGL, GL, xkbcommon and the Android NDK: parameters, or events in a log.
- Failed reads and writes on the vtest socket are modelled for the socket calls only, not for the ioctls: every handler returns an error there, and the connection is then no longer in step. Failed allocations and dup are left out. A lazily made connection is modelled as made at the start.
- Handles, serial numbers of handles and timestamps beyond 32 bits: `DrmShim.Allowed` asks that the next handle fits.
- DrmShim.Allowed: a server-created file has a (dev, inode) pair not seen before, and its resource id is not outstanding; a kernel that recycles inodes of closed files is not modelled.
- DrmServer.RunIsUnderstood: the field positions are those that drm_shim.c:848-862 and 1051-1063 write and name; the server's own header is not part of this model.
- The data race between an import that fills its BO from the cache and other ioctls: every ioctl is one step.
- Descriptor tracking (drm_fds), the libdrm entry points that repeat the ioctls, resource_info, getparam, version and device enumeration.
- Hardware memory ordering below acquire and release in the event ring; a pipe write is taken to be visible to the next read.
- Typing.TypingRoundTrip: lock keys that would be scanned before Shift are outside its conditions, as is a Shift key that produces a character of its own.
- Typing.EmitSyntheticKeys: when the loop has stepped over the terminator the model stops; what it reads there is not part of the text.
- Utf8.DeleteByteCounts: for texts of 4 GiB and more, whose unit counts wrap, only the bounds are stated.
- A failed strdup in set_surrounding_text, text change cause and content type, which the handler ignores.
- TextInputHandler.Handler.OnGetTextInput: the enter is sent before the resource is linked, not after; nothing can observe the difference.
- The dispatch of queued text to the client (commit_string, delete_surrounding_text, done) and the fallback of backspace and delete keys.
- A surface's protocol resource is taken to live as long as the surface.
- Touch and key dispatch, pointer focus, pause and resume, XWayland views, popups and the JNI bridge.
- The descriptor that carries a hardware buffer beside the receiver's byte stream: receiving it either gives the next buffer or fails.
- ShmSwap.FramesStayIntact: one window; the compaction of window slots in eglDestroySurface is not modelled, nor the stale pbuffer after a resize, nor sizes whose byte count overflows an int.
- InputChannel.Channel.OnInputEvent: runs by itself with a current head; the producer's steps in between are covered by the interleavings of InputChannel.Step.
- AhbReceiver.HandleClient: runs by itself; lookups by other threads in between are covered by the interleavings of AhbThreads.Step.
- AhbThreads.RunConserves: one client's messages; a next client's are a run from the state that the first left, and the final ahb_registry_destroy is Registry.Destroy.
- DrmIoctls.Shim.ExecBuffer: the fence descriptor and the zeroing of the padding in the caller's own buffer are left out.
- ShmSwap.ShmWindow.CreateShmBuffers: only the success path; the cleanup of a partial failure frees what it made.
- ShmSwap.ShmWindow.HandleShmResize: the replacement of the pbuffer surface is left out.
- ShmSwap.ShmWindow.SwapBuffers: finding the window by its EGL surface is left out, as there is one window.
- TextWake.Channel.OnTextInputEvent: runs by itself; operations that arrive meanwhile are covered by the interleavings of TextWake.Step.
- TextInput.CommitTakesEffect: focus changes and the coming and going of inputs are not among the requests in between.
- TextWake.Channel.HandleText: one producer thread at a time; a clear runs to its end there, and is interleaved pop by pop in TextWake.Step.
- Keyboard focus changes by touch and by wlroots itself, which the toplevel handlers do not make.
- GBM, network and format shims, keycode maps, and the Kotlin launcher: finite tables and orchestration that would add only easy members.
