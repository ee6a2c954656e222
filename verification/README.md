# FoloToy Game Boy: a Dafny model of the firmware's state machines

This project models the parts of the FoloToy Game Boy firmware that decide whether games, saves and
controllers survive faults, and proves properties of them for every input, every run and every fault.

| file | what it models |
|---|---|
| `Bytes.dfy` | octets, C strings, wrapping 32-bit counters |
| `Names.dfy` | game names: the byte scanner, the builder's encoder, the query decoder |
| `RomLayout.dfy` | the extent allocator and the free-space figure |
| `Storage.dfy`, `RomUploads.dfy` | the ROM catalogue on raw flash: two directory slots, factory fallback, commits, tokens, uploads, and which ROMs are taken |
| `Crc32.dfy`, `CrcWords.dfy` | the CRC, and its powers in machine words |
| `Saves.dfy`, `SaveLayout.dfy`, `SaveBursts.dfy` | the save format octet by octet, the two-copy protocol, and which bursts the format notices |
| `SaveSessions.dfy`, `SaveFiles.dfy` | playing, saving and loading over whole runs, and the code on the file system |
| `Web.dfy`, `WebRequests.dfy` | the delete and rename handlers over catalogue and saves, as one system with play, power cycles and sweeps; and what they do when nothing fails |
| `IinePacket.dfy`, `IineKeys.dfy`, `IineFrames.dfy` | the pad's packet codec, changes of its keys, and captured frames |
| `IineLink.dfy`, `IineReports.dfy` | its handshake, and what its reports say to the host |
| `HidDescriptor.dfy`, `HidNesting.dfy` | the report-descriptor classifier, and how deep descriptors may nest |
| `Advertisement.dfy` | the advertising parser and the cache of recent peers |
| `InputBuffer.dfy` | the gameplay input ring |
| `Pixels.dfy`, `PanelPicture.dfy` | scaling, the start-up picture, and where on the panel each pixel is |
| `LcdLink.dfy`, `Display.dfy` | the strip buffer, its transfers and their semaphore; the strip-skipping LCD path over whole runs |
| `FrameHandoff.dfy`, `DisplayTasks.dfy` | the hand-off between two tasks, and both tasks with the panel |
| `Apu.dfy`, `ApuRates.dfy`, `ApuTimers.dfy` | the audio unit: phase accumulators, envelope, sweep and length, the buffers and the registers, over whole runs; and the pitch, duration and volume that they add up to |
| `PackRoms.dfy`, `PackLayout.dfy` | the image builder, its inspection, and loading what was built; the image octet by octet |

Code that changes state in place is a class whose methods are proved against functions on values; the
main results are lemmas about those functions over whole runs. The environment is an argument: each
operation takes a "fate" that says which calls fail and what a failed one leaves behind, so a statement
for all fates covers all faults, and losing power in the middle is the fate that stops there, followed by
a power cycle.

Idealisations. A digest is as good as the bytes it was computed from. A directory sector holds a complete
record or none. A file whose writing was cut short holds a prefix. The partition is larger than three
sectors and smaller than 2 GiB. Flash contents change only through the operations. The audio unit is the
one of the device build, 16000 samples a second.

## Findings

- A directory slot whose hash call fails at load is passed over as if it were blank (main/gb_storage.c:87).
  The load then succeeds with the older catalogue, or with the factory table, and is trusted: RAM no longer
  matches flash (`Storage.LostHashLoadsOlder`, `Storage.LostHashLoadsFactoryTable`), a cut-short deletion
  can bring the factory table back for good (`Storage.FactoryTableReturns`), and the sweep at power-on can
  remove the save of an installed game (`Web.StaleLoadSweepsSave`). `Storage.LoadCoherentExactlyWhen` says
  exactly when a load is coherent, and `Storage.RunKeepsInv` exactly which runs are.
- A newest copy of a save that cannot be read counts as missing, so the next write overwrites it
  (`Saves.UnreadNewestIsLost`), or starts the numbers over beside it (`Saves.UnreadNumberStartsOver`).
  `Saves.ChosenSparedExactlyWhen` and `Saves.WriteSafeExactlyWhen` say exactly when that cannot happen.
- Two interrupted first saves leave both files damaged, and then no save of that game ever succeeds again
  (`Saves.TwoTornFirstSavesWedge`, `Saves.WedgedForever`); in every other state an undisturbed save does.
- A save file name holds eight hash bytes while deletion compares all thirty-two, so deleting a game removes
  the saves of an installed game that shares the prefix, and only then (`Web.DeleteSparesInstalled`).
- The CRC of a save notices every change of four adjacent bytes, except where they reach from the stored CRC
  into the payload and the save is of certain sizes: from position 50 with 8192 bytes of cartridge RAM, and
  from position 51 with 512, 2048 or 8192 (`SaveBursts.RealSavesNoticedExactlyWhere`).
- The start-up frame path skips unchanged strips without asking whether the previous frame was enlarged, as
  the normal path does (`Display.BootFrameReliableExactlyWhen`). No caller in the repository reaches the
  failure: start-up frames follow a clear, and games are submitted enlarged (`Display.ShippedIsProper`).
- A transfer that ends after its wait was given up leaves its semaphore given, and from then on every send waits
  for the end of the transfer before: the buffer is filled with the next strip while it is still being read, and
  a wrong picture is reported as drawn and remembered (`Display.LateTransferDeceives`). The driver is reliable
  exactly until the first wait that is given up (`Display.ReliableRunExactlyWhen`), and in step again only when
  an end is lost because the semaphore is given already (`Display.CleanAgainExactlyWhen`).
- In a frame of the pad, a change of the serial or the nonce re-keys all other octets, and some changes keep both
  length and checksum right (`IineKeys.NonceChangeSlips`, `IineKeys.SerialChangeSlips`);
  `IineKeys.KeyChangeSlipsExactlyWhen` says which. Any other octet is protected (`IinePacket.OneOctetRejected`).
- The envelope of a silent channel that counts down wraps to full volume before it is clamped
  (`Apu.EnvelopeClampsExactlyWhen`). Three register writes reach that state (`Apu.EnvelopeWrapsForReal`);
  without a rewrite of the volume register of an enabled channel nothing does (`Apu.CalmWithoutRewrites`).
- In the square and noise channels the weight of a partial step is an integer quotient below one, so a sample
  is always just the last level (`Apu.SquarePhase`, `Apu.NoisePhase`).

## Model

| member | source | states |
|---|---|---|
| Names.GbNameValid | main/gb_name.c:13-51 | the byte scanner accepts exactly the names of 1 to 31 bytes made of well-formed UTF-8 characters from the allowed set |
| Names.ValidExactlyWhenEncodable | tools/pack_roms.py:28-37 | a byte string is a valid name if and only if the image builder can produce it from some code points; such a name holds no NUL |
| Names.GbNameUrlDecode | main/gb_name.c:53-70 | decoding succeeds with n exactly when the query text is a percent-encoding of n, n is a valid name and it fits the buffer: it inverts every encoding of every valid name |
| Names.SpellsUnique | main/gb_name.c:53-70 | a query text is the encoding of at most one byte string |
| Names.EncodedScans | main/gb_name.c:13-51 | whatever code points the builder allows, their UTF-8 passes the scanner |
| Names.ScannedIsEncoded | main/gb_name.c:13-51 | whatever passes the scanner is the UTF-8 of allowed code points |
| Names.AllowedIntervals | tools/pack_roms.py:28-37 | the characters that a name may hold are exactly those of eight intervals of code points |
| Names.EscapedSpells | main/gb_name.c:53-70 | whatever octets are percent-escaped, with digits of either case and a space as plus or not, that text spells them |
| RomLayout.CheckEntries | main/gb_storage.c:60-76 | the loop accepts exactly the catalogues with well-shaped entries and pairwise different names and disjoint extents |
| RomLayout.FindGap | main/gb_storage.c:232-249 | the jumping search ends and gives the same address as trying every address in turn, 0 for none |
| RomLayout.FirstFitIsLowest | main/gb_storage.c:232-249 | the address found is feasible and no lower one is; none is found only if no address is feasible |
| RomLayout.FirstFitAligned | main/gb_storage.c:232-249 | for a valid catalogue the address found is a multiple of the sector size |
| RomLayout.StorageUsed | main/gb_storage.c:258-262 | the used figure is the sum of the catalogued sizes |
| RomLayout.UsedCountsCells | main/gb_storage.c:258-262 | for disjoint entries that sum is the number of bytes they cover |
| RomLayout.QuotaCoversEveryGap | main/gb_storage.c:251-296 | a bank-multiple gap never exceeds what the limit leaves, so the quota clamp never lowers the answer |
| RomLayout.Available | main/gb_storage.c:271-296 | the scan for the largest hole ends, and for every bank-multiple size of at least 32768 bytes, size <= available exactly when the gap search succeeds |
| RomLayout.RoundedHoleAgrees | main/gb_storage.c:285-296 | the bank-rounded largest hole, with its floor and clamp, answers every request as the search does |
| RomLayout.FitsExactlyWhenLongEnough | main/gb_storage.c:271-296 | a request fits exactly when it is no longer than the longest free run |
| Storage.PublishIsAtomic | main/gb_storage.c:298-331 | one commit under any allocation, hash, erase, write or read-back behaviour: a later load selects the old catalogue or exactly the new one; success means the new one, failure without doubt the old one, doubt closes the catalogue |
| Storage.StepIsAtomic | main/gb_storage.c:78-421 | every event under every fault: the selected catalogue stays or becomes exactly the requested one, and while a reload is due every mutator refuses and changes nothing; the event keeps adjacent generations and coherence of RAM with flash if and only if it is not a successful load whose hash call failed on the slot that should be selected |
| Storage.DeletedIsGone | main/gb_storage.c:402-410 | after a deletion that reports success, under any fault, a load finds exactly the other rows, unchanged and in their order |
| Storage.RenamedIsFound | main/gb_storage.c:412-421 | after a renaming that reports success the row has the new name, its ROM and all other rows are unchanged |
| Storage.LoadCoherentExactlyWhen | main/gb_storage.c:78-138 | for every flash and every combination of read, hash and allocation failures, a load leaves RAM coherent with flash if and only if it fails or the directory slot that should be selected, if there is one, was hashed |
| Storage.LostHashLoadsOlder | main/gb_storage.c:87-88 | failing input: with two valid slots and the hash call failing on the newer, the load succeeds with the older catalogue, trusted, and no reload is due |
| Storage.LostHashLoadsFactoryTable | main/gb_storage.c:87-88 | failing input: with one valid slot and the hash call failing on it, the load succeeds with the factory table, trusted, although a directory is committed |
| Storage.FactoryTableReturns | main/gb_storage.c:87-88 | and if a deletion in that state is cut short after its erase, the committed directory is gone and even an undisturbed load selects the factory table |
| Storage.RunKeepsInv | main/gb_storage.c:92-138 | over every run of power cycles, loads, uploads, deletes and renames with any faults, RAM equals what a load would select unless a reload is due, and two valid slots differ by one generation modulo 2^32, in every state of the run, if and only if in no successful load of it the hash call failed on the slot that should be selected |
| Storage.ReloadLoadsSelected | main/gb_storage.c:92-138 | a load with readable flash changes nothing on flash, loads exactly the selected catalogue, and fails only on a malformed factory table |
| Storage.PowerLossIsAtomic | main/gb_storage.c:298-331 | an operation cut off at any point, then power-up and a load, gives the catalogue before the operation or the one it asked for |
| Storage.FactoryTableRetired | main/gb_storage.c:92-138 | once a directory has been committed, no later run without such a load ever selects the factory table again, nor works with it |
| Storage.RefusedOnlyFor | main/gb_storage.c:353-421 | undisturbed commits: delete and rename succeed exactly under their documented conditions, and an upload exactly when it is admitted and its transfer brings a whole ROM with an accepted header |
| Storage.ReceivedExactlyWhen | main/gb_storage.c:369-388 | for every transfer: an image is received if and only if erase and hash calls work, every chunk handed over is nonempty and no larger than asked for, every chunk is written, and together they are that image in full |
| Storage.UndisturbedIsReceived | main/gb_storage.c:369-388 | however a reader cuts a ROM into pieces of 1 to 1024 bytes, if no call fails that ROM is received |
| Storage.UploadTarget | main/gb_storage.c:232-249 | an admitted upload goes to sector-aligned data space that no catalogued ROM touches, and the catalogue with the new entry is valid |
| RomUploads.DeclaredExactly | main/gb_storage.c:333-341 | a header size code stands for 32 KiB doubled that often up to 7, for 72, 80 and 96 banks at 0x52 to 0x54, and for nothing else |
| RomUploads.HeaderAcceptedExactlyWhen | main/gb_storage.c:389-390 | a received image is taken exactly when it does not need a colour machine, names a mapper of the list and is as long as its code says |
| RomUploads.AdmittedExactlyWhen | main/gb_storage.c:360-366 | an upload is let in exactly when the catalogue can be changed, has a row left, does not hold the name, the name can be built, and so many bytes are free in one piece of the data area; the quota never matters |
| RomUploads.UploadSucceedsExactlyWhen | main/gb_storage.c:360-400 | an undisturbed upload succeeds exactly for such images in such states, however it is cut into pieces, and then the new row names the free place where the image now stands |
| Storage.StepSparesRoms | main/gb_storage.c:360-400 | no event changes the factory sector, the directory sectors or the bytes of any ROM in the selected catalogue |
| Storage.RunKeepsRomsIntact | main/gb_storage.c:360-400 | over every run without such a load each ROM of the selected catalogue keeps hashing to its recorded digest, and a new entry appears only with its whole image on flash |
| Storage.GenerationCountsCommits | main/gb_storage.c:298-331 | over every run without such a load the selected generation counts the commits that reached the flash, modulo 2^32, and nothing else changes the selection |
| Storage.StaleTokensNeverAct | main/gb_storage.c:143-176 | for runs of fewer than 2^32 commits without such a load a token names its row exactly while the catalogue is usable, the token hashes work and no commit has reached the flash; otherwise it names nothing |
| Storage.GbStorage.ReadDirectory | main/gb_storage.c:78-90 | the checks of one directory slot give the stored directory; an unreadable slot is remembered, a slot whose hash call fails is passed over without a trace |
| Storage.GbStorage.Init | main/gb_storage.c:92-138 | on every combination of read, hash and allocation failures the loop over both slots and the factory fallback give the state and result of the load specification |
| Storage.GbStorage.PublishDirectory | main/gb_storage.c:298-331 | the ordered effects on flash and RAM give the commit specification for every fault |
| Storage.GbStorage.ValidName | main/gb_storage.c:353-358 | a name is free exactly when it is valid and no other row has it |
| Storage.GbStorage.Delete | main/gb_storage.c:402-410 | deleting gives the specified flash, RAM and result for every fault |
| Storage.GbStorage.Rename | main/gb_storage.c:412-421 | renaming gives the specified flash, RAM and result, success without a commit for an unchanged name included |
| Storage.GbStorage.ReceiveRom | main/gb_storage.c:368-388 | for every transfer the loop gives exactly the received image or the specified remains of a transfer that broke off, in the target region and nowhere else, with the header that the image begins with |
| Storage.GbStorage.Upload | main/gb_storage.c:360-400 | an upload gives exactly the state and result that its transfer and commit determine, for every fault of the stream, the flash, the streaming hash and the commit |
| Storage.GbStorage.Open | main/gb_storage.c:191-230 | a ROM is offered only if no reload is due and its bytes hash to the recorded digest, and it is offered whenever that holds and mapping and hash calls succeed |
| Storage.GbStorage.ResolveToken | main/gb_storage.c:143-176 | the search over all rows gives the row whose token this is, passing over rows whose token hash fails, and refuses while a reload is due |
| Storage.ErasedTakesAll | main/gb_storage.c:360-400 | programming stores any value into an erased cell; other cells can only lose bits |
| Crc32.CrcUpdate | main/gb_saves.c:33-41 | the nested loops compute the CRC of the bytes from any start value |
| Crc32.CrcConcat | main/gb_saves.c:33-41 | the CRC of a concatenation is that of the second part started from the first, so chunking does not matter |
| Crc32.BitStepInjective | main/gb_saves.c:33-41 | one shift of the register is injective |
| Crc32.CrcInjective | main/gb_saves.c:33-41 | feeding the same bytes keeps different registers different |
| Crc32.OctetDetected | main/gb_saves.c:33-41 | two byte strings that differ in exactly one byte have different CRCs |
| Crc32.BurstDetected | main/gb_saves.c:33-41 | two byte strings that differ only within four adjacent bytes have different CRCs |
| Saves.ImageRoundTrip | main/gb_saves.c:134-247 | a file that was written whole is accepted with its sequence number and restores cartridge RAM and clock exactly |
| SaveLayout.LayoutIs | main/gb_saves.c:21-29 | a save file octet by octet: FGBS, version 1, flags 0, the number and the size least significant first, the hash, the CRC of all the rest, RAM and clock |
| SaveLayout.CheckValue | main/gb_saves.c:33-41 | the CRC of the digits 1 to 9 is the published check value 0xCBF43926, stored least significant octet first |
| Saves.TornRejected | main/gb_saves.c:134-158 | no proper prefix of a file is accepted |
| Saves.OneByteRejected | main/gb_saves.c:134-158 | changing any one byte of any accepted file makes it unacceptable |
| SaveBursts.BurstsNoticedExactlyWhere | main/gb_saves.c:134-158 | for every position and every size: each change of four adjacent bytes of each accepted file is noticed, if and only if the position is not 49, 50 or 51 or no nonzero change of the payload bytes it reaches clears as many low bytes of the CRC |
| SaveBursts.RealSavesNoticedExactlyWhere | components/gb_core/gb/gb_emulator.h:377-381 | for the five sizes that a session can have this is decided: every such change is noticed except at position 50 with 8192 bytes of cartridge RAM and at position 51 with 512, 2048 or 8192, where some accepted file and change pass |
| SaveBursts.CrcDifference | main/gb_saves.c:33-41 | the CRCs of two files differ by the CRC of the difference |
| SaveBursts.SealedAlike | main/gb_saves.c:218-228 | two stored CRCs agree in their first bytes exactly when the low bits of the difference are clear |
| CrcWords.WordStep | main/gb_saves.c:33-41 | one shift of a machine word is one shift of the register it stands for |
| CrcWords.RunIsProduct | main/gb_saves.c:33-41 | feeding zero bytes multiplies the word by a power of the polynomial ring, so squarings reach real save lengths |
| CrcWords.NoOctetCancels | main/gb_saves.c:134-158 | at no real size does a change of the first payload byte leave the low byte of the CRC alone |
| CrcWords.NoPairCancels | main/gb_saves.c:134-158 | at every real size but 8192 no change of the first two payload bytes leaves the low two bytes of the CRC alone |
| CrcWords.NoTripleCancels | main/gb_saves.c:134-158 | at sizes 0 and 32768 no change of the first three payload bytes leaves the low three bytes of the CRC alone |
| CrcWords.Cancelling | main/gb_saves.c:134-158 | the changes that do, for 8192, 512 and 2048 |
| CrcWords.CrcLinear | main/gb_saves.c:33-41 | the CRC of any bytes is that of as many zeros combined with what the bytes alone contribute |
| Saves.ChosenSparedExactlyWhen | main/gb_saves.c:134-223 | for every outcome of the reads that precede it, a write leaves alone the copy that load would choose if and only if that copy was read, or nothing is opened for writing, or neither copy was read and the last existence question happens to point away from it |
| Saves.UnreadNewestIsLost | main/gb_saves.c:205-213 | failing input: both copies valid, the newer one cannot be read, and the write is cut short: the newer save is gone and load gives the older |
| Saves.UnreadNumberStartsOver | main/gb_saves.c:205-213 | failing input: the only copy is valid but cannot be read: the write succeeds under number 1, and load still gives the old save if its number counts as newer |
| Saves.LoadRightExactlyWhen | main/gb_saves.c:167-195 | for every outcome of its reads, load takes the right copy if and only if it could read that copy |
| Saves.WriteIsSafe | main/gb_saves.c:197-247 | one write under any fault, given that the copy that load would choose is read or nothing is opened: load then gives the old save or the attempted one, after a reported success the attempted one, and valid copies stay in step modulo 2^32 |
| Saves.WriteSafeExactlyWhen | main/gb_saves.c:197-247 | for two different copies and every outcome of the reads: however the write continues, load gives the old save or the attempted one and a success means the attempted one, if and only if the chosen copy was read, or the write refuses, or the number starts over in the other file and still counts as newer |
| Saves.RunIsSafe | main/gb_saves.c:167-247 | over every run of writes, failures and power cuts in which each write reads the chosen copy or opens nothing, load gives the last confirmed save or a later attempted one, and once a valid copy exists one always does |
| Saves.TornFirstSaveIsAnError | main/gb_saves.c:167-179 | a torn first save makes load report an error instead of an empty save |
| Saves.WedgedForever | main/gb_saves.c:197-210 | once both files exist and neither is valid, no attempt in any run that sees both files changes anything or succeeds |
| Saves.UnwedgedSaves | main/gb_saves.c:197-247 | an undisturbed attempt is confirmed if and only if the writer is not in that state |
| Saves.TwoTornFirstSavesWedge | main/gb_saves.c:197-223 | two interrupted first saves always lead to that state |
| SaveFiles.SameStem | main/gb_saves.c:43-54 | two ROMs share their save files if and only if their hashes share the first eight bytes |
| SaveFiles.PathSpells | main/gb_saves.c:43-54 | a file name spells the first eight hash bytes in lower-case hexadecimal, then a dot and the letter of the copy |
| SaveFiles.SaveNameExactlyWhen | main/gb_saves.c:114-120 | the names that the sweep looks at are exactly those that the saves of some ROM have |
| SaveSessions.SavedMeansStored | main/gb_saves.c:197-247 | over every run of play, saves under any fault and loads, on a session whose save was loaded or that has none: whenever a save is reported as done, a load without read errors gives exactly the present RAM and, with a clock, the present clock |
| SaveSessions.LoadBegins | main/gb_saves.c:167-195 | a load that is reported as done leaves the session holding exactly what is stored, one that finds nothing leaves it as it was: the runs above begin with either |
| SaveSessions.LoadSaysWhatItFound | main/gb_saves.c:167-195 | undisturbed, a load reports nothing only if there is no file, an error if there are files and none is whole, and otherwise leaves the session with exactly the newest whole one |
| SaveSessions.PartlyRestored | main/gb_saves.c:181-192 | a restore that stops early has taken over whole pieces of 512 bytes from the front of the file, and the clock only after all of the RAM |
| SaveSessions.ProgressSurvives | main/gb_saves.c:167-247 | after every such run an undisturbed save succeeds, and the next session of the cartridge loads its RAM and its clock |
| SaveSessions.SavedTwice | main/gb_saves.c:200 | without a clock a second save writes nothing and is done at once |
| SaveFiles.Session.WriteSram | components/gb_core/gb_port.cpp:213-223 | writing changed bytes marks the RAM for saving, writing equal ones does not, and nothing outside the range changes |
| SaveFiles.SaveStore.CheckCopy | main/gb_saves.c:134-158 | the chunked check accepts exactly the readable, well-formed files and gives their sequence number |
| SaveFiles.SaveStore.Load | main/gb_saves.c:167-195 | for every outcome of its reads, loading chooses between the two copies as specified; it reports a loaded save only with RAM and clock exactly as stored, a restore that stops early leaves exactly the pieces read so far and is an error, and without a copy nothing is touched |
| SaveFiles.SaveStore.ImageCrc | main/gb_saves.c:218-228 | the CRC over header, RAM in chunks and clock equals that of the whole |
| SaveFiles.SaveStore.Write | main/gb_saves.c:197-247 | for every fault, of reading as of writing, a write gives exactly the session, the pair of files and the result of the specified save; a session whose RAM changed since it was last stored is never skipped |
| SaveFiles.SaveStore.Delete | main/gb_saves.c:73-81 | both removals are tried; success means that neither copy exists |
| SaveFiles.SaveStore.LiveSaveName | main/gb_saves.c:83-98 | a file name is live exactly when its stem is that of a listed ROM |
| SaveFiles.SaveStore.PruneOrphans | main/gb_saves.c:100-131 | the sweep ends, removes only save files that no listed ROM owns, and reports success only if none of those is left; without mount or trust it removes nothing |
| Web.Manager.DeleteHandler | main/gb_web.c:150-198 | the handler gives the specified reply, catalogue and save files: token before commit, commit before removal |
| Web.Manager.RenameHandler | main/gb_web.c:117-148 | the handler gives the specified reply and catalogue |
| Web.Manager.PruneOrphans | main/game_main.c:905-911 | after a successful sweep every save file belongs to an installed game |
| Web.NextIsEvent | main/gb_web.c:117-198 | whatever happens to the whole system does to the catalogue nothing or exactly one catalogue event |
| Web.AfterIsRun | main/gb_web.c:117-198 | so every run of the whole system is a run of the catalogue, and what holds of those holds of it |
| Web.NextKeepsInv | main/gb_web.c:117-198 | nothing that happens to the whole system breaks the coherence of the catalogue, except exactly a load that loses a slot to a failed hash call |
| Web.DeleteTouches | main/gb_web.c:150-198 | a deletion that removes any file came with a current token, has committed the catalogue without that row, and removes only files of that row |
| Web.DeleteSparesInstalled | main/gb_web.c:168-191 | a file removed by a deletion belongs to a game that is still installed if and only if that game shares the eight hash bytes of the deleted one without being the same ROM |
| WebRequests.DeletionDeletes | main/gb_web.c:150-198 | with a current token and no failing call the row is deleted and the others stay in order; the two save files go with it unless another row is the same ROM, and no other file is touched |
| WebRequests.RenamingRenames | main/gb_web.c:117-148 | with a current token and no failing call the row gets a valid new name, or the request is told 400 and nothing changes |
| WebRequests.RefusalsSay | main/gb_web.c:150-198 | 403 for another origin, 400 without a token, 503 while a reload is due, 409 for a token that is not current, and a refused request changes nothing |
| WebRequests.DeletionTold | main/gb_web.c:150-198 | a deletion that reached the catalogue, under any fault, is told 200 only if the row and its save files are gone, 503 exactly if it is not known whether the row is gone, and 500 if the row stays or a save file is left |
| WebRequests.RenamingTold | main/gb_web.c:117-148 | a renaming that reached the catalogue, under any fault, is told 200 only if the row has the name, 503 exactly if it is not known whether it has, and 400 if it has not |
| WebRequests.NotWithoutFiles | main/gb_web.c:150-198 | without the save file system a game is deleted exactly if another row is the same ROM |
| WebRequests.SweepLeaves | main/gb_saves.c:100-131 | a sweep that gets to every file leaves exactly the files that are no save files or belong to a listed game |
| Web.CollisionLosesSave | main/gb_web.c:168-191 | in that case both files of the other, still installed game are gone |
| Web.NoCommitNoRemoval | main/gb_web.c:182-191 | unless the commit is known to have succeeded every save file stays |
| Web.StaleRequestsRefused | main/gb_web.c:131-166 | after any run of the whole system that has committed at least once, deletions and renamings with a token from before are refused and change nothing |
| Web.PruneSparesInstalled | main/gb_saves.c:100-131 | a sweep never removes a file of an installed game, collisions or not |
| Web.StaleLoadSweepsSave | main/game_main.c:905-911 | failing input: a load that loses the newer slot to a failed hash call is trusted, and the sweep that follows removes the save of a game that only the newer catalogue lists |
| Web.RunTracksPair | main/gb_web.c:150-198 | as long as a game stays installed and no load loses a slot to a failed hash call, over every run of the whole system its two files are exactly what its own save attempts made of them |
| Web.InstalledGameKeepsItsSave | main/gb_web.c:150-198 | over every such run of play, uploads, deletions, failures, power cuts, restarts and sweeps an installed game whose writes read their newest copy loads its last confirmed save or a later attempted one, given that installed games differ in the hash prefix |
| IinePacket.ParseInvertsBuild | components/bluepad32/parser/uni_iine_protocol.c:25-61 | for every packet, serial and nonce, parsing the scrambled frame gives the packet back |
| IinePacket.OneOctetRejected | components/bluepad32/parser/uni_iine_protocol.c:44-61 | changing one octet of an accepted frame, other than those of serial and nonce, makes it unacceptable |
| IineFrames.RequestOnAir | tests/test_iine_protocol.c:76-81 | the identity request that was captured from another client, octet for octet |
| IineFrames.ResponseOnAir | tests/test_iine_protocol.c:77-85 | the answer that was captured with it parses to the captured packet, and building that packet gives the captured octets |
| IineFrames.LowOnAir | components/bluepad32/parser/uni_iine_protocol.c:8-12 | the longest report under the first half of the mask, octet for octet |
| IineFrames.HighOnAir | components/bluepad32/parser/uni_iine_protocol.c:8-12 | the longest report under the other half of the mask, octet for octet |
| IinePacket.AllowedExactly | components/bluepad32/parser/uni_iine_protocol.c:63-73 | exactly six requests may be sent; none of them updates or resets the pad |
| IineKeys.KeyChangeSlipsExactlyWhen | components/bluepad32/parser/uni_iine_protocol.c:44-61 | changing the octets of serial and nonce of an accepted frame leaves it acceptable if and only if the change of keys keeps the length octet and moves the checksum as its octet moves, which the old keys, the new keys and the length decide, whatever the frame says |
| IineKeys.SumLinear | components/bluepad32/parser/uni_iine_protocol.c:14-23 | the checksums of two byte strings differ by the checksum of their difference |
| IineKeys.NonceChangeSlips | components/bluepad32/parser/uni_iine_protocol.c:44-61 | failing input: for every request a frame of five octets and one change of its nonce octet that is accepted |
| IineKeys.SerialChangeSlips | components/bluepad32/parser/uni_iine_protocol.c:44-61 | failing input: for every request and payload of three octets a frame and one change of its serial octet that is accepted |
| IinePacket.Build | components/bluepad32/parser/uni_iine_protocol.c:25-42 | a frame is built exactly for payloads that fit, and it is the scrambled form of the clear octets |
| IinePacket.ParsePacket | components/bluepad32/parser/uni_iine_protocol.c:44-61 | undoing the scrambling in place gives the parsed packet or its rejection |
| IinePacket.SumDetects | components/bluepad32/parser/uni_iine_protocol.c:14-23 | the checksum tells apart byte strings that differ in one octet |
| IinePacket.DecodedConcat | components/bluepad32/parser/uni_iine_protocol.c:75-115 | records of one report act like records of two reports in a row |
| IinePacket.ShapeOnly | components/bluepad32/parser/uni_iine_protocol.c:75-115 | whether a report is well formed does not depend on what is held |
| IinePacket.UnnamedStays | components/bluepad32/parser/uni_iine_protocol.c:75-115 | a report that does not name a button leaves it as it was |
| IinePacket.InputDecode | components/bluepad32/parser/uni_iine_protocol.c:75-115 | the cursor loop gives the state after all records, or rejects the whole report |
| IineReports.SpellingTells | components/bluepad32/parser/uni_iine_protocol.c:75-115 | a report that spells a list of words, from tables of codes, is decoded, and afterwards every button, direction and axis is where the last word on it put it |
| IineReports.WellFormedIsSpelled | components/bluepad32/parser/uni_iine_protocol.c:75-115 | a report is decoded exactly when it spells words |
| IineLink.OneRequestAtATime | components/bluepad32/bt/uni_bt_le_iine.c:103-124 | in every run at most one accepted GATT request is uncompleted, exactly while the link is marked busy |
| IineLink.WritesAreAllowed | components/bluepad32/bt/uni_bt_le_iine.c:113-124 | every value written is an allowed request on the discovered characteristic, under a serial other than that of the request before, after which earlier replies no longer count |
| IineLink.EveryStateExplained | components/bluepad32/bt/uni_bt_le_iine.c:142-274 | every reachable link state is accounted for by earlier events of the same connection |
| IineLink.PublishNeedsConsent | components/bluepad32/bt/uni_bt_le_iine.c:142-274 | whenever input is handed on, the same connection has seen a matching identity reply under the latest serial, and firmware 27.02 or a confirmation in time, and the completion of both the mode and the test page write |
| IineLink.ApprovalInTime | components/bluepad32/bt/uni_bt_le_iine.c:87-101 | a confirmation that counts came less than 60 s after the question, whenever less than 2^31 ms lie between them |
| IineLink.HandshakeEnds | components/bluepad32/bt/uni_bt_le_iine.c:142-212 | while ticks keep arriving, whatever other events arrive, every connection is running or gone within 100.5 s plus twelve tick gaps |
| IineLink.CooperatingPadRuns | components/bluepad32/bt/uni_bt_le_iine.c:142-274 | from every start time and for every firmware of the supported pad, a session in which the pad answers and the user confirms ends with the pad running and its input handed on, so the guarantees above are not kept by refusing |
| IineLink.SessionWrites | components/bluepad32/bt/uni_bt_le_iine.c:142-190 | what the pad receives of that session, octet for octet: the identity request, the capability request, the mode, and half a second later the test page |
| IineLink.RequestTimesOut | components/bluepad32/bt/uni_bt_le_iine.c:103-111 | a request is given up by the first tick 4.5 seconds later, and not before |
| IineLink.SilentPadIsAskedTwice | components/bluepad32/bt/uni_bt_le_iine.c:173-183 | each inquiry is made twice; then the identity is given up on and the capabilities are done without |
| IineLink.UserHasAMinute | components/bluepad32/bt/uni_bt_le_iine.c:158-185 | the user of a pad with another firmware can confirm for 60 seconds, and not later |
| IineLink.KnownFirmwareIsTaken | components/bluepad32/bt/uni_bt_le_iine.c:151-157 | firmware 27.02 goes on to the capabilities without a question |
| IineReports.InputIsLastSaid | components/bluepad32/bt/uni_bt_le_iine.c:263-271 | in every run the input of a connection is the last word of the reports believed on it, on everything, and at rest elsewhere |
| IineReports.EveryReportArrives | components/bluepad32/bt/uni_bt_le_iine.c:263-271 | in every run, while the controller is ready each well-formed report on the notify characteristic is handed on at once, as the last word on everything |
| IineReports.ReportIsHandedOn | components/bluepad32/bt/uni_bt_le_iine.c:263-271 | a notification changes the input exactly if it is such a report, and is handed on exactly if the controller is also ready |
| IineReports.PressAndReleaseArrive | components/bluepad32/bt/uni_bt_le_iine.c:126-140 | the session of a cooperating pad goes on: pressing and releasing any of the twelve buttons hands on that button under its name on the host, and then none, however the frames are numbered and scrambled |
| IineReports.AxesSpread | components/bluepad32/bt/uni_bt_le_iine.c:126-140 | sticks are handed on in steps of four around zero and triggers over 0 to 1023, in the order of what the pad reports |
| IineReports.KeepaliveWhenDue | components/bluepad32/bt/uni_bt_le_iine.c:201-206 | a running link writes the test page with the first tick after a second, and nothing before |
| IineReports.SilenceKeepsAlive | components/bluepad32/bt/uni_bt_le_iine.c:201-206 | however long the session is left alone, every second the test page is written once more, and the controller stays ready with its input untouched |
| IineLink.TickPends | components/bluepad32/bt/uni_bt_le_iine.c:142-212 | a tick finishes the handshake, or leaves its remaining time bound standing |
| IineLink.EventPends | components/bluepad32/bt/uni_bt_le_iine.c:214-274 | no other event can push the bound out |
| IineLink.TakenBeforeIsMute | components/bluepad32/bt/uni_bt_le_iine.c:193-201 | a controller that the host has taken before is not handed on, and its link comes to rest |
| IineLink.MuteUntilReset | components/bluepad32/bt/uni_bt_le_iine.c:193-204 | if the host has taken the controller before, the link stays in its last step, writes nothing and hands on nothing in any run, until it is reset |
| IineLink.LinkRecord.OnTimer | components/bluepad32/bt/uni_bt_le_iine.c:142-212 | the tick gives the specified record, request and published input |
| IineLink.LinkRecord.OnQueryComplete | components/bluepad32/bt/uni_bt_le_iine.c:243-262 | a completion gives the specified record and next request |
| IineLink.LinkRecord.OnNotification | components/bluepad32/bt/uni_bt_le_iine.c:263-271 | a notification gives exactly the specified record and published input: a reply under the latest serial, or a report, handed on if the controller is ready |
| IineLink.LinkRecord.OnDiscovery | components/bluepad32/bt/uni_bt_le_iine.c:220-242 | discovery results are recorded once; a second one ends the connection |
| IineLink.LinkRecord.SendRequest | components/bluepad32/bt/uni_bt_le_iine.c:113-124 | a request takes the next serial and marks the link busy, or ends the connection if it is refused |
| IineLink.LinkRecord.Accept | components/bluepad32/bt/uni_bt_le_iine.c:87-101 | a confirmation counts only while asked for and before the deadline |
| IineLink.LinkRecord.StartLink | components/bluepad32/bt/uni_bt_le_iine.c:276-300 | a start begins discovery; a second start changes nothing |
| IineLink.LinkRecord.ResetLink | components/bluepad32/bt/uni_bt_le_iine.c:50-60 | a reset takes the record back to idle |
| HidDescriptor.TokensSplit | components/bluepad32/bt/uni_bt_le_hid.c:11-19 | a descriptor that splits into items is exactly their concatenation |
| HidDescriptor.TokensInvert | components/bluepad32/bt/uni_bt_le_hid.c:11-19 | and every list of short items, written out, splits into those items |
| HidDescriptor.Classify | components/bluepad32/bt/uni_bt_le_hid.c:5-63 | for every byte string and every kind, the one-pass answer is that kind if and only if the bytes split into legal balanced items whose data Inputs in Generic Desktop applications exist and all agree on it |
| HidDescriptor.AnswerExactlyWhen | components/bluepad32/bt/uni_bt_le_hid.c:37-61 | said of items and usages: joystick, gamepad or keyboard is answered exactly if the items are whole and balanced, some data Input lies in a top-level Application collection opened under a Generic Desktop usage, and all that do are under the one usage 4, 5 or 6 of that answer |
| HidDescriptor.PlainDescriptors | components/bluepad32/bt/uni_bt_le_hid.c:37-57 | for every usage and every kind of Input, the nine octets 05 01 09 usage A1 01 81 flags C0 are named exactly if the Input is data and the usage is 4, 5 or 6 |
| HidNesting.NestedIsNamedExactlyWhen | components/bluepad32/bt/uni_bt_le_hid.c:21-53 | a family of descriptors that saves its page, nests its collections and undoes both is named exactly up to 8 saved pages and 32 collections |
| HidDescriptor.PageNext | components/bluepad32/bt/uni_bt_le_hid.c:22-30 | the saved pages are those in force at the matching Push items |
| HidDescriptor.NestingNext | components/bluepad32/bt/uni_bt_le_hid.c:37-54 | depth, first usage and application are those of the enclosing top-level collection |
| HidDescriptor.LegalNext | components/bluepad32/bt/uni_bt_le_hid.c:20-61 | an item is refused only if it is illegal or disagrees with an earlier Input |
| Advertisement.ReadFields | components/bluepad32/bt/uni_bt_le_advertisement.c:40-85 | the parser rejects a packet exactly when some structure is truncated or ill-formed, and otherwise finds any service mention, the last appearance and the last complete or else last short name |
| Advertisement.OffersExactlyWhen | components/bluepad32/bt/uni_bt_le_advertisement.c:50-73 | a structure offers the HID service exactly when it lists service 0x1812 in 16, 32 or 128 bits, or begins service data with it, and the service of the pad exactly when a 128-bit list holds its number |
| Advertisement.WellFormedExactlyWhen | components/bluepad32/bt/uni_bt_le_advertisement.c:50-77 | a structure is refused exactly if a list does not hold whole UUIDs, service data names no service, or an appearance has not two octets |
| Advertisement.OneStructureSays | components/bluepad32/bt/uni_bt_le_advertisement.c:74-90 | a packet of one structure says exactly: a complete name under kind 9, a short one under 8, an appearance of two octets, low first, under 0x19 |
| Advertisement.CutKeepsCodepoints | components/bluepad32/bt/uni_bt_le_advertisement.c:74-79 | a name that is too long is cut between UTF-8 code points |
| Advertisement.CutKeepsMost | components/bluepad32/bt/uni_bt_le_advertisement.c:78-90 | UTF-8 names of up to 63 octets are shown whole, and of longer ones at least 60 octets |
| Advertisement.ObservedRefinesMap | components/bluepad32/bt/uni_bt_le_advertisement.c:87-125 | seen as a map with unique keys, a well-formed packet drops expired peers and at most one victim, merges into its own peer and changes nothing else; the victim is the longest unheard peer and falls only when no slot is free; a malformed packet changes nothing |
| Advertisement.SlotsTellTheirHistory | components/bluepad32/bt/uni_bt_le_advertisement.c:112-125 | in every run a slot holds exactly what the packets of its peer said since the slot was last created, expired or taken |
| Advertisement.MergedDescribes | components/bluepad32/bt/uni_bt_le_advertisement.c:117-125 | merging a packet keeps the entry the summary of its history; a short name never replaces a complete one |
| Advertisement.OnlyRecentPeers | components/bluepad32/bt/uni_bt_le_advertisement.c:92-95 | after a well-formed packet no peer is left that has been silent for five seconds |
| Advertisement.SilentPeerStays | components/bluepad32/bt/uni_bt_le_advertisement.c:94-118 | a peer that falls silent is known, exactly as it was, for five seconds, unless sixteen live peers push it out, and then no longer |
| Advertisement.AdvCache.Observe | components/bluepad32/bt/uni_bt_le_advertisement.c:36-126 | parsing first and then one pass over the slots gives the specified cache and entry |
| InputBuffer.NothingGoesMissing | main/gb_input.c:40-83 | in every run the queue is the newest part of what was accepted, and accepted = delivered + dropped + cleared + queued |
| InputBuffer.DeliveredInOrder | main/gb_input.c:70-83 | a delivered state is the oldest accepted one not yet gone, unchanged and at most 100 ms old |
| InputBuffer.DeliveredExactlyWhenFresh | main/gb_input.c:70-83 | in every run the oldest queued state is delivered exactly while it is at most 100 ms old; later the queue is given up for the live state |
| InputBuffer.BurstIsDelivered | main/gb_input.c:47-83 | up to sixteen changes of the buttons between two looks at the pad all come out, in order, within those 100 ms |
| InputBuffer.BurstOverflows | main/gb_input.c:61-65 | the seventeenth gives up the sixteen before it, which are counted, and comes out alone |
| InputBuffer.AlwaysFaithful | main/gb_input.c:47-68 | in every run queued neighbours differ in the mapped buttons and the last one has the live buttons |
| InputBuffer.DrainingYieldsLive | main/gb_input.c:70-83 | taking everything ends on the live state |
| InputBuffer.HeldButtonsWaitForRelease | main/gb_input.c:36-56 | whatever button is handed on came with a push after a full release, with no reset or loss of the pad since |
| InputBuffer.ReleaseArms | main/gb_input.c:40-56 | the buffer begins to listen exactly with a connected pad that has nothing pressed, and goes on until a reset or the loss of the pad |
| InputBuffer.BitsIdentify | main/gb_input.c:29-34 | comparing the packed bits compares the buttons |
| InputBuffer.InputRing.PushSample | main/gb_input.c:47-68 | the ring in the array gives the specified queue |
| InputBuffer.InputRing.TakeSample | main/gb_input.c:70-83 | the ring in the array gives the specified state and queue |
| InputBuffer.InputRing.ResetBuffer | main/gb_input.c:40-45 | a reset empties the ring and arms it only for a released pad |
| Pixels.ExpandRow | main/gb_pixels.c:21-36 | the fast 3:2 row equals the naively scaled row at every pixel |
| Pixels.StripChanged | main/gb_pixels.c:38-47 | a strip counts as changed exactly when the source row of one of its rows differs |
| Pixels.BootPicture | main/gb_boot.c:12-31 | the nested loops give every one of the 23040 dots exactly the shade that logo and mark give it at that height, dots off the screen dropped, and use only the lightest and the darkest shade |
| Display.IncrementalIsFull | main/gb_display.c:150-183 | sending only changed strips leaves the window showing the whole frame, scaled naively |
| Display.BootFrameReliableExactlyWhen | main/gb_display.c:128-148 | the start-up path shows its frame on every correctly remembered panel if and only if no frame is remembered, or the remembered one was enlarged, or every strip changed |
| PanelPicture.GamePictureIs | main/gb_pixels.c:4-19 | a panel shows a game frame exactly if every pixel of the Game Boy has its green at its place: in the middle, or stretched over rows 52 to 267 with two pixels made three in both directions |
| PanelPicture.StartPictureIs | main/gb_display.c:128-148 | a start-up frame is the lightest and the darkest green, stretched in the same way |
| PanelPicture.RestIsSpared | main/gb_display.c:106-183 | a drawing over a clean link, finished or not, leaves the panel alone outside its window or its rows, and rows of another picture that are reported as drawn are on the panel |
| PanelPicture.SentExactlyWhenChanged | main/gb_pixels.c:37-48 | after a frame that the panel is known to show in the same size, a strip is sent exactly if some pixel of the Game Boy behind its rows has changed |
| PanelPicture.DrawnIsRemembered | main/gb_display.c:150-183 | a frame is remembered exactly if it was reported as drawn, and drawing it once more sends nothing |
| Display.RememberedIsShown | main/gb_display.c:106-183 | over every run of frames, start-up frames, overlays and repaints, with sends refused anywhere, whenever a frame is remembered the panel shows it at every pixel, as long as start-up frames meet the condition above and no wait is given up |
| Display.ShippedIsFit | main/game_main.c:850-860 | every order of drawing that starts with nothing remembered, submits games only enlarged and keeps overlays below the window, as the callers do, meets the condition for start-up frames |
| Display.LateTransferDeceives | main/gb_display.c:60-66 | failing input, from any state in which a transfer or a token is out of step: a frame whose strip k is read from the buffer that holds strip k + 1 is reported as drawn and remembered, and the panel does not show it |
| Display.ReliableExactlyWhen | main/gb_display.c:60-66 | every frame that is reported as drawn is on the panel, however its transfers go, if and only if no transfer or token is out of step and what is remembered is true |
| Display.ReliableRunExactlyWhen | main/gb_display.c:106-183 | over every run of drawings the driver stays so reliable if and only if no wait for a transfer is given up |
| Display.CountIsConserved | main/gb_display.c:51-66 | over every run, transfer ends out of step = those at the start + waits given up - ends that found the semaphore given |
| Display.CleanAgainExactlyWhen | main/gb_display.c:51-66 | so the link finds its step again exactly when as many ends went unseen as waits were given up |
| Display.OneTimeOutIsEnough | main/gb_display.c:60-66 | one wait given up while clearing the panel ends the reliability |
| LcdLink.CleanStrip | main/gb_display.c:60-66 | over a link on which nothing is under way, a strip arrives as it was filled exactly when its transfer ends in time; only a wait that is given up leaves the link otherwise |
| LcdLink.StripConserves | main/gb_display.c:51-66 | a wait given up puts the count of transfer ends out by one, an end that finds the semaphore given brings it back by one, and nothing else changes it |
| LcdLink.LaggingStrip | main/gb_display.c:60-66 | while one transfer lags, the wait for each strip is ended by the strip before, whose pixels are read from the buffer as filled for the next |
| Display.DrawnIsShown | main/gb_display.c:106-183 | one drawing over such a link, however its transfers go: what is remembered stays true, and it succeeds exactly when every strip that is sent ends in time, and then is on the panel at every pixel |
| Display.Panel.DrawFrame | main/gb_display.c:150-183 | for every state and every behaviour of the transfers the strips that changed, filled and sent in order, give exactly the specified panel, buffer, unfinished transfers, semaphore, memory and result |
| Display.Panel.DrawBootFrame | main/gb_display.c:128-148 | the same for start-up frames, whose test for changes leaves out the size |
| Display.Panel.FillEnlarged | main/gb_display.c:164-180 | expanding a source row once and copying it to its repeats fills the buffer with the cells of the naive picture and leaves the rest of it |
| Display.Panel.SendStrip | main/gb_display.c:60-66 | a strip is queued and one token is taken, from whichever transfer it comes, or the send is refused or given up |
| Display.Panel.DrawBelow | main/gb_display.c:425-465 | the footer and the hint give exactly the specified panel and memory; the window is not touched |
| Display.Panel.Repaint | main/gb_display.c:106-120 | a repaint of all rows, or of those of a colour frame, forgets the remembered frame first and gives exactly the specified panel |
| FrameHandoff.StepKeepsInv | main/gb_display.c:32-49 | every atomic step of either task keeps the semaphore in one place and every submitted frame accounted for |
| FrameHandoff.OneUserAtATime | main/gb_display.c:233-246 | in every interleaving the strip buffer and the queued frame have one user at a time, and the display task draws exactly the submitted frames in order |
| FrameHandoff.SubmitAfterIdleQueues | main/gb_display.c:185-192 | in every run from the start: once the game task has asked for an idle display without error, then after any further steps of both tasks other than a submit its next submit goes through |
| FrameHandoff.QuietStays | main/gb_display.c:185-246 | a display seen idle stays idle until the next submit |
| FrameHandoff.ErrorIsRemembered | main/gb_display.c:40-50 | in every run the error is set exactly by a drawing that failed, is never forgotten, and no frame is taken from then on |
| FrameHandoff.DisplayAlwaysFinishes | main/gb_display.c:40-49 | from every reachable state with a frame on its way the display task alone draws it and frees the semaphore |
| DisplayTasks.DrawingsTakeTurns | main/gb_display.c:32-49 | in every interleaving of both tasks, strip by strip, no two drawings overlap: whenever none is under way the panel and the memory are what the drawings so far make of them one after another, and the frames among them are the submitted ones in order |
| DisplayTasks.PanelStaysTruthful | main/gb_display.c:32-246 | in every interleaving of what the firmware draws, as long as no wait for a transfer is given up, whenever no drawing is under way the panel shows what is remembered, and the last frame if it was reported as drawn; the driver is reliable exactly as long |
| DisplayTasks.ErrorTellsFailures | main/gb_display.c:40-50 | in every interleaving the error says exactly whether a frame of the display task was not reported as drawn |
| Apu.UpdateFreq | components/minigb_apu/minigb_apu.c:84-97 | one step stays within the sample and adds up without loss |
| Apu.SquarePhase | components/minigb_apu/minigb_apu.c:145-161 | the inner loop ends, steps x reference + new counter = old counter + increment, the duty position moves by the steps, and the sample is the level after the last one |
| Apu.WavePhase | components/minigb_apu/minigb_apu.c:200-216 | the inner loop ends and moves the wave position by exactly the steps that conservation allows |
| Apu.NoisePhase | components/minigb_apu/minigb_apu.c:257-286 | the inner loop ends and moves the shift register by exactly that many steps |
| Apu.PhaseAddsUp | components/minigb_apu/minigb_apu.c:84-97 | two stretches of time advance a waveform as one |
| Apu.NoDrift | components/minigb_apu/minigb_apu.c:84-97 | over any number of samples the waveform is exactly where the whole time added at once would put it |
| Apu.UpdateEnv | components/minigb_apu/minigb_apu.c:56-70 | the loop of one envelope tick ends and gives exactly the specified counter, volume and increment |
| Apu.EnvelopeClampsExactlyWhen | components/minigb_apu/minigb_apu.c:59-67 | the volume clamp works if and only if a silent channel is not counting down |
| Apu.EnvelopeWrapsForReal | components/minigb_apu/minigb_apu.c:396-514 | a reachable failing input: three register writes that silence a playing channel by rewriting its volume register while the envelope counts down; 2000-odd samples later the volume goes from 0 to 15 in one sample |
| Apu.CalmWithoutRewrites | components/minigb_apu/minigb_apu.c:396-514 | over every run of register writes and buffers from a calm unit in which no write changes the volume register of an enabled channel, no channel is ever silent and counting down |
| Apu.CalmTickSaturates | components/minigb_apu/minigb_apu.c:56-70 | and of such a channel every envelope tick is one step up or down that stops at either end |
| Apu.UpdateSweep | components/minigb_apu/minigb_apu.c:99-121 | the sweep loop ends and gives the specified channel: a frequency out of range silences it, as does a rate without a shift, and any other sets the increment of the new note |
| Apu.BufferKeepsTime | components/minigb_apu/minigb_apu.c:123-287 | for every channel, buffer length and state: whatever envelope, sweep and length do, counter and waveform are where the audible time added at once would put them, and without a sweep that time is the number of audible samples times the increment |
| Apu.SteadyChannelIsHeard | components/minigb_apu/minigb_apu.c:123-287 | of a channel without running length, envelope and sweep every sample is audible and its time is samples times increment |
| ApuRates.NoteIncIs | components/minigb_apu/minigb_apu.c:36-41 | the increment of a note is 105 times the whole periods of 2048 - frequency that 1048576 ticks hold |
| ApuRates.NoiseIncIs | components/minigb_apu/minigb_apu.c:237-246 | the increment of the noise channel is 105 times the whole periods that 4194304 ticks hold, from the table of eight and the shift |
| ApuRates.SecondsKeepPitch | components/minigb_apu/minigb_apu.c:84-97 | over whole seconds of 16000 samples a channel of q steps a second takes exactly q steps each, but for one at the start |
| ApuRates.Seamless | components/minigb_apu/minigb_apu.c:292-300 | however often the callback runs, each channel is where one uninterrupted run of all the samples puts it |
| ApuRates.PulseNoteSounds | components/minigb_apu/minigb_apu.c:123-165 | a note written to the five registers of a pulse channel takes, after any number of callbacks, as many steps of its duty pattern as its pitch asks for, give or take one, at its volume, and stands at the level of the position reached |
| ApuRates.WaveNoteSounds | components/minigb_apu/minigb_apu.c:183-225 | a note of the wave channel moves through its 32 samples at twice that rate |
| ApuRates.NoiseSounds | components/minigb_apu/minigb_apu.c:227-287 | the noise channel moves through its sequence at the rate of its clock |
| ApuRates.NoiseFollowsItsTaps | components/minigb_apu/minigb_apu.c:257-272 | the noise is the sequence in which the next level is high exactly when those 14 and 15 (or 6 and 7) steps back agree |
| ApuRates.DutyShare | components/minigb_apu/minigb_apu.c:456-463 | the four duty settings are high in one, two, four and six of eight positions, the ones named |
| ApuRates.RewritesRaise | components/minigb_apu/minigb_apu.c:428-450 | while an envelope without a period runs, each write to the volume register raises the volume by one or two, past the maximum and round |
| ApuRates.RewritesReflect | components/minigb_apu/minigb_apu.c:428-450 | otherwise each write reflects the volume, and every second one undoes the one before |
| ApuRates.SidesAreSet | components/minigb_apu/minigb_apu.c:507-512 | the panning register sends each channel to the sides whose bits it sets, and changes nothing else |
| ApuRates.VolumesAreSet | components/minigb_apu/minigb_apu.c:500-505 | and the volume register sets the two volumes, whatever its spare bits |
| ApuRates.PowerSwitches | components/minigb_apu/minigb_apu.c:402-422 | the switch turns the unit on as it stands, or silences every channel, clears every register but the wave, and makes it deaf to all others |
| ApuTimers.EnvelopeFades | components/minigb_apu/minigb_apu.c:56-70 | after any number of callbacks a triggered channel that still plays has moved its volume once for every step / 64 seconds, and stopped at the end of the range |
| ApuTimers.LengthEnds | components/minigb_apu/minigb_apu.c:72-82 | a channel triggered with its length plays exactly while the samples so far fit into what is left of it, 1/256 second for each unit |
| ApuTimers.PulseGlides | components/minigb_apu/minigb_apu.c:99-121 | the sweep moves the frequency by a fraction of itself at once and every rate / 128 seconds, and silences the channel exactly when that would leave the range of the register |
| Apu.RunStops | components/minigb_apu/minigb_apu.c:123-287 | a channel that its length or sweep has silenced does not change for the rest of the buffer |
| Apu.AudioUnit.UpdateSquare | components/minigb_apu/minigb_apu.c:123-165 | one buffer of a square channel gives exactly the specified unit: start-up of the increment, then sample by sample length, envelope, sweep and phase, and the status bits |
| Apu.AudioUnit.UpdateWave | components/minigb_apu/minigb_apu.c:183-225 | one buffer of the wave channel gives exactly the specified unit, with or without a length counter |
| Apu.AudioUnit.UpdateNoise | components/minigb_apu/minigb_apu.c:227-287 | one buffer of the noise channel gives exactly the specified unit |
| Apu.WriteKeepsGood | components/minigb_apu/minigb_apu.c:396-514 | every register write keeps every channel in range and enabled tone channels below frequency 2048, so no division by zero is reachable |
| Apu.AudioUnit.Callback | components/minigb_apu/minigb_apu.c:292-300 | one callback runs the four channels in the order of the source |
| Apu.AudioUnit.Write | components/minigb_apu/minigb_apu.c:396-514 | every register write gives exactly the specified unit: volume, duty, length, sweep, panning, power and wave memory; writes are ignored while off |
| Apu.AudioUnit.WriteAll | components/minigb_apu/minigb_apu.c:516-544 | a list of writes gives the unit after their run |
| Apu.AudioUnit.Trigger | components/minigb_apu/minigb_apu.c:302-365 | triggering gives exactly the specified channel: envelope, sweep and length as the registers say, the initial volume and the increment of its note |
| Apu.AudioUnit.constructor | components/minigb_apu/minigb_apu.c:516-544 | the initial register writes give exactly the specified unit |
| PackRoms.Pack | tools/pack_roms.py:40-69 | an image is built exactly for one to sixteen supported ROMs with valid, different names that fit, and it is the directory followed by the ROMs in order |
| PackRoms.Inspect | tools/pack_roms.py:72-97 | an image passes exactly when header, every row and every ROM are in order and every name decodes as UTF-8, and the names are the decoded texts |
| PackRoms.AcceptableRomExactlyWhen | tools/pack_roms.py:50-54 | the builder takes exactly the ROMs that the device takes, up to 4 MiB |
| PackRoms.DecodesExactlyText | tools/pack_roms.py:95-97 | decoding a name succeeds exactly on the UTF-8 of code points other than surrogates, and gives those code points |
| PackRoms.PackedRow | tools/pack_roms.py:63-69 | every directory row reads back as it was written |
| PackRoms.PackedData | tools/pack_roms.py:57-64 | every ROM stands where its row says |
| PackLayout.ImageOctets | tools/pack_roms.py:40-69 | the built image octet by octet: FGBR, version 1, the count, and for each ROM its padded name, place, size and hash in 72 octets, the ROM itself standing at its place |
| PackLayout.AcceptableExactlyWhen | tools/pack_roms.py:40-61 | an image can be built exactly from one to sixteen ROMs that the device takes, under different names that can be encoded, if they fit into 4 MiB behind the first sector |
| PackLayout.PassesExactlyWhen | tools/pack_roms.py:72-97 | an image passes exactly if it has that header and every row names, at a sector behind the directory and inside the image, a ROM that the device takes, with its hash, and no address lies in two of them |
| PackRoms.PackedPassesInspection | tools/pack_roms.py:40-97 | whatever is built passes inspection, which gives back the names it was built from, code point for code point |
| PackRoms.PackedDescribesTable | tools/pack_roms.py:63-69 | the bytes built are those of the factory table with the same names, places, sizes and digests |
| PackRoms.PackedImageLoads | main/gb_storage.c:122-137 | an image that ends below blank directory sectors is loaded by the firmware with the same names, places and digests, every ROM intact |

## Left out

- Web.InstalledGameKeepsItsSave: assumes that installed games differ in the first eight hash bytes, that no load loses a slot to a failed hash call and that writes read their newest copy, because the property is false otherwise; the exact conditions are `Web.DeleteSparesInstalled`, `Storage.RunKeepsInv` and `Saves.WriteSafeExactlyWhen`.
- PackRoms.PackedImageLoads: the factory sector is held twice, as a table of fields and as bytes, and the lemma takes both as given by the image; nothing else reads that sector as bytes.
- FrameHandoff.OneUserAtATime: one game task; the copy of a frame is one step, and the time-outs of its waits are failed takes.
- Apu.AudioUnit.UpdateSquare: the mixing of the channels into the output buffer and its range are not modelled.
- Display.Panel.SendStrip: a transfer reads the buffer row by row, and the filling of a strip falls between two rows; what a refused send leaves in its rectangle is any picture.
- Memory mapping of an opened ROM, the mapping handle and its release.
- HTTP, Wi-Fi, JSON and the page itself; of the web server only the order of effects in two handlers.
- Save files damaged other than by a cut-short write, and a read error exactly at the end-of-file test of an over-long save file.
- SHA-256 itself: collisions are idealised away in the catalogue; in the image builder the hash is any function.
- The bytes after the end of a name in its fixed-size field.
- The table of several pad links: each event concerns one link, which is the one modelled.
- The confirmation callback and the host's own connection timer of the pad handshake.
- Left-stick merging, keyboards, the mapping of controllers to Game Boy keys, menus and the pause gesture.
- The device classes that an advertisement entry is mapped to.
- Text, fonts and colour conversion of the screens; only where they draw.
- The Game Boy processor and picture unit, audio output, power and settings: no protocol of their own here.
- Clock gaps of 2^31 ms and more, where wrapping comparisons stop meaning what they say.

Nothing was executed: every statement above is a proof about the model.
