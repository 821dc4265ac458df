# Redstone Pen core, modelled in Dafny

This project models the deterministic logic of the Redstone Pen Minecraft mod and of its host-side Redstone Client Adapter (RCA) programs, and proves properties of that model. Every source file is represented by one module, or by a few modules where the file has several parts.

**Control box** (`ControlBox.java`): the programmable redstone logic block.
- The one-line recursive-descent parser (`ControlBoxParser`) reads user code into an expression tree.
- The expression tree and its Java-`int` evaluator (`ControlBoxExpr`) include the built-ins: `lim`, `if`, `inv`, counters, timers and `rnd`.
- A printer (`ControlBoxPrint`) comes with the proof that the parser reads its output back.
- The program and the per-tick step are modelled in `ControlBoxProgram` and `ControlBoxLogic`. The step covers port masks, clamping and rising/falling edge detection.
- The six ports are modelled in `ControlBoxPorts`, and the block's emitted signal in `ControlBoxBlock`.

**Redstone track** (`RedstoneTrack.java`): the 64-bit state word of a track block, modelled in `RedstoneTrack`.
- The word has three fields: wire bits, connector bits and power nibbles.
- Fixed tables map bits to faces and directions.
- The flag operations of the block entity are modelled: adding wires, setting side power, counting dust, activation and post-placement stripping.

**Circuit components** (`CircuitComponents.java`), modelled in `CircuitComponents`:
- the orientation tables of directed components;
- placement's choice of rotation;
- the relay, inverted relay, bistable relay and pulse relay, each as a state machine whose input is whether a neighbour powers it.

**Standard blocks** (`StandardBlocks.java`), modelled in `StandardBlocks`:
- the configuration flags;
- the render-layer hint;
- the flags each block family adds;
- the facing that directed and horizontal blocks choose on placement.

**Block position ranges** (`Auxiliaries.BlockPosRange`), modelled in `BlockPosRange`: an axis-aligned box of block positions, its sizes, two index-to-position maps and its iterator. The mod ships this class twice, with the same code. The rows below cite `src/main/java/wile/redstonepen/libmc/Auxiliaries.java`. The copy in `src/main/java/wile/anthillinside/libmc/detail/Auxiliaries.java`, lines 366-452, is the same model.

**Inventories** (`Inventories.java`):
- item stacks, in `ItemStacks`;
- inventory ranges with their searches and counts, in `InventoryRange`;
- the fill-up/group/any-slot insertion, in `InventoryInsert`;
- the extraction by amount, in `InventoryExtract`;
- the extraction by request, smallest stacks first, in `InventoryRequest`.

**Redstone pen** (`RedstonePenItem.java`), modelled in `RedstonePen`: the pen's redstone accounting, on a durable pen, on a stack of dust, or on the player's inventory.

**Shapeless recipes with a tool** (`ExtendedShapelessRecipe.java`), modelled in `ShapelessRecipe` and `RecipeRepair`:
- the aspects;
- tool wear;
- the repair arithmetic and the grid scan;
- the remaining items;
- the initial damage of a crafted item.

Two copies of this class exist. The rows cite `src/main/java/wile/redstonepen/libmc/ExtendedShapelessRecipe.java`. The older copy in `src/main/java/wile/redstonepen/libmc/detail/ExtendedShapelessRecipe.java` uses an older API but has the same arithmetic, branches and constants.

**RCA channel exchange**: sixteen redstone channels of four bits each, packed into a 64-bit word and carried between processes as sixteen ASCII hex digits in memory-mapped files.
- The Java side: the default channel packing of `RedstoneClientAdapter` in `ChannelWord`, and the file-backed adapter of `FmmRedstoneClientAdapter` in `FmmAdapter`.
- The C++ side: `mmap.hh` in `MappedFile`, `util.hh` in `HostUtil`, and `rca.hh` in `HostAdapter`.
- The Python side: `rca.py` in `PythonAdapter`.
- Lemmas connect the sides. A word the mod writes reaches the host unchanged, and a channel the host writes reaches the mod.
- The mod and the C++ host both put the map files in the system's temporary directory. `rca.py` puts them in the game directory it is given instead. So the Python lemmas about the mod hold only when that directory is the mod's temporary directory, and `PythonAdapter.SharesModFiles` proves this is exactly when the two sides share the files.

**Shared helper modules**:
- `Wrappers`: Option and Result;
- `JavaInt`: 32-bit wrap-around, truncating division and remainder, and clamping;
- `Nibbles` and `Bits`: machine words as sequences of nibbles or bits;
- `DivMod`: small arithmetic facts;
- `Directions`: Minecraft's six directions;
- `Ascii`: bytes.

**What is passed in rather than modelled**: everything outside the program's own logic.
- The Minecraft world: neighbour power, whether a neighbour can hold a track, the player's look and click directions, and which slots accept an item.
- Every operating-system call: `open`, `fstat`, `ftruncate`, `mmap` and `msync`, each given as an outcome. The file system is a map from paths to contents.
- `Math.random`: the control box's `rnd()` reads the k-th value of an oracle `nat -> Nibble`, and `extract`'s random start offset is a parameter.

## Model

| member | source | states |
|---|---|---|
| BlockPosRange.Make | src/main/java/wile/redstonepen/libmc/Auxiliaries.java:418-423 | the box's lower and upper bound on each axis are the two given coordinates, ordered so that lower <= upper |
| BlockPosRange.MakeContains | src/main/java/wile/redstonepen/libmc/Auxiliaries.java:418-423 | a position is in the box iff it lies between the two corners on every axis, whatever their order; swapping the corners gives the same box |
| BlockPosRange.XSize | src/main/java/wile/redstonepen/libmc/Auxiliaries.java:437-438 | `getXSize` is at least 1 on a normalised box |
| BlockPosRange.YSize | src/main/java/wile/redstonepen/libmc/Auxiliaries.java:440-441 | `getYSize` is at least 1 |
| BlockPosRange.ZSize | src/main/java/wile/redstonepen/libmc/Auxiliaries.java:443-444 | `getZSize` is at least 1 |
| BlockPosRange.Area | src/main/java/wile/redstonepen/libmc/Auxiliaries.java:446-447 | the footprint is at least as large as the x size and the z size |
| BlockPosRange.Height | src/main/java/wile/redstonepen/libmc/Auxiliaries.java:449-450 | the height is at least 1 |
| BlockPosRange.Volume | src/main/java/wile/redstonepen/libmc/Auxiliaries.java:452-453 | the volume is at least 1 and at least the footprint |
| BlockPosRange.VolumeLayers | src/main/java/wile/anthillinside/libmc/detail/Auxiliaries.java:385-401 | volume = area x height, the layer structure the index arithmetic relies on |
| BlockPosRange.ByXZYIndexDigits | src/main/java/wile/redstonepen/libmc/Auxiliaries.java:455-465 | for an index >= 0 the Java truncating steps read the three mixed-radix digits (x fastest, then z, then y) of the index reduced modulo the volume |
| BlockPosRange.ByXZYIndexInside | src/main/java/wile/redstonepen/libmc/Auxiliaries.java:455-465 | every index >= 0 lands inside the box, at the offset index mod volume |
| BlockPosRange.XZYIndexInverse | src/main/java/wile/redstonepen/libmc/Auxiliaries.java:455-465 | every position of the box has an offset below the volume from which `byXZYIndex` gives it back: the map is onto |
| BlockPosRange.ByXZYIndexInjective | src/main/java/wile/redstonepen/libmc/Auxiliaries.java:455-465 | distinct indices in 0..volume-1 give distinct positions |
| BlockPosRange.ByXZIndexInside | src/main/java/wile/redstonepen/libmc/Auxiliaries.java:467-475 | for an index >= 0, x and z lie in the footprint and y is the lower y plus the requested offset |
| BlockPosRange.Start | src/main/java/wile/redstonepen/libmc/Auxiliaries.java:482-483 | on a valid box the new iterator has a next element, and the first `next()` returns the lower corner |
| BlockPosRange.Next | src/main/java/wile/redstonepen/libmc/Auxiliaries.java:486-504 | `next()` fails exactly when `hasNext()` is false, and otherwise returns the cursor's own position |
| BlockPosRange.CursorStart | src/main/java/wile/redstonepen/libmc/Auxiliaries.java:482-483 | the closed-form cursor of step 0 is the constructed iterator |
| BlockPosRange.CursorStep | src/main/java/wile/redstonepen/libmc/Auxiliaries.java:490-504 | before `volume` calls, `next()` succeeds, returns the k-th position and moves to the cursor of step k+1 (x advances, wrapping into y, then z) |
| BlockPosRange.CursorEnd | src/main/java/wile/redstonepen/libmc/Auxiliaries.java:486-487 | after `volume` calls `hasNext()` is false |
| BlockPosRange.Collect | src/main/java/wile/redstonepen/libmc/Auxiliaries.java:482-509 | running `next()` while `hasNext()` holds yields exactly `volume` positions, the k-th being the closed-form k-th position |
| BlockPosRange.IterPosInside | src/main/java/wile/redstonepen/libmc/Auxiliaries.java:490-504 | every position the iterator returns lies in the box and its step number can be read back from it |
| BlockPosRange.IterPosInjective | src/main/java/wile/redstonepen/libmc/Auxiliaries.java:490-504 | the iterator never returns a position twice |
| BlockPosRange.IterCovers | src/main/java/wile/redstonepen/libmc/Auxiliaries.java:490-504 | every position of the box is returned, at the step its iteration index names |
| ChannelWord.Slot | src/main/java/wile/api/rca/RedstoneClientAdapter.java:104-105 | the nibble `4*channel` addresses is below 16 for every channel (Java reduces a long's shift distance mod 64) and is the channel itself for 0..15 |
| ChannelWord.GetChannel | src/main/java/wile/api/rca/RedstoneClientAdapter.java:104-114 | a channel read is the addressed nibble of the cached word, always in 0..15 |
| ChannelWord.KeepAbove | src/main/java/wile/api/rca/RedstoneClientAdapter.java:122-123 | the mask `(~0xfL) << 4c` is full exactly on the nibbles strictly above c |
| ChannelWord.SetChannelAt | src/main/java/wile/api/rca/RedstoneClientAdapter.java:122-132 | after `setInputChannel`/`setOutputChannel` channel c holds the value clamped to 0..15, higher channels are kept and every lower channel is cleared |
| ChannelWord.ReadBack | src/main/java/wile/api/rca/RedstoneClientAdapter.java:104-132 | reading a channel back after setting it gives the value clamped to 0..15, and the value itself when it is already a signal |
| ChannelWord.DescendingWritesKeep | src/main/java/wile/api/rca/RedstoneClientAdapter.java:122-123 | a later write to a lower channel keeps an earlier write to a higher one |
| ChannelWord.AscendingWritesLose | src/main/java/wile/api/rca/RedstoneClientAdapter.java:122-123 | a later write to a higher channel wipes an earlier write to a lower one |
| ChannelWord.WriteDownStoresAll | src/main/java/wile/api/rca/RedstoneClientAdapter.java:122-123 | writing channels k-1 down to 0 stores each clamped value and leaves the channels from k up untouched |
| ChannelWord.SetChannelIntendedAt | src/main/java/wile/api/rca/RedstoneClientAdapter.java:122-132 | with the mask `~(0xfL << 4c)` channel c holds the clamped value and every other channel is kept |
| ChannelWord.IntendedWritesKeep | src/main/java/wile/api/rca/RedstoneClientAdapter.java:122-132 | with that mask, writes to two different channels keep each other in either order |
| HostUtil.HexToNybble | host/rca-cc/include/util.hh:81-94 | `hex_to_nybble` maps any byte that is not a hex digit to 0 |
| HostUtil.NybbleToHex | host/rca-cc/include/util.hh:63-72 | `nybble_to_hex` yields a lower-case hex digit that `hex_to_nybble` reads back as the argument's low four bits |
| HostUtil.AgreesWithJava | host/rca-cc/include/util.hh:63-94 | the C++ digit functions agree with the Java adapter's on every byte and every nibble, and differ for out-of-range arguments not divisible by 16 |
| HostUtil.HexDigits | host/rca-cc/include/util.hh:104-114 | one digit per nibble, the most significant first |
| HostUtil.ToHex | host/rca-cc/include/util.hh:104-114 | `to_hex` writes two lower-case hex digits per byte of the type |
| HostUtil.ToHexLoop | host/rca-cc/include/util.hh:104-114 | the loop that fills the string from the end, shifting the value by 4 each step, produces `ToHex` |
| HostUtil.HexValueOfDigits | host/rca-cc/include/util.hh:104-114 | reading a word's digits back as a hex number gives the word's value |
| HostUtil.ToHexValue | host/rca-cc/include/util.hh:104-114 | the digits of `to_hex` spell the value modulo 16^(2 x bytes): only the bits above the type's width are lost |
| HostUtil.SkipSpace | host/rca-cc/include/util.hh:137-148 | the white space `strtoimax` skips: the result is the first non-space byte at or after i |
| HostUtil.DigitsEnd | host/rca-cc/include/util.hh:137-148 | the end of the decimal digit run that `strtoimax` consumes |
| HostUtil.Strto | host/rca-cc/include/util.hh:137-148 | the scan stops on a digit or consumes nothing, in which case its magnitude is 0 |
| HostUtil.ToNumber | host/rca-cc/include/util.hh:125-155 | floating types always give nothing, an over-long string gives nothing, and any value returned fits the target type |
| HostUtil.Decimal | host/rca-cc/include/util.hh:125-155 | the decimal digits of n, read back as n |
| HostUtil.ScanRendered | host/rca-cc/include/util.hh:137-148 | scanning a number written with `%d` consumes all of it and finds its sign and magnitude |
| HostUtil.ToNumberRoundTrip | host/rca-cc/include/util.hh:125-155 | a number that fits the target type and is short enough reads back from its decimal text |
| HostUtil.UnsignedNegationWraps | host/rca-cc/include/util.hh:145-152 | `to_number<uint64_t>("-5")` is 2^64 - 5 while `to_number<uint32_t>("-5")` is refused: `strtoumax` negates in unsigned arithmetic |
| HostUtil.EmptyStringReadsZero | host/rca-cc/include/util.hh:125-155 | the empty string reads as 0 for every integral type |
| HostUtil.ToNumberChecked | host/rca-cc/include/util.hh:125-155 | the corrected parse returns a value only for text holding a digit, and then the same value as `to_number` |
| HostUtil.CheckedDiffersOnlyOnEmpty | host/rca-cc/include/util.hh:125-155 | the corrected parse differs from the written one on the empty string alone |
| HostAdapter.ChannelPos | host/rca-cc/include/rca.hh:183-186 | `channel_pos` puts channel 0..15 at byte 15-ch; any larger channel wraps in `size_t` to a position of at least 16, which no 16-byte region holds |
| HostAdapter.GetInput | host/rca-cc/include/rca.hh:77-80 | `get_input` of a channel 0..15 is that channel's digit read back; an out-of-range channel reads 0 |
| HostAdapter.GetOutput | host/rca-cc/include/rca.hh:90-93 | the same for the output region |
| HostAdapter.SetInput | host/rca-cc/include/rca.hh:64-67 | `set_input` changes only the input region's bytes, and does nothing on a read-only region or for an out-of-range channel |
| HostAdapter.SetInputEffect | host/rca-cc/include/rca.hh:64-80 | on a writable region, reading the channel back gives the value clamped to 0..15 and every other channel keeps its value |
| HostAdapter.ReadWord | host/rca-cc/include/rca.hh:116-125 | the shift-and-or loop over channels 15 down to 0 builds the word whose nibble i is channel i |
| HostAdapter.GetInputs | host/rca-cc/include/rca.hh:116-125 | `get_inputs` is the input channels as one word, nibble ch being `get_input(ch)` |
| HostAdapter.GetOutputs | host/rca-cc/include/rca.hh:100-109 | `get_outputs` is the output channels as one word, nibble ch being `get_output(ch)` |
| HostAdapter.Masked | host/rca-cc/include/rca.hh:137 | the masked word has the word's width |
| HostAdapter.MaskedKeeps | host/rca-cc/include/rca.hh:137 | under a full mask nibble the current channel survives; under an empty one the new value is taken |
| HostAdapter.WriteStep | host/rca-cc/include/rca.hh:139 | one `set_input` of a nibble replaces that channel and keeps the other fifteen |
| HostAdapter.ShiftStep | host/rca-cc/include/rca.hh:139-140 | `word & 0xf` is the next channel's nibble and `word >>= 4` brings up the rest |
| HostAdapter.WriteWord | host/rca-cc/include/rca.hh:138-141 | writing the sixteen nibbles in turn stores the whole word on a writable region, leaves a read-only one alone, and never touches the output region |
| HostAdapter.SetInputs | host/rca-cc/include/rca.hh:134-142 | `set_inputs(word, mask_out)` leaves the input channels equal to the new word outside the mask and to their old values under it |
| HostAdapter.Close | host/rca-cc/include/rca.hh:171-179 | after `close()` both regions are closed and `ok()` is false |
| HostAdapter.CloseKeepsUnlinked | host/rca-cc/include/rca.hh:171-179 | closing keeps both paths, so `close()` removes the input's file, then the output's, and a second close removes the same two files |
| HostAdapter.OpenThenCloseUnlinks | host/rca-cc/include/rca.hh:152-179 | every `open()` records the input file's path, and after a successful one the next `close()` removes exactly the two map files it opened in the temporary directory |
| HostAdapter.OpenEffect | host/rca-cc/include/rca.hh:152-165 | with the corrected `mmap` check (see Findings; the as-written behaviour is `MappedFile.MapFailureReportedAsOpen`), `open()` succeeds iff both maps succeed, and then `ok()` holds with a shared writable input and a shared read-only output of 16 bytes; on failure `ok()` is false and the input is closed again |
| HostAdapter.InputReachesMod | host/rca-cc/include/rca.hh:64-67 | the digit the host writes for a channel is decoded by the mod's adapter as the clamped value |
| HostAdapter.ModOutputReachesHost | host/rca-cc/include/rca.hh:100-109 | the word the mod encodes into the output file is the word `get_outputs()` returns |
| PythonAdapter.Lim | host/rca-python/rca.py:12 | `lim` clamps every value to 0..15 and keeps the list's length and order |
| PythonAdapter.HexChar | host/rca-python/rca.py:13 | `f"{v:1x}"` of a signal is one lower-case hex digit |
| PythonAdapter.HexDump | host/rca-python/rca.py:13 | `_xd` writes one character per value |
| PythonAdapter.HexDumpAt | host/rca-python/rca.py:13 | character i of `_xd` is the digit of clamped value n-1-i: the list comes out reversed |
| PythonAdapter.HexValue | host/rca-python/rca.py:14 | `int(c, 16)` succeeds exactly on a hex digit of either case |
| PythonAdapter.ParseDigitsAccepts | host/rca-python/rca.py:14 | `_xp` succeeds exactly on strings of hex digits and raises `ValueError` otherwise |
| PythonAdapter.ParseHexDump | host/rca-python/rca.py:12-14 | `_xp` reads back what `_xd` wrote: the clamped values in their original order |
| PythonAdapter.Join | host/rca-python/rca.py:21 | the joined path ends with the file name |
| PythonAdapter.InitialText | host/rca-python/rca.py:28-31 | both files start as sixteen '0' digits and a newline |
| PythonAdapter.NewEffect | host/rca-python/rca.py:20-37 | the constructor raises `ValueError` iff the directory has no `usercache.json`; otherwise both maps hold sixteen bytes that read as all-zero channels |
| PythonAdapter.Close | host/rca-python/rca.py:44-56 | after `close()` neither map is open |
| PythonAdapter.SetInputChannels | host/rca-python/rca.py:59-63 | a list whose length is not 16 raises `ValueError`, a closed adapter raises `AttributeError`, and success changes only the input map |
| PythonAdapter.ReadChannels | host/rca-python/rca.py:66-73 | reading a closed map raises `AttributeError`, and a successful read gives sixteen values |
| PythonAdapter.ReadChannelsFails | host/rca-python/rca.py:66-73 | reading fails exactly on a closed map or on a byte that is not a hex digit |
| PythonAdapter.SetThenGet | host/rca-python/rca.py:59-68 | `get_input_channels` after `set_input_channels(xs)` returns the clamped xs |
| PythonAdapter.DecodedAt | host/rca-python/rca.py:13 | the mod's adapter decodes channel j of the dump as clamped value j |
| PythonAdapter.ModReadsPythonInput | host/rca-python/rca.py:59-63 | the mod decodes exactly the clamped channels from what `set_input_channels` writes, provided both sides map the same file (see `SharesModFiles`) |
| PythonAdapter.SharesModFiles | host/rca-python/rca.py:21-25 | the paths the Python adapter maps in its game directory are the mod's `ipcIoPath` files exactly when that directory is the mod's temporary directory |
| PythonAdapter.SameDigitsAsMod | host/rca-python/rca.py:13 | Python's hex digits are the ones the mod writes |
| PythonAdapter.PythonReadsModOutput | host/rca-python/rca.py:71-73 | `get_output_channels` returns the word the mod encoded into its output file, provided both sides map the same file (see `SharesModFiles`) |
| MappedFile.Empty | host/rca-cc/mmap.hh:66-67 | a new region is closed, maps nothing, has size 0 and no error |
| MappedFile.Close | host/rca-cc/mmap.hh:118-137 | `close()` always clears size and error; an open region also loses its descriptor, address and offset, while path and flags stay |
| MappedFile.CloseIdempotent | host/rca-cc/mmap.hh:118-137 | closing twice is the same as closing once |
| MappedFile.FileSize | host/rca-cc/mmap.hh:147 | the byte size is computed in `size_t`, so it is always below 2^64 |
| MappedFile.Permissions | host/rca-cc/mmap.hh:157-166 | owner read always; owner write exactly for a read-write region; group and others read exactly when shared and write exactly when not protected; `O_CREAT` exactly for read-write without `flag_nocreate`; access mode read-write exactly for a read-write region |
| MappedFile.OpenGuard | host/rca-cc/mmap.hh:150-152 | a byte size of 0 or above 128 MiB fails with `ERANGE`, leaves the region closed with size 0, and makes no system call |
| MappedFile.OpenFiltersFlags | host/rca-cc/mmap.hh:145 | the stored flags keep exactly the four defined bits, each as given |
| MappedFile.OpenOutcome | host/rca-cc/mmap.hh:139-245 | for the corrected open (see Findings; the as-written behaviour is `MappedFile.MapFailureReportedAsOpen`), within the size limit, `open(2)` gets the derived flags and mode; the open succeeds exactly when no system call fails (truncation only for a short file); success maps the view and sets the size last, failure leaves the region closed with size 0 |
| MappedFile.OpenFailureErrno | host/rca-cc/mmap.hh:154-178 | a failed open records the `errno` of the first system call that failed |
| MappedFile.OpenValid | host/rca-cc/mmap.hh:139-245 | for the corrected open (see Findings), from a usable region and a mapping of `count` elements, open yields a usable region |
| MappedFile.MapFailureReportedAsOpen | host/rca-cc/mmap.hh:177-178 | as written, a failed `mmap` (which returns `MAP_FAILED`, not `nullptr`) is reported as a successful open of `count` elements at an address that is not usable; the corrected open fails |
| MappedFile.OpenAgreesWhenMapped | host/rca-cc/mmap.hh:177-178 | the written and the corrected open are identical whenever `mmap` succeeds |
| MappedFile.Get | host/rca-cc/mmap.hh:273-277 | `get` past the size or with nothing mapped gives the default value, and an index below the size of a mapped region gives the stored element |
| MappedFile.Set | host/rca-cc/mmap.hh:266-271 | `set` succeeds exactly for an index below the size of a mapped read-write region; a refused `set` changes nothing |
| MappedFile.SetThenGet | host/rca-cc/mmap.hh:266-274 | a stored element reads back, and every other index reads as before |
| MappedFile.Sync | host/rca-cc/mmap.hh:248-252 | `sync` reports success exactly for an open, read-write, mapped region of positive size whose `msync` succeeds |
| FmmAdapter.HexToNibble | src/main/java/wile/api/rca/FmmRedstoneClientAdapter.java:325-331 | a byte that is no hex digit reads 0; a decimal digit reads below 10 and a lower-case letter 10 or more |
| FmmAdapter.NibbleToHex | src/main/java/wile/api/rca/FmmRedstoneClientAdapter.java:337-343 | a nibble 0..15 becomes a lower-case hex digit that reads back as the same nibble; anything else becomes '0' |
| FmmAdapter.HexCaseInsensitive | src/main/java/wile/api/rca/FmmRedstoneClientAdapter.java:327-328 | an upper-case letter reads the same as its lower-case partner |
| FmmAdapter.HexDigitRoundTrip | src/main/java/wile/api/rca/FmmRedstoneClientAdapter.java:325-343 | a lower-case hex digit read and written again is the same byte |
| FmmAdapter.NewMap | src/main/java/wile/api/rca/FmmRedstoneClientAdapter.java:37-46 | a new map holds `size` ASCII '0' bytes and is not open |
| FmmAdapter.Get | src/main/java/wile/api/rca/FmmRedstoneClientAdapter.java:57-58 | `get` outside the map gives 0 |
| FmmAdapter.Set | src/main/java/wile/api/rca/FmmRedstoneClientAdapter.java:60-61 | `set` inside the map stores the byte and keeps every other byte; outside the map it changes nothing |
| FmmAdapter.Close | src/main/java/wile/api/rca/FmmRedstoneClientAdapter.java:95-102 | a closed map keeps its bytes, path and direction |
| FmmAdapter.OpenGuard | src/main/java/wile/api/rca/FmmRedstoneClientAdapter.java:68-70 | a size outside 1..4096 is refused before anything changes, the file system included |
| FmmAdapter.OpenEffect | src/main/java/wile/api/rca/FmmRedstoneClientAdapter.java:66-93 | an open within the size limit succeeds exactly when it initializes or the file already holds the whole map; a write map then has its bytes at the start of the file; no other file changes and no file shrinks |
| FmmAdapter.TickMap | src/main/java/wile/api/rca/FmmRedstoneClientAdapter.java:107-120 | a map's tick succeeds exactly when it is mapped, and keeps size, path and direction |
| FmmAdapter.TickMapTransfers | src/main/java/wile/api/rca/FmmRedstoneClientAdapter.java:107-115 | a write map's tick puts its bytes at the start of its file; a read map's tick takes them from there; no other file changes |
| FmmAdapter.IpcIoPath | src/main/java/wile/api/rca/FmmRedstoneClientAdapter.java:149-150 | the path is the temporary directory followed by "/redstonepen." and 'o' for the mod side's output or 'i' for its input, then ".mmap" |
| FmmAdapter.IpcPathsDiffer | src/main/java/wile/api/rca/FmmRedstoneClientAdapter.java:149-150 | the input and output paths differ |
| FmmAdapter.NewAdapter | src/main/java/wile/api/rca/FmmRedstoneClientAdapter.java:204-210 | a new adapter is closed with the output marked changed; the system side reads the file the mod side writes; the reopen delay is 20 ticks on the mod side and 0 on the system side, a field that `tick()` never reads |
| FmmAdapter.SidesSwapFiles | src/main/java/wile/api/rca/FmmRedstoneClientAdapter.java:204-210 | each side's input file is the other side's output file |
| FmmAdapter.SetInputs | src/main/java/wile/api/rca/FmmRedstoneClientAdapter.java:223-224 | `setInputs` stores the word, raises the changed flag only when the word differs, and changes nothing else |
| FmmAdapter.SetOutputs | src/main/java/wile/api/rca/FmmRedstoneClientAdapter.java:251-252 | `setOutputs`: the same for the output word |
| FmmAdapter.SettersIdempotent | src/main/java/wile/api/rca/FmmRedstoneClientAdapter.java:223-252 | setting the current word changes nothing, and setting a word twice is setting it once |
| FmmAdapter.Decoded | src/main/java/wile/api/rca/FmmRedstoneClientAdapter.java:297-300 | sixteen bytes decode to a sixteen-nibble word |
| FmmAdapter.Encoded | src/main/java/wile/api/rca/FmmRedstoneClientAdapter.java:308-313 | a word encodes to sixteen lower-case hex bytes |
| FmmAdapter.EncodedDecodes | src/main/java/wile/api/rca/FmmRedstoneClientAdapter.java:297-313 | decoding a word's encoding gives the word back |
| FmmAdapter.DecodeInput | src/main/java/wile/api/rca/FmmRedstoneClientAdapter.java:297-300 | the shift-and-or loop over bytes 0..15 computes the decoded word, byte 0 being the most significant nibble |
| FmmAdapter.EncodeOutput | src/main/java/wile/api/rca/FmmRedstoneClientAdapter.java:308-313 | the loop from byte 15 down to 0 with `val >>= 4` writes exactly the encoded word |
| FmmAdapter.Reopen | src/main/java/wile/api/rca/FmmRedstoneClientAdapter.java:281-291 | reopening keeps the adapter well formed and its maps backed by files, and reports open only with both maps mapped |
| FmmAdapter.SystemSideOpens | src/main/java/wile/api/rca/FmmRedstoneClientAdapter.java:282-285 | the system side always ends up open, with both files present |
| FmmAdapter.ModSideNeedsFiles | src/main/java/wile/api/rca/FmmRedstoneClientAdapter.java:286-290 | the mod side opens exactly when both files already exist and hold at least sixteen bytes |
| FmmAdapter.Exchange | src/main/java/wile/api/rca/FmmRedstoneClientAdapter.java:292-318 | a tick of an open adapter keeps it well formed and its maps backed |
| FmmAdapter.Tick | src/main/java/wile/api/rca/FmmRedstoneClientAdapter.java:279-319 | `tick()` keeps the adapter well formed and its maps backed |
| FmmAdapter.TickReadsInput | src/main/java/wile/api/rca/FmmRedstoneClientAdapter.java:294-305 | an open tick reads the input word from the start of the input file and raises the input flag exactly when the word changed |
| FmmAdapter.TickWritesOutput | src/main/java/wile/api/rca/FmmRedstoneClientAdapter.java:306-317 | an open tick with a changed output word writes its encoding to the start of the output file, clears the flag, stays open and touches no other file |
| FmmAdapter.OutputReachesOtherSide | src/main/java/wile/api/rca/FmmRedstoneClientAdapter.java:279-319 | after the mod side's tick writes a changed output word, the system side's next tick reads that very word as its input |
| ControlBoxLogic.SetSymbol | src/main/java/wile/redstonepen/blocks/ControlBox.java:984-985 | `symbol(key, value)` stores the value under the lower-cased key and keeps every other key |
| ControlBoxLogic.Symbol | src/main/java/wile/redstonepen/blocks/ControlBox.java:987-988 | `symbol(key)` of a key that is absent once lower-cased reads 0 |
| ControlBoxLogic.WithComparators | src/main/java/wile/redstonepen/blocks/ControlBox.java:1007-1009 | the program symbols gain `port.co` for every port that has a `.co.re` or `.co.fe` symbol, and lose nothing |
| ControlBoxLogic.ComparatorAdded | src/main/java/wile/redstonepen/blocks/ControlBox.java:1007-1009 | every symbol added is the `.co` symbol of a port with a comparator edge |
| ControlBoxLogic.WithComparatorsKeepsReferences | src/main/java/wile/redstonepen/blocks/ControlBox.java:1004-1014 | adding the comparator symbols changes no port's role |
| ControlBoxLogic.RoleOf | src/main/java/wile/redstonepen/blocks/ControlBox.java:1010-1014 | a port is an output exactly when the program assigns it, and an input exactly when it is not assigned but some symbol refers to it |
| ControlBoxLogic.Roles | src/main/java/wile/redstonepen/blocks/ControlBox.java:1005-1015 | the role list has one entry per port, each its `RoleOf` |
| ControlBoxLogic.Compile | src/main/java/wile/redstonepen/blocks/ControlBox.java:1000-1009 | the installed program has the parsed entries, errors and assignments of the code, and the same port references |
| ControlBoxLogic.PortMasks | src/main/java/wile/redstonepen/blocks/ControlBox.java:1001-1015 | the masks have a full nibble exactly for the output ports and the input ports respectively, never share a bit, and are empty above the six ports |
| ControlBoxLogic.Code | src/main/java/wile/redstonepen/blocks/ControlBox.java:996-1018 | resubmitting the installed code changes nothing; new code installs its program, clears the symbols, rebuilds the masks and clears every output nibble the new mask drops; the result is true exactly when no line failed to parse |
| ControlBoxLogic.Install | src/main/java/wile/redstonepen/blocks/ControlBox.java:999-1016 | installing a program rebuilds the masks from it, forgets the symbols and clears the output nibbles outside the output mask |
| ControlBoxLogic.CodeConsistent | src/main/java/wile/redstonepen/blocks/ControlBox.java:996-1018 | `code()` keeps the word invariants, and new code establishes them |
| ControlBoxLogic.CodeRoles | src/main/java/wile/redstonepen/blocks/ControlBox.java:1010-1014 | after new code, an assigned port is an output and not an input, an unassigned port is not an output, and a port is an input exactly when it is read but not assigned |
| ControlBoxLogic.CodeIdempotent | src/main/java/wile/redstonepen/blocks/ControlBox.java:998 | submitting the same non-empty program twice leaves the second submission without effect |
| ControlBoxLogic.PortKeyFacts | src/main/java/wile/redstonepen/blocks/ControlBox.java:1047-1048 | port names and their edge keys are lower-case, pairwise distinct, distinct from the port names, and end in `.re` or `.fe` as their kind says |
| ControlBoxLogic.LoadInputs | src/main/java/wile/redstonepen/blocks/ControlBox.java:1023-1025 | every port whose input-mask nibble is set gets its input nibble as its symbol; every other symbol keeps its value |
| ControlBoxLogic.LoadedPortReads | src/main/java/wile/redstonepen/blocks/ControlBox.java:1023-1025 | after the input step, `symbol()` of an input port reads its input nibble |
| ControlBoxLogic.SymRef | src/main/java/wile/redstonepen/blocks/ControlBox.java:1032 | the referenced symbol is the edge symbol without its three-character suffix |
| ControlBoxLogic.LastKey | src/main/java/wile/redstonepen/blocks/ControlBox.java:1034 | the previous-level key `.<esym>.d` is three characters longer than the edge symbol |
| ControlBoxLogic.EdgeStep | src/main/java/wile/redstonepen/blocks/ControlBox.java:1027-1044 | for an edge symbol whose source exists or is a port, the symbol becomes 15 exactly on the transition its suffix names and 0 otherwise, and the remembered level becomes 15 exactly when the source is positive; any other symbol changes nothing, and no other key is touched |
| ControlBoxLogic.EdgePass | src/main/java/wile/redstonepen/blocks/ControlBox.java:1027-1044 | the edge pass over all program symbols changes only keys ending in `.re`, `.fe` or `.d` |
| ControlBoxLogic.EdgeKeysWritten | src/main/java/wile/redstonepen/blocks/ControlBox.java:1034-1042 | a single edge step writes only keys ending in `.re`, `.fe` or `.d` |
| ControlBoxLogic.Interrupts | src/main/java/wile/redstonepen/blocks/ControlBox.java:1045-1049 | the interrupt step does not draw random numbers |
| ControlBoxLogic.InterruptsLatch | src/main/java/wile/redstonepen/blocks/ControlBox.java:1045-1049 | after the interrupt step, each port's latched rising or falling edge has set its `.re` or `.fe` symbol to 15 |
| ControlBoxLogic.InterruptsFrame | src/main/java/wile/redstonepen/blocks/ControlBox.java:1045-1049 | symbols that do not end in `.re` or `.fe` pass through the interrupt step unchanged |
| ControlBoxLogic.InterruptPort | src/main/java/wile/redstonepen/blocks/ControlBox.java:1046-1048 | one port's latched edges set its edge symbols to 15 and touch no other key |
| ControlBoxLogic.PostProcess | src/main/java/wile/redstonepen/blocks/ControlBox.java:1055-1060 | a port's assignment is clamped to 0..15 (a value already in range is kept); any other assignment passes through |
| ControlBoxLogic.Targets | src/main/java/wile/redstonepen/blocks/ControlBox.java:1130 | a name is collected exactly when it is non-empty and some entry assigns to it |
| ControlBoxLogic.RecalcEntry | src/main/java/wile/redstonepen/blocks/ControlBox.java:1129-1132 | one entry adds its assignment name, if any, to the results and keeps port results clamped |
| ControlBoxLogic.Recalc | src/main/java/wile/redstonepen/blocks/ControlBox.java:1125-1135 | `recalculate` returns a result for exactly the non-empty assignment names, with port results clamped |
| ControlBoxLogic.ApplyAssigned | src/main/java/wile/redstonepen/blocks/ControlBox.java:1062 | after storing the results each result reads back under its name, and every other symbol keeps its value |
| ControlBoxLogic.PortValue | src/main/java/wile/redstonepen/blocks/ControlBox.java:1064 | a port without a symbol has value 0 |
| ControlBoxLogic.PortValueIsSymbol | src/main/java/wile/redstonepen/blocks/ControlBox.java:1064 | a port's value is what `symbol()` reads under its name |
| ControlBoxLogic.Prepare | src/main/java/wile/redstonepen/blocks/ControlBox.java:1022-1054 | after inputs, edges and interrupts, the deadline symbol reads 40 |
| ControlBoxLogic.Evaluate | src/main/java/wile/redstonepen/blocks/ControlBox.java:1055-1062 | after evaluation every port the program assigns holds a value in 0..15 |
| ControlBoxLogic.ResultKeysLower | src/main/java/wile/redstonepen/blocks/ControlBox.java:1107-1130 | result names are lower-case, as the parser produced them |
| ControlBoxLogic.AppliedPortClamped | src/main/java/wile/redstonepen/blocks/ControlBox.java:1057-1062 | a port name among clamped results reads back as a signal strength once stored |
| ControlBoxLogic.Outputs | src/main/java/wile/redstonepen/blocks/ControlBox.java:1063-1065 | the output word has eight nibbles |
| ControlBoxLogic.OutputsAt | src/main/java/wile/redstonepen/blocks/ControlBox.java:1063-1065 | output nibble j is the low four bits of port j's value where the mask is full, and 0 where the mask is empty or above the ports |
| ControlBoxLogic.Tick | src/main/java/wile/redstonepen/blocks/ControlBox.java:1020-1066 | `tick()` clears the latched edges, keeps masks, input data and program, packs the output word from the port values under the output mask, and leaves every assigned port at 0..15 |
| ControlBoxLogic.TickConsistent | src/main/java/wile/redstonepen/blocks/ControlBox.java:1020-1066 | `tick()` keeps the word invariants |
| ControlBoxLogic.TickDrivesAssignedPorts | src/main/java/wile/redstonepen/blocks/ControlBox.java:1063-1065 | after a tick, an assigned output port emits exactly its clamped symbol value |
| ControlBoxLogic.GetSignal | src/main/java/wile/redstonepen/blocks/ControlBox.java:133-138 | the emitted signal is a strength 0..15, and 0 on a port outside the output mask |
| ControlBoxBlock.InternalSide | src/main/java/wile/redstonepen/blocks/CircuitComponents.java:416-420 | the internal side found for a queried world side is the one the forward mapping sends to the queried side's opposite |
| ControlBoxBlock.BlockSignal | src/main/java/wile/redstonepen/blocks/ControlBox.java:133-138 | the block's signal toward any neighbour is a strength 0..15 |
| ControlBoxBlock.BlockSignalPort | src/main/java/wile/redstonepen/blocks/ControlBox.java:133-138 | the signal toward a neighbour is the output nibble of the port that faces it, and 0 when that port is outside the output mask |
| ControlBoxBlock.EveryPortReachable | src/main/java/wile/redstonepen/blocks/ControlBox.java:133-138 | every port of a mounted box faces exactly one world side, from which its output nibble can be read |
| ControlBoxPorts.PortNamesShape | src/main/java/wile/redstonepen/blocks/ControlBox.java:68 | the six port names are single lower-case letters, no two alike |
| ControlBoxPorts.PackFrom | src/main/java/wile/redstonepen/blocks/ControlBox.java:1063-1064 | packing ports i..5 puts each port's low four bits in its nibble and leaves every other nibble 0 |
| ControlBoxPorts.PackPorts | src/main/java/wile/redstonepen/blocks/ControlBox.java:1063-1064 | the packed word holds port j's low four bits at nibble j and 0 in the top two nibbles |
| ControlBoxPorts.MaskFrom | src/main/java/wile/redstonepen/blocks/ControlBox.java:1005-1015 | building the mask over ports i..5 fills exactly the nibbles of those ports with the role |
| ControlBoxPorts.RoleMask | src/main/java/wile/redstonepen/blocks/ControlBox.java:1010-1014 | a role's mask has a full nibble exactly at the ports with that role and nothing above the ports |
| ControlBoxPorts.RoleMasksDisjoint | src/main/java/wile/redstonepen/blocks/ControlBox.java:1010-1014 | the masks of two different roles share no bit, so no port is both input and output |
| ControlBoxProgram.RemoveAll | src/main/java/wile/redstonepen/blocks/ControlBox.java:1093 | the literal `String.replace` never lengthens the text, and leaves it alone when the pattern cannot occur |
| ControlBoxProgram.RemoveAllChanges | src/main/java/wile/redstonepen/blocks/ControlBox.java:1093 | the literal `String.replace` with the empty string changes the text exactly when the pattern occurs somewhere in it |
| ControlBoxProgram.FirstBreak | src/main/java/wile/redstonepen/blocks/ControlBox.java:1093 | the first break found is a line feed, optionally preceded by a carriage return, and none lies before it |
| ControlBoxProgram.FirstBreakNone | src/main/java/wile/redstonepen/blocks/ControlBox.java:1093 | no line feed lies between the search start and the first break |
| ControlBoxProgram.SplitRaw | src/main/java/wile/redstonepen/blocks/ControlBox.java:1093 | splitting gives at least one piece, and no piece holds a line feed |
| ControlBoxProgram.SplitRawRejoins | src/main/java/wile/redstonepen/blocks/ControlBox.java:1093 | splitting loses nothing: the pieces, with the matched `\n` or `\r\n` breaks put back between them, are the text, and there is one more piece than breaks |
| ControlBoxProgram.DropTrailingEmpty | src/main/java/wile/redstonepen/blocks/ControlBox.java:1093 | dropping trailing empty strings keeps a prefix whose last piece is non-empty and removes only empty pieces |
| ControlBoxProgram.SplitLines | src/main/java/wile/redstonepen/blocks/ControlBox.java:1093 | no line after the split holds a line feed; the lines are the split's pieces with only the empty pieces at the end dropped, so the last line is not empty |
| ControlBoxProgram.SplitLinesOneLine | src/main/java/wile/redstonepen/blocks/ControlBox.java:1093 | a text without a line feed is a single line, or no line when it is empty |
| ControlBoxProgram.AppendEntry | src/main/java/wile/redstonepen/blocks/ControlBox.java:1104-1107 | a parsed assignment is appended to the entries and its symbols join the program's symbols |
| ControlBoxProgram.AddLine | src/main/java/wile/redstonepen/blocks/ControlBox.java:1099-1111 | a non-blank line adds exactly one entry or error, a blank line none; earlier entries, errors and symbols are kept |
| ControlBoxProgram.OfLines | src/main/java/wile/redstonepen/blocks/ControlBox.java:1098-1112 | the loop adds one entry or error per non-blank line and keeps everything collected before |
| ControlBoxProgram.ProgramOf | src/main/java/wile/redstonepen/blocks/ControlBox.java:1089-1114 | blank code gives the empty program; otherwise the program has one entry or error per non-blank line |
| ControlBoxParser.LowerAscii | src/main/java/wile/redstonepen/blocks/ControlBox.java:1390 | `Character.toLowerCase` shifts exactly the upper-case ASCII letters down to lower case |
| ControlBoxParser.LowerString | src/main/java/wile/redstonepen/blocks/ControlBox.java:1367 | lower-casing a string keeps its length and lower-cases each character |
| ControlBoxParser.LowerIdempotent | src/main/java/wile/redstonepen/blocks/ControlBox.java:984-988 | lower-casing twice is lower-casing once, so stored keys are fixed points |
| ControlBoxParser.Adv | src/main/java/wile/redstonepen/blocks/ControlBox.java:1378-1393 | `adv()` always moves forward and adds no symbol; it moves by one except after a line break or `#`; it fails with `invalid_character` exactly when the next character is above 127 |
| ControlBoxParser.SkipBlanks | src/main/java/wile/redstonepen/blocks/ControlBox.java:1397-1405 | the blank-skipping loop stops on a character that is not a blank, and does nothing when the current one is none |
| ControlBoxParser.AdvTok | src/main/java/wile/redstonepen/blocks/ControlBox.java:1395-1410 | `adv(char)` and `adv(String)` never move backward, and a matched token strictly shortens what is left to read |
| ControlBoxParser.Ops | src/main/java/wile/redstonepen/blocks/ControlBox.java:1427-1493 | every alternative each level tries is a well-formed token |
| ControlBoxParser.TryOps | src/main/java/wile/redstonepen/blocks/ControlBox.java:1431-1491 | trying a level's operators never moves backward, and a match shortens what is left |
| ControlBoxParser.ParseExpr | src/main/java/wile/redstonepen/blocks/ControlBox.java:1424-1425 | `expr()` never moves backward and adds only names to the symbols |
| ControlBoxParser.ParseBinary | src/main/java/wile/redstonepen/blocks/ControlBox.java:1427-1493 | each binary level never moves backward and adds only names to the symbols |
| ControlBoxParser.ParseBelow | src/main/java/wile/redstonepen/blocks/ControlBox.java:1429-1486 | each level reads its operands at the next tighter level, never moving backward |
| ControlBoxParser.BinaryTail | src/main/java/wile/redstonepen/blocks/ControlBox.java:1430-1435 | the operator loop of a level never moves backward |
| ControlBoxParser.FoldLeftLast | src/main/java/wile/redstonepen/blocks/ControlBox.java:1427-1493 | in an operand chain joined from the left, the last operator is the root and the whole rest of the chain is its left operand |
| ControlBoxParser.BinaryTailChain | src/main/java/wile/redstonepen/blocks/ControlBox.java:1430-1435 | a run `x op1 y1 ... opn yn` of one level's operators is grouped from the left: each operator takes the node built so far as its left operand, and the loop ends where no operator of the level follows |
| ControlBoxParser.ExprRel | src/main/java/wile/redstonepen/blocks/ControlBox.java:1459-1472 | `expr_rel` never moves backward and adds only names to the symbols |
| ControlBoxParser.RelTail | src/main/java/wile/redstonepen/blocks/ControlBox.java:1462-1471 | one pass of the seven independent comparison `if`s never moves backward |
| ControlBoxParser.RelSteps | src/main/java/wile/redstonepen/blocks/ControlBox.java:1463-1470 | each comparison statement of the loop body never moves backward |
| ControlBoxParser.ArithFact | src/main/java/wile/redstonepen/blocks/ControlBox.java:1495-1527 | `arith_fact` never moves backward and adds only names to the symbols |
| ControlBoxParser.UnaryPlus | src/main/java/wile/redstonepen/blocks/ControlBox.java:1497 | a unary plus never moves backward and adds no symbol |
| ControlBoxParser.FactRest | src/main/java/wile/redstonepen/blocks/ControlBox.java:1498-1526 | a factor after its signs never moves backward |
| ControlBoxParser.Atom | src/main/java/wile/redstonepen/blocks/ControlBox.java:1506-1524 | a name, call or `not` never moves the cursor backward |
| ControlBoxParser.CallArgs | src/main/java/wile/redstonepen/blocks/ControlBox.java:1510-1519 | the argument list, function lookup and arity check never move backward |
| ControlBoxParser.CallCheck | src/main/java/wile/redstonepen/blocks/ControlBox.java:1517-1519 | after the argument list, a name that is no declared function fails with `unknown_function`; a declared arity that is not negative and differs from the number of arguments fails with `invalid_number_of_arguments` (the `ExprFunc` constructor, line 1192); both fail at the cursor after `)`, and otherwise the call node is built |
| ControlBoxParser.CallNoArgsChecks | src/main/java/wile/redstonepen/blocks/ControlBox.java:1511-1519 | `name()` hands an empty argument list to the function lookup and the arity check |
| ControlBoxParser.CallArgsChecks | src/main/java/wile/redstonepen/blocks/ControlBox.java:1511-1519 | a complete argument list is handed whole to the function lookup and the arity check |
| ControlBoxParser.ArgsTail | src/main/java/wile/redstonepen/blocks/ControlBox.java:1514 | the comma loop never moves backward |
| ControlBoxParser.LiteralLoop | src/main/java/wile/redstonepen/blocks/ControlBox.java:1533 | the loop consumes exactly name characters and stops on one that is not |
| ControlBoxParser.ConstLiteral | src/main/java/wile/redstonepen/blocks/ControlBox.java:1529-1535 | `const_literal` reads a non-empty name when a letter is current, and returns "" without moving otherwise |
| ControlBoxParser.DigitLoop | src/main/java/wile/redstonepen/blocks/ControlBox.java:1540 | the loop consumes exactly decimal digits and stops on a non-digit |
| ControlBoxParser.ConstNumber | src/main/java/wile/redstonepen/blocks/ControlBox.java:1537-1542 | a number reads as a non-negative constant; a `NumberFormatException` carries digits whose value exceeds `Integer.MAX_VALUE` |
| ControlBoxParser.ExprAssign | src/main/java/wile/redstonepen/blocks/ControlBox.java:1412-1422 | `expr_assign` yields an assignment; with a `name =` prefix its target is no function name, otherwise it is the default name |
| ControlBoxParser.SpanSpaces | src/main/java/wile/redstonepen/blocks/ControlBox.java:1415 | the span covers exactly the regex spaces from i on |
| ControlBoxParser.SpanWord | src/main/java/wile/redstonepen/blocks/ControlBox.java:1415 | the span covers exactly the `[\w.]` characters from i on |
| ControlBoxParser.ParseLine | src/main/java/wile/redstonepen/blocks/ControlBox.java:1352-1376 | a comment line gives an empty entry; a line without error is an assignment, read to its end, whose assignment symbol is the lower-cased target; a line with an error has no expression and no assignment |
| ControlBoxPrint.DigitsRead | src/main/java/wile/redstonepen/blocks/ControlBox.java:1537-1542 | the decimal digits of a number read back as that number |
| ControlBoxPrint.PrintClean | src/main/java/wile/redstonepen/blocks/ControlBox.java:1378-1410 | printed text holds no blank, comment sign or character above 127, so `adv` reads it as it stands |
| ControlBoxPrint.StageMiss | src/main/java/wile/redstonepen/blocks/ControlBox.java:1427-1493 | where an operand of some strength ends, no operator of that strength or looser is next |
| ControlBoxPrint.RelHit | src/main/java/wile/redstonepen/blocks/ControlBox.java:1463-1470 | a comparison's spelling is the first of the comparison alternatives that matches |
| ControlBoxPrint.LevelHit | src/main/java/wile/redstonepen/blocks/ControlBox.java:1431-1490 | any other operator's spelling is the first alternative of its level that matches |
| ControlBoxPrint.TailMiss | src/main/java/wile/redstonepen/blocks/ControlBox.java:1430-1435 | an operator loop returns its operand unchanged where that operand ends |
| ControlBoxPrint.TailHit | src/main/java/wile/redstonepen/blocks/ControlBox.java:1430-1435 | an operator loop that meets its own operator builds the node and stops where the right operand ends |
| ControlBoxPrint.ClimbMiss | src/main/java/wile/redstonepen/blocks/ControlBox.java:1427-1493 | a level returns what the next tighter level read when no operator of its own follows |
| ControlBoxPrint.ClimbHit | src/main/java/wile/redstonepen/blocks/ControlBox.java:1427-1493 | a level joins two operands around its own operator |
| ControlBoxPrint.Unsigned | src/main/java/wile/redstonepen/blocks/ControlBox.java:1497-1498 | without a sign in front, `arith_fact` goes straight to the rest |
| ControlBoxPrint.ParenFact | src/main/java/wile/redstonepen/blocks/ControlBox.java:1500-1503 | `(x)` read as a factor is x, and the cursor stops after the parenthesis |
| ControlBoxPrint.NegFact | src/main/java/wile/redstonepen/blocks/ControlBox.java:1498 | `-(a)` is read as the negation of a |
| ControlBoxPrint.NotFact | src/main/java/wile/redstonepen/blocks/ControlBox.java:1499 | `!(a)` is read as the logical not of a |
| ControlBoxPrint.ConstFact | src/main/java/wile/redstonepen/blocks/ControlBox.java:1504-1505 | a run of digits is read as the constant it spells |
| ControlBoxPrint.NameFact | src/main/java/wile/redstonepen/blocks/ControlBox.java:1529-1535 | `const_literal` reads a whole name and nothing after it |
| ControlBoxPrint.VarFact | src/main/java/wile/redstonepen/blocks/ControlBox.java:1520-1523 | a name that is not `not`, not a function and not followed by `(` is a variable reference and joins the symbols |
| ControlBoxPrint.CallFact | src/main/java/wile/redstonepen/blocks/ControlBox.java:1510 | a name followed by `(` is a call, whose argument list is read next |
| ControlBoxPrint.ParsesAt | src/main/java/wile/redstonepen/blocks/ControlBox.java:1424-1527 | at any level, a printed expression is read back whole, the cursor stops right after it, and its names join the symbols |
| ControlBoxPrint.ParenAt | src/main/java/wile/redstonepen/blocks/ControlBox.java:1500-1503 | a printed operation is read as a factor through its parentheses |
| ControlBoxPrint.BinAt | src/main/java/wile/redstonepen/blocks/ControlBox.java:1427-1493 | the inside of a printed operation, read at its operator's level or looser, is that operation |
| ControlBoxPrint.BinBase | src/main/java/wile/redstonepen/blocks/ControlBox.java:1427-1493 | at its operator's own level, the inside of a printed operation is its two operands joined |
| ControlBoxPrint.FuncAt | src/main/java/wile/redstonepen/blocks/ControlBox.java:1510-1519 | a printed call is read back as that call |
| ControlBoxPrint.ArgsTailAt | src/main/java/wile/redstonepen/blocks/ControlBox.java:1514 | the comma loop reads the printed arguments after the first, up to the closing parenthesis |
| ControlBoxPrint.LineStart | src/main/java/wile/redstonepen/blocks/ControlBox.java:1359-1368 | a clean line is no comment line, and reading its assignment to the end gives an entry without error whose assignment symbol is the lower-cased target |
| ControlBoxPrint.AssignPrefix | src/main/java/wile/redstonepen/blocks/ControlBox.java:1415-1421 | with `t=` in front, the target t is read and then the expression, with t among the symbols |
| ControlBoxPrint.NoAssignPrefix | src/main/java/wile/redstonepen/blocks/ControlBox.java:1414-1421 | without `name=` in front, the expression is assigned to the default name |
| ControlBoxPrint.ParseLineReadsAssignment | src/main/java/wile/redstonepen/blocks/ControlBox.java:1352-1422 | the line `t=<printed expression>` is read as the assignment of that expression to t, without error, with t and the expression's names as symbols |
| ControlBoxPrint.ParseLineReadsDefault | src/main/java/wile/redstonepen/blocks/ControlBox.java:1352-1422 | a printed expression on its own is read as its assignment to the default name, without error |
| ControlBoxPrint.ParseLineChain | src/main/java/wile/redstonepen/blocks/ControlBox.java:1427-1493 | the line `a-b-c` is read as `(a-b)-c` assigned to the default name, without error |
| ControlBoxPrint.FailClimbs | src/main/java/wile/redstonepen/blocks/ControlBox.java:1424-1493 | an exception raised while reading an operand passes unchanged through every level above it |
| ControlBoxPrint.LineFails | src/main/java/wile/redstonepen/blocks/ControlBox.java:1359-1371 | an exception from `expr_assign` becomes the line's error, at the index it was thrown at, with no expression and no assignment |
| ControlBoxPrint.LineStops | src/main/java/wile/redstonepen/blocks/ControlBox.java:1361-1365 | an assignment that ends before the line does gives `invalid_character` at the first unread position, with no expression |
| ControlBoxPrint.ParseLineNonAscii | src/main/java/wile/redstonepen/blocks/ControlBox.java:1378-1390 | a line whose first character is above 127 fails with `invalid_character` at index 0 |
| ControlBoxPrint.ParseLineTrailing | src/main/java/wile/redstonepen/blocks/ControlBox.java:1352-1376 | a printed expression followed by a stray `)` fails with `invalid_character` at the parenthesis, keeping the symbols read so far |
| ControlBoxPrint.ParseLineReadonly | src/main/java/wile/redstonepen/blocks/ControlBox.java:1412-1418 | assigning to a function name fails with `symbol_readonly` just after the `=` |
| ControlBoxPrint.ParseLineEmptyCall | src/main/java/wile/redstonepen/blocks/ControlBox.java:1510-1519 | `n()` fails just after the `)`: with `unknown_function` when n is no function, with `invalid_number_of_arguments` when n takes arguments |
| ControlBoxExpr.Bool | src/main/java/wile/redstonepen/blocks/ControlBox.java:1156-1157 | true is 15 and false is 0, and nothing else is either |
| ControlBoxExpr.Get | src/main/java/wile/redstonepen/blocks/ControlBox.java:1180 | `getOrDefault` gives the stored value, or the default for an absent key |
| ControlBoxExpr.Calc | src/main/java/wile/redstonepen/blocks/ControlBox.java:1151-1308 | `!` and the logical and comparison operators yield 15 or 0; an assignment to a non-empty name leaves its result stored under that name |
| ControlBoxExpr.CalcDivMod | src/main/java/wile/redstonepen/blocks/ControlBox.java:1220-1230 | `/` and `%` compute the divisor first; a divisor that is not positive gives 0 without computing the dividend; otherwise the result is the quotient rounded toward zero, or the remainder that goes with it |
| ControlBoxExpr.Apply | src/main/java/wile/redstonepen/blocks/ControlBox.java:1244-1295 | the logical and comparison operators yield 15 or 0 |
| ControlBoxExpr.Arg | src/main/java/wile/redstonepen/blocks/ControlBox.java:1194 | computing an argument never draws fewer random numbers than before |
| ControlBoxExpr.ArgsFrom | src/main/java/wile/redstonepen/blocks/ControlBox.java:943-947 | the stream computes one value per remaining argument |
| ControlBoxExpr.MaxOf | src/main/java/wile/redstonepen/blocks/ControlBox.java:943 | the maximum is one of the values and no value exceeds it |
| ControlBoxExpr.MinOf | src/main/java/wile/redstonepen/blocks/ControlBox.java:944 | the minimum is one of the values and no value is below it |
| ControlBoxExpr.CallBuiltin | src/main/java/wile/redstonepen/blocks/ControlBox.java:942-966 | calling a built-in never rewinds the random source |
| ControlBoxExpr.BuiltinResults | src/main/java/wile/redstonepen/blocks/ControlBox.java:933-946 | `inv` gives 15-x for x in 0..15, 0 above, 15 below, and 0 when 15-x overflows; `max`/`min` give the largest/smallest argument; one-argument `lim` is within 0..15 and one-argument `if` is 15 or 0 |
| ControlBoxExpr.LimitFunction | src/main/java/wile/redstonepen/blocks/ControlBox.java:919-927 | no arguments give 0; one argument gives a value in 0..15 |
| ControlBoxExpr.IfFunction | src/main/java/wile/redstonepen/blocks/ControlBox.java:929-937 | no arguments give 0; one argument gives 15 or 0 |
| ControlBoxExpr.CounterStep | src/main/java/wile/redstonepen/blocks/ControlBox.java:785-800 | the count stays within its bounds when they do not cross; a reset gives the clamped 0; a rising-only pair counts up, a falling-only pair counts down, a steady pair keeps the count, each within the bounds; one argument counts up on a positive input |
| ControlBoxExpr.Counter | src/main/java/wile/redstonepen/blocks/ControlBox.java:780-803 | no arguments give 0; otherwise the count is stored under the counter's key, and with at most two arguments it is never negative |
| ControlBoxExpr.Shorten | src/main/java/wile/redstonepen/blocks/ControlBox.java:827-836 | the deadline becomes at most the given time and at most its old value (20 when absent), and no other key changes |
| ControlBoxExpr.Timer | src/main/java/wile/redstonepen/blocks/ControlBox.java:805-917 | a timer yields 15 or 0, or 0 when it has not exactly two arguments |
| ControlBoxExpr.TimerStep | src/main/java/wile/redstonepen/blocks/ControlBox.java:808-916 | every timer evaluation with its two arguments known yields 15 or 0 |
| ControlBoxExpr.OnDelaySwitching | src/main/java/wile/redstonepen/blocks/ControlBox.java:805-841 | the on-delay output is never high while the input is low; a low input resets the elapsed time and clock; a high input with no preset or with the preset reached gives high; a first high input starts the clock and schedules a recheck within the preset; a running timer counts the elapsed ticks, capped at the preset, and goes high exactly when they reach it |
| ControlBoxExpr.OffDelaySwitching | src/main/java/wile/redstonepen/blocks/ControlBox.java:843-879 | the off-delay output is never low while the input is high; a high input resets it and gives high; a low input with no preset gives high, and with the preset reached gives low; a first low input starts the clock, holds high and schedules a recheck; a running timer goes low exactly when the elapsed ticks reach the preset |
| ControlBoxExpr.PulseSwitching | src/main/java/wile/redstonepen/blocks/ControlBox.java:881-918 | with no preset the pulse output follows the input; an idle timer goes high exactly on a high input and then starts its clock; an expired pulse stays low, re-arming only when the input is low; a running pulse stays high, whatever the input, until the elapsed ticks reach the preset |
| RedstoneTrack.FaceIndex | src/main/java/wile/redstonepen/blocks/RedstoneTrack.java:84-96 | a face's connection index is below 6 and the connection order lists that face at that index |
| RedstoneTrack.FieldsDisjoint | src/main/java/wile/redstonepen/blocks/RedstoneTrack.java:71-73 | the wire, connector and power masks share no bit |
| RedstoneTrack.PerpIndex | src/main/java/wile/redstonepen/blocks/RedstoneTrack.java:117-142 | a wire's position among the four wires of its face is below 4 |
| RedstoneTrack.WireIndex | src/main/java/wile/redstonepen/blocks/RedstoneTrack.java:117-142 | a wire's bit number is below 24 |
| RedstoneTrack.TableEntry | src/main/java/wile/redstonepen/blocks/RedstoneTrack.java:117-142 | every entry of the wire table is a perpendicular face and direction, stored at the bit number `WireIndex` gives it |
| RedstoneTrack.TableCovers | src/main/java/wile/redstonepen/blocks/RedstoneTrack.java:117-142 | every perpendicular face and direction has its entry in the table |
| RedstoneTrack.FindWire | src/main/java/wile/redstonepen/blocks/RedstoneTrack.java:172-178 | the search finds an entry for the face and direction, or shows that none exists from i on |
| RedstoneTrack.WireBit | src/main/java/wile/redstonepen/blocks/RedstoneTrack.java:172-178 | `getWireBit` is a 64-bit word |
| RedstoneTrack.WireBitShape | src/main/java/wile/redstonepen/blocks/RedstoneTrack.java:172-178 | `getWireBit` is the single bit of the wire, within its face's nibble, for a perpendicular face and direction, and 0 otherwise |
| RedstoneTrack.FindKey | src/main/java/wile/redstonepen/blocks/RedstoneTrack.java:180-181 | the lookup finds the bit a single-bit word holds, or shows that the word is no single wire bit |
| RedstoneTrack.WireBitRoundTrip | src/main/java/wile/redstonepen/blocks/RedstoneTrack.java:172-181 | `getWireBitSideAndDirection(getWireBit(f, d))` is (f, d) for every wire |
| RedstoneTrack.SideAndDirectionRoundTrip | src/main/java/wile/redstonepen/blocks/RedstoneTrack.java:172-181 | `getWireBit` of the face and direction a wire bit decodes to is that bit again |
| RedstoneTrack.BulkConnectorBit | src/main/java/wile/redstonepen/blocks/RedstoneTrack.java:165-166 | `getBulkConnectorBit` is a 64-bit word |
| RedstoneTrack.WireElementsOnFace | src/main/java/wile/redstonepen/blocks/RedstoneTrack.java:220-221 | `getWireElementsOnFace` is a 64-bit word |
| RedstoneTrack.AllElementsOnFace | src/main/java/wile/redstonepen/blocks/RedstoneTrack.java:223-227 | a face's elements are its four wire bits and its connector bit |
| RedstoneTrack.AllElementsOnFaceBits | src/main/java/wile/redstonepen/blocks/RedstoneTrack.java:223-227 | bit i belongs to a face exactly when it is a wire on that face or the face's connector bit |
| RedstoneTrack.VanillaIsDownWire | src/main/java/wile/redstonepen/blocks/RedstoneTrack.java:194-203 | a vanilla wire connection toward a side is exactly the floor wire running toward that side |
| RedstoneTrack.VanillaWireConnectionDirections | src/main/java/wile/redstonepen/blocks/RedstoneTrack.java:183-192 | the list holds exactly the sides with a vanilla wire connection, each once |
| RedstoneTrack.RedstoneConnectionMask | src/main/java/wile/redstonepen/blocks/RedstoneTrack.java:208-218 | each side's connection mask is a 64-bit word |
| RedstoneTrack.RedstoneMaskBits | src/main/java/wile/redstonepen/blocks/RedstoneTrack.java:208-218 | a side's constant mask holds exactly the wires running toward that side and the side's connector bit |
| RedstoneTrack.HasRedstoneConnectionMeaning | src/main/java/wile/redstonepen/blocks/RedstoneTrack.java:208-218 | a side has a redstone connection exactly when some wire runs toward it or its connector is set |
| RedstoneTrack.InternalEdgeKeys | src/main/java/wile/redstonepen/blocks/RedstoneTrack.java:145-158 | each internal edge joins the two wires that meet at the edge between two faces |
| RedstoneTrack.WireFlags | src/main/java/wile/redstonepen/blocks/RedstoneTrack.java:809-810 | `getWireFlags` is a 64-bit word |
| RedstoneTrack.ConnectionFlags | src/main/java/wile/redstonepen/blocks/RedstoneTrack.java:818-819 | `getConnectionFlags` is a 64-bit word |
| RedstoneTrack.FieldAccess | src/main/java/wile/redstonepen/blocks/RedstoneTrack.java:809-819 | the wire flags are the low 24 bits of the state and the connection flags are bits 24..29 |
| RedstoneTrack.FlagAccess | src/main/java/wile/redstonepen/blocks/RedstoneTrack.java:812-822 | `getWireFlag(i)` and `getConnectionFlag(i)` read bit i of the respective field |
| RedstoneTrack.PowerShift | src/main/java/wile/redstonepen/blocks/RedstoneTrack.java:827-837 | a side's power nibble lies within the power field |
| RedstoneTrack.SetSidePower | src/main/java/wile/redstonepen/blocks/RedstoneTrack.java:833-837 | after `setSidePower` the side reads back the low four bits of the value, and every bit outside its nibble is kept |
| RedstoneTrack.SetSidePowerOthers | src/main/java/wile/redstonepen/blocks/RedstoneTrack.java:827-837 | setting one side's power leaves every other side's power unchanged |
| RedstoneTrack.SetSidePowerSame | src/main/java/wile/redstonepen/blocks/RedstoneTrack.java:827-837 | writing a side's own power back changes nothing |
| RedstoneTrack.DustCount | src/main/java/wile/redstonepen/blocks/RedstoneTrack.java:858-875 | the two counting loops count exactly the set wire and connector bits |
| RedstoneTrack.FieldCount | src/main/java/wile/redstonepen/blocks/RedstoneTrack.java:860-873 | one counting loop counts exactly the set bits of its field |
| RedstoneTrack.AddWireFlags | src/main/java/wile/redstonepen/blocks/RedstoneTrack.java:796-807 | the new state is the old one with the given wire bits added; the count returned is the number of wires that were new, which is exactly how much the dust count grows |
| RedstoneTrack.FlipMask | src/main/java/wile/redstonepen/blocks/RedstoneTrack.java:883-903 | the bit to flip is a 64-bit word |
| RedstoneTrack.FlipMaskShape | src/main/java/wile/redstonepen/blocks/RedstoneTrack.java:883-903 | the bit to flip is 0 or a single wire or connector bit of the clicked face |
| RedstoneTrack.Remove | src/main/java/wile/redstonepen/blocks/RedstoneTrack.java:906-918 | removing keeps the state a 64-bit word |
| RedstoneTrack.HandleActivation | src/main/java/wile/redstonepen/blocks/RedstoneTrack.java:879-929 | an activation keeps the state a 64-bit word |
| RedstoneTrack.ActivationConservesDust | src/main/java/wile/redstonepen/blocks/RedstoneTrack.java:879-929 | the dust in the block changes by exactly the material used: removal returns what it takes away, placement consumes one |
| RedstoneTrack.DustFlip | src/main/java/wile/redstonepen/blocks/RedstoneTrack.java:858-875 | setting one more wire or connector bit adds one to the dust count |
| RedstoneTrack.RemoveConservesDust | src/main/java/wile/redstonepen/blocks/RedstoneTrack.java:906-918 | removing a set bit returns exactly the dust removed |
| RedstoneTrack.ActivationEffects | src/main/java/wile/redstonepen/blocks/RedstoneTrack.java:879-929 | removing a present element returns material and clears it; a connector never stays on a face without wires; a block without wires is cleared; a placement sets the bit and costs one; otherwise nothing changes |
| RedstoneTrack.RemoveEffects | src/main/java/wile/redstonepen/blocks/RedstoneTrack.java:906-918 | removal returns material, clears the flipped bit, drops a connector left without wires on its face, and clears a block left without wires |
| RedstoneTrack.HandlePostPlacement | src/main/java/wile/redstonepen/blocks/RedstoneTrack.java:1011-1023 | losing support keeps the state a 64-bit word |
| RedstoneTrack.PostPlacementEffects | src/main/java/wile/redstonepen/blocks/RedstoneTrack.java:1011-1023 | a supported face changes nothing; an unsupported face loses exactly its elements, and the dust dropped is exactly what was removed; the block survives exactly when wires remain |
| RedstoneTrack.DustMonotone | src/main/java/wile/redstonepen/blocks/RedstoneTrack.java:858-875 | a state holding every bit of another holds at least as much dust |
| RedstoneTrack.CountMonotone | src/main/java/wile/redstonepen/blocks/RedstoneTrack.java:858-875 | counting set bits is monotone in the bits set |
| CircuitComponents.FacingRow | src/main/java/wile/redstonepen/blocks/CircuitComponents.java:74-112 | each mounting face lists exactly four sides, in the order front, right, back, left |
| CircuitComponents.SidesInPlane | src/main/java/wile/redstonepen/blocks/CircuitComponents.java:74-112 | front and right lie in the plane of the mounting face, back and left are their opposites, and front is perpendicular to right |
| CircuitComponents.SidesAt | src/main/java/wile/redstonepen/blocks/CircuitComponents.java:398-414 | for every face and rotation the four mapped sides lie in the mounting plane, pair up as opposites and meet at right angles |
| CircuitComponents.ReverseFrom | src/main/java/wile/redstonepen/blocks/CircuitComponents.java:114-128 | the reverse lookup keeps the last internal side, in enumeration order, whose forward mapping is the world side, and none when no side maps there |
| CircuitComponents.ForwardInjective | src/main/java/wile/redstonepen/blocks/CircuitComponents.java:114-128 | two internal sides never map to the same world side, so the forward table is a bijection |
| CircuitComponents.ReverseOfForward | src/main/java/wile/redstonepen/blocks/CircuitComponents.java:416-420 | reverse-mapping a forward-mapped side gives back the internal side |
| CircuitComponents.ForwardOfReverse | src/main/java/wile/redstonepen/blocks/CircuitComponents.java:416-420 | every world side has an internal side, and forward-mapping it gives the world side back |
| CircuitComponents.InPlaneIsSide | src/main/java/wile/redstonepen/blocks/CircuitComponents.java:398-408 | any side other than the mounting face and its opposite is one of front, right, back or left |
| CircuitComponents.PlacementFacesHit | src/main/java/wile/redstonepen/blocks/CircuitComponents.java:276-324 | the rotation chosen at placement turns the component's front towards the direction of the click within the face |
| CircuitComponents.PlaceComponent | src/main/java/wile/redstonepen/blocks/CircuitComponents.java:269-328 | placement succeeds exactly when the base placement and the survival test pass, and yields an unpowered component in state 0 mounted opposite the clicked face |
| CircuitComponents.SignalOnlyAtOutput | src/main/java/wile/redstonepen/blocks/CircuitComponents.java:496-630 | a relay emits 0 or 15, and 15 exactly when it is active and the queried side is the one facing its output |
| CircuitComponents.Update | src/main/java/wile/redstonepen/blocks/CircuitComponents.java:518-660 | a neighbour update keeps the component valid and never changes its orientation |
| CircuitComponents.Tick | src/main/java/wile/redstonepen/blocks/CircuitComponents.java:505-639 | a scheduled tick keeps the component valid and its orientation, and never schedules another tick |
| CircuitComponents.RelayTiming | src/main/java/wile/redstonepen/blocks/CircuitComponents.java:505-532 | a relay turns on at once when powered, and turns off only on the tick that an unpowered update schedules |
| CircuitComponents.InvertedRelayTiming | src/main/java/wile/redstonepen/blocks/CircuitComponents.java:552-579 | an inverted relay releases at once when unpowered, and latches only on the tick that a powered update schedules |
| CircuitComponents.RelaySettles | src/main/java/wile/redstonepen/blocks/CircuitComponents.java:505-579 | after an update and the following tick with steady input, a relay's powered flag equals its input |
| CircuitComponents.BistableToggles | src/main/java/wile/redstonepen/blocks/CircuitComponents.java:597-615 | a bistable relay follows its input in the powered flag, flips its state only on a rising edge, and ignores ticks |
| CircuitComponents.PulseFires | src/main/java/wile/redstonepen/blocks/CircuitComponents.java:633-660 | a pulse relay sets its state on a rising edge, otherwise keeps it, always schedules a tick when none is pending, and its tick clears the state |
| StandardBlocks.FlagAtIndex | src/main/java/wile/redstonepen/libmc/blocks/StandardBlocks.java:63-74 | each flag has its own bit number below 12, and that number names the flag back |
| StandardBlocks.FlagBit | src/main/java/wile/redstonepen/libmc/blocks/StandardBlocks.java:63-74 | each `CFG_` constant is the single bit 2^k at its flag's bit number k |
| StandardBlocks.FlagBitsDistinct | src/main/java/wile/redstonepen/libmc/blocks/StandardBlocks.java:63-74 | two flags have equal constants exactly when they are the same flag, and the bits of two different flags never meet |
| StandardBlocks.ConfigWord | src/main/java/wile/redstonepen/libmc/blocks/StandardBlocks.java:63-74 | the `long` of a configuration has the bit of each of its flags set, no other flag's bit, and nothing from bit 12 up |
| StandardBlocks.ConfigTest | src/main/java/wile/redstonepen/libmc/blocks/StandardBlocks.java:95-97 | `(config & CFG_X) != 0` holds exactly when the flag is in the configuration |
| StandardBlocks.ConfigAdd | src/main/java/wile/redstonepen/libmc/blocks/StandardBlocks.java:261 | or-ing `CFG_X` into `config` gives the word of the configuration with the flag added |
| StandardBlocks.ConfigWordDetermines | src/main/java/wile/redstonepen/libmc/blocks/StandardBlocks.java:63-74 | two configurations are stored as the same `long` exactly when they hold the same flags, so the set of flags and the word carry the same information |
| StandardBlocks.RenderHint | src/main/java/wile/redstonepen/libmc/blocks/StandardBlocks.java:93-99 | the render hint is never translucent-without-crumbling |
| StandardBlocks.RenderHintPriority | src/main/java/wile/redstonepen/libmc/blocks/StandardBlocks.java:93-99 | cutout wins over mipped cutout, which wins over translucent, and a block with none of the three renders solid, in both directions |
| StandardBlocks.RenderHintIgnoresOthers | src/main/java/wile/redstonepen/libmc/blocks/StandardBlocks.java:93-99 | adding flags other than the three render flags never changes the hint |
| StandardBlocks.StoredConfigFlags | src/main/java/wile/redstonepen/libmc/blocks/StandardBlocks.java:258-440 | a block keeps every flag its caller passed, water-loggable families always carry CFG_WATERLOGGABLE and horizontal families CFG_HORIZIONTAL, and nothing else is added |
| StandardBlocks.StoredConfigIdempotent | src/main/java/wile/redstonepen/libmc/blocks/StandardBlocks.java:258-440 | passing an already stored configuration through a family's constructors again changes nothing |
| StandardBlocks.Waterlogged | src/main/java/wile/redstonepen/libmc/blocks/StandardBlocks.java:186-196 | a placed block has a WATERLOGGED value exactly when it is water-loggable, and that value is whether the clicked position holds water |
| StandardBlocks.Pathfindable | src/main/java/wile/redstonepen/libmc/blocks/StandardBlocks.java:181-182 | a block lets mobs path through only when it is AI-passable and the vanilla test agrees |
| StandardBlocks.Flipped | src/main/java/wile/redstonepen/libmc/blocks/StandardBlocks.java:341-400 | the trailing flips keep the axis, and leave the facing unchanged exactly when the opposite-placement flag and the sneaking flip are both on or both off |
| StandardBlocks.DirectedFacingCases | src/main/java/wile/redstonepen/libmc/blocks/StandardBlocks.java:326-344 | a directed block faces the horizontal look direction, the clicked face, or the nearest look direction according to its flags, then flipped, and refuses a floor or ceiling click only when horizontal without look placement |
| StandardBlocks.DirectedHorizontalStaysHorizontal | src/main/java/wile/redstonepen/libmc/blocks/StandardBlocks.java:326-344 | a horizontal directed block is never placed facing up or down |
| StandardBlocks.FlipsCancel | src/main/java/wile/redstonepen/libmc/blocks/StandardBlocks.java:341-342 | with both flip flags set, a sneaking player gets the unflipped facing and a standing one the opposite |
| StandardBlocks.HorizontalFacing | src/main/java/wile/redstonepen/libmc/blocks/StandardBlocks.java:387-402 | a horizontal block always ends up facing sideways |
| StandardBlocks.HorizontalFacingClicked | src/main/java/wile/redstonepen/libmc/blocks/StandardBlocks.java:387-402 | without look placement, a horizontal block clicked on a side takes that side, up to the flips |
| StandardBlocks.PropertySide | src/main/java/wile/redstonepen/libmc/blocks/StandardBlocks.java:449-452 | each four-way side property names a horizontal direction |
| StandardBlocks.DirectionProperty | src/main/java/wile/redstonepen/libmc/blocks/StandardBlocks.java:513-521 | each horizontal face selects its own property, and up or down selects NORTH |
| StandardBlocks.DirectionPropertyRoundTrip | src/main/java/wile/redstonepen/libmc/blocks/StandardBlocks.java:513-521 | the property of a side's own direction is that side |
| ItemStacks.IgnoreDamageOneWay | src/main/java/wile/redstonepen/libmc/Inventories.java:34-44 | the comparison ignoring damage is one-way: an undamaged tool matches the same tool with a custom name but not the reverse, and a damaged tool matches its undamaged twin without being identical to it |
| ItemStacks.IgnoreDamageTransitive | src/main/java/wile/redstonepen/libmc/Inventories.java:34-44 | a stack that matches b ignoring damage, where b matches c, matches c |
| ItemStacks.Checked | src/main/java/wile/redstonepen/libmc/Inventories.java:65-66 | an empty stack is normalised to the canonical empty stack, any other stack is returned unchanged |
| ItemStacks.Comparisons | src/main/java/wile/redstonepen/libmc/Inventories.java:28-47 | comparisons use the item `getItem()` reports, which is air for an empty stack: any two empty stacks are identical, an empty and a non-empty one never are, nothing stacks on an empty stack, and identical stacks are identical ignoring damage |
| ItemStacks.ItemCount | src/main/java/wile/redstonepen/libmc/Inventories.java:281 | a stack counts zero items exactly when it is empty |
| ItemStacks.ItemsUpdate | src/main/java/wile/redstonepen/libmc/Inventories.java:304-336 | replacing one slot changes the inventory's item total by exactly the difference of the two stacks |
| ItemStacks.ItemsSplit | src/main/java/wile/redstonepen/libmc/Inventories.java:251-268 | the item total of two concatenated slot lists is the sum of their totals |
| InventoryRange.Make | src/main/java/wile/redstonepen/libmc/Inventories.java:104-110 | the offset is clamped into the container and the size to what remains after it, in-range arguments are kept, and the stack limit starts at 64 |
| InventoryRange.PlayerRangesPartition | src/main/java/wile/redstonepen/libmc/Inventories.java:95-102 | the hotbar is slots 0-8, storage slots 9-35, and together they make up the 36-slot player inventory |
| InventoryRange.MakeAddresses | src/main/java/wile/redstonepen/libmc/Inventories.java:104-131 | every index of a clamped range addresses a slot of the container |
| InventoryRange.GetAfterSet | src/main/java/wile/redstonepen/libmc/Inventories.java:127-131 | `get(j)` after `set(i, s)` returns s when j is i, and the earlier stack at every other index |
| InventoryRange.Set | src/main/java/wile/redstonepen/libmc/Inventories.java:130-131 | writing index i of a range changes container slot offset + i to the stack and no other slot |
| InventoryRange.View | src/main/java/wile/redstonepen/libmc/Inventories.java:225-246 | iterating a range yields exactly its size stacks, the i-th being the range's index i |
| InventoryRange.SetMaxStackSize | src/main/java/wile/redstonepen/libmc/Inventories.java:139-140 | the stored limit is the requested count when it is at least 1, never below 1, and the range itself is unchanged |
| InventoryRange.MaxStackSize | src/main/java/wile/redstonepen/libmc/Inventories.java:173-174 | the effective limit is the smaller of the range's limit and the container's |
| InventoryRange.IndexOf | src/main/java/wile/redstonepen/libmc/Inventories.java:204-205 | the result is the first slot holding a stack identical to the given one, or -1 when there is none |
| InventoryRange.ContainsIndexOf | src/main/java/wile/redstonepen/libmc/Inventories.java:201-205 | a range contains a stack exactly when indexOf finds it |
| InventoryRange.MatchCount | src/main/java/wile/redstonepen/libmc/Inventories.java:251-258 | no more stacks match than there are slots |
| InventoryRange.MatchCountZero | src/main/java/wile/redstonepen/libmc/Inventories.java:251-258 | the match count is zero exactly when indexOf reports -1 |
| InventoryRange.StackMatchCount | src/main/java/wile/redstonepen/libmc/Inventories.java:251-258 | the loop counts the slots holding a stack identical to the reference |
| InventoryRange.TotalMatchingItemCount | src/main/java/wile/redstonepen/libmc/Inventories.java:260-268 | the loop sums the counts of the slots holding a stack identical to the reference |
| InventoryRange.MatchTotalAtLeastCount | src/main/java/wile/redstonepen/libmc/Inventories.java:251-268 | when every identical slot is non-empty, the matching item total is at least the number of matching stacks |
| InventoryRange.InsertAt | src/main/java/wile/redstonepen/libmc/Inventories.java:389-406 | inserting into one slot touches no other slot |
| InventoryRange.InsertAtEffects | src/main/java/wile/redstonepen/libmc/Inventories.java:389-406 | an empty slot takes the whole stack, a full or different slot refuses it unchanged, a partial identical slot grows no further than the limit, and no item is created or lost |
| InventoryInsert.Slot | src/main/java/wile/redstonepen/libmc/Inventories.java:287-298 | the scan visits slot i forwards, or slot n-1-i in reverse |
| InventoryInsert.Matches | src/main/java/wile/redstonepen/libmc/Inventories.java:286-295 | a slot is marked as a match exactly when it is non-empty and identical to the stack being moved |
| InventoryInsert.Empties | src/main/java/wile/redstonepen/libmc/Inventories.java:286-295 | a slot is marked empty exactly when its stack is empty |
| InventoryInsert.LimitLeft | src/main/java/wile/redstonepen/libmc/Inventories.java:282 | the insert limit is the item's max stack size, or the positive requested limit when smaller |
| InventoryInsert.FillUpFrame | src/main/java/wile/redstonepen/libmc/Inventories.java:297-312 | the fill-up pass leaves empty slots, non-matching slots and slots not yet reached unchanged |
| InventoryInsert.FillStepLegal | src/main/java/wile/redstonepen/libmc/Inventories.java:299-311 | topping up one slot keeps it of the moved item and within its max stack size, and spends no more than the limit |
| InventoryInsert.FillStepConserves | src/main/java/wile/redstonepen/libmc/Inventories.java:299-311 | topping up one slot moves items from the input to the slot without creating or losing any |
| InventoryInsert.FillUpLegal | src/main/java/wile/redstonepen/libmc/Inventories.java:297-312 | after the fill-up pass every matching slot still holds the moved item within its maximum, and the limit has only shrunk |
| InventoryInsert.FillUpKeepsItems | src/main/java/wile/redstonepen/libmc/Inventories.java:297-312 | the fill-up pass conserves the items of the slots plus the input |
| InventoryInsert.FillUpSpendsLimit | src/main/java/wile/redstonepen/libmc/Inventories.java:297-312 | every item the fill-up pass places is charged to the limit |
| InventoryInsert.FillUpUsesAll | src/main/java/wile/redstonepen/libmc/Inventories.java:302-305 | when the fill-up pass finishes early, the whole input went into the slots and fitted the limit |
| InventoryInsert.FillUpFillsFirst | src/main/java/wile/redstonepen/libmc/Inventories.java:297-312 | if the fill-up pass did not absorb everything, every matching slot it passed is full or the limit is spent |
| InventoryInsert.Bounds | src/main/java/wile/redstonepen/libmc/Inventories.java:317-328 | the grouping bounds are matching interior slots, in scan order, and the end is set only after the start |
| InventoryInsert.Between | src/main/java/wile/redstonepen/libmc/Inventories.java:329-338 | a slot chosen between the bounds is empty and accepts the stack |
| InventoryInsert.BetweenIsBetween | src/main/java/wile/redstonepen/libmc/Inventories.java:317-338 | in a forward scan the chosen slot lies strictly between two matching interior slots |
| InventoryInsert.BetweenNeverInReverse | src/main/java/wile/redstonepen/libmc/Inventories.java:317-338 | in a reverse scan the start index exceeds the end, so the between-placement never fires |
| InventoryInsert.Adjacent | src/main/java/wile/redstonepen/libmc/Inventories.java:341-355 | a slot chosen next to a stack is empty, accepts the stack, and neighbours a matching interior slot |
| InventoryInsert.AnyEmpty | src/main/java/wile/redstonepen/libmc/Inventories.java:358-367 | the last pass picks the first empty accepting slot in scan order, and finds none exactly when no such slot remains |
| InventoryInsert.Target | src/main/java/wile/redstonepen/libmc/Inventories.java:314-367 | the placement target is an empty slot that accepts the stack, and there is none exactly when no slot is both |
| InventoryInsert.Place | src/main/java/wile/redstonepen/libmc/Inventories.java:361-366 | placing into one slot changes no other slot |
| InventoryInsert.PlaceConserves | src/main/java/wile/redstonepen/libmc/Inventories.java:347-366 | placing puts at most the limit of the moved item into the empty slot and hands back the rest, without creating or losing items |
| InventoryInsert.Insert | src/main/java/wile/redstonepen/libmc/Inventories.java:278-281 | inserting an empty stack changes nothing and leaves nothing over |
| InventoryInsert.Finish | src/main/java/wile/redstonepen/libmc/Inventories.java:313-368 | the placement pass changes at most its target slot |
| InventoryInsert.FinishConserves | src/main/java/wile/redstonepen/libmc/Inventories.java:313-368 | the placement pass conserves items, respects the limit, changes nothing when only filling up, and leaves over only the moved item |
| InventoryInsert.FillableInitially | src/main/java/wile/redstonepen/libmc/Inventories.java:286-295 | the matches and empties the first scan records are consistent with the slots |
| InventoryInsert.InsertConserves | src/main/java/wile/redstonepen/libmc/Inventories.java:278-369 | insert conserves items, places no more than the limit, and hands back only the moved item |
| InventoryInsert.InsertChangedSlots | src/main/java/wile/redstonepen/libmc/Inventories.java:278-369 | every changed slot holds the moved item within its max stack size, fill-up-only mode fills no empty slot, and at most one empty slot is used |
| InventoryInsert.InsertFillsMatchesFirst | src/main/java/wile/redstonepen/libmc/Inventories.java:296-312 | an empty slot is used only once every identical stack is full |
| InventoryInsert.AsWrittenIgnoresRoom | src/main/java/wile/redstonepen/libmc/Inventories.java:376-382 | with room computed as count minus maximum, the simulation never credits the room in partially filled stacks |
| InventoryInsert.SimulateAsWrittenDisagrees | src/main/java/wile/redstonepen/libmc/Inventories.java:371-384 | with ten items in a slot of 64, a real insert of five takes them all, while the simulation as written reports all five left over |
| InventoryInsert.SimulateFromRoom | src/main/java/wile/redstonepen/libmc/Inventories.java:371-384 | with room taken as maximum minus count, a simulated insert predicts nothing left when an empty slot remains, and otherwise the input less the free room in stacks of its item |
| InventoryInsert.RoomSameItem | src/main/java/wile/redstonepen/libmc/Inventories.java:376-382 | the free room a range offers depends only on the input's item, not its count |
| InventoryInsert.InsertOrSimulate | src/main/java/wile/redstonepen/libmc/Inventories.java:371-387 | simulation leaves the slots unchanged, an empty input does nothing, and a real insert is the default-option insert |
| InventoryExtract.ScanIndex | src/main/java/wile/redstonepen/libmc/Inventories.java:423-425 | the scan visits slot (offset + k) mod size |
| InventoryExtract.ScanIndexInjective | src/main/java/wile/redstonepen/libmc/Inventories.java:423-425 | the scan visits every slot at most once |
| InventoryExtract.Grow | src/main/java/wile/redstonepen/libmc/Inventories.java:445 | growing the extracted stack writes through to a slot only when the stack aliases it |
| InventoryExtract.Step | src/main/java/wile/redstonepen/libmc/Inventories.java:426-456 | one scan step keeps the extraction state consistent and the slot count fixed |
| InventoryExtract.PullFrom | src/main/java/wile/redstonepen/libmc/Inventories.java:424-457 | the scan from any point keeps the extraction state consistent and the slot count fixed |
| InventoryExtract.ExtractAsWritten | src/main/java/wile/redstonepen/libmc/Inventories.java:420-460 | the extraction as written keeps the number of slots |
| InventoryExtract.Extract | src/main/java/wile/redstonepen/libmc/Inventories.java:420-460 | the extraction keeps the number of slots |
| InventoryExtract.ExtractOverloads | src/main/java/wile/redstonepen/libmc/Inventories.java:414-418 | `extract(amount)` and `extract(amount, random)` give the same result whatever `random` says; for a positive amount they take at most the amount, remove what they return, and return the item of the first filled slot from slot 0 |
| InventoryExtract.SimulationKeepsSlots | src/main/java/wile/redstonepen/libmc/Inventories.java:430-440 | without aliasing, a simulated scan leaves every slot unchanged |
| InventoryExtract.StepCouples | src/main/java/wile/redstonepen/libmc/Inventories.java:426-456 | a simulated and a real step on the same slot contents agree on the extracted stack and the amount left, and the real one touches only its slot |
| InventoryExtract.PullFromCouples | src/main/java/wile/redstonepen/libmc/Inventories.java:424-457 | a simulated and a real scan over slots that agree ahead extract the same stack |
| InventoryExtract.SimulationPredicts | src/main/java/wile/redstonepen/libmc/Inventories.java:420-460 | a simulated extraction changes no slot and returns exactly what the real one would |
| InventoryExtract.StepConserves | src/main/java/wile/redstonepen/libmc/Inventories.java:426-456 | a real step moves items from one slot to the extracted stack without creating or losing any, and touches no other slot |
| InventoryExtract.PullFromConserves | src/main/java/wile/redstonepen/libmc/Inventories.java:424-457 | a real scan conserves the items of the slots plus the extracted stack and never exceeds the amount |
| InventoryExtract.ExtractConserves | src/main/java/wile/redstonepen/libmc/Inventories.java:420-460 | a real extraction takes at most the amount and removes exactly what it returns |
| InventoryExtract.FirstFilled | src/main/java/wile/redstonepen/libmc/Inventories.java:426-428 | the first non-empty slot in scan order, or none when every slot is empty |
| InventoryExtract.PullFromKeepsKind | src/main/java/wile/redstonepen/libmc/Inventories.java:443-456 | once an item is chosen, the scan only adds more of that item |
| InventoryExtract.PullFromFirst | src/main/java/wile/redstonepen/libmc/Inventories.java:426-442 | the extracted item is that of the first non-empty slot scanned, and nothing is extracted from an empty range |
| InventoryExtract.ExtractTakesFirstKind | src/main/java/wile/redstonepen/libmc/Inventories.java:410-460 | extraction returns something exactly when a slot is filled, and its item is the first non-empty stack scanned |
| InventoryExtract.SimulationAsWrittenChangesSlots | src/main/java/wile/redstonepen/libmc/Inventories.java:429-445 | two slots of five and a request for eight: the simulation as written grows the first slot to eight, where the corrected simulation changes nothing |
| InventoryRequest.MatchSlots | src/main/java/wile/redstonepen/libmc/Inventories.java:468-474 | the matching slots are exactly the non-empty slots whose stack matches the request ignoring damage (for a damageable stack, its components all appear in the request with equal values), in slot order |
| InventoryRequest.NamedRequestMatchesPlainTool | src/main/java/wile/redstonepen/libmc/Inventories.java:468-474 | a slot with a plain undamaged tool matches a request for the same tool with a custom name, while a slot with the named tool does not match a request for the plain one |
| InventoryRequest.InsertByCount | src/main/java/wile/redstonepen/libmc/Inventories.java:475 | inserting a slot into the sorted list adds exactly that slot |
| InventoryRequest.SortByCount | src/main/java/wile/redstonepen/libmc/Inventories.java:475 | sorting by count is a permutation of the matching slots |
| InventoryRequest.InsertByCountSorted | src/main/java/wile/redstonepen/libmc/Inventories.java:475 | inserting a later slot into a sorted list keeps it sorted by count, ties kept in slot order |
| InventoryRequest.SortByCountSorted | src/main/java/wile/redstonepen/libmc/Inventories.java:475 | sorting the matching slots orders them by count, ties kept in slot order |
| InventoryRequest.TotalSort | src/main/java/wile/redstonepen/libmc/Inventories.java:475-489 | sorting does not change the total number of matching items |
| InventoryRequest.DrainTakes | src/main/java/wile/redstonepen/libmc/Inventories.java:477-486 | draining takes the smaller of the request and the matching total, and removes exactly that from the slots |
| InventoryRequest.DrainSmallestFirst | src/main/java/wile/redstonepen/libmc/Inventories.java:478-485 | a later stack in the drain order is touched only after every earlier one is emptied |
| InventoryRequest.ExtractRequest | src/main/java/wile/redstonepen/libmc/Inventories.java:465-494 | simulation and an empty request leave the slots unchanged |
| InventoryRequest.ExtractSorted | src/main/java/wile/redstonepen/libmc/Inventories.java:476-494 | extraction changes only matching slots, and simulation changes none |
| InventoryRequest.ExtractSortedTakes | src/main/java/wile/redstonepen/libmc/Inventories.java:476-494 | real extraction returns the smaller of the request and the matching total and removes exactly that, and simulation predicts the same count |
| InventoryRequest.SortedMatches | src/main/java/wile/redstonepen/libmc/Inventories.java:468-476 | the sorted matches are sorted, distinct, non-empty stacks with the same total as the unsorted ones |
| InventoryRequest.ExtractRequestTakes | src/main/java/wile/redstonepen/libmc/Inventories.java:465-495 | a real request extracts the smaller of the request and the matching total, removes exactly that, and touches only matching slots |
| InventoryRequest.ExtractRequestSmallestFirst | src/main/java/wile/redstonepen/libmc/Inventories.java:475-485 | a larger matching stack is drawn on only after every smaller one is emptied |
| InventoryRequest.ExtractRequestSimulates | src/main/java/wile/redstonepen/libmc/Inventories.java:465-495 | simulation leaves the slots unchanged and reports the request capped at the matching total, the same count the real extraction returns |
| RedstonePen.Stored | src/main/java/wile/redstonepen/items/RedstonePenItem.java:292-326 | a valid pen or redstone stack never carries a negative amount of redstone |
| RedstonePen.PlayerExtract | src/main/java/wile/redstonepen/libmc/Inventories.java:49-60 | a non-positive amount extracts nothing, and a simulated extraction leaves the inventory unchanged |
| RedstonePen.PlayerInsertConserves | src/main/java/wile/redstonepen/libmc/Inventories.java:62-63 | inserting redstone into the player's inventory loses no item: what the slots gain plus what is left over is the amount |
| RedstonePen.Push | src/main/java/wile/redstonepen/items/RedstonePenItem.java:285-311 | creative players and non-positive amounts change nothing, and only a pen without durability touches the inventory |
| RedstonePen.Pop | src/main/java/wile/redstonepen/items/RedstonePenItem.java:313-339 | a creative player gets the whole amount for free, and a non-positive amount yields nothing |
| RedstonePen.HasEnough | src/main/java/wile/redstonepen/items/RedstonePenItem.java:341-355 | a creative player always has enough, and a held item that is neither pen nor redstone never does |
| RedstonePen.IsFull | src/main/java/wile/redstonepen/items/RedstonePenItem.java:357-362 | only a pen or a redstone stack can be full |
| RedstonePen.PopConserves | src/main/java/wile/redstonepen/items/RedstonePenItem.java:313-339 | popping moves redstone out of the hand or the inventory without creating any, yields at most the amount, and empties the hand when it yields less than asked |
| RedstonePen.PushConserves | src/main/java/wile/redstonepen/items/RedstonePenItem.java:285-311 | pushing puts the whole amount into the hand, the inventory or the player's drops, and leaves the hand valid |
| RedstonePen.PushRepairsPen | src/main/java/wile/redstonepen/items/RedstonePenItem.java:292-301 | pushing into a durable pen lowers its damage by the amount, down to zero, and gives back only the excess |
| RedstonePen.HasEnoughIffPopDelivers | src/main/java/wile/redstonepen/items/RedstonePenItem.java:313-355 | hasEnoughRedstone holds exactly when popping would deliver the whole amount, and for a durable pen also keep the pen in hand |
| RedstonePen.PopThenPush | src/main/java/wile/redstonepen/items/RedstonePenItem.java:285-339 | pushing back what was popped, while the hand still holds something, restores the hand and the inventory exactly |
| RedstonePen.FullGivesAll | src/main/java/wile/redstonepen/items/RedstonePenItem.java:295-307 | pushing into a full pen or a full redstone stack hands the whole amount back to the player |
| RedstonePen.PopOtherClaimsAll | src/main/java/wile/redstonepen/items/RedstonePenItem.java:330-353 | with any other item in hand, popping reports the whole amount as delivered while hasEnoughRedstone says no |
| ShapelessRecipe.SetDamage | src/main/java/wile/redstonepen/libmc/ExtendedShapelessRecipe.java:100 | setting a damage value stores it when non-negative, never stores a negative one, and changes nothing else |
| ShapelessRecipe.RemainderOf | src/main/java/wile/redstonepen/libmc/ExtendedShapelessRecipe.java:166-167 | an item with a crafting remainder leaves exactly one remainder item |
| ShapelessRecipe.ToolDamage | src/main/java/wile/redstonepen/libmc/ExtendedShapelessRecipe.java:56-61 | tool_repair gives its value clamped to 0..4096 and negated, otherwise tool_damage clamped to 1..1024, otherwise 0 |
| ShapelessRecipe.IsRepairIff | src/main/java/wile/redstonepen/libmc/ExtendedShapelessRecipe.java:56-64 | a recipe repairs exactly when tool_repair is present and positive, and a non-positive tool_repair neither repairs nor wears |
| ShapelessRecipe.ResultItem | src/main/java/wile/redstonepen/libmc/ExtendedShapelessRecipe.java:194-196 | a repairing or dynamic recipe advertises no result, any other recipe its output |
| ShapelessRecipe.SingleRepair | src/main/java/wile/redstonepen/libmc/ExtendedShapelessRecipe.java:93-95 | one set of repair items mends at least one point, and the absolute amount when not relative |
| ShapelessRecipe.CeilingIsLeast | src/main/java/wile/redstonepen/libmc/ExtendedShapelessRecipe.java:96-97 | for non-negative damage the rounded-up quotient is the fewest repairs that mend all of it |
| ShapelessRecipe.RepairArithmetic | src/main/java/wile/redstonepen/libmc/ExtendedShapelessRecipe.java:96-100 | with enough material the tool is fully mended with no repair wasted, otherwise every available repair is used and damage remains, and damage never grows |
| ShapelessRecipe.NormalRemaining | src/main/java/wile/redstonepen/libmc/ExtendedShapelessRecipe.java:150-171 | a normal craft leaves one remainder per grid slot, each determined by that slot alone |
| ShapelessRecipe.NormalCraftWearsTool | src/main/java/wile/redstonepen/libmc/ExtendedShapelessRecipe.java:150-171 | a damageable tool comes back worn by tool_damage unless that reaches its maximum, an undamageable tool comes back unchanged, other slots leave their remainder item or nothing |
| ShapelessRecipe.InitialDamageEffects | src/main/java/wile/redstonepen/libmc/ExtendedShapelessRecipe.java:180-190 | a crafted item gets the damage that leaves initial_durability, or initial_damage capped at the maximum, and is otherwise unchanged |
| ShapelessRecipe.NonEmpty | src/main/java/wile/redstonepen/libmc/ExtendedShapelessRecipe.java:217-220 | the ingredient list keeps exactly the non-empty ingredients |
| ShapelessRecipe.ReadIngredients | src/main/java/wile/redstonepen/libmc/ExtendedShapelessRecipe.java:215-222 | a recipe with no ingredients fails with "No ingredients", one with more than nine with "Too many ingredients", and otherwise reads the non-empty ingredients |
| ShapelessRecipe.ResultItemFromTag | src/main/java/wile/redstonepen/libmc/ExtendedShapelessRecipe.java:236-250 | a result without a tag is its own item; with a tag it is the tag's first item, and reading fails exactly when the tag is unknown or holds no items |
| ShapelessRecipe.ReadIngredientsAccepts | src/main/java/wile/redstonepen/libmc/ExtendedShapelessRecipe.java:215-222 | a recipe is read exactly when it has between one and nine non-empty ingredients |
| RecipeRepair.ToolIndex | src/main/java/wile/redstonepen/libmc/ExtendedShapelessRecipe.java:72-82 | the tool is the last grid stack of the named item |
| RecipeRepair.Scanned | src/main/java/wile/redstonepen/libmc/ExtendedShapelessRecipe.java:70-82 | the first scan keeps every material stack in its slot and empties the tool's |
| RecipeRepair.Prepared | src/main/java/wile/redstonepen/libmc/ExtendedShapelessRecipe.java:101-106 | before consuming, each material slot is replaced by its crafting remainder, if it has one |
| RecipeRepair.Totals | src/main/java/wile/redstonepen/libmc/ExtendedShapelessRecipe.java:80 | the repair-item map holds, for every material item present, its total count across the grid |
| RecipeRepair.MinOver | src/main/java/wile/redstonepen/libmc/ExtendedShapelessRecipe.java:91 | the minimum over the map is the count of some present material and no larger than any other, and absent when no material is present |
| RecipeRepair.MinCountIsScarcest | src/main/java/wile/redstonepen/libmc/ExtendedShapelessRecipe.java:91-92 | the scarcest count is non-positive exactly when there is no material, and otherwise is the smallest material total |
| RecipeRepair.Consume | src/main/java/wile/redstonepen/libmc/ExtendedShapelessRecipe.java:107-119 | consuming from a slot onwards leaves earlier slots unchanged |
| RecipeRepair.ConsumeCounts | src/main/java/wile/redstonepen/libmc/ExtendedShapelessRecipe.java:107-119 | consuming takes from each keyed item the owed count, or all of it when it has less, and leaves other items alone |
| RecipeRepair.Repair | src/main/java/wile/redstonepen/libmc/ExtendedShapelessRecipe.java:66-119 | the grid left by a repair, before the tool hook, has one slot per grid slot |
| RecipeRepair.RepairRefuses | src/main/java/wile/redstonepen/libmc/ExtendedShapelessRecipe.java:83-92 | a repair yields nothing exactly when there is no tool, it is not damageable, it is undamaged without over_repair, or there is no material, and then the grid keeps its materials |
| RecipeRepair.RepairMends | src/main/java/wile/redstonepen/libmc/ExtendedShapelessRecipe.java:96-100 | the repaired tool's damage drops by the repairs made, never below zero, and strictly when it was damaged |
| RecipeRepair.RepairUsesFewest | src/main/java/wile/redstonepen/libmc/ExtendedShapelessRecipe.java:91-100 | with enough material the tool is fully mended with no repair wasted, otherwise the repairs equal the scarcest material count |
| RecipeRepair.ConsumeOwed | src/main/java/wile/redstonepen/libmc/ExtendedShapelessRecipe.java:99-119 | owing the same count of every material removes exactly that many of each from the grid |
| RecipeRepair.RepairConsumes | src/main/java/wile/redstonepen/libmc/ExtendedShapelessRecipe.java:96-119 | a repair takes exactly one item of each material per repair made, never more than was there |
| RecipeRepair.RepairRemaining | src/main/java/wile/redstonepen/libmc/ExtendedShapelessRecipe.java:136-149 | the repair's leftovers give one handed-out stack and one grid stack per slot |
| RecipeRepair.RepairRemainingKeepsLeftovers | src/main/java/wile/redstonepen/libmc/ExtendedShapelessRecipe.java:138-149 | a leftover of the slot's own item stays in the grid with one extra item that crafting then removes, a leftover of another item is handed out, and empty slots are left alone |
| RecipeRepair.HookReplacesOnlyTool | src/main/java/wile/redstonepen/libmc/ExtendedShapelessRecipe.java:120-123 | the `IRepairableToolItem` hook is called only on a mended tool, with its damage before and after, and replaces only the tool: a refused repair and an item without the hook keep the repair's result, and the remaining items never change |
| RecipeRepair.RemainingItems | src/main/java/wile/redstonepen/libmc/ExtendedShapelessRecipe.java:135-172 | both kinds of craft give one stack per slot, and a normal craft leaves the grid itself to crafting |

## Left out

- The Minecraft world is not modelled: neighbour notifications, `getSignal` queries on the level, scheduling of ticks, block setting, sounds, particles, item drops and the world-probing half of `updateConnections`. These enter the model as inputs, or as an output such as the relay's "schedule a recheck in 2 ticks".
- RedstoneTrack.HandleActivation: when material is used, Java goes on to rewrite the face's power nibble in the same word through `setSidePower` (RedstoneTrack.java:930-976). That rewrite is driven by world queries and is not modelled, so `ActivationEffects` describes the word as it stands at line 929, not the word `handleActivation` leaves.
- ItemStacks.ComponentsWithin: the max-damage, max-stack-size and damage components are folded into `damageable` and `maxStack`, which must agree between the two stacks. So a request that is unbreakable, which Java still matches when every component of the slot's stack is present in it, is not told apart.
- `BridgeRelayBlock` (`CircuitComponents.java`:667-788) is not modelled, because its input power is a recursive query on the world. `DirectedComponentBlockItem` is not modelled either, because it is item glue.
- Floating point is not modelled: axis-aligned bounding boxes and shapes, `BlockPosRange.of`, `power_rgb`, and bar-width rounding.
- `Math.random` is an oracle. The model proves nothing about the distribution of `rnd()` or of `extract`'s random start slot.
- User interface, rendering, networking and registration glue are not modelled: `GuiTextEditing`, the control-box GUI, tooltips, overlays, `Networking`, `RcaSync`, `SidedProxy`, `Registries` and the `ModContent` files. They hold no logic of the core.
- Concurrency between the mod and the host processes is not modelled. Each side's read or write of a mapped file is one atomic step on the file's contents.
- HostAdapter.Close: `close()` in `rca.hh` (175-178) also calls `util::unlink` on both paths. The model records which files are removed (`HostAdapter.Unlinked`), but there is no file system in the host model, so the removal itself and its ignored failure are not modelled.
- The Windows branch of `mmap.hh` (`CreateFileMapping`/`MapViewOfFile`) is not modelled; only the Linux branch is.
- From `mmap.hh`, path normalisation and the bytes `munmap` and `msync` move are not modelled. The `flags_` member left uninitialised by the default constructor is modelled as 0.
- `FmmRedstoneClientAdapter`'s process-wide singleton (`instance()`, `available()`) is not modelled, and neither is `FileMemMap.remove()`, which deletes the map file. Both are lifecycle glue around the adapter that is modelled.
- In `to_number`, floating-point targets are refused, because that is the first statement of the branch. The unreachable `strtold` code after that return is not modelled.
- HostUtil.ToNumberRoundTrip is stated only for texts within the `digits10` length limit, since longer texts are refused.
- PythonAdapter: values are Python integers. Formatting a non-integer with `{:1x}` raises in Python; this is not modelled.
- The demo programs `host/rca-cc/src/main.cc` and `host/rca-python/rca_example.py` are not modelled, and neither are the constants files.
- BlockPosRange.Volume: sizes and volumes are unbounded integers. The model does not include the Java `int` overflow of a box with more than 2^31 - 1 positions.
- ControlBoxParser.ParseLine: after an exception, the source's `symbols` set keeps the names added before the throw, while a failed line in the model carries none. Only `toString` reads them, because the program collects symbols from error-free lines alone (`ControlBox.java`:1104).
- ControlBoxParser.RelTail: the grouping of a chain of comparisons is stated for one comparison only (`ControlBoxPrint.TailHit`). The loop body of `expr_rel` is seven independent `if`s, so one pass can join several comparisons, and no chain lemma covers that.
- ControlBoxPrint covers the fully parenthesised, blank-free text the printer produces. It does not show that every text the parser accepts is printed back verbatim.
- From `Inventories.java`, the following are not modelled:
  - `move` (503-546), the multi-range `insert(InventoryRange[], stack)` (78-86), `give` (550-555) and `copyOf` (68-76);
  - `removeItem`, `removeItemNoUpdate`, `clearContent`, `isEmpty`, the validator setter and the `stillValid`/`startOpen`/`stopOpen` callbacks;
  - the higher-order helpers `iterate`, `find`, `collect` and `stream`.

  These are compositions of modelled operations with the world, or Java collection plumbing.
- The real (non-simulated) `extract(request_stack)` drains stacks from the sorted list, as modelled. The `Collections.sort` it calls is modelled as a sort by (count, slot), which is what a stable sort of a list in slot order yields.
- Which slots accept an item (`canPlaceItem`), the player's game mode, and the item properties (maximum stack size, damageability, crafting remainder) are inputs.
- From the recipe reader (`ExtendedShapelessRecipe.java`:223-234), the conversion of the `aspects` JSON object to NBT by Minecraft's `TagParser`, with its `JsonParseException` on failure, is not modelled. The model takes the parsed aspects as its `Aspects` value.
- `fromNetwork` and `toNetwork` (`ExtendedShapelessRecipe.java`:254-276) are not modelled. They write and read the recipe's fields one after another with Minecraft's packet buffer, and hold no logic of their own.
- The `IRepairableToolItem` hook is an oracle parameter (`RecipeRepair.RepairHook`). The lemmas about the mended tool (`RepairMends`, `RepairUsesFewest`) describe the tool before the hook, which may hand back any stack.
- `ModConfig`, `RemoteItem`, `libmc/detail/Auxiliaries.java` and `libmc/detail/Inventories.java` are not modelled. They are configuration, NBT or Forge-handler glue.

## Findings

| source | as written | input that shows it | evidently intended | confidence | as-written member | corrected member |
|---|---|---|---|---|---|---|
| host/rca-cc/mmap.hh:177-178 | the result of `mmap` is compared with `nullptr`, but `mmap` reports failure as `MAP_FAILED` (-1), so a failed mapping passes as a successful open | a region opened with a valid size whose `mmap` call fails: `open` returns true and `size()` is the element count | compare with `MAP_FAILED`, and report the failure with `errno` after closing | not executed | MappedFile.MapFailureReportedAsOpen | MappedFile.OpenAgreesWhenMapped |
| src/main/java/wile/redstonepen/libmc/Inventories.java:376-382 | the simulated `insert(stack, true)` takes a slot's room as `count - maxStackSize`, which is never positive for a legal stack, so the simulation never counts any room | one slot holding 10 of an item that stacks to 64, and 5 more of that item: the real insert takes all 5, while the simulation reports 5 left over | room is `maxStackSize - count`, so the simulation predicts the real fill-up | not executed | InventoryInsert.SimulateAsWrittenDisagrees | InventoryInsert.SimulateFromRoom |
| src/main/java/wile/redstonepen/libmc/Inventories.java:429-445 | in simulation, `out_stack = stack` keeps a reference to the slot's stack, and the later `out_stack.grow` adds to that slot, so the simulated extraction changes the inventory | two slots of 5 identical items and a request for 8: the simulation returns 8, and the first slot now holds 8 | copy the stack in simulation, so the inventory is left unchanged and the result matches the real extraction | not executed | InventoryExtract.SimulationAsWrittenChangesSlots | InventoryExtract.SimulationPredicts |
| host/rca-cc/include/util.hh:125-155 | `to_number("")`: the scan converts nothing and stops at the start, which is also the end of the empty string, so the check for unconsumed text passes and the result is 0 | the empty string, for any integral type | the documented "empty optional on a parse error", so no digits means no number | not executed | HostUtil.EmptyStringReadsZero | HostUtil.CheckedDiffersOnlyOnEmpty |
| src/main/java/wile/api/rca/RedstoneClientAdapter.java:122-132 | the mask `(~0xfL) << (4*channel)` clears channel `channel` and every channel below it, so setting a channel zeroes the lower channels | channel 1 set to 5, then channel 2 set to 7: channel 1 now reads 0 | the mask `~(0xfL << (4*channel))`, which clears only the channel written | not executed | ChannelWord.AscendingWritesLose | ChannelWord.IntendedWritesKeep |

Two findings follow the code as written:
- The channel packing. `ChannelWord.SetChannel` and everything built on it reproduce the mask that clears the lower channels. `ChannelWord.SetChannelIntended` is the corrected single-nibble update, and its properties are proved alongside the as-written ones.
- The number parse. `HostUtil.ToNumber` models the code, and `HostUtil.ToNumberChecked` is the checked parse.

The other three findings work the other way: the corrected definition is the one the rest of the model builds on. `MappedFile.Open`, `InventoryInsert.SimulateInsert` and `InventoryExtract.Extract` are corrected definitions, with the as-written versions `OpenAsWritten`, `SimulateInsertAsWritten` and `ExtractAsWritten` kept beside them.
