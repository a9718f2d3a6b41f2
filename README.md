# sevensquare device session, modelled in Dafny

sevensquare mirrors an Android phone's screen on the desktop over `adb`.
Its device side, `adbfb.cpp`, does four jobs:

- It captures the framebuffer with `screencap` and reads the 12-byte
  header (width, height, format).
- It compacts RGBX8888 pixels to RGB888 in place and hands each frame on.
- It turns mouse clicks into `input tap`/`input swipe` or raw `sendevent`
  command lines.
- It wakes the phone. It finds the POWER key in the input devices' key
  layout files, sends it to each candidate device, polls the LCD
  brightness until the screen lights up, and drops the devices that
  failed.

The model keeps the source's structure. Qt-free value logic becomes
datatypes, functions and lemmas; objects whose fields change become
classes:

- `Bytes`: the `QByteArray::mid` slices and `bigEndianToInt32`.
- `Text`: the Qt string operations the code relies on.
- `Commands`: the command builders.
- `KeyLayout`: `outputLinesHas` and `getKeyCodeFromKeyLayout`.
- `Prune`: the "remove at index while incrementing" loops.
- `Delay`: class `Adb`, for `ADB`'s fields `delay` and `connected`.
- `Frame`: class `FbEx`, with `array<byte>` as the frame buffer.
- `Session`: class `AdbExecObject`.

Every method is proved against a specification function of the old
state. The properties the source implies are proved as lemmas about those
functions. Signals the code emits go into an event log (`Events.Event`).
So do the commands handed to `AdbExecutor` through `newCommand`, and the
command `sendPowerKey` runs. The other `adb` runs (the brightness `cat`,
the device listing and layout reads, `screencap`) are not logged; they
appear only through their outputs. What a command prints is an input to
the model: a feed of readings, the captured bytes, or a `DeviceFacts`
value.

Where the code does something other than its names or a first reading suggest, the model follows the code:

- `bigEndianToInt32` does not swap bytes. It copies the four bytes into a
  `uint32_t` in host order, so on the little-endian hosts sevensquare
  runs on it reads little-endian (`Bytes.HostInt32`). A width with the top
  bit set becomes a negative `int` and is rejected.
- The tap window `QRect(-1, -1, 2, 2)` covers offsets -1..0 on each axis,
  not ±1. A release one pixel right of or below the press is a swipe.
- `ADB::setDelay` wakes the waiting thread on every call, not only when
  the delay changes.
- Both pruning loops step over the entry that follows a removed one, so
  two failing neighbours leave the second in the list.
- `posPress` is not cleared by a release. A second release without a new
  press swipes from the old press position.

## Model

| member | source | states |
|---|---|---|
| Bytes.Mid | adbfb.cpp:646-648 | `mid(pos, len)` is empty past the end, the rest for a negative length, `s[pos..pos+len]` when that fits, truncated otherwise |
| Bytes.Drop | adbfb.cpp:615 | `mid(pos)` is the suffix from pos, empty past the end |
| Bytes.HostInt32 | adbfb.cpp:559-569 | the four-byte host-order value, cast to a 32-bit int: negative exactly when the top byte has its high bit set, otherwise the unsigned value (bytes a short slice lacks read as 0) |
| Bytes.Wrap32 | adbfb.cpp:710 | the value a C `int` keeps of an arithmetic result: in the int32 range, congruent modulo 2^32, and the result itself when it fits |
| Bytes.HostInt32OfEncode | adbfb.cpp:559-569 | decoding the bytes a little-endian device stores for any int32 gives that int back |
| Bytes.EncodeOfHostInt32 | adbfb.cpp:559-569 | re-encoding the decoded value of any four bytes gives those bytes back |
| Text.Split | adbfb.cpp:78 | `split(sep)` gives at least one piece, and no piece holds the separator |
| Text.JoinSplit | adbfb.cpp:78 | `split('\n')` loses nothing: joining the pieces gives the output back |
| Text.SplitPiece | adbfb.cpp:262 | a piece without the separator, then the separator, splits off as the first word |
| Text.IndexOf | adbfb.cpp:85 | `indexOf` is -1 exactly when the key occurs nowhere, otherwise the first position where it occurs |
| Text.Simplified | adbfb.cpp:157 | `simplified()`: the words of the text joined by single spaces, the ends trimmed |
| Text.SimplifiedEmptyIff | adbfb.cpp:302-304 | a name line simplifies to the empty string exactly when it is all white space |
| Text.ToInt | adbfb.cpp:157 | `toInt` is the signed decimal value after leading white space when that is well formed and fits an int32; malformed text and out-of-range values give 0; any non-zero result is the text's value |
| Text.NumberToString | adbfb.cpp:188-191 | `QString::number`: non-empty, a leading minus exactly for negative numbers, otherwise only digits |
| Text.ToIntOfNumber | adbfb.cpp:188-191 | `toInt` reads back what `QString::number` writes, for every int32 |
| Commands.Contains | adbfb.cpp:427 | `QRect::contains` as Qt computes it, corners swapped first for a negative extent |
| Commands.TapZoneIff | adbfb.cpp:427 | the tap test holds exactly when both offsets lie in -1..0 |
| Commands.OneBelowIsSwipe | adbfb.cpp:427 | a release one pixel below the press is a swipe; one up-left is a tap |
| Commands.TapArgs | adbfb.cpp:427-443 | the release command is `shell, input tap, x, y` exactly when the offset is a tap, otherwise the six-token `input swipe` from the press position |
| Commands.TapArgsDecode | adbfb.cpp:427-443 | the coordinate tokens read back as the release position and, for a swipe, the press position |
| Commands.EventTokens | adbfb.cpp:454-458 | one `sendevent` group: six tokens, the command, the device, and the closing `;` |
| Commands.ParseEncode | adbfb.cpp:448-461 | any list of int32 sendevent groups is recovered from its token stream |
| Commands.NewEventCmd | adbfb.cpp:448-461 | one `sendevent` group of six tokens on the legacy event0 device |
| Commands.SendEventArgs | adbfb.cpp:463-487 | `shell` followed by 1 + 6·(5 + [press] + 2·[release]) tokens in total |
| Commands.LegacyEvents | adbfb.cpp:463-487 | 5 + [press] + 2·[release] events, all on event0, all int32 when the position is |
| Commands.SendEventArgsEncode | adbfb.cpp:463-487 | the tokens after `shell` are exactly the encoding of the event list |
| Commands.SendEventArgsParse | adbfb.cpp:463-487 | the tokens after `shell` parse back to the event list, in order |
| Commands.NewKeyEventCommand | adbfb.cpp:180-195 | six tokens, the device token starting with the input-device prefix |
| Commands.KeyEventDeviceIndex | adbfb.cpp:188 | the device token, past the prefix, reads back as the event device index |
| Commands.NewKeyEventCommandSequence | adbfb.cpp:197-206 | three groups of six tokens |
| Commands.KeySequenceEncode | adbfb.cpp:197-206 | the sequence is the encoding of press, release and sync on the device |
| Commands.KeySequenceParse | adbfb.cpp:197-206 | the sequence parses back to those three events, all on the prefixed device |
| Commands.VirtualKeyArgs | adbfb.cpp:489-499 | `shell, input keyevent, key` |
| Commands.VirtualKeyDecode | adbfb.cpp:489-499 | the key token reads back as the key |
| KeyLayout.KeepLine | adbfb.cpp:82-86 | a line is kept when it is not a skipped comment and the key's first occurrence is past position 0 |
| KeyLayout.MatchingLines | adbfb.cpp:75-88 | nothing for an empty output, otherwise the kept lines of its pieces |
| KeyLayout.KeptLinesMembers | adbfb.cpp:69-91 | a line is kept exactly when it is a line of the output and passes the comment and position tests |
| KeyLayout.IgnoringCommentsKeepsFewer | adbfb.cpp:80-83 | skipping comments never keeps more lines |
| KeyLayout.KeyAtStartNotKept | adbfb.cpp:85 | a line starting with the key is never kept |
| KeyLayout.OutputLinesHas | adbfb.cpp:69-91 | the loop keeps exactly the lines the filter keeps, in order; empty output yields nothing |
| KeyLayout.IsKeyLine | adbfb.cpp:260-262 | a line that starts with `key` and splits on spaces into more than one word |
| KeyLayout.KeyCodeFromLayout | adbfb.cpp:256-270 | the code of the first key line among the layout lines that mention the key |
| KeyLayout.FirstKeyLineFrom | adbfb.cpp:256-270 | the first key line from i on, or -1 when none follows |
| KeyLayout.FirstKeyCode | adbfb.cpp:256-270 | a code is found exactly when some kept line is a key line |
| KeyLayout.KeyLineCode | adbfb.cpp:261-264 | `key <n> <name>` yields n for every int32 n |
| KeyLayout.DoubleSpaceCodeZero | adbfb.cpp:262-264 | `key  …` (two spaces) is found with code 0 |
| KeyLayout.PowerEntryFound | adbfb.cpp:244-271 | a layout that is just the line `key <n> POWER` yields n, with or without comment skipping |
| KeyLayout.CodeLineMentionsKeyLater | adbfb.cpp:244-271 | a found code comes from a key line of the file that mentions the key after its start |
| KeyLayout.GetKeyCodeFromKeyLayout | adbfb.cpp:244-271 | true with the first key line's code when there is one, otherwise false with the code untouched |
| Prune.RemoveAtWhileIncrementing | adbfb.cpp:320-324 | the loop leaves exactly `SkipPrune` of the list |
| Prune.SkipPruneSubsequence | adbfb.cpp:320-324 | the survivors are a subsequence of the list |
| Prune.SkipPruneRemovesOnlyBad | adbfb.cpp:388-393 | no entry gains copies, and a good entry keeps all its copies |
| Prune.SkipPruneNoneBad | adbfb.cpp:388-393 | a list without bad entries is unchanged |
| Prune.SkipPruneAllBad | adbfb.cpp:320-324 | when every entry is bad, exactly those at odd positions survive |
| Prune.SkipPruneTwoBad | adbfb.cpp:320-324 | of two adjacent bad entries the second survives |
| Delay.Increased | adbfb.cpp:124-132 | one step more below the maximum, unchanged at or above it |
| Delay.IncreasedMonotone | adbfb.cpp:124-132 | the delay never decreases, and stops moving at the maximum |
| Delay.IncreasedTimesBounded | adbfb.cpp:124-132 | repeated increases stay below max + step |
| Delay.IncreasedTimesValue | adbfb.cpp:124-132 | after n increases the delay is d + n·step while that is at most the maximum |
| Delay.Adb.constructor | adbfb.cpp:93-97 | constants stored, fast delay, disconnected |
| Delay.Adb.SetDelay | adbfb.cpp:115-122 | stores the delay and signals the waiter, on every call |
| Delay.Adb.IncreaseDelay | adbfb.cpp:124-132 | the delay becomes `Increased` of the old one and is returned; nothing else changes |
| Frame.BppOf | adbfb.cpp:655-674 | the three known formats give 2, 3, 4 bytes per pixel; any other gives none |
| Frame.DecodeHeader | adbfb.cpp:646-648 | three int32s; width and height are negative exactly when their top byte's high bit is set (bytes a short capture lacks read as 0) |
| Frame.DecodeEncodeHeader | adbfb.cpp:646-648 | the header a device writes, followed by any pixels, decodes to its geometry |
| Frame.EmptyCaptureRejected | adbfb.cpp:646-653 | an empty capture, its missing header bytes read as 0, decodes as 0x0 and so is rejected |
| Frame.CopyPixelSpec | adbfb.cpp:631-634 | the three copies move pixel n's colours to p and touch nothing else |
| Frame.CompactKeepsRest | adbfb.cpp:621-639 | bytes before the offset and from offset + 3·count on are unchanged |
| Frame.CompactPixels | adbfb.cpp:621-639 | every pixel k's three colours land at offset + 3k, read from offset + 4k of the original |
| Frame.CompactTwoPixels | adbfb.cpp:621-639 | two pixels: the padding bytes drop out, the tail keeps its old bytes |
| Frame.FrameOut | adbfb.cpp:718-724 | the frame sent: the compacted 3·w·h bytes for RGBX8888, otherwise `mid(FB_DATA_OFFSET, length())` |
| Frame.FrameOutRgbx | adbfb.cpp:718-724 | an RGBX8888 frame goes out as 3·w·h bytes, pixel by pixel from the capture |
| Frame.FrameOutPassThrough | adbfb.cpp:720-724 | other formats pass through as `mid(FB_DATA_OFFSET, length())` |
| Frame.ScreenInfoResult | adbfb.cpp:641-675 | 0 exactly when width and height are positive and the format is known, else -1 |
| Frame.ScreenInfoCases | adbfb.cpp:646-674 | a bad size changes nothing; an unknown format overwrites the geometry but not bpp; known formats set bpp 2, 3, 4 |
| Frame.HighBitWidthRejected | adbfb.cpp:646-653 | a width with its top bit set is rejected with no change |
| Frame.SetConnectedIdempotent | adbfb.cpp:543-557 | setting the same flag twice emits one event; at most one event per call |
| Frame.ProbeAnnouncesThenShows | adbfb.cpp:746-769 | a good RGBX8888 capture announces the geometry and then the 3·w·h-byte first frame, connected |
| Frame.FrameLength32 | adbfb.cpp:710 | `length()` as an `int`: always an int32, and the true length when that fits |
| Frame.HugeHeaderPassesIntGuard | adbfb.cpp:710-715 | a 65536×65536 RGBX8888 header with a 12-byte capture: the wrapped `length()` is 12, so the source's test lets the capture through although it is far shorter than header plus pixels; the model disconnects |
| Frame.ShortFrameDisconnects | adbfb.cpp:710-715 | a capture shorter than header plus w·h·bpp, computed without wrap-around, disconnects once and emits no frame |
| Frame.FbEx.constructor | adbfb.cpp:501-508 | default geometry, RGBX8888, maximum bpp, compression off, empty buffer; its own new `Adb` starts as `ADB()` does, disconnected at the fast delay |
| Frame.FbEx.SetConnected | adbfb.cpp:543-557 | the state becomes `SetConnectedSpec` of the old one; the ADB delay and wake count stay |
| Frame.FbEx.ConvertRGBAtoRGB888 | adbfb.cpp:621-639 | the buffer becomes `Compact` of the old one over w·h pixels, returning w·h·3 |
| Frame.FbEx.CompactRow | adbfb.cpp:630-635 | one row of the inner loop: w more pixels compacted, both cursors advanced by 3·w and 4·w |
| Frame.FbEx.CopyPixelInPlace | adbfb.cpp:631-634 | one pixel's copies, cursors advanced by 3 |
| Frame.FbEx.GetScreenInfo | adbfb.cpp:641-675 | state and result as `ScreenInfoSpec`/`ScreenInfoResult`; the buffer is untouched |
| Frame.ScreenCapSpec | adbfb.cpp:589-619 | a failed command keeps the buffer; otherwise the output, inflated when compressing, less the offset |
| Frame.FbEx.ScreenCap | adbfb.cpp:589-619 | on failure the buffer is kept; otherwise it is a fresh copy of the (inflated) capture less the offset |
| Frame.FbEx.SendNewFB | adbfb.cpp:706-726 | the state becomes `SendNewFBSpec` of the old one, whose length test uses the unwrapped length; the buffer object, the ADB delay and wake count stay |
| Frame.FbEx.ReadFrame | adbfb.cpp:728-744 | nothing while disconnected or paused; otherwise capture then frame, or disconnect; the ADB delay and wake count stay |
| Frame.FbEx.ProbeFBInfo | adbfb.cpp:746-769 | compression set, capture, header check, connect, first frame; each failure disconnects; the ADB delay and wake count stay |
| Session.BrightnessOf | adbfb.cpp:151-157 | a failed read gives nothing; otherwise `simplified().toInt()` of the output |
| Session.BrightnessOfLine | adbfb.cpp:157 | `cat` printing a number and a line break reads as that number |
| Session.ReadBrightness | adbfb.cpp:146-161 | one reading consumed; a failed one logs a disconnect and yields -1, otherwise its value |
| Session.UpdateBrightnessEvents | adbfb.cpp:218-242 | the new brightness is the reading; screenTurnedOn for 0 to positive, stopping the timer; screenTurnedOff for a change to 0, starting it; no other change |
| Session.NoScreenOnAfterFailedRead | adbfb.cpp:224-241 | from -1 a lit screen is stored without a screenTurnedOn |
| Session.ScreenOffOnce | adbfb.cpp:224-241 | two dark readings emit screenTurnedOff once |
| Session.PressReleaseRelease | adbfb.cpp:417-446 | press, release, release: two gestures, both from the press position |
| Session.ClickDispatch | adbfb.cpp:396-415 | ICS: exactly one sendevent command; JB move or unknown type: no change; JB press: position stored, nothing emitted |
| Session.PowerKeyArgs | adbfb.cpp:213-214 | `shell` then the key sequence on the entry's event device |
| Session.PowerKeyCommand | adbfb.cpp:208-216 | 19 tokens, `shell` then the key sequence, which parses back to press, release and sync |
| Session.Collect | adbfb.cpp:300-308 | at most one entry per line, each with a non-empty name, zero index and code, and the default wake flag |
| Session.CollectMembers | adbfb.cpp:300-308 | an entry is collected exactly when some name line simplifies to a non-empty name and the entry is that name with zero index and code |
| Session.CollectAppend | adbfb.cpp:300-308 | collecting two runs of lines is collecting each and concatenating, so the order of the lines is kept |
| Session.CollectNonBlank | adbfb.cpp:300-308 | without blank lines, entry k comes from line k, one entry per line |
| Session.CollectBlank | adbfb.cpp:302-304 | blank lines only: no entries |
| Session.AssignedEntries | adbfb.cpp:310-318 | entry i keeps its name; with a POWER code it gets index i and that code, otherwise it is unchanged |
| Session.AssignStep | adbfb.cpp:313-317 | one pass of the loop stores exactly entry i of `Assigned` |
| Session.ProbeKeyList | adbfb.cpp:310-324 | the probe's keys are a subsequence of the assigned list, losing only code-0 entries |
| Session.TwoKeylessDevices | adbfb.cpp:320-324 | two keyless devices leave the second in the list |
| Session.ProbeListingFails | adbfb.cpp:293-298 | an unreadable name list: prompt, OS type, brightness 100, no keys, a disconnect, no wake |
| Session.Poll | adbfb.cpp:370-380 | the countdown changes only feed, brightness and log |
| Session.PollLog | adbfb.cpp:370-380 | the poll only appends to the log, and only screenTurnedOn or deviceDisconnected |
| Session.SweepStep | adbfb.cpp:363-386 | one entry: the log gets the power-key command and then the poll's events; feed, brightness and log are the poll's; the entry is marked failed unless the screen is on; OS type, press position and timer are unchanged |
| Session.SweepFromLog | adbfb.cpp:363-386 | the sweep only appends wake events and leaves the OS type, press position and timer alone |
| Session.PollReads | adbfb.cpp:370-380 | the poll consumes at most cnt readings, from the front |
| Session.SweepReads | adbfb.cpp:363-386 | the sweep reads at most five times per entry |
| Session.PollDark | adbfb.cpp:370-380 | on a dark feed the poll keeps the brightness and logs no screen-on |
| Session.SweepDark | adbfb.cpp:363-386 | on a dark feed, all remaining entries are marked failed, or none when `screenIsOn` holds |
| Session.WakeViaPowerKeySpec | adbfb.cpp:358-394 | the sweep over all entries, then the pruning of those marked failed |
| Session.DarkSweepKeepsOddPositions | adbfb.cpp:358-394 | a wake that never lights the screen keeps only the odd-position entries, marked failed |
| Session.DarkSweepMarksNothingWhenOn | adbfb.cpp:358-394 | if `screenIsOn` holds for the stale brightness, no entry is dropped |
| Session.PollStopsAtLight | adbfb.cpp:371-378 | a lit first reading ends the poll with one screenTurnedOn |
| Session.ProbeCore | adbfb.cpp:280-324 | prompt, OS type, brightness 100, then the pruned key list, or a disconnect when the names cannot be read |
| Session.WakeCore | adbfb.cpp:343-355 | a lit screen is stored and announced; otherwise a prompt and the power-key wake |
| Session.WakeCoreLog | adbfb.cpp:343-355 | the wake proper only appends wake events and keeps the OS type, press position and timer |
| Session.WakeWithKeysNoProbe | adbfb.cpp:334-355 | with keys known the wake is the wake proper: no probe prompt, OS type untouched |
| Session.WakeWithoutKeysProbes | adbfb.cpp:334-355 | with no key known the probe runs first: its prompt follows the old log, the OS type is the probed one, then the wake proper |
| Session.WakeWithKeysLit | adbfb.cpp:334-352 | keys known and screen lit: one read, one screenTurnedOn, nothing probed |
| Session.WakeAfterProbeReadsTwice | adbfb.cpp:327-352 | probe from inside a wake, screen lit: two reads and two screenTurnedOn |
| Session.AdbExecObject.constructor | adbfb.cpp:134-144 | JB, brightness 0, timer off, empty key list |
| Session.AdbExecObject.GetDeviceLCDBrightness | adbfb.cpp:146-161 | state and result as `ReadBrightness` |
| Session.AdbExecObject.UpdateDeviceBrightness | adbfb.cpp:218-242 | the state becomes `UpdateBrightnessSpec` of the old one |
| Session.AdbExecObject.SendPowerKey | adbfb.cpp:208-216 | logs the power-key command, nothing else |
| Session.AdbExecObject.SendTap | adbfb.cpp:417-446 | the state becomes `TapSpec` of the old one |
| Session.AdbExecObject.SendEvent | adbfb.cpp:463-487 | logs the legacy sendevent command, nothing else |
| Session.AdbExecObject.SendVirtualKey | adbfb.cpp:489-499 | logs the keyevent command, nothing else |
| Session.AdbExecObject.SendVirtualClick | adbfb.cpp:396-415 | the state becomes `ClickSpec` of the old one |
| Session.AdbExecObject.PollScreen | adbfb.cpp:370-380 | the state becomes `Poll` of the old one with five tries |
| Session.AdbExecObject.SweepEntry | adbfb.cpp:364-385 | the state becomes `SweepStep` of the old one at entry i |
| Session.AdbExecObject.SweepAll | adbfb.cpp:363-386 | the state becomes `SweepFrom` of the old one over all entries |
| Session.AdbExecObject.WakeUpDeviceViaPowerKey | adbfb.cpp:358-394 | sweep then skip-pruning of failed entries |
| Session.AdbExecObject.CollectKeyInfos | adbfb.cpp:300-308 | yields `Collect` of the lines |
| Session.AdbExecObject.AssignPowerKeys | adbfb.cpp:310-318 | yields `Assigned` of the collected list |
| Session.AdbExecObject.ProbeDevicePowerKey | adbfb.cpp:273-332 | the state becomes `ProbeSpec` of the old one |
| Session.AdbExecObject.WakeUpDevice | adbfb.cpp:334-356 | the state becomes `WakeSpec` of the old one |

## Findings

| source | as written | input that shows it | evidently intended | confidence | as-written member | corrected member |
|---|---|---|---|---|---|---|
| adbfb.cpp:710-715 | `bytes.length() < length()` with `length()` an `int` product FB_DATA_OFFSET + w·h·bpp that wraps modulo 2^32 | header 65536×65536 RGBX8888, FB_DATA_OFFSET 12, a 12-byte capture: `length()` wraps to 12, the test passes, and the compaction runs far past the data | reject any capture shorter than FB_DATA_OFFSET + w·h·bpp | not executed; `length()` is in `adbfb.h`, which is not part of this model, and is taken as `int` arithmetic | Frame.HugeHeaderPassesIntGuard | Frame.ShortFrameDisconnects |

## Left out

- `Commander::run`, `wait` and `clear`, and `AdbExecutor`: process I/O. Their outputs and exit codes are inputs to the model: the brightness feed, `DeviceFacts`, and the capture arguments.
- `ADB::loopDelay`, the mutex and the wait condition: cross-thread blocking. Waking the waiter appears only as a counter.
- `setCompress`, `checkCompressSupport`, `minigzipDecompress`: scratch files and an external binary. Whether compression is supported, and the inflated bytes, are inputs.
- `waitForDevice`, `usleep` and real timers: `screenOnWaiteTimer` is a flag, and signals are entries of the event log.
- `getDeviceOSType` is an `adb` query. Its outcome is the `hasSwipe` input.
- Definitions from `adbfb.h`: `screenIsOn()` is a parameter of `ExecConfig`. `length()` is taken as header plus w·h·bpp. `DeviceKeyInfo`'s default `wakeSucessed` and the `FB_*`/`PIXEL_FORMAT_*`/`DELAY_*` constants are parameters.
- `outputFixNewLine` is defined in `adbfb.h`, which is not part of this model. `screenCap` stores its result (adbfb.cpp:608); that result is the `captured` input.
- `outputHas` is called by `getDeviceOSType` (adbfb.cpp:172, reached from adbfb.cpp:281) and by `checkCompressSupport` (adbfb.cpp:517). Both calls are replaced by inputs: `hasSwipe` and `compressSupported`.
- `outputLines()` (adbfb.cpp:300) is replaced by the `DeviceFacts.inputNames` input, already split into lines.
- `exitSuccess()` (adbfb.cpp:152, 295, 603) is replaced by the inputs: a `ReadFailed` reading, a missing `inputNames`, or a non-zero exit code for `screenCap`.
- A brightness read past the end of the feed counts as a failed read, so it logs deviceDisconnected and yields -1. The source would run `cat` again.
- Bytes.HostInt32: models a little-endian host only. Bytes a slice lacks read as 0. The source's `bcopy` always reads four bytes. A 3-byte `mid` gets the terminating `'\0'` as its fourth byte, which agrees with the model. A slice of two bytes or fewer reads past the data, which is undefined.
- Frame.DecodeHeader: a header shorter than 12 bytes decodes with the missing bytes as 0, following `Bytes.HostInt32`. The source reads past the data for slices of two bytes or fewer.
- Frame.EmptyCaptureRejected: that an empty capture decodes as 0x0 follows from the zero-fill convention. In the source, `bcopy` on the data of an empty `mid` reads past the terminator, so the outcome is undefined.
- Frame.FbEx.SendNewFB: the length test compares against header plus w·h·bpp without wrap-around. The source's `int length()` can wrap (see Findings). The model keeps the intended test.
- Frame.ShortFrameDisconnects: stated for the unwrapped length. `HugeHeaderPassesIntGuard` shows the source's wrapped test passing instead.
- Frame.FbEx.ConvertRGBAtoRGB888: returns w·h·3 unbounded. Under the model's unwrapped length test the product fits an `int`: the buffer holds at least 4·w·h bytes, and a `QByteArray` holds fewer than 2^31 (a limit the model does not encode). Under the source's wrapped test (see Findings) the product can overflow: for 65536×65536 it wraps to 0.
- RGB565 and RGB888 frames are passed through by `mid`, so there is no conversion to model for them.
- `ADB::setConnected` is not defined in adbfb.cpp. `Delay.Adb.SetConnected` assumes it stores the flag and nothing else.
- The source's `readFrame` and `probeFBInfo` call `screenCap` with its default offset, taken as 0.
- Loops are split into helper methods, with the same effect as the source: `PollScreen`, `SweepEntry`, `SweepAll`, `CollectKeyInfos`, `AssignPowerKeys`.
- KeyLayout.KeptLines: its own contract gives only the length bound. What it keeps is stated by `KeptLinesMembers` and `OutputLinesHas`.
