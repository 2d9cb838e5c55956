# Verified model of chdkptp's core

chdkptp is a PTP client for CHDK cameras. This Dafny project models the parts of it whose
correctness is hard to see from the code, and proves what they are for:

- **PTP transport and transactions** (`ptp.c`; `PtpPort`, `PtpWire`, `PtpBlocks`, `PtpUsb`,
  `PtpTcp`, `PtpSession`). A 512-byte buffer keeps what the device sends beyond what a reader wants.
  Above it are the USB and PTP/IP container readers, the reassembly of data into a buffer or into
  blocks for a handler, and the request, data and response phases of a transaction. The device is
  the bytes that it is going to send and a schedule that says how many of them each read returns and
  which reads fail, so a statement about all schedules is one about all ways of splitting the stream.
  Every reader is a method that is proved to do what a function of the remaining stream says; the
  theorems about framing, reassembly and whole conversations are about those functions.
- **Packed raw pixels** (`rawimg.c`, `lbuf.c`; the modules from `RawBits` to `RawImage`, `RawCount`, `Lbuf`). Nine layouts of
  8 to 16 bits per pixel are related to one bit stream with the most significant bit first. On top of
  that come stores that share bytes with other pixels, conversion between layouts, the in-place
  interpolation of bad pixels, and the binding of an image to a buffer.
- **The script protocol** (`lua/chdku.lua`; `ChdkCamera`, `ChdkWait`, `ChdkExec`, `ChdkCapture`).
  The camera takes any number of steps between two calls of the host. The model covers the message
  loop of `exec`, the polling of `wait_status` and the fetch loop of `capture_get_data`.
- **Datasets** (`ptp-pack.c`; `PtpData`, `PtpProp`, `PtpUnpack`, `PtpObject`) of PIMA 15740:2000,
  in both byte orders.
- **Live view** (`liveimg.c`; `LiveImg`), **the word parser** (`lua/cli.lua`; `CliWords`) and **DNG
  padding** (`lbuf.c`, `lua/chdku.lua`; `Lbuf`, `ChdkDng`).

`Words`, `Buffers` and `Arithmetic` hold machine words, pieces of sequences and integer facts.
`dafny verify dfyconfig.toml` verifies everything.

Where the code does something other than what it seems to be meant for, the model follows the code
and the theorem gives the exact condition:

- The setter of the 14b layout switches on `x % 8` where its getter uses `x % 4` (`rawimg.c:351`,
  `rawimg.c:364`), so it ignores half of the columns. `StoreTakes` says which; round trips hold
  exactly for the columns that it takes, and byte-swapped stores also where nothing would change.
- `bind_lbuf` tests the left edge of the active area against the width where the message speaks of
  the right one (`rawimg.c:750`), so an area that is too wide is accepted; and its sizes wrap around
  (`rawimg.c:772-773`), so an image that is too large can be. An accepted image is valid exactly if
  neither is the case.
- `patch_pixels` counts pixels that it gives the value they have, and pixels whose column the 14b setter
  leaves out. `PatchCount` says for which images the count is right whatever their pixels are.
- `exec` returns its values up to the last one that is not nil.
- `ptp_tcp_getdata` refuses a DATA packet that comes after all announced bytes, even an empty one.
- `ptp_pack_string` loses strings of 255 characters and more.
- A fill of 2^32 bytes or more wraps around in `lbuf:fill` and writes as many bytes as the low 32 bits say.
  `FillExact` says exactly when that is still what was asked for.
- With `pollstart` 0 the polling interval of `wait_status` stays 0. Its timeout is then never reached, unless
  the first wait alone uses it up, and it polls without sleeping until the awaited status shows.
- The response code is compared with the operation code, which is still in the container; the usual
  response is a mismatch whose code happens to be the one for success.

## Model

| member | source | states |
|---|---|---|
| PtpPort.Port.ReadFromBuffer | ptp.c:83-104 | takes as many bytes as asked for or buffered; taken bytes and the rest of the stream make up the old stream; an empty buffer starts at 0 |
| PtpPort.Port.ReadToBuffer | ptp.c:107-127 | needs an empty buffer and at most 512 bytes, else BADPARAM and nothing changes; on success at least the minimum is buffered and no byte of the stream is lost; one read is made even for a minimum of 0; without failing reads it succeeds if the bytes are there |
| PtpPort.Port.ControlRead | ptp.c:130-149 | delivers exactly the next bytes of the stream; BADPARAM exactly if more than the buffer can hold is missing, so the "bad length" exit is dead |
| PtpPort.Port.ReadDirect | ptp.c:159-165 | the direct-read loops of both transports deliver the next bytes in place, however reads split them |
| PtpPort.Port.TcpReadData | ptp.c:155-167 | delivers exactly the next bytes of the stream, from the buffer and by direct reads |
| PtpPort.Port.UsbReadData | ptp.c:463-494 | the same for USB; the first read asks for whole 512-byte packets whatever was buffered, the "size mismatch" exit is dead, and without failing reads one byte behind the data suffices for success |
| PtpWire.UsbPhaseOf | ptp.c:594-662 | a data container is read back as its payload, and exactly it is taken |
| PtpWire.UsbAnswerOf | ptp.c:496-520 | a response is taken whole where data is expected and where a response is; its parameters are those sent, padded with zeros, and its code decides the result |
| PtpWire.UsbHeaderBytes | ptp.c:525-550 | every byte of a container's header: length, type, code and transaction ID, lowest bytes first |
| PtpWire.TcpHeaderBytes | ptp.c:202-227 | every byte of a packet's header: length and type |
| Words.WordSums | ptp-pack.c:52-83 | what a 32-bit word is in both byte orders |
| PtpWire.UsbRefuses | ptp.c:496-697 | what a container of another type, data for another operation, data in place of a response and a response in place of data lead to, with the result code, and what is taken of the stream |
| PtpWire.UsbOkResponse | ptp.c:665-697 | the bytes of the usual response are taken as success whatever the operation was |
| PtpWire.TcpRefuses | ptp.c:169-459 | the same for packets, at the start of a data phase, inside it and as a response |
| PtpWire.TcpOkResponse | ptp.c:283-316 | the bytes of the usual response packet are taken as success |
| PtpUsb.UsbReadControl | ptp.c:496-520 | reads a response container whole and of a data container the header, and nothing else of the stream |
| PtpBlocks.CutUnique | ptp.c:387-437 | full blocks and one shorter block that concatenate to the data are its cut: blocks depend on the bytes alone, not on packets or reads |
| PtpBlocks.FlattenCut | ptp.c:387-437 | the blocks of the cut concatenate to the data, none is empty, and all but the last have the block size |
| PtpBlocks.BlocksGiven | ptp.c:345-351 | block sizes from 1024 on are taken as asked for, smaller ones as 1024, and 0 as 2 MiB; all blocks but the last have that size, and there are as many as the data divided by it, rounded up |
| PtpBlocks.FirstBlock | ptp.c:618-624 | the first block is the front of the data of the size asked for, and data of up to 2 MiB for size 0 comes in one block |
| PtpUsb.UsbReadBlocks | ptp.c:629-650 | a handler that agrees gets the blocks of the cut of the data; one that refuses gets the front blocks up to the refused one, and its verdict is the result |
| PtpUsb.UsbGetData | ptp.c:594-662 | result, returned data or handed-over blocks, and rest of the stream are what the stream says, unless a read fails; data goes to the front of a buffer of the caller or into a new one of its size; a handler never gets anything but front blocks of the cut; the total size is the announced one once the header is read |
| PtpUsb.UsbGetResp | ptp.c:665-697 | result, filled-in container and rest of the stream are what the stream says, unless a read fails |
| PtpUsb.UsbRequestOf | ptp.c:525-550 | a request is a command container that holds just the meaningful parameters |
| PtpUsb.UsbSendData | ptp.c:553-591 | the writes of a data phase, with an empty one exactly if the container fills whole packets |
| PtpUsb.UsbSendThenGet | ptp.c:553-662 | what is sent is read back, for every size and whatever follows |
| PtpUsb.UsbTransferEnds | ptp.c:553-591 | on the wire a transfer is full packets and one shorter packet that together are the container; the last is empty exactly if 12 + size is a multiple of the packet size |
| PtpUsb.TransfersApart | ptp.c:553-591 | packets on the wire are transfers in only one way, so the device can tell where one ends |
| PtpTcp.TcpReadControl | ptp.c:169-200 | reads responses and START_DATA whole, of DATA and END_DATA the first 12 bytes, and refuses other types |
| PtpTcp.TcpFeedPacket | ptp.c:387-419 | one packet's bytes behind the pending ones are full blocks handed over plus the new pending bytes |
| PtpTcp.TcpReadPackets | ptp.c:366-431 | the packet loop stops with what the stream says is still to come, or with an error that the stream, a failed read or the handler gives |
| PtpTcp.TcpGetData | ptp.c:318-459 | as for USB: in all modes the outcome is what the stream says; blocks are the cut of the data, or at least its full blocks when an error cuts the data short; the total size is that of START_DATA |
| PtpTcp.TcpGetResp | ptp.c:283-316 | as for USB, except that the container is filled in even for a wrong packet or code |
| PtpWire.TcpPhaseOf | ptp.c:318-459 | for every split of the data into DATA packets and one END_DATA, empty ones included, the data is put together again and the stream behind END_DATA is left, if and only if the data is not complete before the last DATA packet; otherwise DATA_EXPECTED |
| PtpWire.TcpAnswerOf | ptp.c:283-316 | a response is taken whole where data is expected and where a response is, and is read back field by field |
| PtpTcp.TcpRequestOf | ptp.c:202-227 | a request is a packet that holds just the meaningful parameters |
| PtpTcp.TcpSendData | ptp.c:229-281 | the four writes of a data phase |
| PtpTcp.TcpSendThenGet | ptp.c:229-459 | what is sent is read back, for every size, in every mode and whatever follows; it fits the buffers |
| PtpSession.Transact | ptp.c:734-773 | the request goes out with the next transaction ID whatever happens; result, container and rest of the stream are what the stream says, unless a read fails; data that has come is returned, in the caller's buffer or a new one, whatever the response is |
| PtpSession.GetDataTransaction | ptp.c:779-794 | the same with a handler, which gets the cut of the data, at least its full blocks before an error, or, if it refuses, its front blocks |
| PtpSession.SizeTold | ptp.c:338-364 | the total size that the caller is told is that of the data sent, unless a read failed before it was known |
| PtpSession.SuccessIsComplete | ptp.c:779-794 | success means that the handler agreed to every block and was given all of the data |
| PtpSession.OpenSession | ptp.c:910-932 | writes, on USB, a command container with code 0x1002, transaction ID 0 and the session as its only parameter, on TCP the request packet with the same, leaves ID 1 and the session ID set, and answers as the stream says |
| PtpSession.OpenSessionBytes | ptp.c:910-932 | every byte of that request, on both transports and for every session |
| PtpSession.OneTurn | ptp.c:734-773 | one transaction takes exactly the containers that the responder sent for it, also if a response comes in place of data, and may safely be carried out, into a buffer or to a handler |
| PtpSession.Converse | ptp.c:734-932 | OpenSession and then any mixture of the two kinds of transaction, with data sent, or received in new memory, in buffers of the caller or in blocks: under every schedule of reads that do not fail the n-th call gets the n-th answer, handlers get the cut of the data, buffers keep what the last call into them returned, what follows the last answer is left on the stream, and the writes are those of requests with IDs 0, 1, 2 and so on modulo 2^32 |
| PtpSession.LastIntoExists | ptp.c:779-794 | every buffer that calls of a conversation write to has a last such call, which says what it holds at the end |
| RawFormat.GetField10l | rawimg.c:167-181 | the getter reads the 10-bit field at the pixel's place in the byte-swapped bit stream |
| RawFormat.GetField10b | rawimg.c:222-233 | the same without swapping |
| RawFormat.GetField12l | rawimg.c:258-268 | the 12-bit field of the swapped stream |
| RawFormat.GetField12b | rawimg.c:293-301 | the 12-bit field of the stream |
| RawFormat.GetField14l | rawimg.c:318-332 | the 14-bit field of the swapped stream |
| RawFormat.GetField14b | rawimg.c:349-359 | the 14-bit field of the stream |
| RawFormat.GetIsPixel | rawimg.c:157-391 | every getter reads its layout's field at bit x * bpp of the row, most significant bit first |
| RawFormat.SetPixel | rawimg.c:157-391 | every setter puts an in-range value into the pixel's field and leaves all other bits, or does nothing in the columns that the 14b switch leaves out |
| RawPixels.GetAfterSet | rawimg.c:157-391 | after a store that pixel reads as the value and every other pixel of every row as before |
| RawPixels.SetThenGet | rawimg.c:361-370 | a value stored is read back for all buffers and values exactly for the columns that the setter takes |
| RawPixels.GetSwapped | rawimg.c:167-391 | a little-endian getter is the big-endian one on the byte-swapped buffer |
| RawPixels.SetSwapped | rawimg.c:183-391 | a little-endian store is swap, big-endian store, swap, if and only if the big-endian setter takes the column or the pixel had that value before |
| RawGrid.PixelsAfterSet | rawimg.c:157-391 | a store changes exactly one value of the image in spite of shared bytes |
| RawImage.RawImage.Convert | rawimg.c:598-673 | a target buffer of the wrong size is refused; otherwise every pixel of the target is the shifted source pixel, the black level is shifted likewise, and the source is unchanged |
| RawImage.UpFits | rawimg.c:661-673 | shifting into a layout at least as wide stays in range |
| RawImage.ShiftMeans | rawimg.c:610-620 | with valdownmod, and whatever valupmod is, narrowing keeps the top bits of a value; with valupmod, and whatever valdownmod is, widening puts the value at the top; without the one that applies it stays |
| RawImage.NarrowFits | rawimg.c:610-673 | narrowing with valdownmod always fits |
| RawImage.ConvertNeedsFit | rawimg.c:603-673 | a conversion is only right if every shifted value that is stored fits, for every layout |
| RawImage.UpAndDown | rawimg.c:603-673 | converting up and back with the same shift choice restores every pixel for all images and target contents if and only if both setters take every column |
| RawImage.BackFits | rawimg.c:610-673 | what was converted up from an image in range fits on the way back |
| RawImage.RawImage.ThereAndBack | rawimg.c:598-673 | two calls of convert, up and back, restore the image if both setters take every column, also into its own buffer |
| RawImage.RawImage.PatchPixel | rawimg.c:521-553 | one pixel gets the mean, rounded down, of its four diagonal neighbours above black if it is green, else of the four that are two columns or two rows away; without any it is left as it is |
| RawPatch.PatchIsMean | rawimg.c:511-553 | the patch value times the number of those neighbours is at most their sum, and one more is not; there is none exactly if there are no such neighbours |
| RawPatch.CfaTiles | rawimg.c:153-155 | the colour pattern is a tile of two columns and two rows |
| RawImage.RawImage.PatchPixels | rawimg.c:555-569 | the in-place scan leaves the image of the scan function and counts its patched pixels |
| RawPatch.ScanExplained | rawimg.c:555-569 | closed form of the in-place scan: each pixel is what it was, or the patch value on the image as the scan found it there; the patched set is exactly accounted for |
| RawPatch.PatchedPixel | rawimg.c:511-569 | patched pixels lie in the active area and were at most the bad value; with a paired colour pattern the new value lies between two pixels of the same colour above black; all others are unchanged |
| RawPatch.HullKept | rawimg.c:521-569 | the scan keeps each colour plane within the range of its pixels above black |
| RawPatch.WrapLeavesImage | rawimg.c:511-541 | unsigned wrap-around keeps neighbours off the image outside it, exactly for images of up to 2^32 - 2 rows or columns |
| RawPatch.NeighbourColor | rawimg.c:153-155 | all neighbours of all pixels have the pixel's colour if and only if green on a diagonal of the pattern is green on both its places, as in a Bayer pattern and in the default one |
| RawPatch.PatchInRange | rawimg.c:521-553 | a patched value fits the layout |
| RawPatch.PatchedIsChanged | rawimg.c:555-569 | in a column that the setter takes, and for a bad value not above the black level, the patched pixels are those that changed |
| RawCount.PatchCount | rawimg.c:511-569 | for every image of a frame the reported count is the number of modified pixels if and only if, for all active pixels with a neighbour in the image, the setter takes the column and the bad value is not above the black level, or no value is above it |
| RawCount.CountWrong | rawimg.c:511-569 | otherwise it gives an image for which the count is wrong |
| RawImage.BindValid | rawimg.c:702-775 | an accepted image is valid if and only if none of its sizes wraps around and the right edge of its active area is inside the image |
| RawImage.BindTakes | rawimg.c:702-775 | an accepted image has the size, layout, byte order, black level and pattern asked for, and the active area asked for, which is not empty, or all of it |
| RawImage.BindRefuses | rawimg.c:702-775 | exactly which specifications are refused, if their sizes do not wrap around |
| RawImage.BindAcceptsWideArea | rawimg.c:750-752 | an active area beyond the right edge is accepted |
| RawImage.BindAcceptsWrap | rawimg.c:772-773 | an image whose rows have 2^32 bits is accepted in an empty buffer |
| Lbuf.ReverseBytes | lbuf.c:421-431 | exchanges the bytes of each pair of a non-empty buffer |
| Lbuf.SwappedTwice | lbuf.c:421-431 | reversing twice gives the buffer back |
| Lbuf.Fill | lbuf.c:449-501 | writes value[k mod n] at offset + k for as many bytes as asked for and as there is room, and nothing else |
| Lbuf.FillExact | lbuf.c:471-476 | a fill writes all copies asked for, cut to the room, if and only if their size is below 2^32 or its low 32 bits reach the end of the buffer; by default they are meant to fill the room |
| Lbuf.FillWrapsAround | lbuf.c:471-476 | 2^31 copies of two bytes into an empty stretch of two write nothing |
| ChdkDng.PadSubImage | lua/chdku.lua:1343-1356 | the three fills leave padding, data and padding, cut to the full size |
| ChdkDng.PaddedFits | lua/chdku.lua:1343-1356 | a sub-image that fits is kept whole between padding of exactly the right lengths |
| ChdkDng.PaddedCut | lua/chdku.lua:1343-1356 | one that does not fit loses its end |
| ChdkDng.OffsetOfLine | lua/chdku.lua:1346 | the data starts at the first byte of its line if lines are whole bytes, and else in the byte in which it starts |
| ChdkCamera.StepsKeep | chdk_headers/core/ptp.h:55-71 | camera steps neither lose nor reorder messages, and a script that has ended has written all |
| ChdkCamera.StepsWrite | chdk_headers/core/ptp.h:55-71 | n steps write the next n messages, and the step after the last one ends the script |
| ChdkCamera.Con.ReadMsg | chdk_headers/core/ptp.h:63-71 | returns and removes the oldest message that has been written when it is carried out, and one of type none if and only if there is none; the other messages stay |
| ChdkExec.Exec | lua/chdku.lua:1098-1151 | under every interleaving and with all wait options: user messages and return values or messages of the script in their order and nothing of other scripts; values are those that the messages carry, a table through unserialize if that was asked for, up to the last that is not nil; an empty queue at the end, an error exactly if the script writes one, then with all before it delivered; the unexpected-type error never occurs |
| ChdkExec.ValuesBack | lua/chdku.lua:1130-1134 | exactly one row of values is carried by the return messages, and it is the one that exec returns |
| ChdkExec.TablesBack | lua/chdku.lua:1130-1134 | with serialized messages and an unserialize that inverts the camera's serializer, the values that the script returned come back; without, tables come back as strings |
| ChdkExec.ExecWaits | lua/chdku.lua:1103-1110 | between messages exec waits until there is one or the script has ended, and for nothing else; a wait in vain takes a day and is no error |
| ChdkExec.TrailingNilsAreLost | lua/chdku.lua:1143-1150 | the values come back exactly if there are none or the last is not nil; what is cut off is nil, and what is left does not end in nil |
| ChdkWait.WaitStatus | lua/chdku.lua:1656-1723 | returns what the first poll sees that finds what is awaited; else sleeps through the whole schedule, polls once more, and times out; polls and sleeps alternate; if the time cannot run out, it sleeps for 0 until the awaited status shows |
| ChdkWait.AwaitedSees | lua/chdku.lua:1688-1702 | a poll ends the wait exactly if it reads a report of data, or finds the running flag as asked for, or a message or none as asked for |
| ChdkWait.StatusIs | lua/chdku.lua:1688-1721 | the status has both flags as the camera then has them, the report read, and whether the wait timed out |
| ChdkWait.StepsTaken | lua/chdku.lua:1688-1716 | after n polls the camera has taken as many steps as the first n turns of the schedule say |
| ChdkWait.FlagShows | lua/chdku.lua:1701-1703 | a wait for a message ends exactly if there is still one to be read, one for no message exactly if the first poll finds none, one for a running script exactly if it runs then |
| ChdkWait.SleepsAre | lua/chdku.lua:1656-1716 | sleep number k is poll, or at least 50 ms, or pollstart doubled k + 1 times if that is less than poll, or pollstart if that is more than poll; only the last sleep may be shorter |
| ChdkWait.WaitBudget | lua/chdku.lua:1656-1723 | a timed-out wait has slept exactly for the timeout, or for a longer first wait, and at most once for each doubling but the last and once for each interval; exactly that often without doublings |
| ChdkWait.WaitCount | lua/chdku.lua:1656-1723 | with the first wait counted, at most one sleep for each doubling and each interval |
| ChdkWait.CountWithoutDoubling | lua/chdku.lua:1672-1675 | without doublings that bound holds if and only if there is no first wait or it saves a whole interval |
| ChdkWait.DoublingsIsLog | lua/chdku.lua:1704-1709 | the number of doublings is the logarithm of poll / pollstart to base 2, rounded up |
| ChdkWait.ZeroIntervalIsStuck | lua/chdku.lua:1704-1715 | while time is left, no number of rounds at interval 0 changes the interval or the time left |
| ChdkWait.TimeIsUsedUp | lua/chdku.lua:1660-1715 | some number of rounds uses up the time if and only if pollstart is not 0 or the first wait takes up the timeout |
| ChdkWait.EndShows | lua/chdku.lua:1104-1109 | a wait for the end of a script sees it at some poll, whatever the camera does in between |
| ChdkCapture.TakeReport | lua/chdku.lua:1591-1618 | one report: each available type that is wanted has its handler called, lowest type first and with the image number of the report, and is wanted no more; another available type is an error |
| ChdkCapture.ReportBits | lua/chdku.lua:1590-1594 | the types of a report are its lowest four bits |
| ChdkCapture.CaptureGetData | lua/chdku.lua:1538-1627 | ends as the reports say unless the time runs out; when done, each type asked for has had exactly one call and no other has; each call answers a report of its type; rounds are bounded by the types asked for if reports name types |
| ChdkCapture.EndsWhen | lua/chdku.lua:1576-1622 | a fetch is done at the first report by which every type asked for has been named once and no other; the first type named too often, or not asked for, ends it before that, and so does a report of an error |
| ChdkCapture.FetchWaits | lua/chdku.lua:1543-1578 | between reports it waits for the next one only, with the caller's intervals and timeout, and throws when that is used up |
| ChdkCapture.DoneMeansAll | lua/chdku.lua:1619-1626 | when nothing is left, the calls are exactly those of the types asked for, one each |
| PtpUnpack.UnpackString | ptp-pack.c:89-106 | reads the counted string at the offset, low bytes only and the last one zero |
| PtpUnpack.UnpackArray16 | ptp-pack.c:135-147 | reads the counted array at the offset |
| PtpUnpack.UnpackArray32 | ptp-pack.c:121-133 | reads the counted array at the offset |
| PtpUnpack.UnpackDI | ptp-pack.c:158-211 | the running total puts every field where the one before it ends |
| PtpUnpack.UnpackDPD | ptp-pack.c:498-632 | the same for property descriptions of every type and form |
| PtpData.ReadStringOf | ptp-pack.c:89-106 | a string of the standard below 64 KiB is read back as its low bytes |
| PtpData.ReadArray32Of | ptp-pack.c:121-133 | an array of the standard is read back |
| PtpData.ReadDIOf | ptp-pack.c:158-211 | every DeviceInfo below 64 KiB in the layout of section 5.5.1 is recovered field by field, in both byte orders |
| PtpProp.TypeRanges | ptp-pack.c:436-468 | the values of the six integer types |
| PtpProp.TypedWord | ptp-pack.c:436-468 | a stored word is read as the value of its type that differs from it by a multiple of 2^8, 2^16 or 2^32 |
| PtpProp.ReadDPDOf | ptp-pack.c:498-632 | every description of a supported type with no form, a range or an enumeration, in the layout of section 13.3.3, is recovered field by field, in both byte orders |
| PtpProp.UnsupportedDPD | ptp-pack.c:498-632 | of a type that is not supported only code, type and access are read |
| PtpProp.FormlessDPD | ptp-pack.c:544-632 | with another form flag, or a range of strings, the flag is kept and no form is read |
| PtpObject.PackStringTo | ptp-pack.c:108-119 | writes the count and the widened characters, both cut to 8-bit lengths, and nothing else |
| PtpObject.PackedStringWraps | ptp-pack.c:108-119 | of a long string only the characters beyond a multiple of 256 are packed, with a count of 0 for 255 of them |
| PtpObject.WidenedKeepsSign | ptp-pack.c:108-119 | a char above 127 becomes the 16-bit character of the same signed value |
| PtpObject.PackOI | ptp-pack.c:281-341 | the dataset with all fields, name and zeros; the returned length counts the name's length modulo 256, so it is the allocated one exactly for names below 256 characters |
| PtpObject.UnpackOI | ptp-pack.c:343-427 | fields at their offsets, then the name and both date strings behind one another |
| PtpObject.ReadOIOf | ptp-pack.c:343-427 | an ObjectInfo of the standard, section 5.3.1, is read back with its fields, name and both dates, whatever follows |
| PtpObject.ObjectBack | ptp-pack.c:281-427 | a packed ObjectInfo is read back with every field, its name and no dates, staying inside it, if and only if the name has at most 254 characters |
| PtpObject.PackDPV | ptp-pack.c:634-685 | size and bytes of a packed value; null and size 0 for a type that is not supported |
| PtpObject.UnpackDPV | ptp-pack.c:436-468 | the value of a supported type; otherwise the caller's value stays |
| PtpObject.ValueBack | ptp-pack.c:434-685 | a packed number is read back, and a packed string if and only if it has at most 254 characters |
| LiveImg.LiveToRgb | liveimg.c:264-350 | the planes hold the rows of the picture from the bottom row of the frame to the top one, for all three layouts |
| LiveImg.GroupOfSix | liveimg.c:264-295 | each pixel of a six-byte group has its own luma byte and the group's chroma |
| LiveImg.GroupOfFour | liveimg.c:297-349 | the same for four-byte groups |
| LiveImg.ColorRounds | liveimg.c:143-159 | red, green and blue are luma plus their multiples of the chroma, rounded to the nearest whole number and cut to a byte |
| LiveImg.ChromaIs | liveimg.c:297-349 | chroma is the byte as a signed number, moved by 128 in one of the layouts |
| LiveImg.NeutralIsGrey | liveimg.c:149-345 | neutral chroma gives the grey of the luma value in every layout |
| LiveImg.RowOfGroups | liveimg.c:270 | a row of whole groups has exactly their bytes |
| LiveImg.ToPacked | liveimg.c:912-951 | packs the planes' rows in reverse order, with or without alpha, into the buffer given if it has the right size |
| LiveImg.FlipTwice | liveimg.c:935-951 | cutting an image stored from the bottom into rows undoes storing it |
| LiveImg.PackedShowsFrame | liveimg.c:264-951 | row j, column c of the packed image is the colour of frame row j at source pixel c, or with skip at 4*(c/2)+c%2 or 2*c; its alpha byte is that of the planes, which start with the bottom row |
| LiveImg.ShowFrame | liveimg.c:644-951 | converting a frame and packing the planes shows every pixel of it in its place, with its alpha value or 255, whatever planes and buffer held before |
| CliWords.TrimSpace | lua/cli.lua:38-41 | removes leading white space and control characters |
| CliWords.GetWord | lua/cli.lua:47-83 | the word, the position behind it, or which of the two errors |
| CliWords.ParseWords | lua/cli.lua:85-98 | the words of a line or the first error; every round makes the rest shorter |
| CliWords.WordTakes | lua/cli.lua:85-98 | a word takes at least one character |
| CliWords.WordIsPieces | lua/cli.lua:47-83 | the front of a line is read as a word if and only if it is a row of plain characters and quoted texts that ends before white space or with the line; the word is their meaning: quotes dropped, and in double quotes any character after a backslash taken as it is |
| CliWords.ErrorsMended | lua/cli.lua:76-81 | the quote named by an error would close the word, and so would any character after the backslash and a double quote |
| CliWords.NoSpaces | lua/cli.lua:69 | which characters end a word in the C locale |
| CliWords.WordBack | lua/cli.lua:47-83 | a word written bare, in single or in double quotes is read back up to the space behind it |
| CliWords.WordsBack | lua/cli.lua:38-98 | any list of words, empty ones included, written in any fitting mix of styles and any gaps, is parsed back |
| CliWords.WordsThen | lua/cli.lua:38-98 | words in front of anything else are parsed, and then the rest as if it stood alone |
| CliWords.FirstErrorCounts | lua/cli.lua:85-98 | a word that is not closed is the error of the line, whatever words come before it |

## Left out

- Sockets, libusb and their set-up: reads and writes are contracts. `ptp_usb_read_func` advances by the size asked for rather than received; its body is not modelled.
- Reads that return nothing for ever: a schedule is finite, and afterwards reads return all they can or fail.
- Failing writes: writes succeed, so the overwritten error codes of `ptp_tcp_senddata` do not show.
- Allocation failure, and sizes of 2 GiB and more that overflow a C `int` in the read loops.
- Containers that do not fit the structure they are read into, and more data than the buffer for it holds: required not to occur (`UsbFits`, `UsbSafe`, `TcpFits`, `TcpOrderly`).
- PtpTcp.TcpGetData: requires a START_DATA packet to hold the total; of a shorter one the code takes it from uninitialised memory.
- The mask with the packet size in `ptp_usb_senddata` is a remainder, for powers of two.
- The host is little endian.
- `make_rgb_thumb`.
- RawImage.RawImage.Convert: requires a width of whole target blocks and a target buffer other than the source, which the code does not look at; leaves the black level open for a shift to the left, which the code does with a negative count; its sizes are not cut to 32 bits.
- RawImage.RawImage.ThereAndBack: requires the same of the first of its two buffers.
- RawPixels.GetSwapped: requires the row to start at an even byte; a swapped layout at an odd offset is not modelled.
- The Lua wrappers of `rawimg`: argument conversion, and `set_pixel` testing its coordinates with `||`.
- The start of `exec`: libraries, flags, flushing, compile errors. Warnings about messages that are dropped.
- Callbacks and handlers that throw: they end `exec` and `capture_get_data` at that point.
- ChdkWait.WaitStatus: requires that the time can run out or that an awaited status shows at some poll, since otherwise the loop never ends; it counts whole milliseconds.
- ChdkCapture.CaptureGetData: requires the same of its waits: that the time can run out or that the reports end the fetch. The code waits on the connection named `con` at the top level rather than its own; the model has one connection.
- PtpSession.Converse: takes handlers that agree to their blocks, buffers that are large enough, and a responder whose data phases put no DATA packet behind the announced size; Transact, GetDataTransaction and TcpPhaseOf cover the rest call by call.
- The table that `store_return` fills in `capture_get_data`, and the checks of the protocol version.
- PtpObject.UnpackOI: leaves present dates as text; the code passes them through `mktime`.
- Datasets beyond 64 KiB, whose string and array offsets wrap around: the readers follow the code there, but the round trips stop below.
- 64-bit and array property types, which the code does not support.
- The source value of `lbuf:fill` being the buffer that is filled.
- Palettes, overlays and the RGBA live view conversion.
- Switches of the command line (`-name=value`), and locales other than C.
- `properties.c`, tables of names, the GUI, `dng.lua`, exposure computations and the bodies of commands.
