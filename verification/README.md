# E-paper tag: stream, mesh, drawing and housekeeping, modelled and proved in Dafny

A battery tag with an e-paper panel takes commands and video over a radio link, relays commands
through a flood mesh of tags, draws on a packed frame buffer, and keeps statistics across resets.
This project models the code behind those jobs and proves what it is for. `dafny verify
dfyconfig.toml` checks everything.

**Video stream.** `Crc16`, `PackBits`, `Raster`, `Framebuffer`, `PanelRam` and `HalfPlane` are the
parts; `VideoDevice` is the frame parser with its poison flag, `VideoPacket` one whole packet,
`VideoFlushByte` what its last byte decides, `VideoPlanes` what it does to the two planes,
`VideoHost` the sender, `VideoStream` host, link and device together in any order of events,
`VideoKeys` which frames of a run are keyframes.
`VideoDecoder`, `DisplayManager` and `Ssd1675a` are the same device as the firmware has it: classes
over arrays, down to the 9-bit words that move the controller's RAM window. Each class method is
proved equal to the function the whole-run theorems speak of. A run in the stream's PackBits is
announced by `0x80 | (n - 1)` and a literal by `n - 1`; that is not the rule of section 9 of TIFF
6.0.

**Mesh.** `Cmac` (RFC 4493, sections 2.3 and 2.4, over a cipher that is any function and may fail at
any call) and `CmacStandard` (the standard in its own terms), `MeshPdu`, `Window` and `Replay` (16-bit serial numbers as in section 3.2 of RFC 1982, a
32-bit bitmap per source), `ReplaySave` (when the list reaches the settings), `MeshNode` (one node
as a class), `MeshKeeper` (its saving as the steps of `ReplaySave`), `MeshSequence` (the counter
across power cuts) and `MeshCounter` (the node's jobs as its steps), `MeshFleet`, `MeshOnce`,
`MeshWave`, `MeshCoverage` and `MeshCompletion` (many nodes and the copies in the air).

**Drawing, command slots, statistics, Life.** `Graphics` and `Pixels` (where a pixel lands and what it
shows); `CommandQueue`, `CommandDelivery` (what becomes of a whole line or frame), `CommandReconnect`
(after a disconnect) and `CommandThreads`; `Statistics` and `StatisticsLedger` (what its counters
count); `Life` and `LifeGlider`. `Bytes`, `Bits` and `Numbers` hold shared arithmetic.

Where the code does less than its description promises, the exact condition is proved:

* a frame dropped because its flush byte is wrong has already changed the framebuffer, and nothing
  poisons the stream. `VideoFlushByte.DroppedPacket` says for every packet that the framebuffer is as
  before if and only if the payload left no trace on either plane (a delta that is all zeros where it
  lands, a keyframe of what is there already); `VideoFlushByte.LastByteDecides` says for every last
  byte when framebuffer and controller RAM still agree: it is the flush byte, or the stream is
  poisoned, or the payload left no trace on the black-and-white plane nor, while it is streamed, on
  the red one. `VideoDevice.StepMirrors` shows that no other byte breaks the agreement;
  `VideoPacket.AbandonedFrameBreaksMirror` and `VideoFlushByte.RedGoesUnseen` are concrete frames;
* a keyframe with a right CRC clears the poison however little it decodes to. `VideoPlanes.KeyframeHeals`:
  it leaves a picture that does not depend on what was there if and only if it decodes to at least
  every byte of the planes it is for;
* 0xA5 inside a text line that is being discarded opens an opcode frame.
  `CommandDelivery.WholeOrNothing` says for every line and every interleaving that it arrives whole,
  or is refused with one BUSY reply, if and only if it got a slot or holds no 0xA5;
  `CommandQueue.MagicOpensFrame` is the condition for one byte, and
  `CommandDelivery.DiscardedLineOpensFrame` a concrete case;
* a shown two-plane frame does not always have its red plane in the controller: the update that the
  maintenance cycle takes every 500 leaves the red RAM empty. `VideoPlanes.RedPlaneReaches`: it is
  there if and only if that update was not due, or the plane has nothing red in it;
  `VideoPlanes.RedDotLost` is a concrete device and picture.

Assumptions, visible as parameters, preconditions or in what a run consists of: the link keeps order
and loses no whole stream packet; settings and flash writes succeed; during a stream the bus of the
display stays up, and nothing but the stream draws on the planes or drives the display (the handlers
of the mesh thread could do both); a stream starts in the normal render mode, where clearing the
planes to white writes ones; a PDU with a valid MAC was made by a node of the fleet; RAM that lost
power does not hold a sealed record by accident; build stamps are not zero.

## Model

| member | source | states |
|---|---|---|
| Crc16.NibbleUpdateIsFeedByte | src/app/commands.c:331-341 | two look-ups in the 16-entry table are eight clocks of the shift register of polynomial 0x1021, for every register value and byte |
| Crc16.Crc16Table | lut_tester_host/vstream.py:275-284 | the host's 256-entry table, built by its loop, holds eight clocks of each index |
| Crc16.Crc16Ccitt | lut_tester_host/vstream.py:287-298 | the host's byte-table loop gives the shift-register CRC of a message of any length, starting from 0xFFFF |
| Crc16.Crc16CcittWeb | lut_tester_host/web/app.js:3237-3245 | the web host's bit loop gives the same CRC |
| Crc16.CheckValue | lut_tester_host/vstream.py:287-298 | the CRC of the digits 123456789 is 0x29B1, the value both ends are documented to produce |
| Crc16.FeedPairInjective | src/app/commands.c:331-341 | feeding two bytes is injective in the pair, from any register value |
| Crc16.BurstAlwaysCaught | src/app/commands.c:331-341 | two payloads of one length, however short, that differ at most in two adjacent bytes have the same CRC if and only if they are equal |
| PackBits.PackbitsEncode | lut_tester_host/vstream.py:230-252 | the encoder's loops end on every input and produce the specified encoding |
| PackBits.PackBitsWeb | lut_tester_host/web/app.js:3219-3233 | the web encoder produces the same bytes |
| PackBits.RoundTrip | src/app/commands.c:415-440 | expanding what was encoded gives the original bytes, for every input |
| PackBits.PackSize | lut_tester_host/vstream.py:230-252 | the encoding of n bytes is at most n + ceil(n/128) bytes |
| PackBits.RunOnTheWire | lut_tester_host/vstream.py:230-252 | from 3 to 128 equal bytes are the two bytes 0x80 + (n - 1) and the value |
| PackBits.LiteralOnTheWire | lut_tester_host/vstream.py:230-252 | up to 128 bytes without three equal ones in a row are n - 1 and the bytes |
| PackBits.RepeatSize | lut_tester_host/vstream.py:230-252 | n equal bytes cost exactly two bytes for every 128 begun, and one more when two are left over, which go as a literal |
| PackBits.LazyDecoderIsExpand | src/app/commands.c:415-452 | the decoder that leaves run bytes pending across inputs, drained at the end, writes exactly the expansion of any byte string, well formed or not |
| Raster.SpreadLinear | src/app/commands.c:367-370 | doubling the pixels of a byte commutes with exclusive or |
| Raster.HalfTargetInside | src/app/commands.c:372-413 | the four byte writes of a half-resolution byte stay inside the plane |
| Raster.PutBytePaints | src/app/commands.c:372-413 | writing decoded bytes one by one, plain or as a delta, full or half resolution, paints the plane byte for byte as the whole string does |
| Raster.KeyframePaints | src/app/commands.c:372-413 | a whole keyframe leaves the rendering of its picture |
| Raster.DeltaPaints | src/app/commands.c:372-413 | a delta on the rendering of one picture leaves the rendering of the other |
| Raster.RenderDoublesPixels | src/app/commands.c:362-413 | the rendering of a half plane shows at every pixel the half pixel of its 2x2 block |
| HalfPlane.HalfPlaneWeb | lut_tester_host/web/app.js:3251-3269 | every pixel of the half plane is the majority of its 2x2 block, ties white |
| HalfPlane.HalfPixel | lut_tester_host/web/app.js:3251-3269 | a half pixel is white if and only if two or more of the four pixels of its block are |
| HalfPlane.HalfOfDoubled | lut_tester_host/web/app.js:3249-3269 | halving a doubled plane gives the half plane back |
| Framebuffer.WriteAllLays | src/app/commands.c:372-413 | the bytes of a frame land on one or two planes as a whole, and bytes past the end of the frame nowhere |
| Framebuffer.KeyframeShows | src/app/commands.c:372-413 | after a keyframe of either layout the planes show its picture |
| Framebuffer.DeltaShows | src/app/commands.c:372-413 | after the delta between two pictures, planes that showed the first show the second |
| Framebuffer.DeltaMarks | src/app/commands.c:121-125 | every plane byte a delta changes lies in a row it marked dirty |
| Framebuffer.DeltaSpans | src/app/commands.c:121-125 | the dirty range of a single-plane delta reaches from the first to the last row one of its non-zero bytes falls on, and no further; it is empty when there is none |
| PanelRam.UpdateMirrors | src/app/display_manager.c:821-872 | an update with a dirty range that covers every difference leaves the B/W RAM equal to the buffer, in each of the streaming path's cases, the maintenance cycle included; a streamed red plane is in the red RAM, except after the maintenance update, which empties it |
| PanelRam.OtherRowsStay | src/app/display_manager.c:821-872 | once the stream is going an update that is not due for maintenance writes the rows it was given and no others |
| PanelRam.EveryFiveHundredth | src/app/display_manager.c:835-872 | from the first update on, the 500th, the 1000th and so on are the maintenance updates, whatever rows they were asked for, and the stream goes on with the update after each |
| VideoDevice.StepMirrors | src/app/commands.c:526-587 | one byte of any stream keeps controller RAM and framebuffer in agreement, the red planes included while they are streamed, if and only if it does not abandon a clean frame that has already changed the framebuffer |
| VideoDevice.StreamMirrors | src/app/commands.c:526-587 | after any byte string whose frames all reach their flush byte, a running unpoisoned stream between frames has the framebuffer in the controller RAM, the red plane too while it is streamed |
| VideoDevice.BetweenFrames | src/app/commands.c:526-587 | between frames bytes that start nothing leave no trace, a frame of a type above 5 is not entered, and CC DD or CC DE and nothing else ends the stream |
| VideoDevice.TypeNumbers | src/app/commands.c:155-160 | types 0 to 2 are raw, compressed and delta of one plane, 3 to 5 of two |
| VideoPacket.TypeByteParses | src/app/commands.c:535-540 | the type byte's CRC and half flags and its type are recovered from what the host sets |
| VideoPacket.PacketOnTheWire | lut_tester_host/vstream.py:311-322 | AA 55, type with flags 0x40 and 0x20, length high byte first, payload, CRC high byte first when there is one, BB |
| VideoPacket.PacketLoads | lut_tester_host/vstream.py:311-322 | all of a packet but its last byte brings the parser to the flush byte, loaded with the decoded payload and the CRC of the trailer |
| VideoPacket.PacketFlushes | lut_tester_host/vstream.py:311-322 | feeding a whole packet, whatever its payload bytes, is exactly one flush of the loaded parser |
| VideoPacket.PacketOutcome | src/app/commands.c:442-524 | what a device makes of any packet: each decoded byte laid on the framebuffer once, poison exactly on a bad CRC or a delta on a poisoned stream, the panel left as it is while poisoned, and an acknowledgement with number, decoded length, CRC verdict and keyframe request |
| VideoPacket.PacketRows | src/app/commands.c:487-523 | the acknowledged rows are all rows, but for a single-plane delta those from the first to the last one it changes |
| VideoPacket.PacketMirrors | src/app/commands.c:487-509 | a packet that finds RAM and framebuffer in agreement, both planes, leaves them so |
| VideoPacket.PacketRed | src/app/commands.c:487-509 | a shown two-plane packet ends with the framebuffer's red plane in the red RAM, or, when the maintenance update was due, out of the stream with an empty one |
| VideoPacket.PacketsFlushInOrder | src/app/commands.c:526-587 | packets back to back are each flushed once, in order, and decode to exactly the bytes that were wrapped |
| VideoPacket.AbandonedFrameBreaksMirror | src/app/commands.c:569-572 | a concrete delta with a wrong flush byte breaks the agreement on every clean device |
| VideoFlushByte.PaintKeeps | src/app/commands.c:372-413 | decoded bytes leave a plane as it was exactly when they are zeros, for a delta, or what is there already, for a keyframe, at both resolutions |
| VideoFlushByte.DroppedPacket | src/app/commands.c:569-572 | a packet dropped at its last byte is neither shown nor acknowledged nor held against the stream; each plane is as before if and only if the payload left no trace on it |
| VideoFlushByte.LastByteDecides | src/app/commands.c:569-572 | for any packet and any last byte the agreement of framebuffer and controller RAM survives if and only if that byte is the flush byte, the stream is poisoned, or the payload left no trace on the B/W plane nor, while it is streamed, on the red one |
| VideoFlushByte.RedGoesUnseen | src/app/commands.c:569-572 | the B/W plane sent again with another red one and dropped changes the framebuffer's red plane and nothing else |
| VideoPlanes.KeyframeHeals | src/app/commands.c:471-478 | a keyframe clears the poison exactly when its CRC is right, and leaves a picture independent of what was there, its own, exactly when it decodes to at least every byte of its planes |
| VideoPlanes.RedPlaneReaches | src/app/display_manager.c:835-872 | the red plane of a shown two-plane packet is in the controller if and only if the maintenance update was not due or there is nothing red in it |
| VideoPlanes.RedPlaneLost | src/app/display_manager.c:853-863 | every picture with something red in it loses that in the controller when the maintenance update is due |
| VideoPlanes.RedDotLost | src/app/display_manager.c:853-863 | a concrete device and a picture of one red dot |
| VideoHost.EncodeFrameCarries | lut_tester_host/vstream.py:338-357 | the payload the host chooses decodes to the frame, or to its exclusive or with the previous frame, and its type says which |
| VideoHost.CheaperPayload | lut_tester_host/vstream.py:338-357 | an unforced frame goes out as a keyframe if and only if that is at most the slack larger than the delta, so the payload is never larger than the keyframe, nor than the delta by more than the slack |
| VideoHost.StillPictureIsCheap | lut_tester_host/vstream.py:338-357 | a picture sent again, or one of a single byte value, of n bytes costs at most what n equal bytes cost, plus the slack |
| VideoHost.SentType | lut_tester_host/vstream.py:338-357 | the type number is 3 for two planes plus 0, 1 or 2 for raw, key and delta; without deltas, without a base or when forced every frame is a keyframe |
| VideoHost.VStreamSession.OnAck | lut_tester_host/vstream.py:573-609 | an acknowledgement is of the oldest frame in flight, returns one credit and latches a keyframe request |
| VideoHost.VStreamSession.TakeResync | lut_tester_host/vstream.py:611-616 | the request is read once and cleared |
| VideoHost.VStreamSession.TrySend | lut_tester_host/vstream.py:653-667 | a frame goes out only against a credit, and is numbered behind those in flight; without a credit it waits, and when its time is up the session is dead and nothing was sent |
| VideoHost.Player.EncodeNext | lut_tester_host/vstream.py:694-696 | the loop's choice of key or delta is the specified one, and it consumes the request only when it asks for it |
| VideoHost.Player.SendEncoded | lut_tester_host/vstream.py:699-702 | a frame becomes the base of the next delta only once it was handed over, not while it waits and not after a time-out |
| VideoStream.NextInv | lut_tester_host/vstream.py:691-703 | every step of host, link and device keeps the stream's invariant |
| VideoStream.RunInv | lut_tester_host/vstream.py:680-703 | so does every run, with events in any order |
| VideoStream.ShownFrameIsTheEncodedFrame | src/app/commands.c:442-524 | in every run, whenever the last frame was shown, the framebuffer is exactly the picture the host encoded at that step, and so is the B/W RAM; in a two-plane stream the red RAM is its red plane, or empty when the maintenance cycle took the update |
| VideoStream.RecoveryIsBounded | lut_tester_host/vstream.py:573-667 | after a damaged frame at most `window` deltas are encoded before a keyframe, and from that keyframe on undamaged frames are all shown |
| VideoStream.KeyIntervalHolds | lut_tester_host/vstream.py:694-702 | with a key interval set, never more than that many deltas lie between keyframes |
| VideoKeys.KeysExactlyWhenCaused | lut_tester_host/vstream.py:691-703 | in every run of delta encoding a frame is a keyframe if and only if it is the first, or the key interval has passed, or the device asked since the frame before, or the keyframe costs at most the slack more than the delta |
| VideoStream.BurstIsCovered | src/app/commands.c:471-485 | corruption of two adjacent payload bytes, or of the only one, is corruption the theorems above allow for |
| VideoDecoder.PutInPlane | src/app/commands.c:372-413 | the in-place byte write, full or doubled, plain or exclusive or, is the specified one |
| VideoDecoder.Decoder.WriteByte | src/app/commands.c:372-413 | both planes, the decoded count and the dirty rows after one decoded byte |
| VideoDecoder.Decoder.RleFeed | src/app/commands.c:415-440 | one compressed byte: the pending run first, then the byte, as the specification orders them |
| VideoDecoder.Decoder.DrainAtFlush | src/app/commands.c:446-452 | the pending run is written out as far as the frame has room |
| VideoDecoder.Decoder.ShowFrame | src/app/commands.c:487-509 | only the dirty rows of a single-plane delta go out, everything else whole; after a two-plane frame the red RAM is the framebuffer's red plane if and only if the maintenance update was not due or that plane is empty |
| VideoDecoder.Decoder.JudgeFrame | src/app/commands.c:471-523 | CRC verdict, poison, display call and acknowledgement of a flushed frame, and where its red plane goes |
| VideoDecoder.Decoder.FlushFrame | src/app/commands.c:442-524 | the whole flush is the specified one, on the arrays, with the red plane of a shown two-plane frame where ShowFrame says |
| VideoDecoder.Decoder.PayloadByte | src/app/commands.c:553-560 | a payload byte goes into the CRC and onto the canvas and moves the parser on |
| VideoDecoder.Decoder.ProcessByte | src/app/commands.c:526-587 | one byte of the ten-state machine on the real fields is one step of the specified device; only a stop lets go of the display |
| VideoDecoder.Decoder.Teardown | src/app/commands.c:207-227 | a running stream ends with the rails let go of, the controller off unless a moving saver goes on, and the saver back after a video but not after a photo; without one only the red plane is no longer streamed |
| VideoDecoder.Decoder.StartStream | src/app/commands.c:1300-1322 | a stream starts with a white framebuffer, the same in the controller RAM, and a parser at rest, so the agreement holds from the first byte |
| DisplayManager.Display.WritePartialStreamRows | src/app/display_manager.c:821-833 | the dirty rows alone, the whole plane when the red one is streamed too or the range covers it, nothing for an empty range; the red RAM becomes the red buffer when it is streamed and is untouched otherwise |
| DisplayManager.Display.StopStreamingIfActive | src/app/display_manager.c:430-443 | leaving the stream keeps the B/W RAM and empties the red RAM exactly when it was streamed |
| DisplayManager.Display.RefreshFully | src/app/display_manager.c:782-788 | out of the stream, awake, the whole B/W plane written; the red RAM is empty if it was streamed, and otherwise as it was or empty |
| DisplayManager.Display.UpdatePartialNowaitRows | src/app/display_manager.c:835-877 | first frame, dirty rows and the 500-frame maintenance cycle give exactly the specified flags and count, and, the bus holding, both planes of controller RAM; with the rails off it is the blocking update, which ends out of the stream, with the supply cut or the buffer in the RAM; a display that never came up is left alone |
| DisplayManager.Display.UpdatePartial | src/app/display_manager.c:771-817 | the same for the update of the whole plane |
| DisplayManager.Display.SetKeepOn | src/app/display_manager.c:1474-1487 | letting go of the rails ends the stream, and cuts the supply unless a moving saver goes on |
| Ssd1675a.BurstWrites | lib/eink/ssd1675a.c:578-590 | data streamed through a row window with X-then-Y increment fills exactly the rows of the window, in order |
| Ssd1675a.WordsMean | lib/eink/ssd1675a.c:182-246 | which command numbers set the window, the counter and the entry mode, which two write the planes, and the byte order of their arguments |
| Ssd1675a.Driver.SetRamPointer | lib/eink/ssd1675a.c:182-189 | five words set the address counter and touch neither plane nor window |
| Ssd1675a.Driver.WaitBusy | lib/eink/ssd1675a.c:164-180 | BUSY is polled until it is low or 8 s of 2 ms polls have gone by |
| Ssd1675a.Driver.WritePlane | lib/eink/ssd1675a.c:495-507 | one plane becomes the buffer, or zero, and the other plane and the window stay |
| Ssd1675a.Driver.LoadRows | lib/eink/ssd1675a.c:561-598 | only rows y0 to y1 of one plane change, to the buffer's, and the full window is back afterwards; a bus that does not come up changes nothing |
| Ssd1675a.Driver.ConfigureRegisters | lib/eink/ssd1675a.c:194-246 | afterwards the window is the whole plane and the address counter moves right, then down, whatever they were before |
| Ssd1675a.Driver.ResetController | lib/eink/ssd1675a.c:248-259 | after hard reset, software reset and both waits the RAM holds what the loss of power left, and is marked as undefined |
| Ssd1675a.Driver.InitPartial | lib/eink/ssd1675a.c:278-311 | a bus that does not come up is reported and changes nothing; otherwise, whether or not the controller had to be reset, the window is full again, a lost red plane is zero, and a controller that was awake keeps both planes |
| Cmac.ShlMovesBits | src/app/mesh_pdu.c:7-15 | the shift moves every bit of the block one place to the left |
| Cmac.ShiftLeft | src/app/mesh_pdu.c:7-15 | the carry loop is that shift |
| Cmac.DeriveSubkey | src/app/mesh_pdu.c:40-47 | shift and conditional 0x87 are the subkey step of section 2.3 of RFC 4493 |
| CmacStandard.SubkeyBits | src/app/mesh_pdu.c:40-47 | bit n of a subkey is bit n + 1 of its parent, flipped in bits 120, 125, 126 and 127 when the parent begins with a one |
| CmacStandard.ExampleSubkeys | src/app/mesh_pdu.c:24-54 | the subkeys of the example in section 4 of RFC 4493 |
| CmacStandard.PadIsReversible | src/app/mesh_pdu.c:77-88 | two incomplete blocks with the same padding are the same |
| Cmac.CmacUnit.Subkeys | src/app/mesh_pdu.c:24-54 | cached or derived, the subkeys are those of the key asked for; a failed derivation is reported and leaves the cache as it was |
| Cmac.CmacUnit.ChainBlocks | src/app/mesh_pdu.c:91-98 | the chaining value over the whole blocks, exactly when no cipher call failed |
| Cmac.CmacUnit.Cmac | src/app/mesh_pdu.c:56-103 | after any history of keys and failures a call succeeds exactly when none of its own cipher calls fails, and then returns the MAC of section 2.4 of RFC 4493 for a message of any length |
| CmacStandard.MacReadsForward | src/app/mesh_pdu.c:56-103 | the MAC of a message of any length is what section 2.4 of RFC 4493 computes reading it from the front: blocks while more than one is left, then the last one, whole and masked with K1, or ended by 0x80 and zeros and masked with K2 |
| MeshPdu.ParseSigned | src/app/mesh_pdu.c:137-165 | parsing a built PDU returns exactly its fields, TTL, body and MAC, for every destination type and every payload that fits |
| MeshPdu.PduOnTheWire | src/app/mesh_pdu.c:181-214 | every byte of a built PDU: E5, TTL, number low byte first, source, type, destination of 0, 1 or 3 bytes, opcode, payload, and the first four bytes of the MAC over all that with the TTL byte cleared; 27 bytes at most |
| MeshPdu.PayloadRoom | src/app/mesh_pdu.c:131-135 | 14, 13 or 11 bytes of payload fit, as the PDU is for all, a group or one node |
| MeshPdu.ParseExactly | src/app/mesh_pdu.c:137-165 | exactly which byte strings are PDUs |
| MeshPdu.ParsedIsBuilt | src/app/mesh_pdu.c:137-214 | what was parsed builds the same bytes again, but for the version nibble nobody reads |
| MeshPdu.VerifySigned | src/app/mesh_pdu.c:167-179 | a built PDU verifies under the same key |
| MeshPdu.VerdictOnTheWire | src/app/mesh_pdu.c:106-179 | a PDU verifies when its last four bytes are the first four of the MAC over the others with the TTL nibble, and nothing else, cleared |
| MeshPdu.SetTtlKeepsVerdict | src/app/mesh_pdu.c:216-219 | rewriting the TTL of any PDU, genuine or not, changes no other field and no verdict |
| MeshPdu.RelaysKeepVerdict | src/app/mesh_pdu.c:216-219 | nor do any number of rewrites |
| MeshPdu.SetTtlResigns | src/app/mesh_pdu.c:106-118 | a relayed copy is bit for bit the PDU its originator would have built with the smaller TTL |
| MeshPdu.MacOverBody | src/app/mesh_pdu.c:106-118 | the MAC is taken over the body with the TTL nibble cleared |
| MeshPdu.Build | src/app/mesh_pdu.c:181-214 | refused exactly for an oversized payload or a failed cipher call; otherwise the buffer starts with exactly the signed PDU, at most 27 bytes, and is unchanged behind it |
| MeshPdu.Verify | src/app/mesh_pdu.c:167-179 | true exactly when no cipher call failed and the MAC is right |
| Window.ShiftMeans | src/app/mesh_pdu.c:298-301 | shifting the bitmap moves every remembered number by the distance and forgets those that fall out |
| Replay.SerialIsDifference | src/app/mesh_pdu.c:252-252 | inside half the number space the 16-bit comparison gives the difference of the unbounded numbers |
| Replay.FreshIsUnseen | src/app/mesh_pdu.c:240-261 | an exact entry lets through precisely the numbers above the highest and the unseen ones less than 32 below it |
| Replay.CheckIsUnseen | src/app/mesh_pdu.c:240-261 | the same for the whole list, with unknown and expired sources let through |
| Replay.AcceptKeepsMeaning | src/app/mesh_pdu.c:296-305 | accepting a number keeps the bitmap exact across every wrap of the 16-bit number |
| Replay.CommitKeepsMeaning | src/app/mesh_pdu.c:263-306 | a commit keeps sources unique and every entry exact, with new, known, expired and evicting cases |
| Replay.CommitEvictsTheLongestSilent | src/app/mesh_pdu.c:267-287 | another source's entry is unchanged, or it was replaced because the list was full and no other source had been silent longer |
| Replay.CommitStamps | src/app/mesh_pdu.c:263-306 | after a commit the entry of its source, new, expired, newer or older, bears the time of the commit, and every other entry that stays bears its own |
| Replay.AfterStamps | src/app/mesh_pdu.c:263-306 | over any PDUs accepted, the stamp of a listed source is the time of the last one accepted from it |
| Replay.ExpiryByTime | src/app/mesh_pdu.c:233-238 | over any PDUs of an uptime a listed source is forgotten exactly when its last accepted PDU is a week old or older |
| Replay.EvictionByTime | src/app/mesh_pdu.c:267-287 | over any PDUs of an uptime the source that makes room for a new one was silent at least as long as every other |
| Replay.ImportedEntryMeans | src/app/mesh_pdu.c:338-361 | an entry read back stands for everything at or below its number |
| Replay.ImportOfExport | src/app/mesh_pdu.c:313-361 | reading back what was written gives the sources in use with their numbers, in order |
| Replay.BlobOnTheWire | src/app/mesh_pdu.c:313-336 | the blob byte by byte: version 1, then source and number, low byte first, of each source in use |
| Replay.SmallBuffer | src/app/mesh_pdu.c:313-336 | a buffer too small gets as many whole records as fit, from the first on |
| Replay.BlobReads | src/app/mesh_pdu.c:338-361 | what any byte string at all is read back as |
| Replay.RebuiltListRefuses | src/app/mesh_pdu.c:313-361 | until its expiry a rebuilt list lets through of a source exactly the numbers above the saved one, so nothing the exported list refused |
| Replay.RefusedForGood | src/app/mesh_pdu.c:263-361 | over any PDUs accepted after a reboot, while the source stays in the list, live and in range, no number at or below the saved one is ever let through |
| ReplaySave.StepKeepsInv | src/app/mesh.c:241-253 | every reception, timer, write and power cut keeps the list and the list in the settings exact for a source; what the settings refuse they go on refusing, and so does the list in memory but for a power cut, which leaves it what the settings refuse |
| ReplaySave.HandledOnceUnlessLost | src/app/mesh.c:241-253 | over any receptions, timers, writes and power cuts a number of a steady source is handled a second time only if the power went before its first handling was written |
| ReplaySave.EveryCommitScheduled | src/app/mesh.c:117-140 | in every run what is not in the settings yet has a job on its way or a timer set, no more than ten seconds after the first such commit unless the job queue was found full |
| ReplaySave.QuietIsWrittenAtOnce | src/app/mesh.c:241-253 | a number is in the settings before its handler runs exactly when nothing was written for ten seconds or since the boot |
| ReplaySave.WrittenIsNeverLost | src/app/mesh.c:117-140 | in every run what was in the settings is not among what a power cut loses |
| MeshKeeper.HearIsHeard | src/app/mesh.c:211-253 | hearing a PDU with a right MAC is the reception of those runs, on the node's list and settings |
| MeshKeeper.OthersAreNothing | src/app/mesh.c:211-253 | any other PDU, and one of the node's own, changes neither list nor settings |
| MeshKeeper.TimerIsFire | src/app/mesh.c:117-128 | the timer is theirs |
| MeshKeeper.SaveIsJob | src/app/mesh.c:320-324 | the deferred write is theirs |
| MeshKeeper.BootIsCut | src/app/mesh.c:451-484 | a boot is their power cut |
| Replay.ReplayList.CheckSeq | src/app/mesh_pdu.c:240-261 | the check on the entries in memory is the specified one and changes nothing |
| Replay.ReplayList.CommitSeq | src/app/mesh_pdu.c:263-306 | the in-place commit leaves exactly the specified list |
| Replay.ReplayList.ExportBlob | src/app/mesh_pdu.c:313-336 | the bytes written, never more than the buffer holds |
| Replay.ReplayList.ImportBlob | src/app/mesh_pdu.c:338-361 | the list is replaced as a whole, and left empty by a blob that is not understood |
| MeshNode.RingPush | src/app/mesh.c:155-164 | writing behind the last beacon of the ring appends to the queue it stands for |
| MeshNode.RingPop | src/app/mesh.c:179-186 | stepping past the first removes it |
| MeshNode.MeshNode.TxEnqueue | src/app/mesh.c:155-171 | a beacon joins the end of the queue, or is dropped when four wait |
| MeshNode.BurstKeepsTheFirst | src/app/mesh.c:155-171 | of a burst of any length the first beacons find room until four wait, in order, and the rest is dropped |
| MeshNode.MeshNode.TxWork | src/app/mesh.c:173-208 | beacons leave in the order they came |
| MeshNode.MeshNode.NextSeq | src/app/mesh.c:70-76 | the number handed out is the one saved, and the counter moves on modulo 65536 |
| MeshNode.MeshNode.HandlePdu | src/app/mesh.c:211-279 | a heard PDU is dropped, or committed, relayed with one less to live and run, exactly as specified; the MAC is computed only past the replay list and the list changes only past the MAC; a commit is written at once or left to a timer as specified |
| MeshNode.MeshNode.SaveTimer | src/app/mesh.c:117-128 | the timer hands the write to the mesh thread, or comes back in a second when the job queue is full |
| MeshNode.MeshNode.SaveJob | src/app/mesh.c:320-324 | the deferred write stores the list as it is, if it changed since the last one |
| MeshNode.MeshNode.Originate | src/app/mesh.c:281-307 | a descriptor cut short does nothing; any other uses up a number, and a PDU that can be built is handled as the node's own |
| MeshNode.DescribedBuilt | src/app/mesh.c:281-307 | a descriptor of type, destination, opcode and payload is taken apart into those |
| MeshNode.DescribedExactly | src/app/mesh.c:281-307 | exactly which descriptors are too short, and that no byte of the others is lost |
| MeshNode.MeshNode.Boot | src/app/mesh.c:451-484 | the counter resumes one past the saved number and the replay list comes back from its blob |
| MeshSequence.BootResumes | src/app/mesh.c:464-471 | the boot of the runs below resumes where loading the settings puts the counter |
| MeshCounter.OriginateSteps | src/app/mesh.c:281-307 | originating is taking a number, saving it, and queueing the beacon or failing, in the counter machine of the runs below |
| MeshCounter.TxWorkSteps | src/app/mesh.c:173-208 | a beacon going out is its number reaching the air when it is the node's own, and nothing to the counter when it relays another's |
| MeshCounter.HearSteps | src/app/mesh.c:211-279 | what is heard from others never queues a number of the node's own |
| MeshCounter.BootSteps | src/app/mesh.c:451-484 | a boot is a power cut of the counter machine |
| MeshSequence.RunReduces | src/app/mesh.c:68-76 | the 16-bit machine, over any events and power cuts, is the unbounded one modulo 65536 |
| MeshSequence.AirNumbersIncrease | src/app/mesh.c:68-76 | wherever the power is cut, the numbers that reach the air strictly increase and lie above everything saved before |
| MeshSequence.NoNumberTwice | src/app/mesh.c:464-471 | a 16-bit number is sent again only after more than 65536 saves, and up to half of that every later PDU is the newer one to its receivers |
| MeshFleet.StepKeepsOk | src/app/mesh.c:255-263 | every copy in the air and every waiting beacon has used up as much TTL as it has made hops |
| MeshFleet.RunKeepsOk | src/app/mesh.c:211-307 | and so does every run |
| MeshFleet.HopsAreBounded | src/app/mesh.c:20-20 | in every run from such a state TTL and hops of every copy add up to four |
| MeshFleet.StepWeighsLess | src/app/mesh.c:255-263 | every event but a new broadcast uses up weight |
| MeshFleet.FloodEnds | src/app/mesh.c:211-279 | without new broadcasts no run is longer than the weight it starts with, on any topology |
| MeshOnce.ArrivedKeeps | src/app/mesh.c:219-253 | a delivery that is let through was not handled before, and the replay list stays exactly the record of what was |
| MeshOnce.AtMostOnce | src/app/mesh.c:211-307 | in any run, with copies late, repeated, reordered or lost, each node handles a number at most once and transmits it at most once, so a broadcast costs at most one transmission per node, while the source stays live in its list and within half the number space |
| MeshWave.MoveKeepsInv | src/app/mesh.c:255-279 | relaying to all neighbours, fewer hops first, keeps every handled node's neighbours covered or about to be |
| MeshWave.QuietMeansCovered | src/app/mesh.c:20-20 | a wave with nothing left to do has reached exactly the nodes within four hops, each at its distance |
| MeshWave.QuietOrMoving | src/app/mesh.c:173-208 | a wave that is not finished can go on |
| MeshCoverage.TransmitMoves | src/app/mesh.c:173-208 | a transmission of the fleet is a move of the wave |
| MeshCoverage.ArriveMoves | src/app/mesh.c:211-279 | so is a delivery: the first copy is taken, later ones are dropped |
| MeshCoverage.Coverage | src/app/mesh.c:211-307 | however the copies of one broadcast are delivered, once the fleet is silent exactly the nodes within four hops that it is addressed to, all of them, those of its group or the one of its id, have run the command, each once; those in between have only relayed it |
| MeshCoverage.AddressedIsForMe | src/app/mesh.c:266-268 | a node is addressed by a PDU to all, by one to a group if that is its group, by one to an id if that is its id, and by no other |
| MeshCompletion.NextEvent | src/app/mesh.c:173-279 | whatever has happened of a broadcast, unless the fleet is silent some orderly step can follow |
| MeshCompletion.BroadcastCompletes | src/app/mesh.c:211-307 | on every graph a broadcast from a source nobody has heard before can be brought to silence by a run that is returned, orderly and without loss, with exactly the addressed nodes within four hops having run it, once; for every destination type |
| Graphics.Drawing.SetRotation | lib/gfx/graphics.c:295-303 | any integer becomes a rotation 0 to 3, negative ones included |
| Graphics.Drawing.Draw | lib/gfx/graphics.c:342-399 | drawing a pixel in place is the specified change of the planes |
| Graphics.LoopInks | lib/gfx/graphics.c:342-399 | the pixel loop over a rectangle in a solid colour switches exactly the bits of the rectangle's visible pixels |
| Graphics.LoopOfNothing | lib/gfx/graphics.c:401-432 | a colour that stands for nothing leaves both planes alone |
| Graphics.TurnedPoint | lib/gfx/graphics.c:316-340 | under each rotation a point is in a box exactly when its image is in the box of the two mapped corners |
| Pixels.SheetTurns | lib/gfx/graphics.c:316-340 | rotations 1, 2 and 3 put logical (0, 0) into the top right, bottom right and bottom left corner; a step along x then goes down, left and up, one along y left, up and right |
| Pixels.TurnsAdd | lib/gfx/graphics.c:316-340 | turning twice is turning by the sum, on the sheet with width and height exchanged |
| Pixels.SheetIsVisible | lib/gfx/graphics.c:342-362 | on planes that hold the whole sheet exactly its pixels can be drawn |
| Pixels.PixelsApart | lib/gfx/graphics.c:342-399 | two pixels of the sheet are two bits of the planes |
| Pixels.DrawnPixelShows | lib/gfx/graphics.c:342-399 | a drawn pixel shows its colour on both planes, or in mask mode its mask, the two dithered colours by the parity of x + y |
| Pixels.OtherPixelsStay | lib/gfx/graphics.c:342-399 | every other pixel shows what it showed |
| Pixels.OtherBitsStay | lib/gfx/graphics.c:342-399 | and no other bit of either plane changes |
| Graphics.RectIsBand | lib/gfx/graphics.c:487-508 | clipping and mapping two corners loses and adds no pixel, widths that are not a multiple of eight included |
| Graphics.RowPaints | lib/gfx/graphics.c:519-544 | a masked and clamped row of bytes covers exactly the row's bits that may be written |
| Graphics.BandEnds | lib/gfx/graphics.c:519-523 | stopping at the first row past the end of the plane misses nothing |
| Graphics.Drawing.FillSpan | lib/gfx/graphics.c:434-455 | two masked edge bytes and a run of whole bytes are the specified span |
| Graphics.Drawing.FillRow | lib/gfx/graphics.c:519-544 | one row of the fast path inks exactly its cells on both planes |
| Graphics.Drawing.FillRect | lib/gfx/graphics.c:467-545 | for every canvas, rotation, mode, colour, rectangle and plane length the fill leaves both planes byte for byte as the pixel loop would |
| CommandQueue.StepKeepsInv | src/app/commands.c:2132-2349 | every received byte, command-thread step and disconnect keeps each slot in exactly one place |
| CommandQueue.RunKeepsInv | src/app/commands.c:2132-2349 | and so does every run of them, in any interleaving |
| CommandQueue.SlotsConserved | src/app/commands.c:2132-2349 | in every run the two slots are neither lost nor shared; a line being filled holds 1 to 255 bytes, and no byte of it opens a frame |
| CommandQueue.AcceptedRunInOrder | src/app/commands.c:2255-2273 | within one connection commands start in the order they were accepted, with the contents they were accepted with |
| CommandQueue.StepLogs | src/app/commands.c:2175-2178 | a disconnect drops what has not started and nothing else |
| CommandQueue.MagicOpensFrame | src/app/commands.c:2314-2317 | between frames 0xA5 opens one if and only if no line holds a slot |
| CommandQueue.InlineInLetters | src/app/commands.c:2284-2287 | what runs on the receive thread is REBOOT alone on its line, or anything that begins with SYSINFO |
| CommandQueue.StreamedBytesPass | src/app/commands.c:2300-2313 | while a video stream runs no byte reaches the queue |
| CommandDelivery.WholeLine | src/app/commands.c:2318-2347 | a text line, the command thread running in between, is queued whole (without its carriage returns, cut at 255 bytes and at a zero) or dropped whole with one BUSY reply, as a slot was free or not at its first byte that counts |
| CommandDelivery.WholeFrame | src/app/commands.c:2181-2235 | an opcode frame likewise, whatever its payload, as a slot was free or not at its opcode byte |
| CommandDelivery.WholeOrNothing | src/app/commands.c:2300-2349 | for every interleaving with the command thread, a token arrives whole or is refused with one BUSY reply if and only if it got its slot, or is a frame, or holds no 0xA5 |
| CommandDelivery.BlankIgnored | src/app/commands.c:2318-2335 | carriage returns and empty lines between commands are nothing |
| CommandDelivery.DiscardedLineOpensFrame | src/app/commands.c:2314-2317 | in a line being discarded 0xA5 does open a frame |
| CommandReconnect.DropRests | src/app/commands.c:2132-2179 | a disconnect leaves any reachable queue between two commands, with every slot free but the running one and nothing booked |
| CommandReconnect.FirstAfterDrop | src/app/commands.c:2132-2349 | the first line or frame after a disconnect arrives whole, whatever was half received before, from every reachable queue and under every interleaving |
| CommandThreads.Commands.RxByte | src/app/commands.c:2300-2349 | one byte of the receive path on the real fifos and buffers is the specified step and keeps the invariant |
| CommandThreads.Commands.LineByte | src/app/commands.c:2326-2346 | a byte of a text line, the first one taking a slot or being refused with one BUSY reply |
| CommandThreads.Commands.Process | src/app/commands.c:2300-2349 | a received block is its bytes one after the other |
| CommandThreads.Commands.OpcFeedByte | src/app/commands.c:2195-2235 | the opcode frame parser, with its slot or counting the frame out |
| CommandThreads.Commands.EnqueueLine | src/app/commands.c:2284-2298 | REBOOT and SYSINFO run at once and free their slot, other lines are queued |
| CommandThreads.Commands.CmdTake | src/app/commands.c:2262-2269 | the oldest ready command starts |
| CommandThreads.Commands.CmdFinish | src/app/commands.c:2270-2271 | its slot becomes free |
| CommandThreads.Commands.OnDisconnect | src/app/commands.c:2132-2179 | half a line, half a frame and everything waiting go back to the free list |
| Statistics.StepKeepsInv | src/app/persist.c:112-264 | a snapshot that may still be restored is of the running firmware, knows every firmware change counted and is ahead of the live record in nothing |
| Statistics.RunKeepsInv | src/app/persist.c:112-264 | over any run of ticks, refreshes, saves, resets and power cuts |
| Statistics.CountersNeverGoBack | src/app/persist.c:112-264 | uptime, boots, updates and refreshes never decrease while the RAM survives, over any resets and firmware changes |
| Statistics.PowerCutFallsBack | src/app/persist.c:112-178 | after a power cut counters, energy and clock are exactly the unspent snapshot's, or zero, plus that boot |
| Statistics.EveryUpdateCountedOnce | src/app/persist.c:147-156 | while the record is carried by RAM or snapshot, every change of firmware is counted exactly once |
| Statistics.UptimeAddsUp | src/app/persist.c:216-219 | between resets the uptime reading grows by exactly the time that passes |
| Statistics.ResetCostsSinceTick | src/app/persist.c:105-126 | a reset costs the reading exactly what passed since the last tick or save |
| StatisticsLedger.CountersCount | src/app/persist.c:112-233 | over any run without a power cut boots, refreshes, refreshes since the last firmware change, energy and firmware stamp are exactly the count of the events of the run |
| StatisticsLedger.ClockRuns | src/app/persist.c:163-176 | between resets the clock runs on from where it was last set |
| StatisticsLedger.ClockResumes | src/app/persist.c:163-176 | a reset takes the clock up again from the last tick or save, unless the firmware is newer than that; the uptime reading likewise |
| StatisticsLedger.SnapshotLasts | src/app/persist.c:112-264 | a snapshot is kept as it was saved through anything but another save, and can be restored for exactly as long as no other firmware has booted |
| StatisticsLedger.SaveTakesTheReading | src/app/persist.c:245-264 | a save puts the record as it reads at that moment into flash, unspent |
| Statistics.Persist.Init | src/app/persist.c:112-126 | a sealed record is kept and anything else becomes a sealed zero record |
| Statistics.Persist.PostSettings | src/app/persist.c:128-178 | restore, firmware change, clock, boot count and spending of the snapshot, as the boot step specifies |
| Statistics.Persist.ResetCold | src/app/persist.c:112-178 | a power cut on the real fields is the specified cold boot |
| Statistics.Persist.ResetWarm | src/app/persist.c:112-178 | a reset with the RAM intact is the specified warm boot |
| Statistics.FirstBoot | src/app/persist.c:112-178 | a tag with nothing in RAM starts in the invariant, whatever valid snapshot flash holds |
| Statistics.Persist.constructor | src/app/persist.c:112-178 | any RAM and any flash boot into a running tag, in the specified boot state |
| Statistics.Persist.AddRefresh | src/app/persist.c:207-214 | one more refresh in total and since the firmware change, resealed |
| Statistics.Persist.AddEnergy | src/app/persist.c:224-233 | the increment is added and resealed |
| Statistics.Persist.DoTick | src/app/persist.c:180-186 | the tick rolls uptime and clock forward and reseals |
| Statistics.Persist.AdoptEnergyModel | src/app/persist.c:192-205 | a re-estimate is taken once per model version |
| Statistics.Persist.SaveToFlash | src/app/persist.c:245-264 | a fresh unspent snapshot of the rolled-forward record replaces the old one |
| Life.PlaneSet | lib/gfx/life.c:18-26 | exactly one cell of the packed plane is written |
| Life.CountNeighbors | lib/gfx/life.c:64-94 | the living neighbours on the torus of the window, whatever its size |
| Life.World.LifeInit | lib/gfx/life.c:45-62 | one draw for each cell of the field in row order, the padding untouched, the scratch plane empty |
| Life.SeededAt | lib/gfx/life.c:53-60 | every cell of the field is decided by its own draw, so worlds seeded alike start alike whatever the memory held |
| Life.World.InjectGlider | lib/gfx/life.c:96-111 | the nine cells of a glider, clamped at the edges as `wrap` clamps them |
| Life.World.InjectRandomBlock | lib/gfx/life.c:113-122 | sixteen cells, one draw each in row order |
| Life.World.Compute | lib/gfx/life.c:158-168 | the scratch plane holds the next generation and nothing else, padding included |
| Life.World.Update | lib/gfx/life.c:124-179 | one call is B3/S23 on the torus of the injected board inside the clamped window, every bit outside it zero, and the board and seed depend on the old board and seed alone |
| Life.NothingOutside | lib/gfx/life.c:170-178 | a cell is alive after an update exactly when it is in the window and the rule makes it so |
| Life.InjectedElsewhere | lib/gfx/life.c:96-145 | an injection changes no cell but those it throws in |
| LifeGlider.InjectedCells | lib/gfx/life.c:96-145 | two updates in a hundred throw something in, at a place and of a kind drawn anew: a glider, or sixteen drawn cells, each where it belongs when it lands clear of the last columns and rows |
| LifeGlider.KnownDraws | lib/gfx/life.c:5-9 | the first draws after seed 0 |
| Life.NoResurrection | lib/gfx/life.c:151-178 | whatever windows two updates are given and whatever the second throws in, a cell alive after the second had a neighbour on the injected board that was alive after the first, inside the first window, or was just thrown in |
| Life.GenerationHasNoEdge | lib/gfx/life.c:64-94 | turning the window round commutes with playing a generation |
| LifeGlider.RuleOfLife | lib/gfx/life.c:158-168 | a cell of the window is alive in the next generation if and only if three of the eight cells around it are, or two and it is itself |
| LifeGlider.GliderWalks | lib/gfx/life.c:96-168 | on a field with nothing else on it a glider is k cells further down and right after 4k generations, across the edges, in every window of at least five cells each way |
| LifeGlider.ThrownWalks | lib/gfx/life.c:96-168 | so does one thrown onto an empty field |
| LifeGlider.ThrownWholeExactly | lib/gfx/life.c:64-111 | one thrown onto an empty field is whole if and only if it does not land in the last column or row, where the wrap puts two of its columns or rows onto the first |

## Left out

- VideoPacket.PacketFlushes: payloads of 65536 bytes and more, which the two length bytes cannot announce.
- VideoStream.ShownFrameIsTheEncodedFrame: without a wire CRC only undamaged packets are considered; whole packets are neither lost nor reordered by the link.
- VideoStream.RecoveryIsBounded: time-outs, dropped connections, loops of a clip and the end of playback.
- VideoHost.VStreamSession.TrySend: the length of the time-out, and what the player prints about it.
- VideoDecoder.Decoder.JudgeFrame: the acknowledgement's clock readings and the legacy XOR checksum, which the wire CRC replaces.
- VideoDecoder.Decoder.FlushFrame: the same two; the watchdog timer.
- VideoDecoder.Decoder.ProcessByte: after a stop the RAM of the controller is not followed, since its supply may be cut; reply lines.
- VideoDecoder.Decoder.Teardown: what a moving saver draws afterwards.
- Framebuffer.WriteAllLays: half-resolution frames on panels whose stride or height is odd; both panels are even.
- VideoDecoder.Decoder.StartStream: presets, waveform selection and the reply line; a panel's width and height are taken to be even multiples, as both panels are.
- DisplayManager.Display.UpdatePartialNowaitRows: when the bus fails, what the RAM then holds; the lock and the energy estimate.
- Ssd1675a.Driver.ConfigureRegisters: drive voltages, VCOM, scan timing and border, which do not touch the RAM; any data entry mode but the one the driver sets.
- Ssd1675a.Driver.InitPartial: waveform tables and the supply's settling time.
- HalfPlane.HalfPlaneWeb: the Python host's half_frame is NumPy code and has no model of its own.
- Cmac.CmacUnit.Cmac: AES is any function from key and block to a block; forgery is not considered.
- Replay.RebuiltListRefuses: only of a list nothing was committed to since; Replay.RefusedForGood covers what follows.
- ReplaySave.HandledOnceUnlessLost: settings writes succeed; forgetting the list on command is outside the runs; the source is not evicted, expired or out of range.
- MeshNode.MeshNode.HandlePdu: the job queue, the scanner and its threads; a full job queue is a lost copy.
- MeshSequence.BootResumes: the resume value alone; MeshCounter ties the other steps to the node.
- MeshSequence.NoNumberTwice: settings writes succeed, and one is atomic against the power cut.
- MeshFleet.FloodEnds: the number of receptions of one transmission is bounded by a parameter, not derived from scan timing.
- MeshOnce.AtMostOnce: a source that expires, is evicted or is out of range is outside the statement, because such a number is let through again.
- MeshCoverage.Coverage: one broadcast at a time, no loss, no failed cipher call, copies with fewer hops first.
- Graphics.Drawing.FillRect: coordinates are unbounded integers, so a rectangle whose far edge overflows the C int is outside the model; canvas sizes are not negative.
- CommandDelivery.WholeOrNothing: a byte of the receive path is one atomic step; a line that begins with 0xA5 is a frame, and an empty one is BlankIgnored.
- CommandThreads.Commands.OnDisconnect: the teardown of a running stream (VideoDecoder.Decoder.Teardown) and the virtual waveforms.
- CommandThreads.Commands.RxByte: what the handlers do, the authentication of the session and the DFU lock; starting and stopping a stream is an event.
- Statistics.Persist.PostSettings: counters do not wrap at 32 or 64 bits, a boot is one step, and a reset in the middle of an update of the record counts as RAM lost.
- Statistics.CountersNeverGoBack: speaks of the stored uptime; the reading loses what passed since the last tick when the tag resets (Statistics.ResetCostsSinceTick).
- BLE, GATT, timers, watchdogs and asyncio: only the order of atomic steps remains of them.
- Waveform tables, battery thresholds, energy constants, text command handlers, screens and fonts: constants or single-branch code.
- The GUI, the rest of the web host, frame conversion and firmware upload: user interface, I/O or foreign libraries.
