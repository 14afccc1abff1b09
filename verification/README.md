# Verified models of the Bonsai matmul system

This project models, in Dafny, the parts of the repository where a small mistake would be
silent: the 2x2 systolic chip and the wire protocol that drives it, the lowering that turns a
quantized matmul into chip runs, the board's tensor allocator and the DMA driver over it, the
pipelining graph scheduler, the weight layouts and their kernels, graph fusion, flash attention,
and the flash update with its CRC. `dafny verify dfyconfig.toml` checks everything.

## How the pieces fit

**From a matmul to chip cycles and back.** `Chip` is the register-level machine of the 2x2 array:
commands, the LOAD/RUN state machine, 16-bit wrapping accumulators. `Protocol` gives each tile its
cycles and proves what a whole plan leaves in the accumulators and in the reply. `Firmware` holds the
three encoders that must agree (host byte pairs, 'X' mode, 'M' macro mode). `Link` is the streamer's
frame loop as a machine on the bytes it was sent, with the connection that all transports of a process
share, and `InStep` says when that connection can be trusted. `Transport` is the framed round trip with
its dead flag, `Quantize` the activation quantizer, and `Lowering` the plan builder, the fold and the
loop over cells. `WireBytes` writes out the bytes that host and firmware must agree on. Put together,
`Lowering.RunMatmul` says that on a connection in step every output cell is written once, with the
direct scaled sum over its quantized row, unless an exchange failed. `DotProduct` and `Accuracy` say
what that sum means for the rows of sign bits the system is built for: the dot product with the
dequantized activations, and how far it is from the exact one.

**Board memory.** `FreeList` and `Extents` describe free lists, extents and the bytes they hold.
A free list is determined by the bytes it covers, so rollback, allocate-then-free and reordered
frees all give back the same lists. `Placement` accounts for alignment padding; `Allocator` is the
class itself, and refines a map from handles to bytes. `AllocatorRuns` turns that into statements
about every run. `ChunkPlan` and `Driver` are the matmul driver that streams weights over the
allocator's extents, at once or in two halves around other work; `DriverMeaning` gives its result
byte by byte.

**The graph scheduler.** `Scheduler` runs ops while a matmul's DMA is in flight. An oracle moves any
DMA byte at any moment. `Exactness.RuleIsExact` gives the exact condition, read off the ops' footprints,
under which the final memory is that of the sequential run. `Promise` says, on the ops' references
alone, which ops wait and when a graph is safe. `Pipelining` ties the scheduler's matmul to the
driver's.

**Transformations.** `Layout`, `LayoutMeaning` and `PackedKernels` (row-major Q1_0 to rowblock-packed
and its consumers, against the weights that `RowMajor` reads from the bytes), `Fusion`,
`FusionMeaning`, `NormKernels` and `NormMeaning` (RMS_NORM + MUL), `Attention` (online against
two-pass softmax, and against the textbook average of `Average`).

**Flash.** `Crc32` (table against bit-serial, and its published constants) and `Flash` (streaming begin/append/end,
power cuts).

Loops and in-place updates are methods, proved against functions; the functions' properties are
lemmas. Floating-point values are reals, or elements of an arbitrary arithmetic where bit-for-bit
equality is the point (`NormKernels`, `Driver`).

## Where code and comments differ

- `fused_rms_for` (lowering.cpp:612-618) is described as never changing what runs. It does not ask
  whether the RMS_NORM it absorbs is itself a compute node of the graph. `Fusion.Graph.FusionExact`
  shows that values are kept for every meaning of the kernels if and only if it always is.
  `Fusion.SplitFusesAcross` is the case: ggml cuts a graph into splits, and a split that holds the MUL
  but not the RMS_NORM, which an earlier graph ran, still fuses and recomputes the norm from whatever
  its input holds by then.
- `_op_touches` (graph.py:77-84) calls the default offset 0 conservative. An op that names the result's
  tensor without an offset is held back just when the result covers byte 0 (`Scheduler.UnoffsetHeld`).
  If the result starts later and the op reads a byte of it, some run reads stale bytes
  (`Pipelining.StaleRead`); `Pipelining.SpanningOpReadsStale` is one at the smallest shape the driver
  pipelines. `Exactness.OneBesideAnother` and `Exactness.RuleIsExact` give the exact condition.
- `execute` reports failure by its own dead flag (transport-usb.cpp:211-221), but what a failed transfer
  leaves on the link is shared. Another transport on the same connection is still alive, its next call
  succeeds, and it returns the first one's sums (`Transport.ReadsTheOthers`). Every plan gets its own
  answer if and only if nothing is left over (`InStep.InStepIff`); short plans need not notice
  (`InStep.TwoTilesMayPass`).
- `run_bonsai_matmul` (matmul.cpp:369-372) says the mutex is finer than a cell. `execute` holds it for
  the whole plan, and every plan the lowering builds opens with a run head, so whole plans of several
  callers may interleave freely (`Transport.InterleavingIsInvisible`).
- `physical` (allocator.py:258-259) returns 0 one past the end of any tensor, not only an empty one.
- `bitstream_flash_end` never returns 3 when the flash does what it is told (`Flash.FlashWriter.End`).

## Model

| member | source | states |
|---|---|---|
| Chip.LoadPhase | src/rtl/tpu_weight_mem.v:49-73 | from an idle chip, START shifts both weight columns into place in two cycles and touches neither inputs nor accumulators |
| Chip.WaveStep | src/rtl/w1a8_pe.v:47-72 | one clock moves the skewed wavefront of partial sums one place through the array |
| Chip.RunPhase | src/rtl/tpu_acc_mem.v:75-107 | the wavefront leaves each accumulator increased by its row's signed sum, wrapped to 16 bits, and the chip is busy until it has |
| Chip.FireLaw | src/rtl/tpu_tile_ctrl.v:68-108 | START plus exactly seven NOPs returns an idle chip to idle with both sums added, and at every cycle before that it is busy |
| Chip.FireUndisturbed | src/rtl/project.v:131-197 | whatever commands are sent in the seven cycles after START, CLEAR apart, the fire ends idle with both sums added |
| Chip.OutOfRangeSelectors | src/rtl/tpu_weight_mem.v:41-49 | a five-bit argument can select a row or column past the end if and only if the size is not the full power of two its selector width covers |
| Chip.NoErrorPulse | src/rtl/project.v:214-223 | on the 2x2 tile no command in any state raises the weight, activation or accumulator bounds pulse, and the selectors are the low argument bit |
| Protocol.TileCycles | tools/bonsai_backend/src/protocol.h:99-130 | a tile's cycle list has the length tile_cycles_for gives, head and tail only when flagged |
| Protocol.ArgLaw | tools/bonsai_backend/src/protocol.h:72-86 | command, row and byte survive packing into ui and decoding on the chip |
| WireBytes.TileBytes | tools/bonsai_backend/src/protocol.h:88-112 | a tile's cycles byte by byte in plain numbers: clear and seeds at a run head, weights, activations, one START and seven NOPs, result reads at a run tail, low byte first |
| WireBytes.StatusBits | src/rtl/tpu_status.v:8-48 | each bit of the status byte means its flag and no other |
| Protocol.TileLaw | tools/bonsai_backend/src/plan.h:25-38 | a tile leaves the chip idle with each accumulator at seed or carry plus its signed sum, and replies with both exactly when it ends a run |
| Protocol.PlanLaw | tools/bonsai_backend/src/plan.h:40-53 | over any plan the accumulators and the reply bytes are those of the promised run sums, from any idle chip |
| Protocol.HeadedPlanLaw | tools/bonsai_backend/src/protocol.h:108-115 | a plan that opens with a run head replies as from zero accumulators, whatever state the chip is in |
| Protocol.StateIndependence | tools/bonsai_backend/src/plan.h:40-45 | the reply is the same from every idle chip if and only if no tile ends a run before the first head |
| Protocol.PlanPolite | tools/bonsai_backend/src/protocol.h:113-117 | from an idle chip, only NOPs are sent while the chip is busy, through a whole plan |
| Protocol.HeadedPlanPolite | tools/bonsai_backend/src/protocol.h:108-117 | a plan that opens with a run head, sent to a chip in any state: only its opening CLEAR may meet a busy chip, after that only NOPs do |
| Protocol.PlanReplyConcat | tools/bonsai_backend/src/plan.h:55-82 | the reply of two plans in a row is the reply of the first followed by that of the second from where it left the chip |
| Firmware.BuildTilePairs | tools/bonsai_backend/src/protocol.cpp:5-56 | fills the buffer with exactly the tile's cycles, returns their count and the reply offset or -1, and writes nothing beyond |
| Firmware.BuildPlanPairs | tools/bonsai_backend/src/protocol.cpp:5-56 | tile after tile, the pairs of a plan are exactly its cycles |
| Firmware.DescriptorRoundTrip | tools/bonsai_backend/src/transport-usb.cpp:198-204 | the three descriptor bytes decode to the tile with its weights cut to two bits and its seeds zeroed |
| Firmware.WireRoundTrip | tools/rp_streamer/firmware/main.c:298-304 | a whole plan survives encoding and decoding; with two-bit weights and zero seeds it comes back unchanged |
| Firmware.Streamer.RunTileMacro | tools/rp_streamer/firmware/main.c:131-168 | drives the chip through exactly the tile's cycles and returns exactly its reply bytes, from any chip state |
| Firmware.Streamer.ModeX | tools/rp_streamer/firmware/main.c:262-282 | whatever the batching, the chip sees the pairs in order and every output byte comes back |
| Firmware.Streamer.ModeM | tools/rp_streamer/firmware/main.c:283-317 | whatever the batching, the chip sees the expanded plan and only run-tail bytes come back |
| Firmware.ModesAgree | tools/rp_streamer/firmware/main.c:128-168 | from equal chip states, a zero-seed two-bit plan sent as build_tile_pairs output through 'X' and as descriptors through 'M' puts the same cycles on the chip and leaves it in the same state, and the 'M' reply is the 'X' samples cut to the RDP cycles |
| Firmware.RdpProjection | tools/bonsai_backend/src/protocol.h:136-141 | a plan's reply is its output stream cut to the RDP cycles |
| Link.NatOfLe | tools/bonsai_backend/src/transport-usb.cpp:184-189 | a 32-bit count survives the frame header |
| Transport.DecodedPsum | tools/bonsai_backend/src/protocol.h:88-93 | every 16-bit sum is recovered from its two bytes by the sign extension |
| Link.FrameServed | tools/rp_streamer/firmware/main.c:209-216 | from a frame boundary, a whole frame leaves the chip after its plan, exactly the plan's reply waiting, and the loop at a boundary again |
| WireBytes.FrameBytes | tools/bonsai_backend/src/transport-usb.cpp:167-208 | the 'M' frame byte by byte: mode, count low byte first, then two activations and the packed weights and flags of each tile |
| WireBytes.PairBytes | tools/bonsai_backend/src/transport-usb.cpp:116-140 | the 'X' frame of one cycle byte by byte |
| WireBytes.ModeLetters | tools/rp_streamer/firmware/main.c:209-283 | which mode each header letter starts, every other letter being ignored |
| Link.AsicConnection.RunTurn | tools/rp_streamer/firmware/main.c:262-317 | one turn of the frame loop, a header or a batch of an 'M' or 'X' body, is the turn of the byte machine, and waits for bytes exactly when it does |
| Link.AsicConnection.Deliver | tools/rp_streamer/firmware/main.c:209-320 | the loop takes bytes as they come until it waits for more, as the byte machine does |
| Link.FeedConcat | tools/rp_streamer/firmware/main.c:209-320 | bytes sent in two transfers act as the same bytes sent in one |
| Link.PartOfFrame | tools/bonsai_backend/src/transport-usb.cpp:303-310 | after part of a frame nothing is left over exactly when no byte of it went out, or all of it and it has no reply |
| Link.LeftOverFirst | tools/bonsai_backend/src/transport-usb.cpp:96-112 | at a boundary with replies left over, a frame's own reply goes behind them |
| Link.PairServed | tools/bonsai_backend/src/transport-usb.cpp:114-134 | an 'X' frame of one pair puts that cycle on the chip and answers with the byte sampled after it |
| InStep.InStepIff | tools/bonsai_backend/src/transport-usb.cpp:303-310 | wherever the loop was left waiting, every headed plan gets its own reply if and only if it is at a frame boundary with no byte untaken and no reply unread, and otherwise some plan of at most three tiles does not |
| InStep.TwoTilesMayPass | tools/rp_streamer/firmware/main.c:283-317 | three is exact: a streamer stuck inside an 'M' body is out of step and yet answers every headed plan of one or two tiles correctly |
| Transport.UsbTransport.Decode | tools/bonsai_backend/src/transport-usb.cpp:223-240 | each run tail gets its own four bytes, sign extended; every other slot is zero |
| Transport.UsbTransport.Execute | tools/bonsai_backend/src/transport-usb.cpp:160-242 | says exactly when a call succeeds, when the transport dies and that failures give zeros; success decodes the oldest reply bytes on the link, which from a connection in step are the plan's own; and when the connection stays in step |
| Transport.UsbTransport.Status | tools/bonsai_backend/src/transport-usb.cpp:244-253 | one STATUS cycle through an 'X' frame, or the bare error bit from a dead transport or a failed exchange; from a connection in step the bit is set exactly then or when the chip has latched an error |
| Transport.PollBytes | tools/bonsai_backend/src/transport-usb.cpp:244-253 | the STATUS command is the all-zero cycle |
| Transport.ErrorBit | tools/bonsai_backend/src/protocol.h:24-32 | a status byte reports an error exactly from 64 to 127 and from 192 up |
| Transport.ExchangeInStep | tools/bonsai_backend/src/transport-usb.cpp:208-221 | an exchange from a connection in step leaves it in step exactly when nothing was sent, or the whole frame was and the whole reply was read |
| Transport.ReadsTheOthers | tools/bonsai_backend/src/transport-usb.cpp:18-23 | of two live transports on one connection, after one's reply goes unread the other's next call succeeds with the first one's sums |
| Transport.ExecuteAnswers | tools/bonsai_backend/src/plan.h:28-31 | for a plan with a run head every tail slot decodes to the sum since its run began, wrapped to 16 bits |
| Transport.InterleavingIsInvisible | tools/bonsai_backend/src/transport-usb.cpp:208-242 | while no transfer fails, in every interleaving of whole headed plans each caller gets what it would get alone, from any chip state |
| Transport.ErrorNeverRaised | src/rtl/project.v:214-223 | no command sequence raises the error latch on this 2x2 tile, its bounds pulses included |
| Quantize.QuantizeActs | tools/bonsai_backend/src/matmul.cpp:69-109 | every quant and scale is that of its block's maximum, non-finite values and zero blocks included; if scales are stored exactly, stored scale times quant is within m/254 of the value for any bound m on its block |
| Quantize.QuantError | tools/bonsai_backend/src/matmul.cpp:93-107 | a quant is at most half a step from its value and lies in -127..127 |
| Quantize.StoredError | tools/bonsai_backend/src/matmul.cpp:88-107 | what the stored scale times the quant loses is at most m/254 for any bound m on the block's finite values |
| Quantize.Symmetric | tools/bonsai_backend/src/matmul.cpp:103-105 | negating a value negates its quant |
| Quantize.HalfwayUp | tools/bonsai_backend/src/matmul.cpp:103-105 | a value halfway between two steps takes the one farther from zero |
| Lowering.RunStep | tools/bonsai_backend/src/matmul.cpp:213-236 | adding a tile to a run extends the accumulated sums to the next two lanes, and they stay within 4096 |
| Lowering.AppendRun | tools/bonsai_backend/src/matmul.cpp:205-236 | a sub-block becomes one run whose last accumulator pair is the signed sum over the sub-block; no accumulator of the plan leaves 4096 |
| Lowering.SkippedGroup | tools/bonsai_backend/src/matmul.cpp:186-203 | a weight group whose scales are zero may be left out of the plan: its blocks count nothing |
| Lowering.BuildPlan | tools/bonsai_backend/src/matmul.cpp:183-244 | the plan holds one bounded headed run for each planned sub-block, runs and sub-blocks in ascending order, each with its own group scales and activation scale, every block left out counts nothing, and an odd last row sets no weight bit of the second array row |
| Lowering.TailPsums | tools/bonsai_backend/src/matmul.cpp:263-267 | the integers the fold reads at a run tail are the direct signed sums of that sub-block |
| Lowering.Fold | tools/bonsai_backend/src/matmul.cpp:259-272 | on outputs that hold their sub-blocks' signed sums the accumulators end as the scaled sums in plan order |
| Lowering.OwnSums | tools/bonsai_backend/src/matmul.cpp:246-272 | the outputs decoded from a built plan's own reply hold every planned sub-block's signed sums at its tail slot |
| Lowering.FoldsToReference | tools/bonsai_backend/src/matmul.cpp:183-244 | summing the planned sub-blocks in plan order, each once with its own scales, gives the scaled sum over all sub-blocks |
| Lowering.FlatGroupScale | tools/bonsai_backend/src/matmul.cpp:56-67 | in a row of sign bits a group's mean magnitude is the magnitude of each of its weights |
| Lowering.ReferenceIsDot | tools/bonsai_backend/src/matmul.cpp:183-279 | for a row of sign bits the blocks' scaled signed sums add up to the dot product of weights and dequantized activations, written out on its own |
| Lowering.ReferenceMeansDot | tools/bonsai_backend/src/matmul.cpp:69-279 | and, scales stored exactly, that is within m/254 per unit of weight of the dot product with the activations themselves |
| Accuracy.DotMeans | tools/bonsai_backend/src/matmul.cpp:69-109 | quantizing activations of at most m moves any dot product by at most the total weight magnitude times m/254 |
| Lowering.RunCellPair | tools/bonsai_backend/src/matmul.cpp:142-279 | on a live transport in step it fails exactly when its exchange does; otherwise both rows of a pair get their reference sums through plan, wire, firmware, chip and reply, and the connection stays in step |
| Lowering.RunColumn | tools/bonsai_backend/src/matmul.cpp:398-405 | rows go in pairs, an odd last row alone, each cell written once, with its reference value (whose meaning `Lowering.ReferenceMeansDot` gives) from a connection in step; it fails exactly when an exchange does |
| Lowering.RunMatmul | tools/bonsai_backend/src/matmul.cpp:363-413 | with an outcome for every exchange: from a live transport in step it fails exactly when some exchange does, otherwise the destination has exactly the job's cells, each with its reference value over the broadcast operands; for a row of sign bits, each 128-group's weights of one magnitude, the cell is the dot product of the row that src0's broadcast selects with the dequantized column, and within m/254 per unit of weight of the exact one when scales are stored exactly |
| Crc32.Table.FillEntry | tools/rp_streamer/firmware/crc32.c:11-17 | an entry is its index after eight serial shifts |
| Crc32.Table.BuildTable | tools/rp_streamer/firmware/crc32.c:10-19 | all 256 entries are right and the table is marked ready |
| Crc32.Table.Update | tools/rp_streamer/firmware/crc32.c:21-27 | the table-driven update equals the bit-serial reflected CRC-32 of section 8 of RFC 1952 for every state and message |
| Crc32.BitsThenShift | tools/rp_streamer/firmware/crc32.c:14 | feeding message bits one at a time is the same as mixing the byte in first and shifting |
| Crc32.ShiftsByTable | tools/rp_streamer/firmware/crc32.c:24 | eight shifts of a word are its low byte's entry mixed into the rest |
| Crc32.TableStep | tools/rp_streamer/firmware/crc32.c:24 | one table step is one serial byte |
| Crc32.UpdateConcat | tools/rp_streamer/firmware/crc32.h:5-11 | the update composes over every split of the message |
| Crc32.SuffixKeepsApart | tools/rp_streamer/firmware/crc32.c:21-27 | different states stay different over any common suffix |
| Crc32.ByteErrorDetected | tools/rp_streamer/firmware/bitstream_flash.c:50 | changing any one byte of a payload changes its CRC |
| Crc32.CheckValue | tools/rp_streamer/firmware/crc32.h:13-15 | the CRC of the nine digits is the published check value 0xCBF43926 |
| Crc32.WordFed | tools/rp_streamer/firmware/crc32.c:21-27 | feeding a word's four bytes, low byte first, is mixing the word in and shifting all of it out |
| Crc32.Residue | tools/rp_streamer/firmware/crc32.h:9-15 | any payload followed by its own CRC, low byte first, leaves the register at the residue 0xDEBB20E3 |
| Flash.ProgramErased | tools/rp_streamer/firmware/bitstream_flash.c:65 | programming a page of erased bytes stores the data exactly |
| Flash.StagedGrow | tools/rp_streamer/firmware/bitstream_flash.c:52-70 | staging a chunk keeps flash and buffer together equal to what was received, and a full sector goes to erased bytes inside the region |
| Flash.FlashWriter.RangeErase | tools/rp_streamer/firmware/bitstream_flash.c:24-33 | erases exactly the sectors asked for, the header's first, so nothing is marked present from then on |
| Flash.FlashWriter.RangeProgram | tools/rp_streamer/firmware/bitstream_flash.c:61-66 | programs each page of an erased range once, outside the header |
| Flash.FlashWriter.Begin | tools/rp_streamer/firmware/bitstream_flash.c:21-41 | accepts exactly the lengths that fit, erases just what they need and starts an empty payload |
| Flash.FlashWriter.Append | tools/rp_streamer/firmware/bitstream_flash.c:43-72 | accepts exactly what still fits, extends the payload by it, and a refusal leaves the flash alone and ends the upload |
| Flash.FlashWriter.End | tools/rp_streamer/firmware/bitstream_flash.c:74-121 | gives 1, 2 or 0 exactly as the upload was inactive, short or complete; on 0 header, payload, fill and everything outside are right and the header page was programmed last with the payload's CRC |
| Flash.HeaderReads | tools/rp_streamer/firmware/bitstream_flash.c:123-128 | a written header reads back as present with its length and CRC |
| Flash.HiddenSnoc | tools/rp_streamer/firmware/bitstream_flash.c:24-33 | no erase, and no program outside the header, makes a bitstream present once the header sector is erased |
| Flash.PowerCut | tools/rp_streamer/firmware/bitstream_flash.c:99-113 | stopping after any number of flash operations leaves a bitstream present only before the first erase or after the header |
| Flash.FlashWriter.Upload | tools/rp_streamer/firmware/main.c:226-251 | however the stream is cut into reads, a length that fits ends with the payload stored, and cut after any flash operation before the last the region holds no bitstream; any other length changes nothing |
| Flash.StoredOnFlash | tools/rp_streamer/firmware/bitstream_flash.h:23-31 | the stored region byte by byte in plain numbers: magic, length, the four bytes that complete the payload to the CRC residue, zeros, fill, payload, erased sectors, and everything beyond as before |
| Flash.DigitsOnFlash | tools/rp_streamer/firmware/bitstream_flash.c:103-107 | storing the nine digits leaves the check value in the header |
| Flash.PresentIff | tools/rp_streamer/firmware/bitstream_flash.c:123-128 | a bitstream counts as present exactly when the region starts with the magic and a non-zero length that fits |
| Attention.MaxScoreIsMax | tools/pynqz1/board/kernels/ps/native.c:1122-1146 | the running maximum is the largest unmasked score, and absent exactly when all are masked |
| Attention.UpdateLaw | tools/pynqz1/board/kernels/ps/native.c:1130-1160 | one rescale-and-add step turns a weighted sum about the old maximum into the one about the new |
| Attention.WeightedShift | tools/pynqz1/board/kernels/ps/native.c:1130-1160 | moving the reference score scales a weighted sum by one exponential factor |
| Attention.SoftmaxShift | tools/pynqz1/board/kernels/ps/native.c:1160-1170 | the softmax average does not depend on the reference score |
| Attention.SoftmaxIsMean | tools/pynqz1/board/kernels/ps/native.c:1122-1170 | the softmax of the kernel's scores is the textbook weighted average over the unmasked keys, with its own inner product and weights |
| Attention.ScaleOnQuery | tools/pynqz1/board/kernels/ps/native.c:1139 | scaling the dot products by c is multiplying the query by c; the biases are not scaled |
| Attention.BiasRaises | tools/pynqz1/board/kernels/ps/native.c:1130-1141 | raising a key's finite bias by x multiplies its weight by e(x) |
| Attention.DotPicks | tools/pynqz1/board/kernels/ps/native.c:1134-1138 | the dot product with a unit key picks that coordinate of the query |
| Attention.DotAdds | tools/pynqz1/board/kernels/ps/native.c:1134-1138 | the dot product adds up over keys |
| Attention.AttendRow | tools/pynqz1/board/kernels/ps/native.c:1122-1170 | the online loop gives the two-pass softmax-weighted average of the unmasked V rows, zero when all are masked; what the scores are, `Attention.SoftmaxIsMean` says |
| Attention.FlashAttention | tools/pynqz1/board/kernels/ps/native.c:1075-1174 | every token and head gets the weighted average of its own K/V head's values, each key weighing the exponential of its scaled inner product with the query plus its bias, written out without a maximum and with grouped heads in consecutive runs; bad shapes get their error codes |
| Layout.PackWeights | tools/pynqz1/proto/q1a8_layout.c:42-109 | the output is the rowblock-packed form, of the helper's length, or the argument's error code |
| Layout.PackedRoundTrip | tools/pynqz1/proto/q1a8_layout.py:81-152 | every byte of the row-major weights sits at its computed place in the packed form, so packing loses nothing |
| LayoutMeaning.PackedByte | tools/pynqz1/proto/q1a8_layout.py:81-152 | where each source byte stands in the packed tensor, in plain numbers, padding rows zero |
| Layout.PaddingIsZero | tools/pynqz1/proto/q1a8_layout.c:69-98 | every byte of a lane past the last row is zero |
| Layout.ScaleReads | tools/pynqz1/proto/q1a8_layout.c:66-82 | the scale word read for any row and block is the row-major one |
| Layout.WbitsReads | tools/pynqz1/proto/q1a8_layout.c:84-104 | the weight word read for any row, block and sub-block is the row-major one |
| Layout.PackActs | tools/pynqz1/proto/q1a8_layout.c:111-135 | the activation stream holds each sub-block's bytes and scale beat in order, with the helper's length |
| Layout.ActStreamReads | tools/pynqz1/proto/q1a8_layout.c:122-133 | each sub-block's activations and scale stand at their computed place in that stream |
| Layout.MergeActs | tools/pynqz1/proto/q1a8_layout.c:137-185 | the merged stream interleaves packed weights with activations block by block, or gives the argument's error code |
| Layout.PackStream | tools/pynqz1/board/kernels/ps/native.c:662-732 | the direct packer emits one column's stream straight from the row-major weights |
| Layout.PackMatmulStream | tools/pynqz1/board/kernels/ps/native.c:1180-1229 | all columns' streams follow each other, or the argument's error code |
| LayoutMeaning.StreamBytesAt | tools/pynqz1/board/kernels/ps/native.c:662-732 | every byte of a block of the stream in plain numbers: scales, then four times 32 activations, an eight-byte scale beat and the weight bits |
| LayoutMeaning.ColumnStarts | tools/pynqz1/board/kernels/ps/native.c:1180-1229 | column c's stream starts after c streams of one length |
| Layout.MergeOfPack | tools/pynqz1/proto/q1a8_layout.py:81-217 | packing then merging is byte for byte the direct packer's stream |
| PackedKernels.PackedLane | tools/pynqz1/board/kernels/ps/native.c:283-321 | the words the kernels index in the packed form are the row's own scale and weight bits |
| PackedKernels.WordBit | tools/pynqz1/board/kernels/ps/native.c:313 | bit i of a weight word is bit i % 8 of its byte i / 8 |
| PackedKernels.DequantIsRow | tools/pynqz1/board/kernels/ps/native.c:876-884 | looking up through the words gives the weights read straight from the row-major bytes |
| PackedKernels.RowIsDot | tools/pynqz1/board/kernels/ps/native.c:283-323 | the blocks' scaled signed sums of a row add up to its dot product with the dequantized activations |
| PackedKernels.MatmulQ1A8 | tools/pynqz1/board/kernels/ps/native.c:255-327 | -1 for a bad shape; otherwise each column is quantized and every output is the block-by-block sum over the row-major weights, zero-scale blocks skipped; each output is the dot product of the row, as the row-major bytes store it, with the dequantized column, and near the exact one |
| PackedKernels.GetRows | tools/pynqz1/board/kernels/ps/native.c:826-890 | -1 for a bad row length, -2 when an index of the three-dimensional index tensor is outside the table, otherwise every looked-up row is the one the row-major bytes store: plus the block's scale where the weight's bit is set, else minus |
| FreeList.CarveLaw | tools/pynqz1/board/memory/allocator.py:297-335 | taking bytes of a block removes exactly those bytes and keeps the list sorted, separated and non-empty |
| FreeList.SortLaw | tools/pynqz1/board/memory/allocator.py:339-340 | the sort gives a sorted rearrangement |
| FreeList.MergeLaw | tools/pynqz1/board/memory/allocator.py:341-352 | coalescing any sorted list of non-empty blocks gives a separated list of the same bytes |
| FreeList.ReleasedLaw | tools/pynqz1/board/memory/allocator.py:337-352 | releasing adds exactly the released bytes and keeps the shape |
| FreeList.Unique | tools/pynqz1/board/memory/allocator.py:71-75 | two separated lists covering the same bytes are the same list |
| FreeList.ReleasedUndoesCarve | tools/pynqz1/board/memory/allocator.py:297-352 | taking then releasing gives back the very same list |
| FreeList.ReleasesCommute | tools/pynqz1/board/memory/allocator.py:337-352 | the order of two releases does not matter |
| FreeList.AlignUpLaw | tools/pynqz1/board/memory/allocator.py:55-58 | align_up is the least multiple of the alignment not below the value |
| FreeList.CarveAvail | tools/pynqz1/board/memory/allocator.py:319-334 | taking all that is usable of a block lowers the usable total by exactly that |
| Extents.FreeDeterminedByLive | tools/pynqz1/board/memory/allocator.py:71-75 | the free lists are a function of the live extents |
| Extents.Rollback | tools/pynqz1/board/memory/allocator.py:291-294 | releasing a partial placement restores every free list block for block |
| Extents.FreesCommute | tools/pynqz1/board/memory/allocator.py:145-150 | freeing two tensors in either order leaves the same free lists |
| Extents.TilesAllocate | tools/pynqz1/board/memory/allocator.py:131-143 | recording a placement keeps every slab tiled exactly by free blocks and live extents |
| Extents.TilesFree | tools/pynqz1/board/memory/allocator.py:145-150 | dropping a record and releasing its extents keeps the tiling |
| Extents.UsedIsLive | tools/pynqz1/board/memory/allocator.py:82-92 | bytes in use are the sizes of the live tensors added up |
| Extents.StoreIsPatch | tools/pynqz1/board/memory/allocator.py:152-167 | storing at part of a tensor's addresses changes that range of that tensor and no other tensor |
| Placement.TakeLaw | tools/pynqz1/board/memory/allocator.py:297-312 | a reservation takes exactly its extent out of the free space |
| Placement.RoomyIff | tools/pynqz1/board/memory/allocator.py:267-290 | first fit takes a block just when it has room anywhere at the alignment, and what is usable is the most it has room for |
| Placement.GreedyStep | tools/pynqz1/board/memory/allocator.py:281-290 | the greedy fill is the first usable block's extent followed by the greedy fill of what is left |
| Placement.TakeCosts | tools/pynqz1/board/memory/allocator.py:314-335 | taking a block's usable bytes lowers what all slabs can give by exactly that |
| Allocator.TensorAllocator.constructor | tools/pynqz1/board/memory/allocator.py:62-78 | a new allocator is one free block per slab, tiled, with no tensors |
| Allocator.TensorAllocator.Take | tools/pynqz1/board/memory/allocator.py:297-312 | succeeds exactly when one block holds the range, and carves it out of one that does |
| Allocator.TensorAllocator.PlaceSingle | tools/pynqz1/board/memory/allocator.py:267-275 | first fit: the aligned start of the first block, slab by slab, that holds the tensor, or none when none does |
| Allocator.TensorAllocator.TakeLargest | tools/pynqz1/board/memory/allocator.py:314-335 | takes the wanted bytes or all that is usable of the first usable block; none when nothing is usable, and then nothing changes |
| Allocator.TensorAllocator.PlaceMulti | tools/pynqz1/board/memory/allocator.py:277-295 | gives the greedy extents, the first usable block each time; fails exactly when the aligned free space is short, and then leaves the free lists as they were |
| Allocator.TensorAllocator.Release | tools/pynqz1/board/memory/allocator.py:337-352 | append, sort and coalesce compute the released list |
| Allocator.TensorAllocator.Allocate | tools/pynqz1/board/memory/allocator.py:105-143 | out of memory exactly when the aligned free space is below the size; otherwise a fresh handle over aligned extents of free bytes, first fit when one block suffices and the greedy fill when none does, undone exactly by releasing them; failures change nothing |
| Allocator.TensorAllocator.Free | tools/pynqz1/board/memory/allocator.py:145-150 | drops exactly one tensor and releases its extents, or refuses an unknown handle |
| Allocator.TensorAllocator.UsedBytes | tools/pynqz1/board/memory/allocator.py:82-92 | total minus free is the sum of live tensor sizes |
| Allocator.TensorAllocator.Walk | tools/pynqz1/board/memory/allocator.py:376-395 | the pieces, in order, are exactly the addresses of the range |
| Allocator.TensorAllocator.ValidateRange | tools/pynqz1/board/memory/allocator.py:364-374 | names the first of unknown tensor, negative argument and out of bounds that applies |
| Allocator.TensorAllocator.Write | tools/pynqz1/board/memory/allocator.py:152-167 | patches one range of one tensor across its extents and changes nothing else |
| Allocator.TensorAllocator.Read | tools/pynqz1/board/memory/allocator.py:169-178 | returns exactly the stored bytes of the range |
| Allocator.TensorAllocator.SlabView | tools/pynqz1/board/memory/allocator.py:187-217 | for a non-empty range succeeds exactly when one extent holds it, and exposes the bytes read returns; an empty range fails exactly at the end |
| Allocator.TensorAllocator.StoreThroughView | tools/pynqz1/board/kernels/pl/matmul_q1a8.py:597-612 | writing through a view patches the viewed range of its tensor |
| Allocator.TensorAllocator.Physical | tools/pynqz1/board/memory/allocator.py:240-259 | gives the bus address of the tensor's byte, or zero one past the end |
| Allocator.TensorAllocator.PhysicalDistinct | tools/pynqz1/board/memory/allocator.py:240-259 | over slabs that do not overlap, no two live bytes share a bus address |
| Allocator.FakeSlabs | tools/pynqz1/board/memory/slabs.py:149-160 | distinct zeroed slabs of the right total, none too large, following each other from 256 MiB on with 4 KiB between their bus ranges |
| Allocator.FakeAllocator | tools/pynqz1/board/memory/allocator.py:410-411 | builds a valid, empty allocator over slabs that do not overlap |
| AllocatorRuns.Perform | tools/pynqz1/board/memory/allocator.py:105-178 | each call on the allocator is a step of the abstract map machine, errors included |
| AllocatorRuns.Serve | tools/pynqz1/board/memory/allocator.py:105-178 | any list of calls follows a run of that machine |
| AllocatorRuns.HandlesNeverReused | tools/pynqz1/board/memory/allocator.py:131-132 | over every run no handle is given out twice |
| AllocatorRuns.WrittenIsRead | tools/pynqz1/board/memory/allocator.py:152-178 | over every run what was written is read back until it is freed or overwritten |
| ChunkPlan.OneExtentIff | tools/pynqz1/board/kernels/pl/matmul_q1a8.py:894-907 | a range lies in one extent exactly when it does not pass the end of its own |
| ChunkPlan.Weights.DirectOrStraddling | tools/pynqz1/board/kernels/pl/matmul_q1a8.py:568-585 | every chunk lies in one extent, or is a single rowblock that does not |
| ChunkPlan.Weights.ChunksPartition | tools/pynqz1/board/kernels/pl/matmul_q1a8.py:567-652 | the chunks are non-empty and add up to all rowblocks |
| Driver.LargestChunk | tools/pynqz1/board/kernels/pl/matmul_q1a8.py:567-585 | every chunk is the largest that remains, fits 8 MiB and lies in one extent, or a single rowblock where none does |
| ChunkPlan.StreamedWhole | tools/pynqz1/board/kernels/pl/matmul_q1a8.py:614-626 | the streamed chunks concatenate to the packed tensor |
| ChunkPlan.LanesJoin | tools/pynqz1/board/kernels/pl/matmul_q1a8.py:589-591 | the lanes of consecutive chunks are the lanes of the whole |
| Driver.TransfersTile | tools/pynqz1/board/kernels/pl/matmul_q1a8.py:587-595 | the destination ranges of a run follow each other without gap or overlap over rows * cols floats |
| Driver.TransfersFit | tools/pynqz1/board/kernels/pl/matmul_q1a8.py:858-892 | every transfer of a run is direct, or one straddling rowblock |
| Driver.AsyncIsOneTransfer | tools/pynqz1/board/kernels/pl/matmul_q1a8.py:704-714 | the weight shape that is pipelined is one direct transfer with no padding row, the same as the synchronous run's |
| Driver.PLMatmulQ1A8.ExtentRemaining | tools/pynqz1/board/kernels/pl/matmul_q1a8.py:894-907 | gives the bytes to the end of the extent |
| Driver.PLMatmulQ1A8.StreamWeights | tools/pynqz1/board/kernels/pl/matmul_q1a8.py:858-892 | streams exactly the tensor's bytes, direct or through scratch, and fails only on a bad range, a direct range in a slab without a DMA buffer, or scratch too small |
| Driver.PLMatmulQ1A8.LandResult | tools/pynqz1/board/kernels/pl/matmul_q1a8.py:597-649 | the real rows of a chunk land in the destination, through a view or by copy, and nothing else changes; it fails only on a bad range or a viewed slab without a DMA buffer |
| Driver.PLMatmulQ1A8.SizeChunk | tools/pynqz1/board/kernels/pl/matmul_q1a8.py:571-585 | computes the planned chunk size from the extents |
| Driver.PLMatmulQ1A8.RunColumn | tools/pynqz1/board/kernels/pl/matmul_q1a8.py:565-652 | a column's transfers are the planned ones and its output does not depend on the chunking |
| Driver.PLMatmulQ1A8.Run | tools/pynqz1/board/kernels/pl/matmul_q1a8.py:468-652 | with its ranges in bounds over slabs with DMA buffers the run ends without error through exactly the planned transfers, and the destination holds each column's lanes over the whole weight tensor, for every extent split |
| Driver.PLMatmulQ1A8.Start | tools/pynqz1/board/kernels/pl/matmul_q1a8.py:730-786 | for an op of that shape the activations are copied and the DMA's weight and result addresses are those of the op, exactly when all its ranges are in bounds and the weights' slab has a DMA buffer |
| Driver.PLMatmulQ1A8.RunAsync | tools/pynqz1/board/kernels/pl/matmul_q1a8.py:671-786 | defers exactly the one-column, one-chunk, unpadded ops whose result lies in one extent of a slab with a DMA buffer, and whose weights' slab has one, changing no tensor; every other op is run at once, with the result of run |
| Driver.PLMatmulQ1A8.Complete | tools/pynqz1/board/kernels/pl/matmul_q1a8.py:788-801 | the lanes of the copied activations and the weights are in the destination, and nothing else changed |
| Driver.PLMatmulQ1A8.RunDeferred | tools/pynqz1/board/kernels/pl/matmul_q1a8.py:671-801 | with its ranges in bounds and its result apart from its inputs, issue followed by complete leaves the tensors as the synchronous run does |
| DriverMeaning.RunByByte | tools/pynqz1/board/kernels/pl/matmul_q1a8.py:468-652 | what a run leaves, byte by byte: row r of column c at 4 * (c * rows + r) comes from the column's own activations and lane r % 8 of rowblock r / 8, and no other byte changes |
| DriverMeaning.ActBufferFits | tools/pynqz1/board/kernels/pl/matmul_q1a8.py:486-492 | the activation buffer takes exactly a column's packed stream |
| Scheduler.OpTouches | tools/pynqz1/board/daemon/graph.py:77-90 | true exactly when some role names the handle at an offset in the interval, or without an offset while the interval holds byte zero |
| Scheduler.DmaKeeps | tools/pynqz1/board/daemon/graph.py:116-125 | whichever byte the DMA moves next, memory stays the sequential one up to the bytes still to land |
| Scheduler.StepKeeps | tools/pynqz1/board/daemon/graph.py:11-15 | a piece that writes neither the result nor a weight it needs keeps that relation, up to what it computed from result bytes |
| Scheduler.IssueKeeps | tools/pynqz1/board/kernels/pl/matmul_q1a8.py:730-786 | issuing a matmul is running it, up to the bytes still to land |
| Scheduler.FinishIsIdeal | tools/pynqz1/board/kernels/pl/matmul_q1a8.py:788-801 | completing it gives the sequential memory |
| Scheduler.PiecesKeep | tools/pynqz1/board/daemon/graph.py:157-160 | an op run beside a streaming matmul acts as in the sequential run but for the cells its pieces computed from the unlanded result |
| Scheduler.Board.RunGraph | tools/pynqz1/board/daemon/graph.py:93-187 | for every op list and every timing of DMA bytes the loop leaves the memory, log and counts specified and nothing in flight; under the arena rule the memory is the sequential one |
| Scheduler.RuleIsSound | tools/pynqz1/board/daemon/graph.py:11-15 | under the arena rule every run ends in the memory of running the ops one after the other |
| Exactness.RuleIsExact | tools/pynqz1/board/daemon/graph.py:11-15 | the rule, read off footprints alone, holds if and only if every graph that begins so, for all kernels, memories and DMA timings, ends as the sequential run |
| Exactness.OneBesideAnother | tools/pynqz1/board/daemon/graph.py:135-141 | for a matmul and a one-piece op after it: all runs are sequential if and only if the op is barred, or it writes neither the result nor a weight some result byte needs, and reads none of the result or writes nothing |
| Scheduler.UnoffsetHeld | tools/pynqz1/board/daemon/graph.py:80-90 | an op that names the tensor only without an offset is held back exactly when the interval holds byte zero |
| Promise.OutstandingIff | tools/pynqz1/board/daemon/graph.py:135-155 | the matmul in flight at an op is the one issued before it since which no op was PL, named one of its result bytes, or named its tensor without an offset while that covers byte zero |
| Promise.WaitsIff | tools/pynqz1/board/daemon/graph.py:137-160 | with a matmul outstanding the log shows its completion before an op exactly when the op is PL or names the result so, and otherwise the op runs at once |
| Promise.NothingOutstanding | tools/pynqz1/board/daemon/graph.py:145-160 | with none outstanding an op is started at once, and left streaming if it is a matmul with run_async |
| Promise.PromiseKept | tools/pynqz1/board/daemon/graph.py:80-84 | if every op that uses a byte of an outstanding result names one by handle and offset and writes none of its weights, every run ends in the sequential memory |
| Promise.AnyPartMayLand | tools/pynqz1/board/daemon/graph.py:11-15 | any part of a matmul's result may be in memory right after it was issued |
| Promise.TimeSlots | tools/pynqz1/board/daemon/graph.py:116-125 | the DMA may move bytes before every piece of an op |
| Promise.PlCount | tools/pynqz1/board/daemon/graph.py:149-158 | plOps is the number of PL ops |
| Scheduler.LogIsPaired | tools/pynqz1/board/daemon/graph.py:133-164 | at most one op is pending, each is completed exactly once and before any other PL op starts |
| Scheduler.StartsAll | tools/pynqz1/board/daemon/graph.py:127-160 | every op starts exactly once, in order |
| Pipelining.StepIsRun | tools/pynqz1/board/kernels/pl/matmul_q1a8.py:671-801 | the scheduler's matmul piece leaves the memory that the driver's run leaves in the tensors |
| Exactness.AnyMatmulIsReadTooEarly | tools/pynqz1/board/daemon/graph.py:135-141 | whatever a matmul computes from its activations and weights, a one-piece op that is not held back, reads one of its result bytes and writes anything has a kernel with which a run differs from the sequential one |
| Pipelining.StaleRead | tools/pynqz1/board/daemon/graph.py:80-84 | for every pipelined matmul whose result starts past its tensor's beginning: an op that names the tensor without an offset, reads a result byte and writes anything is not held back, and some run ends otherwise than the sequential one; with the result apart from the activations that is so for the matmul's own kernel, whatever it is |
| Pipelining.SpanningOpReadsStale | tools/pynqz1/board/daemon/graph.py:80-84 | such a pair at the smallest shape the driver pipelines, for every kernel of the matmul |
| Fusion.Graph.SoleUse | tools/pynqz1/host/backend/src/lowering.cpp:1076-1084 | a use count of one means one slot of one node |
| Fusion.Graph.FiresOnlyWhereBothLower | tools/pynqz1/host/backend/src/lowering.cpp:619-636 | a fused MUL and its RMS_NORM would each lower alone, to these operands |
| Fusion.CountUses | tools/pynqz1/host/backend/src/lowering.cpp:1076-1084 | the table holds every tensor's use count |
| Fusion.FindRms | tools/pynqz1/host/backend/src/lowering.cpp:619-636 | the anchor test against the table finds the RMS_NORM exactly when the specification does |
| Fusion.FindAnchors | tools/pynqz1/host/backend/src/lowering.cpp:1085-1097 | the tables hold exactly the anchors and the absorbed nodes |
| Fusion.Lower | tools/pynqz1/host/backend/src/lowering.cpp:1069-1127 | emits the specified ops or fails exactly when the specification does |
| FusionMeaning.MulLowersIff | tools/pynqz1/host/backend/src/lowering.cpp:129-153 | a MUL lowers exactly when all three tensors are plain F32 and one operand is whole, the other whole or a row |
| FusionMeaning.MulReads | tools/pynqz1/host/backend/src/lowering.cpp:129-153 | the elements its kernel then multiplies at each position are those that broadcasting pairs |
| FusionMeaning.LowersIff | tools/pynqz1/host/backend/src/lowering.cpp:1069-1127 | a graph lowers exactly when every compute node that is not absorbed lowers and has its bindings |
| FusionMeaning.ReadsSuffice | tools/pynqz1/host/backend/src/lowering.cpp:1069-1127 | what an emitted op writes depends on nothing but the tensors it is said to read |
| Fusion.Graph.EmitsEachKeptOnce | tools/pynqz1/host/backend/src/lowering.cpp:1099-1127 | the emitted ops are, in order, one for each compute node that is not absorbed |
| Fusion.Graph.AbsorbedOnce | tools/pynqz1/host/backend/src/lowering.cpp:1107-1116 | each absorbed node is carried by exactly one emitted op |
| Fusion.Graph.NoEmittedReadsAbsorbed | tools/pynqz1/host/backend/src/lowering.cpp:1107-1124 | no emitted op reads an absorbed node, when absorbed nodes are compute nodes of the graph |
| Fusion.Graph.FusionNeverFailsMore | tools/pynqz1/host/backend/src/lowering.cpp:1099-1127 | a graph that lowers without fusion lowers with it, under the same condition |
| Fusion.Graph.FusionKeepsValues | tools/pynqz1/host/backend/src/lowering.cpp:612-618 | under that condition every tensor that is not absorbed keeps its value, for all meanings of the kernels |
| Fusion.Graph.FusionExact | tools/pynqz1/host/backend/src/lowering.cpp:619-636 | values are kept in every run if and only if every absorbed RMS_NORM is a compute node of the graph |
| Fusion.SplitFusesAcross | tools/pynqz1/host/backend/src/lowering.cpp:619-636 | a four-tensor graph whose only node is the MUL absorbs the RMS_NORM of an earlier graph, and some run changes a value |
| NormKernels.RmsNorm | tools/pynqz1/board/kernels/ps/native.c:543-569 | computes the norm of every column, also in place |
| NormKernels.MulF32 | tools/pynqz1/board/kernels/ps/native.c:352-373 | computes the elementwise or broadcast product, also into either operand |
| NormKernels.RmsNormMul | tools/pynqz1/board/kernels/ps/native.c:578-605 | computes the broadcast product of the norm, bit for bit, also into either operand |
| NormKernels.FusedIsBoth | tools/pynqz1/board/kernels/ps/native.c:571-577 | the fused kernel is RMS_NORM followed by broadcast MUL, in any arithmetic |
| NormKernels.OneColumn | tools/pynqz1/host/backend/src/lowering.cpp:140-147 | with one column the MUL lowered without broadcast is the same product |
| NormMeaning.NormAt | tools/pynqz1/board/kernels/ps/native.c:553-565 | each element of the norm is that element times its own column's factor |
| NormMeaning.ProductAt | tools/pynqz1/board/kernels/ps/native.c:361-370 | each element of the product pairs the same positions, or the row's with broadcast |
| NormMeaning.SumIsEnergy | tools/pynqz1/board/kernels/ps/native.c:555-559 | over the reals the accumulated sum is the column's energy |
| NormMeaning.EnergyZero | tools/pynqz1/board/kernels/ps/native.c:555-559 | energy is zero exactly for a column of zeros |
| NormMeaning.EnergyScales | tools/pynqz1/board/kernels/ps/native.c:555-559 | multiplying a column by c multiplies its energy by the square of c |
| NormMeaning.Normalizes | tools/pynqz1/board/kernels/ps/native.c:553-565 | with the inverse root as factor, a column of energy E comes out with energy E over its mean square plus eps |

## Left out

- Floating-point rounding, fp16 conversion and the NEON paths: scales and sums are reals or elements of an arbitrary arithmetic, and conversions are parameters.
- +inf and NaN mask entries and scores in attention: a mask entry is -inf or a finite bias.
- Firmware.ModesAgree: seeds other than zero are not covered, because the descriptor carries none and the lowering always sends zero.
- Transport.UsbTransport.Execute: plans of 2^32 tiles or more, whose count the header would cut.
- Lowering.RunCellPair: rows of 2^32 elements or more, for the same reason.
- Lowering.ReferenceMeansDot: rows whose weights differ in magnitude within a group, which the code replaces by their signs and mean magnitude; how far that is from the true product is not stated.
- InStep.InStepIff: modes 'a', 'd', 'B', 'F' and 'L', whose headers bytes of a cut frame could be taken for, are one state that takes nothing and answers nothing; the firmware comes back from all of them but 'B', having sent at most one byte.
- A read that the USB stack refuses because more came than was asked for: it is one of the failures an exchange's outcome may be.
- Other threads' failures in the middle of `Lowering.RunMatmul`: its exchanges follow each other on the connection.
- NULL-pointer arguments and their -1 codes where a Dafny value cannot be absent, and failed allocations.
- The scheduler when a kernel raises, an op has no name or the graph version is wrong (`run_graph` then leaves without draining), and the check that declared outputs exist.
- Scheduler.Board.RunGraph: the kernels' own footprints are given with each op; for matmuls `Pipelining.MatOf` derives them.
- Exactness.RuleIsExact: the only kernel with a DMA is taken to be a PL kernel, as it is here; a matmul whose result overlaps its own weights is not covered. The exact condition for one complete op list, in which a later op may overwrite what an earlier one got wrong, is not stated.
- Driver.PLMatmulQ1A8.Run: says nothing of the destination's contents when it overlaps the weights or the activations, nor which chunk reports the error when a range is out of bounds.
- Quantizing and packing a column and the PL kernel itself are one parameter of the driver, a function of the column's activation bytes and a rowblock's weight bytes.
- Parsing op fields from JSON, timers, counters of bytes moved, kernel ID checks, CPU cache maintenance, CMA buffer contents beyond their sizes.
- A tensor's shape, dtype, usage and layout strings, which the allocator only stores.
- Slab list with the same slab object twice, and `slab_pointer`, which only adds a base address to a view.
- Fusion at the level of reused memory: two tensors in the same bytes are two values here. Ops other than RMS_NORM and MUL carry a flag that says whether they lower and find their bindings.
- ROPE, SILU, SWIGLU, SET_ROWS, the F32 and F16 row lookups, SCALE and ADD kernels.
- libusb, TinyUSB, sockets, RPC framing, the iCE40 loader, the verilator transport, registration, tracing and profiling.
- Reset and arrays larger than 2x2 in the chip: the model starts from any register state of the 2x2 tile.
