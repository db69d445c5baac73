# GPU logger of PCSX-Redux, modelled in Dafny

PCSX-Redux's GPU logger records every GPU command the emulated
PlayStation issues during the current frame. Each logged command carries:

- its raw words, capped at 1024;
- the CPU program counter and the frame id;
- the last traced state of the geometry coprocessor (GTE), if any.

When a command of a new frame arrives, the log is dropped and a new frame
starts: the VRAM snapshot is retaken and the GTE trace is cleared.

The logger can:

- replay the log into a GPU;
- save the log as a stream of fixed-size 168-byte `LogEntry` records
  followed by a 32-byte metadata trailer;
- draw each command's read and write coverage, as triangles, into heatmap
  and highlight framebuffers. The triangles go through a small
  fixed-capacity vertex batcher.

The logger also decodes the display-mode control word and formats colours
as hex.

The project models this core in Dafny, one module per concern:

| file | module | what it holds |
|---|---|---|
| `wrappers.dfy` | `Wrappers` | `Option` |
| `machine_ints.dfy` | `MachineInts` | fixed-width integer types, truncating casts, little-endian bytes |
| `gte_trace.dfy` | `GteTrace` | `GTEFetchContext`, `GTELogMetadata`, `GTEState` with its `Command` enum and `Snapshot` |
| `gpu_commands.dfy` | `GpuCommands` | the logged command (`Logged`, `Geometry`), the `CtrlDisplayMode` decoder, `colorToHex` |
| `rasterizer.dfy` | `Rasterizer` | `getVertices`, `addLine`, `cumulateStats`, the highlight selection |
| `vertex_batcher.dfy` | `VertexBatching` | `addTri`/`flush`: a class over an array with a count, drawing into a ghost log |
| `struct_layout.dfy` | `StructLayout` | C struct layout under `#pragma pack(n)`, and the byte image of a packed struct |
| `log_entry.dfy` | `LogEntryRecord` | the `LogEntry` record, its 168-byte layout, the metadata trailer |
| `trace_serializer.dfy` | `TraceSerializer` | `buildLogEntry`, the record stream and trailer, `saveFrameLog` |
| `gpu_logger.dfy` | `GpuLogging` | the `GPULogger` state machine as class `Logger` |

The logger's mutable state is the class `GpuLogging.Logger`: one field per
member variable, and methods with field-level `modifies` frames. The
vertex batcher is the class `VertexBatching.VertexBatcher`. GL draws are
replaced by ghost logs of the vertices drawn. The record projection, the
display-mode decoder, coverage and formatting are pure functions with
lemmas.

## Model

| member | source | states |
|---|---|---|
| MachineInts.ToU32 | src/core/gpulogger.cc:146 | the cast to `uint32_t` is congruent to its input modulo 2^32 and is the identity on values in range |
| MachineInts.ToU16 | src/core/gpulogger.cc:149-150 | the cast to `uint16_t` is congruent modulo 2^16 and is the identity in range |
| MachineInts.ToI16 | src/core/gpulogger.cc:188 | the cast to `int16_t` is congruent modulo 2^16 and is the identity on values in -32768..32767 |
| MachineInts.ToU64 | src/core/gpulogger.cc:328 | the cast to `uint64_t` is congruent modulo 2^64 and is the identity in range |
| MachineInts.LeRoundTrip | src/core/gpulogger.cc:320 | the little-endian bytes of a value that fits in n bytes read back as that value |
| GteTrace.DefaultFetchContext | src/core/gpulogger_types.h:13-21 | a default fetch context has every field 0, including the signed 16-bit `offset` |
| GteTrace.CommandOrdinal | src/core/gpulogger_types.h:28-52 | each command has a position in the enum, and only `Unknown` has position 0 |
| GteTrace.CommandCatalogue | src/core/gpulogger_types.h:28-52 | the enum lists 23 distinct values: `Unknown` first, then 22 named opcodes |
| GteTrace.DefaultSnapshot | src/core/gpulogger_types.h:54-70 | both register files are 32 zeros, every projection scalar is 0, and the arrays without initialisers are as given |
| GteTrace.DefaultGteState | src/core/gpulogger_types.h:72-76 | a default state has command `Unknown`, pc 0 and no vertex fetches |
| GpuCommands.HResAt | src/core/gpulogger.cc:430 | `enum_cast` of `value & 3` picks the resolution at that position of the enum |
| GpuCommands.DecodeDisplayMode | src/core/gpulogger.cc:413-437 | the decoder's output, field by field. `widthRaw` < 8; its low bit is bit 6 and its upper bits are `value & 3`. With bit 6 clear, hres is `value & 3` read as an enum position. With bit 6 set, `value & 3` = 0..3 gives 368/384/512/640 pixels. vres, mode, depth and interlace are bits 2, 3, 4 and 5 |
| GpuCommands.EncodeDisplayMode | src/core/gpulogger.cc:413-437 | the inverse of the decoder: a mode packs back into the low 7 bits |
| GpuCommands.DecodeEncodeDisplayMode | src/core/gpulogger.cc:413-437 | every decoded mode is well formed, and re-encodes to `value % 128` |
| GpuCommands.EncodeDecodeDisplayMode | src/core/gpulogger.cc:413-437 | every well-formed mode is the decoding of its encoding |
| GpuCommands.DisplayModeIgnoresHighBits | src/core/gpulogger.cc:413-437 | bits above 6 do not affect the decoded mode |
| GpuCommands.DisplayWidthByWidthRaw | src/core/gpulogger.cc:558-577 | the decoded width in pixels is determined by `widthRaw` alone, through one fixed table |
| GpuCommands.HexFixed | src/core/gpulogger.cc:137 | `setw(n)` with `setfill('0')` and `std::hex`: exactly n lowercase hex digits |
| GpuCommands.ColorToHex | src/core/gpulogger.cc:135-139 | the text is 8 characters: `0x` then 6 lowercase hex digits |
| GpuCommands.HexFixedRoundTrip | src/core/gpulogger.cc:137 | n zero-padded hex digits of a value below 16^n parse back to that value |
| GpuCommands.ColorToHexRoundTrip | src/core/gpulogger.cc:135-139 | the six digits parse back to `color & 0xffffff` |
| GpuCommands.ColorToHexInjective | src/core/gpulogger.cc:135-139 | two colours give the same text iff their low 24 bits agree |
| Rasterizer.TriVertices | src/core/gpulogger.cc:250-255 | each triangle handed to `addTri` contributes exactly three vertices |
| Rasterizer.TriVerticesSnoc | src/core/gpulogger.cc:250-255 | handing one more triangle to `addTri` appends exactly its three corners, in order |
| Rasterizer.RectTriangles | src/core/gpulogger.cc:623-646 | a rectangle's two triangles share the diagonal (x,y)-(x+w,y+h), and their vertices are exactly the four corners |
| Rasterizer.GetVertices | src/core/gpulogger.cc:623-646 | a command emits 0 or 2 triangles, and emits some iff its variant reports that access kind |
| Rasterizer.CoverageRectangles | src/core/gpulogger.cc:623-646 | FastFill and BlitRamVram cover their rectangle for WRITE only. BlitVramRam covers it for READ only. BlitVramVram covers its source for READ and its destination for WRITE |
| Rasterizer.CumulateStats | src/core/gpulogger.cc:614-621 | only `pixelWrites` and `pixelReads` change |
| Rasterizer.StatsMatchCoverage | src/core/gpulogger.cc:614-646 | each counter grows by exactly the area of the coverage emitted for its access kind, and by nothing when none is emitted |
| Rasterizer.AddLine | src/core/gpulogger.cc:778-808 | always two triangles sharing an edge. Coincident endpoints give the unit square at (x1,y1). Otherwise the line is x-major iff \|dx\| > \|dy\|, with ties y-major. Along the major axis the second endpoint is pushed out by one when the line runs towards larger coordinates (dx > 0, resp. dy > 0), and the first endpoint otherwise; the band runs from the first vertex to the second and is thickened by (0,1) or (1,0) |
| Rasterizer.PointLine | src/core/gpulogger.cc:785-788 | a one-point line covers the four corners of its pixel |
| Rasterizer.XMajorLine | src/core/gpulogger.cc:791-806 | a shallow line extends x2 by one and thickens downwards |
| Rasterizer.HighlightSelection | src/core/gpulogger.cc:380-390 | the given node comes first; with `only`, nothing else is selected |
| Rasterizer.HighlightSelectionMembers | src/core/gpulogger.cc:380-390 | a command is selected iff it is the given node, or `only` is off and it is a highlighted command of the log |
| Rasterizer.Highlighted | src/core/gpulogger.cc:383-390 | the highlighted commands are at most the whole log |
| Rasterizer.HighlightedMembers | src/core/gpulogger.cc:383-390 | a command is kept iff it is in the log and its `highlight` is set |
| Rasterizer.HighlightedAppend | src/core/gpulogger.cc:384-389 | the filter keeps log order |
| Rasterizer.CoverageOfAppend | src/core/gpulogger.cc:380-390 | the coverage of a selection is the coverage of its parts, in order |
| Rasterizer.CoverageOfCount | src/core/gpulogger.cc:380-390 | a selection emits two triangles per selected command that reports the access kind |
| VertexBatching.VertexBatcher.constructor | src/core/gpulogger.cc:250-262 | an empty buffer of the given capacity with nothing drawn |
| VertexBatching.VertexBatcher.Flush | src/core/gpulogger.cc:257-262 | on an empty buffer nothing is drawn. Otherwise the buffered vertices are drawn as one batch into the bound framebuffer, no other framebuffer changes, and the count drops to 0 |
| VertexBatching.VertexBatcher.Bind | src/core/gpulogger.cc:298 | binding a framebuffer makes it the target of later draws |
| VertexBatching.VertexBatcher.ClearTarget | src/core/gpulogger.cc:377-379 | clearing empties the bound framebuffer and no other |
| VertexBatching.VertexBatcher.AddTri | src/core/gpulogger.cc:250-255 | the three vertices are submitted after a flush iff `count + 3 >= capacity`. Afterwards the count is below capacity and a multiple of 3. The drawn batches followed by the buffer equal everything submitted, in order. What the bound framebuffer has received, followed by what is staged, grows by exactly the three vertices. No other framebuffer changes |
| VertexBatching.VertexBatcher.Stage | src/core/gpulogger.cc:252-254 | the three vertices are stored at `count` and the count grows by 3 |
| VertexBatching.VertexBatcher.AddTriangles | src/core/gpulogger.cc:301 | handing a command's triangles to `addTri` submits their vertices in order; only the bound framebuffer is drawn into, and what it received followed by the buffer grows by exactly those vertices |
| StructLayout.NaturalIsPack8 | src/core/gpulogger.cc:128-133 | under natural alignment every scalar up to 8 bytes aligns to its size, as under `pack(8)` |
| StructLayout.PadToAligns | src/core/gpulogger_types.h:79 | the padding inserted before a member makes its offset aligned |
| StructLayout.StructAlignBound | src/core/gpulogger_types.h:79 | under `pack(n)` no struct aligns to more than n |
| StructLayout.StructSizeAligned | src/core/gpulogger_types.h:79-110 | `sizeof` is a multiple of the struct's alignment |
| StructLayout.LayoutEndAppend | src/core/gpulogger_types.h:79-110 | laying out two member lists in a row is laying out the second after the first |
| StructLayout.ScalarRoundTrip | src/core/gpulogger.cc:320 | a scalar's host bytes decode back to the scalar |
| StructLayout.PackRoundTrip | src/core/gpulogger.cc:320 | the byte image of a struct, padding included, decodes back to its member values |
| StructLayout.PackAppend | src/core/gpulogger_types.h:79-110 | the image of two member lists is the image of the first, then the second at its end offset |
| StructLayout.PackFirstGap | src/core/gpulogger_types.h:79-110 | the padding before a member is zero bytes |
| LogEntryRecord.EntryHeadLayout | src/core/gpulogger_types.h:81-97 | the members up to `rot` end at offset 122 |
| LogEntryRecord.EntryTailLayout | src/core/gpulogger_types.h:97-108 | 2 bytes of padding put `trx` at offset 124, and `v[]` ends at 166 |
| LogEntryRecord.EntryLayout | src/core/gpulogger_types.h:79-110 | under `pack(4)` the record has 66 scalars, aligns to 4 and is 168 bytes |
| LogEntryRecord.EntryFieldBytes | src/core/gpulogger_types.h:80-109 | the members take 164 bytes, so 4 bytes are padding |
| LogEntryRecord.LogEntrySizeBytes | src/core/gpulogger_types.h:112-118 | the size helper returns 168 |
| LogEntryRecord.EncodeEntry | src/core/gpulogger_types.h:79-110 | a record's image is 168 bytes |
| LogEntryRecord.EntryRoundTrip | src/core/gpulogger.cc:320 | the 168 bytes written for a record decode back to the record |
| LogEntryRecord.EntryPaddingIsZero | src/core/gpulogger_types.h:97-109 | bytes 122-124 and 166-168 of the image are the padding, written as zeros |
| LogEntryRecord.MetadataLayout | src/core/gpulogger.cc:128-133 | the trailer is four 8-byte counters, 32 bytes with no padding |
| LogEntryRecord.MetadataSizeBytes | src/core/gpulogger.cc:326 | `sizeof(metadata)` is 32 |
| LogEntryRecord.MetadataRoundTrip | src/core/gpulogger.cc:330 | the trailer's 32 bytes decode back to the trailer |
| TraceSerializer.PacketWords | src/core/gpulogger.cc:152-155 | slot i holds word i for the first min(12, n) words and is 0 after |
| TraceSerializer.Column | src/core/gpulogger.cc:161-166 | column k of the three input vertices, with index 3 left 0 |
| TraceSerializer.ScreenColumn | src/core/gpulogger.cc:168-172 | column k of the three screen coordinates, with index 3 left 0 |
| TraceSerializer.PrimitiveType | src/core/gpulogger.cc:149 | the top byte of `gp0_cmd`, so below 256 |
| TraceSerializer.LogEntryOf | src/core/gpulogger.cc:143-194 | the record carries the command's frame, truncated to 32 bits, and its pc |
| TraceSerializer.LogEntryHeader | src/core/gpulogger.cc:143-155 | the record's header fields: `gp0_cmd` is the first word or 0; the primitive type is its top byte; `vertex_count` is the word count truncated to 16 bits; `packet_words` holds the first 12 words, zero-filled; `clut`, `tpage`, `u` and `v` are 0 |
| TraceSerializer.LogEntrySnapshot | src/core/gpulogger.cc:157-191 | without a GTE state every GTE field is 0. With one, the fields come from the snapshot: vertices and screen coordinates by column with index 3 zero, `rot`, translation, offsets, `h`, `dqa`, `dqb` truncated to int16, `zsf3` and `zsf4` |
| TraceSerializer.VertexCountExact | src/core/gpulogger.cc:150 | for a logged command (at most 1024 words) `vertex_count` is exactly the word count |
| TraceSerializer.BuildLogEntry | src/core/gpulogger.cc:143-194 | the record the method fills in is the projection `LogEntryOf` |
| TraceSerializer.CopyPacketWords | src/core/gpulogger.cc:152-155 | the copy loop fills `PacketWords` |
| TraceSerializer.CopySnapshot | src/core/gpulogger.cc:157-191 | the snapshot block writes the GTE fields |
| TraceSerializer.CopyVertices | src/core/gpulogger.cc:161-166 | the vertex loop fills `vx`, `vy`, `vz` by column |
| TraceSerializer.CopyScreen | src/core/gpulogger.cc:168-172 | the screen loop fills `sx`, `sy` by column |
| TraceSerializer.RotationCopy | src/core/gpulogger.cc:174-178 | the nested loop copies the rotation matrix exactly |
| TraceSerializer.Trailer | src/core/gpulogger.cc:325-328 | the trailer declares size 32, entry size 168, version 1, and the entry count |
| TraceSerializer.TrailerSizes | src/core/gpulogger.cc:325-328 | the declared sizes are the real record and trailer sizes, and the version is the default one |
| TraceSerializer.Entries | src/core/gpulogger.cc:318-323 | one record per command, in log order |
| TraceSerializer.RecordBytes | src/core/gpulogger.cc:318-323 | the record stream is 168 bytes per command |
| TraceSerializer.FrameFile | src/core/gpulogger.cc:317-331 | the file is the records followed by the 32-byte trailer |
| TraceSerializer.ParseFrameFile | src/core/gpulogger.cc:313-331 | a reader of the file accepts only files whose trailer count matches their length |
| TraceSerializer.RecordsRoundTrip | src/core/gpulogger.cc:318-323 | the record stream decodes back to one record per command, in order |
| TraceSerializer.ParseWellFormed | src/core/gpulogger.cc:325-331 | records followed by a trailer that declares their count and both sizes are accepted |
| TraceSerializer.FrameFileRoundTrip | src/core/gpulogger.cc:313-331 | the saved file parses back to exactly the log's records and the trailer |
| TraceSerializer.RecordBytesSnoc | src/core/gpulogger.cc:318-323 | each loop iteration appends that command's record |
| TraceSerializer.FrameFileWhole | src/core/gpulogger.cc:317-331 | the whole stream is the records of all commands and then the trailer |
| TraceSerializer.WriteRecords | src/core/gpulogger.cc:317-323 | the loop stops at the first failing write, and `entryCount` counts the records written before it |
| TraceSerializer.SaveFrameLog | src/core/gpulogger.cc:313-348 | false with nothing written if the binary file does not open. If a write fails: false, with the records before it. Otherwise the whole frame file is written, and the result is true iff the text file opens and both streams stay good |
| GpuLogging.DropStale | src/core/gpulogger.cc:268-271 | what the deletion loop leaves is empty or starts in the current frame |
| GpuLogging.DropStaleSuffix | src/core/gpulogger.cc:268-271 | the commands kept are a suffix of the log |
| GpuLogging.DropStaleRemoved | src/core/gpulogger.cc:268-271 | every deleted command belonged to another frame |
| GpuLogging.DropStaleAllOrNothing | src/core/gpulogger.cc:265-272 | on a one-frame log, every command is deleted when the frame changed and none otherwise |
| GpuLogging.LoggedWords | src/core/gpulogger.cc:277-283 | the kept words are never empty (an empty payload becomes `[value]`), hold at most 1024 entries, and are a prefix of the payload |
| GpuLogging.AdmittedNode | src/core/gpulogger.cc:274-286 | origin, length, source address, pc, frame and GTE state are set. `wordsTruncated` holds iff the payload exceeded 1024 words. Variant and flags are kept |
| GpuLogging.TruncationExact | src/core/gpulogger.cc:279-283 | more than 1024 words keep exactly the first 1024; otherwise a non-empty payload is kept whole |
| GpuLogging.StoredGteState | src/core/gpulogger.cc:108-111 | the pending fetches replace the metadata iff fetch logging is on and some are pending; otherwise the state is stored as given |
| GpuLogging.Executions | src/core/gpulogger.cc:360-362 | never more executions than logged commands |
| GpuLogging.ExecutionsInOrder | src/core/gpulogger.cc:360-362 | the k-th execution is of the k-th enabled command: the executed positions are strictly increasing, every one is enabled, and every enabled position is executed, so each enabled command runs exactly once, in log order |
| GpuLogging.ExecutionsSound | src/core/gpulogger.cc:360-362 | only enabled commands of the log are executed |
| GpuLogging.ExecutionsComplete | src/core/gpulogger.cc:360-362 | every enabled command of the log is executed |
| GpuLogging.ReplayShape | src/core/gpulogger.cc:358-364 | one full-VRAM `partialUpdateVRAM(0,0,1024,512)` first iff a snapshot is held, then only executions of enabled commands, then one `vblank(true)` last |
| GpuLogging.SelectionStep | src/core/gpulogger.cc:383-390 | each log command adds its coverage to the highlighted coverage iff it is highlighted |
| GpuLogging.SelectionCoverage | src/core/gpulogger.cc:380-390 | a selection pass covers the current node's triangles first. Then, unless only the node is shown, it covers every highlighted command's triangles, in list order |
| GpuLogging.Logger.constructor | src/core/gpulogger.cc:73-80 | the logger starts with an empty log, no GTE trace, no VRAM snapshot and every flag off (the member defaults are an assumption, see below), and its vertex buffer is idle |
| GpuLogging.Logger.OnVSync | src/core/gpulogger.cc:74-79 | the frame counter grows by one, and the emulator is paused iff break-on-VSync is set |
| GpuLogging.Logger.HandleFrameChange | src/core/gpulogger.cc:82-89 | on a new frame the trace, the last state and the pending fetches are cleared and the trace moves to the current frame; otherwise nothing changes |
| GpuLogging.Logger.ClearFrameLog | src/core/gpulogger.cc:95-101 | the log, the trace, the last state and the pending fetches are all emptied, and the trace frame is the current one |
| GpuLogging.Logger.StartNewFrame | src/core/gpulogger.cc:350-356 | the VRAM snapshot is retaken and the GTE trace restarts in the current frame |
| GpuLogging.Logger.RecordGteState | src/core/gpulogger.cc:103-118 | a no-op iff all three flags are off. Otherwise, after the frame check: the stored state is the last state; the pending fetches are empty; the state is appended to the trace iff either log flag is on |
| GpuLogging.Logger.RecordVertexFetch | src/core/gpulogger.cc:120-125 | with fetch logging on, after the frame check, the fetch is appended to the pending ones; otherwise nothing changes |
| GpuLogging.Logger.DeleteStale | src/core/gpulogger.cc:267-271 | the loop's result is `DropStale`, and `gotNewFrame` is set iff something was deleted |
| GpuLogging.Logger.DropStaleNodes | src/core/gpulogger.cc:265-271 | a one-frame log is either emptied (a new frame) or left untouched, and it stays a one-frame log |
| GpuLogging.Logger.Rollover | src/core/gpulogger.cc:265-272 | `startNewFrame` runs iff at least one command was deleted. Otherwise the VRAM snapshot and the GTE trace are untouched |
| GpuLogging.Logger.Admit | src/core/gpulogger.cc:274-286 | the node updates, made one at a time, produce `AdmittedNode` |
| GpuLogging.Logger.AppendNode | src/core/gpulogger.cc:288 | `push_back` keeps the log in one frame and the command last |
| GpuLogging.Logger.LogNode | src/core/gpulogger.cc:265-288 | the stale commands are gone and the admitted command is last, with the current frame and the last GTE state as it stands after the rollover. `handleFrameChange` is not called. The log stays one-frame, with 1..1024 words per command |
| GpuLogging.Logger.AddNode | src/core/gpulogger.cc:264-311 | as `LogNode`. Then, only with framebuffers: the write heatmap is bound and the write coverage flushed into it, then the read heatmap is bound and the read coverage flushed into it. So the write heatmap gains exactly the write coverage, the read heatmap exactly the read coverage, no other framebuffer changes, the previous framebuffer is bound again and the batcher is empty |
| GpuLogging.Logger.DrawCoverage | src/core/gpulogger.cc:301-302 | `getVertices` into `addTri` and then `flush`: the bound framebuffer, and no other, receives exactly the triangles' vertices, and the buffer is left empty |
| GpuLogging.Logger.Replay | src/core/gpulogger.cc:358-364 | the calls made are `ReplayScript` of the snapshot and the log; the logger is not modified, so a second replay issues the same calls |
| GpuLogging.Logger.Highlight | src/core/gpulogger.cc:366-411 | with framebuffers: the write highlight buffer then holds exactly the selection's write coverage and the read highlight buffer exactly its read coverage; no other framebuffer changes and the previous framebuffer is bound again. Without framebuffers nothing is drawn |
| GpuLogging.Logger.HighlightPass | src/core/gpulogger.cc:377-391 | bind, clear, one selection pass and flush: the buffer holds exactly the selection's coverage for that access kind, and stays bound |
| GpuLogging.Logger.DrawSelection | src/core/gpulogger.cc:380-391 | one pass submits the given node's coverage and then, unless `only`, that of each highlighted command in log order; after the flush the bound framebuffer, and no other, has received exactly that coverage |
| GpuLogging.Logger.AddSelection | src/core/gpulogger.cc:380-389 | the `addTri` calls of one pass submit exactly the selection's coverage, and only the bound framebuffer is drawn into |
| GpuLogging.Logger.AddHighlighted | src/core/gpulogger.cc:383-389 | the loop over the log submits the coverage of the highlighted commands in log order, and only the bound framebuffer is drawn into |
| GpuLogging.Logger.SaveFrameLog | src/core/gpulogger.cc:313-348 | `saveFrameLog` on the logger's current log, with the outcomes of `TraceSerializer.SaveFrameLog` |
| GpuLogging.Logger.Disable | src/core/gpulogger.cc:245-248 | coverage drawing is off and the VRAM snapshot is released |
| GpuLogging.Logger.Enable | src/core/gpulogger.cc:198-243 | coverage drawing turns on iff the GL resources could be created, and otherwise keeps its value |

Two facts about the code that the model keeps:

- A frame change with an empty log deletes nothing, so it does not call
  `startNewFrame`. The VRAM snapshot is not retaken and the GTE trace is
  kept (src/core/gpulogger.cc:267-272).
- `GTEState::Command` has 22 named opcodes after `Unknown`
  (src/core/gpulogger_types.h:28-52).

## Left out

- OpenGL: shaders, VBO/VAO binding, framebuffer and texture set-up, viewport and clear colour, scissor, and `setOpenGLContext`. The model keeps the bound draw framebuffer, the clears, which vertices each framebuffer receives through `flush`, and the `m_hasFramebuffers` gate; pixels themselves are not rasterised. The "GL resources could be created" outcome of `enable()` is the parameter `glReady`.
- ImGui `drawLogNode` renderers and the `writeJsonFields` text. They are user interface and fixed text built from helpers in other files.
- The event-bus subscription and `g_system->pause()`: the VSync handler is the method `OnVSync`, whose result says whether to pause.
- External collaborators are parameters or recorded events:
  - the VRAM the GPU hands over on `getVRAM` is `capture`;
  - the CPU's program counter is `pc`;
  - `partialUpdateVRAM`, `execute` and `vblank` are `GpuCall` values.
- `generateStatsInfo` and the polygon, line and sprite variants. Their `getVertices` and `cumulateStats` live in other files, which are not part of this model. `AddLine` is the line helper they call; the variants here report no coverage.
- File I/O: the bytes of the binary file are modelled, but opening, writing and the state of the stream are a deterministic `StreamFaults` parameter (whether each file opens, which record write fails, whether the text stream stays good). The source cannot predict these outcomes.
- TraceSerializer.SaveFrameLog: a failing `write` is modelled as adding none of its bytes, although a real stream may have written part of the record.
- The wording of the `.txt` description file. Only whether it opens and stays good is modelled.
- LogEntryRecord.EncodeEntry: padding bytes are written as zeros. C++ leaves the content of padding after `LogEntry entry{}` unspecified; on the hosts the format targets it is zero.
- The type of `m_frameCounter` is declared in `gpulogger.h`, which is not part of this model. The counter is an unbounded natural number here, and `LogEntryOf` truncates it to 32 bits as the record's cast does.
- The enum values of `hres`, `vres`, `mode` and `depth` are declared in `core/gpu.h`, which is not part of this model. The `hres` values are taken to be 0..3 for HR_256, HR_320, HR_512, HR_640 (the cases of the `hres` switch in `CtrlDisplayMode::drawLogNode`, src/core/gpulogger.cc:558-577), followed by HR_368 and HR_384; `vres` 0/1 is VR_240/VR_480 (its switch, lines 581-588). `mode` and `depth` are only compared with VM_NTSC and CD_15BITS (lines 589-590); a clear bit is taken to be VM_NTSC, resp. CD_15BITS.
- The `Snapshot` arrays without default initialisers (vertices, screen coordinates, the three matrices, translation) are parameters of `DefaultSnapshot`: C++ leaves them indeterminate.
- The intrusive list's links, and `delete` of removed nodes: the log is a sequence of values.
- `clearPendingFetches` is inlined into the methods that call it.
- GpuLogging.Logger.constructor: the member defaults (empty log, frame counter 0, no VRAM snapshot, every flag off) are declared in `gpulogger.h`, which is not part of this model; the constructor assumes them.
