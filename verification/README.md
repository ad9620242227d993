# Receive-pipeline verification

A Dafny model of a WebRTC video receiver and proofs about it. The pipeline takes lines off a signaling socket, answers
an offer, decodes H.264 through Android's MediaCodec, and draws the newest picture with OpenGL. The project models the
parts whose behaviour is decided by the repository's own code:

| file | models |
|---|---|
| `Signaling.dfy` | the escaping printer, the substring-search parser and the newline framing of the signaling client |
| `Answerer.dfy` | the receiver client's negotiation: offer, remote description, answer, local description, trickled candidates |
| `DecoderWorker.dfy` | the decoder's API caller and worker thread as interleaved steps over one task queue |
| `AnnexB.dfy` | splitting Annex B byte streams and repacking them as length-prefixed samples |
| `CodecDrain.dfy` | one frame through the codec: input buffers, the drain loop, delivery, for every behaviour of the codec |
| `Nv12Copy.dfy`, `RowCopy.dfy` | the output format fields and the strided and tight NV12 copies |
| `FramePool.dfy` | the six-slot picture pool, with one acquiring worker and drops on other threads |
| `RefCounting.dfy` | `scoped_refptr` handles, the counts they keep, and the pool slots those counts free |
| `PlaneUpload.dfy` | uploading one plane: the unpack rule, packing, two pixel buffers taking turns |
| `Renderer.dfy` | the latest-frame mailbox, path switching, the draw gate, whole runs of the render node |
| `WebChannel.dfy` | request ids, and signals whose callbacks connect, disconnect and emit while being called |
| `ChannelBuffer.dfy` | interleaving, deinterleaving, and the channel and band views of an audio buffer |
| `Base.dfy` | shared types and sequence facts |

Operations that update state are methods and classes proved against specifications; protocols with several threads are
state machines over their steps. In `CodecDrain`, `Answerer` and `WebChannel` every observable call goes to a log, and a
separate monitor, written from the protocol and not from the code, reads the log; the classes keep the monitor unbroken
over every run, and lemmas say what an unbroken log means.

Where a property one would expect does not hold, the model follows the code and the exact condition is proved:

- A frame pool of six slots with one picture size does **not** allocate at most six times. A frame dropped after the
  first scan has passed its slot and before the second scan reaches it makes the second scan reallocate, and nothing
  else does (`FramePool.ReallocationIffLate`, `FramePool.AllocationsUnbounded`); allocations are exactly the slots with
  memory plus these replacements (`FramePool.AllocationBound`).
- `ClearPool` keeps slots exclusive exactly when no frame is alive (`FramePool.ClearSafeIff`). From every reachable state
  where it runs with a live frame, some continuation makes two live frames share memory
  (`FramePool.SurvivorSharesMemory`). A frame that outlives the decoder sets a flag in a slot that is gone; none ever does
  exactly if no frame is alive when the decoder goes (`FramePool.EndSafeIff`).
- The NV12 copy moves `width` bytes per chroma row, which is the whole row exactly for even widths
  (`Nv12Copy.ChromaCompleteIffEven`); the strided copy does not test its offset (`Nv12Copy.StridedInsideIffOffset`).
- The planar conversions count `sliceHeight / 2` or `height / 2` chroma rows. `CodecDrain.StridedPlanarInsideIff` and
  `CodecDrain.TightPlanarInsideIff` say exactly when they stay inside every buffer they accept. As a fallback they accept
  nothing the NV12 copies refused for even heights; for odd heights they do, and then the last chroma row ends outside
  the buffer whichever of the two runs (`CodecDrain.OddHeightFallbackOverruns`).
- Splitting what was printed gives the units back also for units ending in 00, except in front of a three-byte start
  code (`AnnexB.RoundTripIff`).
- A list of signaling messages arrives exactly when each is deliverable (`Signaling.EveryMessageArrives`). A NUL cuts off
  the rest of the chunk it arrives in: an offer with one, received in one piece, is lost (`Signaling.NulLosesOffer`); if
  the chunk ends right behind it, the text arrives without that byte (`Signaling.NulAtCutIsDropped`).
- A second offer while a call of the first is in flight breaks the negotiation from every such state
  (`Answerer.ReceiverClient.StaleCallBreaks`), and a disconnect before the answer arrives makes the callback use a peer
  connection that is gone (`Answerer.AnswerAfterDisconnect`). An answer goes out in the signaling session of its offer
  exactly if no session was started in between (`Answerer.AnswerInItsSession`, `Answerer.AnswerInLaterSession`).
- Releasing the GL resources resets neither the data flag nor the cached texture sizes. Over every run and any number of
  GL lifetimes, a texture holds an image exactly if some upload since its lifetime began had a size other than the one
  cached then, or none was cached (`Renderer.RunLifetimes`). Frames of the cached size leave it empty for ever
  (`Renderer.RenderNode.SameSizeStaysEmpty`, `Renderer.RenderNode.SameSizeAfterRelease`); the first of another size that
  reaches it fills it (`Renderer.RenderNode.OtherSizeFills`), and it stays filled (`Renderer.RenderNode.Render`).
- When the node goes blank the staged pixel buffers are kept. After a change of track the first picture drawn is the old
  track's last frame exactly if that frame and the new one are both staged and come by the same path
  (`Renderer.RenderNode.NewTrack`).
- The data flag is set only when one upload changes every sampled texture. Staging failures that alternate between
  planes keep a full pair of textures from ever being drawn (`Renderer.RenderNode.AlternatingFailuresShowNothing`).
- The staging copy takes `stride * h` bytes of a padded plane, so that it stays inside exactly if the last row is padded
  too, while the direct upload needs only the rows themselves (`PlaneUpload.StagingInsideIff`, `PlaneUpload.DirectInside`).
- Row lengths count pixels, so that interleaved chroma rows of odd stride are read one byte too close together
  (`PlaneUpload.DirectIsPictureIff`); what a drawing holds is stated for these too (`Renderer.ImageHolds`).
- A web channel callback that throws stays outstanding, and one that throws during an emission ends it early, and the
  emissions around it (`WebChannel.Channel.HandleResponse`, `WebChannel.EmissionCallsExactly`).
- Request ids repeat from 2^53 on, because the counter is a double; the wrap test against the largest double is never
  reached (`WebChannel.Channel.Exec`, `WebChannel.Channel.SaturatedRequestDisplaces`).

## Model
| member | source | states |
|---|---|---|
| AnnexB.SplitAnnexB | android_mediacodec_video_decoder.cpp:97-130 | the index scan returns in-bounds ranges whose slices are exactly the buffer's units, and terminates |
| AnnexB.SplitIsLossless | android_mediacodec_video_decoder.cpp:97-130 | every byte string is a prefix in which no start code begins, then start codes and payloads in alternation |
| AnnexB.PartitionUnique | android_mediacodec_video_decoder.cpp:97-130 | that partition is the only one, so the unit list is determined by the bytes alone |
| AnnexB.UnitsAreClean | android_mediacodec_video_decoder.cpp:97-130 | every unit is non-empty and free of 00 00 01 |
| AnnexB.SplitOfPrint | android_mediacodec_video_decoder.cpp:97-130 | what splitting a printed list yields for every mix of three- and four-byte codes: zeros in front of a three-byte code move into the code |
| AnnexB.RoundTripIff | android_mediacodec_video_decoder.cpp:97-130 | printing then splitting is the identity exactly for non-empty clean units, none ending in 00 in front of a three-byte code |
| AnnexB.AnnexBToAvcc | android_mediacodec_video_decoder.cpp:132-157 | appends each unit behind its big-endian length, or the whole input as one unit when there is none |
| AnnexB.AvccRoundTripIff | android_mediacodec_video_decoder.cpp:132-157 | the length reader gives the units back exactly when each is shorter than 2^32 |
| AnnexB.AvccOfAnnexB | android_mediacodec_video_decoder.cpp:132-157 | decoding the converter's output gives the splitter's units, or the whole input as one |
| AnnexB.Be32Digits | android_mediacodec_video_decoder.cpp:132-157 | the four length bytes are the length to the base 256, the most significant first, modulo 2^32 |
| AnnexB.LooksLikeAnnexBIff | android_mediacodec_video_decoder.cpp:84-95 | the test of the first four bytes is true exactly if the buffer has at least four and is start codes and payloads from its first byte on |
| AnnexB.PrintedLooksLikeAnnexB | android_mediacodec_video_decoder.cpp:84-95 | it is true of every printed list of segments of at least four bytes, whatever the codes and payloads |
| AnnexB.Feed | android_mediacodec_video_decoder.cpp:742-751 | a byte stream of at least four bytes goes to the codec unchanged, a printed one among them; other data as samples that decode to its units; nothing is fed only for nothing |
| Nv12Copy.OutputFormat.Update | android_mediacodec_video_decoder.cpp:472-490 | for every reported format stride and slice height end at least width and height, and each field has the reported or kept value |
| Nv12Copy.OutputFormat.Reset | android_mediacodec_video_decoder.cpp:461-470 | destroying the codec clears the format |
| Nv12Copy.FillNV12BufferFromNv12 | android_mediacodec_video_decoder.cpp:182-207 | refuses exactly by its guard; what it lets through is copied whole, every luma and chroma row in place and all other bytes kept, exactly when the rows lie inside the buffer, which a non-negative offset and a slice holding the picture ensure |
| Nv12Copy.FillNV12BufferFromNv12Tight | android_mediacodec_video_decoder.cpp:209-232 | accepts exactly the buffers that hold the tight picture, puts every row in place and keeps all other bytes |
| Nv12Copy.StridedReadsInside | android_mediacodec_video_decoder.cpp:182-207 | an accepted strided copy stays inside the buffer when the slice holds the rows and the offset is not negative |
| Nv12Copy.StridedInsideIffOffset | android_mediacodec_video_decoder.cpp:191-196 | the untested offset is the exact condition for that |
| Nv12Copy.StridedIsTight | android_mediacodec_video_decoder.cpp:182-232 | with stride width and slice height height both copies accept the same buffers and show the same picture |
| Nv12Copy.ChromaCompleteIffEven | android_mediacodec_video_decoder.cpp:201-205 | a chroma row is copied whole exactly for even widths |
| RowCopy.CopyRows | android_mediacodec_video_decoder.cpp:196-205 | a row loop makes the destination rows equal the source rows and touches nothing else |
| CodecDrain.EvenHeightNeedsNoFallback | android_mediacodec_video_decoder.cpp:160-232 | for even heights the planar fallback accepts no layout the NV12 copy refused |
| CodecDrain.StridedPlanarInsideIff | android_mediacodec_video_decoder.cpp:160-169 | the strided planar conversion stays inside every buffer its guard accepts exactly when the slice holds enough chroma rows and, if just enough, the width is even or the rows padded |
| CodecDrain.TightPlanarInsideIff | android_mediacodec_video_decoder.cpp:171-179 | the tight one exactly when width and height are even |
| CodecDrain.OddHeightFallbackOverruns | android_mediacodec_video_decoder.cpp:622-630 | when a planar conversion accepts what both NV12 copies refused, the height is odd and the conversion the code takes, strided first, reads past the end |
| CodecDrain.OddHeightFallbackExample | android_mediacodec_video_decoder.cpp:160-232 | such a layout exists |
| CodecDrain.CopyNv12 | android_mediacodec_video_decoder.cpp:609-621 | an NV12 frame comes out exactly when it can be made and one copy fits, and it shows the output's rows |
| CodecDrain.CopyOutput | android_mediacodec_video_decoder.cpp:609-659 | which frame the ladder NV12, pool slot, plain buffer yields, and that a pool slot is kept exactly with its frame |
| CodecDrain.BuffersAreConserved | android_mediacodec_video_decoder.cpp:544-814 | in every unbroken log outputs dequeued are outputs released, and inputs dequeued are inputs handed back, as sequences, up to the one in hand |
| CodecDrain.OutputLifecycle | android_mediacodec_video_decoder.cpp:590-716 | each dequeued output: size read if unknown, delivered exactly when there is a sink and it can be copied, showing the buffer's rows, then released |
| CodecDrain.PtsIncrease | android_mediacodec_video_decoder.cpp:787-792 | non-empty inputs of one codec session carry strictly increasing timestamps |
| CodecDrain.Decoder.RefreshOutputFormat | android_mediacodec_video_decoder.cpp:492-501 | the format in force is the one the log says was last read |
| CodecDrain.Decoder.HandleOutput | android_mediacodec_video_decoder.cpp:590-716 | one output from dequeue to release keeps the log in order, asks for no other output, and says whether a picture went out |
| CodecDrain.Decoder.DrainOne | android_mediacodec_video_decoder.cpp:563-716 | one turn of the loop: one request with the given timeout, which is the last call exactly if it finds nothing |
| CodecDrain.Decoder.DrainOutputs | android_mediacodec_video_decoder.cpp:544-720 | on the log one drain: the callback is read once, the first request waits as told, no other does, and it stops at the first that finds nothing; a picture went out exactly if a delivery is among its calls |
| CodecDrain.Decoder.DrainAfterQueue | android_mediacodec_video_decoder.cpp:802-814 | on the log two drains: the first does not wait, the second waits 3000 microseconds exactly if the first delivered nothing |
| CodecDrain.WaitsOnlyForNothing | android_mediacodec_video_decoder.cpp:802-814 | behind an accepted input the first request does not wait, the callback is read exactly twice, and a request that waits comes right behind one that did not wait and found nothing, with no delivery since the input |
| CodecDrain.Decoder.FillInput | android_mediacodec_video_decoder.cpp:769-801 | the slot gets the bytes under the next timestamp, or goes back empty if it is null, too small or the codec refuses |
| CodecDrain.Decoder.ProcessOneFrame | android_mediacodec_video_decoder.cpp:722-814 | the data is offered once, the log stays in order whatever the codec answers, and the calls behind the offer are given for each case: two drains if it was accepted, one drain of 3000 microseconds if no input was free, the slot handed back and nothing else if it was refused; the waits are exact per case |
| CodecDrain.Decoder.ConfigureOnWorker | android_mediacodec_video_decoder.cpp:503-542 | success starts a session with timestamps from zero and reads the format, failure leaves no codec and no format |
| CodecDrain.Decoder.DestroyCodec | android_mediacodec_video_decoder.cpp:461-470 | no codec and no format afterwards |
| CodecDrain.Decoder.CurrentCallback | android_mediacodec_video_decoder.cpp:555-559 | each drain uses the callback as it is then, which another thread may have changed |
| CodecDrain.Decoder.Run | android_mediacodec_video_decoder.cpp:431-448 | every run of worker jobs, with callbacks changed at any time, makes the calls each job begins with, releases every output dequeued and hands back every input dequeued, in order, with timestamps increasing in each session |
| DecoderWorker.RunKeepsInv | android_mediacodec_video_decoder.cpp:431-459 | the thread invariant holds after every interleaving of caller and worker steps |
| DecoderWorker.NoFrameCrossesConfigure | android_mediacodec_video_decoder.cpp:845-868 | in every reachable state no codec has processed or delivered a frame accepted before its Configure or after another |
| DecoderWorker.AcceptanceOrder | android_mediacodec_video_decoder.cpp:870-913 | frames of an epoch are processed in acceptance order, and none is lost while the queue is not cleared |
| DecoderWorker.ProcessedOnce | android_mediacodec_video_decoder.cpp:870-913 | in every reachable state no frame has been processed twice, in one epoch or in two |
| DecoderWorker.QuietUntilConfigure | android_mediacodec_video_decoder.cpp:870-952 | from a stopped decoder no task runs and nothing is delivered until the next Configure |
| DecoderWorker.QuietAfterRelease | android_mediacodec_video_decoder.cpp:925-952 | Release returning, in any run, leaves the decoder in that state |
| DecoderWorker.WaitEnds | android_mediacodec_video_decoder.cpp:845-952 | a blocked Configure or Release is ended by worker steps alone: no deadlock |
| DecoderWorker.CallReturns | android_mediacodec_video_decoder.cpp:845-952 | every call in progress can return without another being made: Configure leaves a running worker, Release a stopped decoder |
| DecoderWorker.RunTracks | android_mediacodec_video_decoder.cpp:845-952 | after every run the codec in force, the callback, the call in progress and the worker's whereabouts are those that the steps so far tell, and each thread took its steps in their order |
| DecoderWorker.FramesReachTheCodec | android_mediacodec_video_decoder.cpp:845-868 | once Configure number k finished with success, every frame taken and every picture delivered is of codec k until another Configure or a Destroy finishes |
| DecoderWorker.DeliverIff | android_mediacodec_video_decoder.cpp:544-559 | a picture can be delivered exactly while a frame is processed with a codec in force and a callback that was registered when the drain began, and it is of that frame and codec |
| DecoderWorker.WorkerCatchesUp | android_mediacodec_video_decoder.cpp:431-448 | the worker alone can hand every queued frame to the codec in force, in order, and deliver each if a callback is registered |
| DecoderWorker.DecodeIsDelivered | android_mediacodec_video_decoder.cpp:870-913 | after every run with a codec in force and a callback, a Decode call is accepted and the worker alone can go on to deliver its picture, behind those of the frames queued before it |
| FramePool.PlanesTile | android_mediacodec_video_decoder.cpp:390-421 | every byte of a slot's memory is a sample of one of the planes, and of one sample only |
| FramePool.SamplesDisjoint | android_mediacodec_video_decoder.cpp:239-280 | different samples have different addresses |
| FramePool.SamplesAreOfPixels | android_mediacodec_video_decoder.cpp:391-395 | the planes hold exactly one luma sample a pixel and one sample of each chroma for every two by two pixels, odd edges included |
| FramePool.EveryPixelHasItsSamples | android_mediacodec_video_decoder.cpp:391-395 | the three samples of every pixel lie inside the memory the layout asks for |
| FramePool.AcquirePoolSlot | android_mediacodec_video_decoder.cpp:390-421 | the two scans reuse the first matching free slot, else refill the first free one, else fail, changing no other slot; the slot acquired has memory for the three samples of every pixel |
| FramePool.UndisturbedScan | android_mediacodec_video_decoder.cpp:379-421 | the step-by-step scan with no drop in between does what AcquirePoolSlot promises |
| FramePool.RunKeepsExclusive | android_mediacodec_video_decoder.cpp:379-421 | the ownership invariant survives every interleaving of the worker with drops |
| FramePool.OneOwner | android_mediacodec_video_decoder.cpp:239-280 | a slot is occupied exactly when it has an owner, and never has two |
| FramePool.LiveFramesAreSeparate | android_mediacodec_video_decoder.cpp:239-280 | two live frames never share memory, and each frame's memory has the samples of all its pixels |
| FramePool.ReallocationIffLate | android_mediacodec_video_decoder.cpp:390-421 | over every run with one picture size, memory that would have fitted is replaced exactly when its frame was dropped between the two scans |
| FramePool.AllocationBound | android_mediacodec_video_decoder.cpp:390-421 | over every such run allocations equal slots with memory, at most six, plus replacements, and replacements are at most the late drops |
| FramePool.RacesAreLateDrops | android_mediacodec_video_decoder.cpp:390-421 | the late drops counted are the last references released, in the run, to frames in slots that the first scan in progress had passed |
| FramePool.AllocationsUnbounded | android_mediacodec_video_decoder.cpp:379-421 | for every n a run with one picture size and one live frame allocates n + 1 times |
| FramePool.ClearSafeIff | android_mediacodec_video_decoder.cpp:423-429 | clearing keeps every occupied slot with one owner exactly when no frame is alive |
| FramePool.SurvivorSharesMemory | android_mediacodec_video_decoder.cpp:423-429 | from every reachable state cleared with a live frame, a continuation in which two live frames share memory |
| FramePool.EndSafeIff | android_mediacodec_video_decoder.cpp:254-256 | no frame ever sets a flag in a slot that went with the decoder exactly if none is alive when it goes |
| FramePool.LaterCounts | android_mediacodec_video_decoder.cpp:254-256 | after the decoder is gone references are counted as before, and the last one of a frame sets a flag that is gone |
| RefCounting.HoldersUpdate | include/api/scoped_refptr.h:78-163 | re-pointing one handle moves exactly one reference |
| RefCounting.RefWorld.AddRef | include/api/ref_counted_base.h:27-27 | the count goes up by one |
| RefCounting.RefWorld.ReleaseRef | include/api/ref_counted_base.h:28-34 | the count goes down by one and the object is destroyed exactly at zero |
| RefCounting.RefWorld.ConstructFromRaw | include/api/scoped_refptr.h:81-84 | a new handle adds one reference to its object |
| RefCounting.RefWorld.CopyConstruct | include/api/scoped_refptr.h:86-95 | copying adds one reference |
| RefCounting.RefWorld.MoveConstruct | include/api/scoped_refptr.h:98-101 | moving changes no count and empties the source |
| RefCounting.RefWorld.DestroyHandle | include/api/scoped_refptr.h:103-106 | destroying a handle gives up one reference, and the object with the last one |
| RefCounting.RefWorld.Release | include/api/scoped_refptr.h:118-122 | release hands the reference out as one that is owed |
| RefCounting.RefWorld.AssignFromRaw | include/api/scoped_refptr.h:124-132 | raw assignment takes the new reference, drops the old one and stores the pointer last, and keeps every count exact, to itself too |
| RefCounting.RefWorld.CopyAssign | include/api/scoped_refptr.h:134-141 | the same for copies |
| RefCounting.RefWorld.MoveAssign | include/api/scoped_refptr.h:143-152 | the same for moves |
| RefCounting.RefWorld.SwapHandles | include/api/scoped_refptr.h:154-160 | swapping changes no count |
| RefCounting.RefWorld.PublishFrame | android_mediacodec_video_decoder.cpp:634-638 | the filled slot becomes a frame held by one handle |
| RefCounting.RefWorld.WorkerDoes | android_mediacodec_video_decoder.cpp:390-429 | the worker's scans, failed fills and clears of an unused pool touch no frame |
| RefCounting.RefWorld.SlotFreeIff | android_mediacodec_video_decoder.cpp:254-263 | a slot's flag is set exactly when the worker is not filling it and every frame published in it has no handle and no owed reference left |
| RefCounting.RefWorld.Run | include/api/scoped_refptr.h:78-163 | over every run each operation on handles does what its own says, a count is live handles plus owed references, and a slot is free exactly when nothing holds its frames |
| Signaling.EscapeField | signaling_client.cpp:110-154 | the printer's character loop computes the escaped field |
| Signaling.UnescapeField | signaling_client.cpp:188-200 | the parser's character loop computes the field up to its closing quote or the end |
| Signaling.ReadFieldOfEscape | signaling_client.cpp:110-221 | reading an escaped field gives the text back, whatever follows the closing quote |
| Signaling.AtoiOfDecimal | signaling_client.cpp:139-238 | the line index survives printing and reading |
| Signaling.DecimalIsPlain | signaling_client.cpp:145 | the line index is printed in plain decimal, without a plus sign and without leading zeros |
| Signaling.AtoiOfForeign | signaling_client.cpp:235-237 | white space and a plus sign in front of an index change nothing |
| Signaling.SendOffer | signaling_client.cpp:110-122 | prints exactly the line of the offer |
| Signaling.SendAnswer | signaling_client.cpp:124-137 | prints exactly the line of the answer |
| Signaling.SendIceCandidate | signaling_client.cpp:139-154 | prints exactly the line of the candidate |
| Signaling.KeyOccursOnlyAtMembers | signaling_client.cpp:178-259 | no field content can make a key pattern occur anywhere but at a member with that key |
| Signaling.PatternOnlyAt | signaling_client.cpp:184-240 | every search pattern starting with a key is found only behind the printer's own key |
| Signaling.KindIsOwn | signaling_client.cpp:180-225 | a type search succeeds exactly for the message's own type, whatever the fields hold |
| Signaling.ParseSdp | signaling_client.cpp:184-200 | what the session-description branch reads |
| Signaling.ParseIce | signaling_client.cpp:224-255 | what the candidate branch reads |
| Signaling.ParseAndDispatch | signaling_client.cpp:178-259 | the branches in order compute the message a line holds, or none |
| Signaling.ParseOfLine | signaling_client.cpp:178-259 | parsing a printed message gives it back |
| Signaling.LineRoundTripIff | signaling_client.cpp:110-259 | exactly when a candidate is not empty and the mid has no quote |
| Signaling.FramingAppend | signaling_client.cpp:156-176 | framing the remainder together with new bytes is framing the whole stream |
| Signaling.Reader.OnData | signaling_client.cpp:162-172 | one chunk dispatches the complete lines in order and keeps the rest |
| Signaling.Reader.ReaderLoop | signaling_client.cpp:156-176 | over every sequence of recv results the reader dispatches the lines of the bytes received |
| Signaling.ParsedIsDeliverable | signaling_client.cpp:178-259 | whatever the parser reads off a line without NUL or newline is a deliverable message |
| Signaling.EveryMessageArrives | signaling_client.cpp:102-176 | for every list of messages, every cutting of the sent bytes, with recv blocking anywhere in between and anything behind the end of the connection, exactly those messages arrive in order if and only if each is deliverable |
| Signaling.NulLosesOffer | signaling_client.cpp:162-163 | an offer containing a NUL, received in one piece, is lost altogether |
| Signaling.NulAtCutIsDropped | signaling_client.cpp:162-163 | a chunk that ends right behind a NUL loses only that byte |
| Answerer.SentMeansNegotiated | webrtc_receiver_client.cpp:454-575 | in every unbroken log an answer is sent only after its offer was applied, that very answer made and its local description set, in that order, with no other offer since |
| Answerer.AnswersOnce | webrtc_receiver_client.cpp:510-575 | between two answers there is another offer |
| Answerer.AnswerInItsSession | webrtc_receiver_client.cpp:538-560 | an answer goes out in the signaling session of its offer exactly if no session was started in between |
| Answerer.PassedInOrder | webrtc_receiver_client.cpp:577-623 | no candidate is passed on before the remote description is in place, and each is the next one received |
| Answerer.PassedIsPrefix | webrtc_receiver_client.cpp:577-623 | what was passed on is a prefix of what was received since the offer |
| Answerer.ReceiverClient.HandleOffer | webrtc_receiver_client.cpp:454-508 | the whole new state after an offer on every failure path, and the protocol facts if no call is in flight |
| Answerer.ReceiverClient.CreatePeerConnection | webrtc_receiver_client.cpp:398-452 | which peer connection there is after success and each failure |
| Answerer.ReceiverClient.CompleteSetRemote | webrtc_receiver_client.cpp:477-502 | success applies the description, passes the queue on and queues the next task; failure drops the queue |
| Answerer.ReceiverClient.DoCreateAnswerAfterSetRemote | webrtc_receiver_client.cpp:510-575 | asks for an answer exactly if there is a peer connection |
| Answerer.ReceiverClient.CompleteCreateAnswer | webrtc_receiver_client.cpp:516-566 | a usable answer is set locally; the callback faults exactly when the peer connection is gone |
| Answerer.ReceiverClient.CompleteSetLocal | webrtc_receiver_client.cpp:538-560 | the answer goes out exactly after success and with signaling, carrying the SDP made |
| Answerer.ReceiverClient.AddRemoteIceCandidateNow | webrtc_receiver_client.cpp:577-595 | a candidate reaches the peer connection exactly if there is one and the text parses |
| Answerer.ReceiverClient.FlushPendingRemoteIceCandidates | webrtc_receiver_client.cpp:597-605 | the loop passes the whole queue on in order and empties it; the log grows by exactly these |
| Answerer.ReceiverClient.HandleRemoteIceCandidate | webrtc_receiver_client.cpp:607-623 | passed on or queued; passed and queued together remain what was received |
| Answerer.ReceiverClient.Disconnect | webrtc_receiver_client.cpp:347-368 | the whole new state; calls in flight stay in flight |
| Answerer.ReceiverClient.Run | webrtc_receiver_client.cpp:347-623 | every run with one offer in flight keeps the log in order and at most one observer held, until a fault at most; every candidate, connection and hang-up is in the log where its step began |
| Answerer.ReceiverClient.StaleCallBreaks | webrtc_receiver_client.cpp:477-502 | from every state with a call in flight, a new offer and that call's success break the protocol |
| Answerer.TwoOffers | webrtc_receiver_client.cpp:477-502 | a run in which a candidate of the second offer is passed on before that offer is applied |
| Answerer.AnswerAfterDisconnect | webrtc_receiver_client.cpp:516-561 | a run in which the answer arrives after a disconnect and its callback uses a peer connection that is gone |
| Answerer.AnswerInLaterSession | webrtc_receiver_client.cpp:538-560 | a run in which the answer to an offer goes out in a later session |
| Answerer.ReceiverClient.ConnectToSignaling | webrtc_receiver_client.cpp:306-345 | a new session replaces the old one, or there is none if it fails to start |
| PlaneUpload.CapabilitiesIff | webrtc_video_renderer.cpp:52-79 | the uploader takes the context to have row lengths and pixel buffers exactly when GL has them, and never the second without the first |
| PlaneUpload.DirectIsPictureIff | webrtc_video_renderer.cpp:128-161 | an upload with row lengths shows the source pixels for every content exactly when the stride is whole pixels, or there is at most one row, or no column |
| PlaneUpload.PrepareTightPlaneIfNeeded | webrtc_video_renderer.cpp:83-101 | the packed plane reads under the unpack rule as the source picture; with row lengths the source is used as it is |
| PlaneUpload.TightRows | webrtc_video_renderer.cpp:683-692 | the same for interleaved chroma |
| PlaneUpload.StagingInsideIff | webrtc_video_renderer.cpp:111-123 | for planes whose rows fit, the staging copy stays inside exactly if it packs, or there is no row, or the last row is padded |
| PlaneUpload.DirectInside | webrtc_video_renderer.cpp:128-161 | the direct upload stays inside every such plane |
| PlaneUpload.CopyPlaneForUpload | webrtc_video_renderer.cpp:103-123 | unless the copy reads past the plane, the staged bytes read under the unpack rule exactly as a direct upload does, in both row-length modes and for every stride |
| PlaneUpload.LagByOne | webrtc_video_renderer.cpp:274-306 | after n uploads the texture holds plane n - 1 if the last staging succeeded and plane n if not, whatever failed before |
| PlaneUpload.PlaneUploader.CreateGl | webrtc_video_renderer.cpp:856-887 | a new texture begins under the size still cached |
| PlaneUpload.PlaneUploader.DestroyGl | webrtc_video_renderer.cpp:574-590 | the texture, the pixel buffers and what was staged go, the cached size stays |
| PlaneUpload.PlaneUploader.UploadImage | webrtc_video_renderer.cpp:142-160 | the image lands exactly if some upload of this lifetime, this one included, had a size other than the one cached at its beginning, or none was cached |
| PlaneUpload.PlaneUploader.UploadPlaneTight | webrtc_video_renderer.cpp:128-161 | the unpacked image goes to the texture, and lands under that condition |
| PlaneUpload.PlaneUploader.UploadPlaneFromReadyPbo | webrtc_video_renderer.cpp:179-214 | uploads what is staged if anything is, and keeps it staged |
| PlaneUpload.PlaneUploader.StagePlaneIntoPbo | webrtc_video_renderer.cpp:216-272 | stages into the buffer whose turn it is and leaves the other one alone |
| PlaneUpload.PlaneUploader.UploadPlaneViaPboAsync | webrtc_video_renderer.cpp:274-306 | one turn is the abstract step, and the buffer uploaded from is not written |
| PlaneUpload.PlaneUploader.UploadDirectly | webrtc_video_renderer.cpp:52-80 | the padded fallback is sound because pixel buffers imply row lengths |
| PlaneUpload.PlaneUploader.UploadPlanePacked | webrtc_video_renderer.cpp:663-697 | the path without pixel buffers shows the same image |
| PlaneUpload.PlaneUploader.UploadAll | webrtc_video_renderer.cpp:163-306 | every run of turns after a reset, in any GL lifetime: all planes but one still staged have been sent in order, and the texture holds the last one sent, provided one could land |
| Renderer.Mailbox.OnFrame | webrtc_video_renderer.cpp:991-1071 | the slot holds the newest usable frame, the buffer's own or the non-empty I420 frame it was converted to; other buffers change nothing |
| Renderer.Mailbox.TakeFrame | webrtc_video_renderer.cpp:1119-1131 | frames are taken in order of arrival, none twice, always the newest |
| Renderer.Mailbox.ClearVideoTrack | webrtc_video_renderer.cpp:1223-1250 | empties the slot |
| Renderer.ImageHolds | webrtc_video_renderer.cpp:660-759 | what goes up from each plane of a frame is that plane's own bytes, row by row, with the sizes of its format; interleaved rows of odd stride are read one byte too close under row lengths |
| Renderer.SoundFrameIff | webrtc_video_renderer.cpp:660-759 | what is asked of a frame is what is asked of its planes, no more |
| Renderer.DrawingDepicts | webrtc_video_renderer.cpp:660-759 | the drawing of a frame is made from the frame's own luma and chroma bytes by the shader of its format |
| Renderer.PlanesAgreeIff | webrtc_video_renderer.cpp:642-747 | two planes show the same frame exactly when the last upload staged both or neither, or the frame did not change |
| Renderer.UploadedIff | webrtc_video_renderer.cpp:642-747 | which textures have been uploaded to since the path switch |
| Renderer.UniformShowsOne | webrtc_video_renderer.cpp:642-747 | when all planes fared alike the textures hold one frame, byte for byte |
| Renderer.RenderNode.Sync | webrtc_video_renderer.cpp:378-402 | takes the newest frame, or goes blank when there is no video |
| Renderer.RenderNode.SwitchPath | webrtc_video_renderer.cpp:603-609 | a path change drops what is staged and restarts the upload count |
| Renderer.RenderNode.UploadOes | webrtc_video_renderer.cpp:621-644 | external frames need no upload, and there is data exactly if the shader linked |
| Renderer.RenderNode.UploadCpu | webrtc_video_renderer.cpp:646-759 | planes go up, and there is data exactly when there was some on this path or some upload changed every sampled texture; each sampled texture then holds the bytes of its own plane of the frame last uploaded to it |
| Renderer.RenderNode.UploadPendingFrame | webrtc_video_renderer.cpp:611-759 | the held frame goes up by its own path |
| Renderer.RenderNode.EnsureInitialized | webrtc_video_renderer.cpp:551-572 | a first context sets capabilities and empty textures, later calls change nothing |
| Renderer.RenderNode.Render | webrtc_video_renderer.cpp:419-478 | in every reachable state the shader matches the path; each sampled texture is empty exactly if nothing could land in this GL lifetime and otherwise holds, byte for byte, its own plane of the frame the uploads since the last path switch left there; in the first lifetime none is empty, and a filled texture stays filled within its lifetime |
| Renderer.RenderNode.WholeDrawing | webrtc_video_renderer.cpp:419-478 | once no sampled texture is empty the drawing is exactly what those uploads left |
| Renderer.RenderNode.FaithfulShowsOne | webrtc_video_renderer.cpp:419-478 | if the last upload treated all planes alike the picture is the bytes of one received frame |
| Renderer.RenderNode.ReleaseResources | webrtc_video_renderer.cpp:574-590 | every texture is empty and begins its next lifetime under the cached size; the data flag is carried over |
| Renderer.RenderNode.SameSizeStaysEmpty | webrtc_video_renderer.cpp:574-590 | frames of the size cached at the release never fill the texture |
| Renderer.RenderNode.OtherSizeFills | webrtc_video_renderer.cpp:128-161 | once the frame a plane shows has another size than the one cached when the GL lifetime began, its texture holds that frame |
| Renderer.RenderNode.FirstAfterBlank | webrtc_video_renderer.cpp:386-392 | what the first frame after a blank draws: itself if sent directly, the old frame if both were staged on one path, nothing otherwise |
| Renderer.RenderNode.NewTrack | webrtc_video_renderer.cpp:386-392 | the same from clearing a track to the first frame of the next |
| Renderer.RenderNode.SameSizeAfterRelease | webrtc_video_renderer.cpp:574-590 | a release and then a frame of the cached size: the data flag is set and the draw samples empty textures |
| Renderer.RenderNode.AlternatingFailuresShowNothing | webrtc_video_renderer.cpp:660-704 | on a node whose staging failures alternate between planes the data flag is never set, although both textures are full |
| Renderer.Run | webrtc_video_renderer.cpp:378-759 | in every run of one GL lifetime whose uploads treat planes alike, the frames that arrived are the usable ones brought, in order, and every picture drawn is the bytes of one whole frame among them: row r of Y, U and V, or of Y and UV, at r strides into that plane |
| Renderer.RunLifetimes | webrtc_video_renderer.cpp:378-759 | over every run, with any number of releases and any staging failures, a texture holds an image exactly if some upload since its lifetime began had a size other than the one cached then, or none was cached |
| WebChannel.Channel.Exec | qwebchannel.js:99-119 | an id is fresh below 2^53; the whole new state in every case |
| WebChannel.Channel.HandleResponse | qwebchannel.js:133-141 | a response calls the callback its id was issued to and forgets it unless it throws, and no callback but those of ids answered, although that callback may send requests and see responses; each is called once unless a response comes for a callback running or thrown |
| WebChannel.Channel.SaturatedRequestDisplaces | qwebchannel.js:108-116 | at 2^53 a second request displaces the first one's callback |
| WebChannel.EmissionSoFar | qwebchannel.js:304-312 | while an emission is under way, what it has called and what it owes are what was connected when it began |
| WebChannel.EmissionEnds | qwebchannel.js:304-312 | an emission has a matching end in every log that comes back to its depth |
| WebChannel.EmissionCallsExactly | qwebchannel.js:304-312 | each such emission called exactly the callbacks connected when it began, once each and in order, nested emissions included, or a prefix of them if a throw ended it |
| WebChannel.QObject.ConnectTo | qwebchannel.js:253-278 | the list grows by the callback, other lists stay, and the host is asked exactly for the first callback of a pure signal |
| WebChannel.QObject.DisconnectFrom | qwebchannel.js:279-297 | the list loses every occurrence of the callback, arrays under iteration stay, and the host is told exactly when the list of a signal other than a notify signal is empty afterwards |
| WebChannel.QObject.InvokeSignalCallbacks | qwebchannel.js:304-312 | the log stays in order whatever the callbacks do, recursion included, and holds what every one of them did; a throw ends the emission and goes on outwards |
| WebChannel.QObject.Store | qwebchannel.js:414-427 | the cache and the log agree on every property's last value |
| WebChannel.QObject.PropertyUpdate | qwebchannel.js:314-327 | the cache holds the values written last before any callback is called, each emission takes place in turn until one throws, and callbacks may set properties |
| ChannelBuffer.Deinterleave | include/common_audio/channel_buffer.h:28-42 | the running index puts sample j * channels + i at place j of channel i |
| ChannelBuffer.Interleave | include/common_audio/channel_buffer.h:48-62 | and back |
| ChannelBuffer.InterleavedUnique | include/common_audio/channel_buffer.h:28-62 | the channels determine the interleaved samples |
| ChannelBuffer.DeinterleavedUnique | include/common_audio/channel_buffer.h:28-62 | the interleaved samples determine the channels |
| ChannelBuffer.InterleaveOfDeinterleave | include/common_audio/channel_buffer.h:28-62 | interleaving after deinterleaving is the identity |
| ChannelBuffer.DeinterleaveOfInterleave | include/common_audio/channel_buffer.h:28-62 | deinterleaving after interleaving is the identity |
| ChannelBuffer.BandsFollow | include/common_audio/channel_buffer.h:101-112 | a channel's bands begin where the channel begins, follow each other without a gap, and are as long as whole bands allow |
| ChannelBuffer.ViewsInside | include/common_audio/channel_buffer.h:101-112 | every channel and band view lies inside the data |
| ChannelBuffer.ViewsDisjoint | include/common_audio/channel_buffer.h:101-112 | no sample is in two views |
| ChannelBuffer.ViewsTileIff | include/common_audio/channel_buffer.h:83-114 | the views tile the data exactly when the bands divide the frames |
| ChannelBuffer.Buffer.constructor | include/common_audio/channel_buffer.h:83-114 | the data starts as zero and both pointer tables lead to the same window for every channel and band |

## Left out
- Sockets, `Start`, `Stop`, host and port parsing, and send and receive errors beyond their effect on the reader loop.
- Threads as such: worker, caller and frame drops are interleaved atomic steps with sequentially consistent flags; weaker memory orders are not represented.
- The decoder's worker protocol and the pool under interleaving are state machines on values, not objects; `AcquirePoolSlot` itself is in place on an array.
- The data race between the remote-description callback's thread and the client's own thread: callbacks are atomic steps.
- Fixed-width overflow of `int` and `int64_t` values: sizes, strides, offsets and timestamps are unbounded, so the `int` products in the copy guards cannot wrap.
- MediaCodec, libyuv, OpenGL, Qt and libwebrtc internals: the codec is any finite script of answers, libyuv conversion always succeeds on valid arguments, GL is textures, pixel buffers and the unpack rule.
- Planes without a padded last row in the staged path of a whole node: `PlaneUpload.CopyPlaneForUpload` states what staging them does.
- A codec that never stops producing outputs: its script is finite, so the drain loop ends.
- Negative output offsets in the drain loop: `Nv12Copy.FillNV12BufferFromNv12` and `Nv12Copy.StridedInsideIffOffset` state what they would do.
- Timestamps and tracking ids attached to delivered frames, log lines, timing samples and statistics.
- Peer-connection configuration, field trials, SDP types, local candidate forwarding and track handling.
- Shaders, colour conversion, geometry, QML properties.
- Chroma columns beyond `w / 2` of odd-sized I420 frames: the model uploads the planes the code uploads, and says nothing about samples it leaves out.
- `unwrapQObject`, converters and method invocation of the web channel; callbacks act by connecting, disconnecting, emitting and setting properties.
- The register message, and messages from peers that do not use this printer, beyond what `Signaling.ParseAndDispatch` computes for any line.
- `ChannelBuffer` accessors, `IFChannelBuffer`, and every header that only declares.
- The webview receiver, transports, factories, timing bridges and scripts: wiring over libraries.
- Signaling.AtoiOfDecimal: does not represent 32-bit overflow of `atoi`.
- Signaling.AtoiOfForeign: neither does it.
- Signaling.Reader.ReaderLoop: a NUL ends a chunk, as the C string append makes it; callbacks that are not set are not modelled.
- CodecDrain.CopyOutput: the bytes of pooled and plain planar frames are not represented, because libyuv makes them.
- Destructors that use handles while they run: releasing the last reference only destroys the object and frees its slot.
- Web channel callbacks that catch what a nested emission throws: a throw goes all the way out.
