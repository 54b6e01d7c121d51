# A verified model of the sparse-frame pipeline

The pipeline moves sparse camera frames from a backend (a synthetic camera, or a webcam
whose YUYV images are reduced to bright grid cells) through one binary message each into
a sink that checks everything it receives. A configuration file says which cameras exist;
`smoke` starts one thread per camera, drains the sink and prints a verdict. This project
models that program in Dafny and proves what the pieces promise, alone and together.

Where the program changes state in place, the model does too: `Frames.Frame`,
`WireBuffers`, `MockCamera.MockCamera`, `Webcam.Webcam`, `Camera.Camera`,
`CameraThread.CameraLoop`, `Sink.Sink`, `Yuyv.YuyvToSparse`, `Ini.Ini` and
`Rig.CameraTable` are classes and loops over fields and arrays. Each is tied to a
specification on values (`Wire`, `SinkModel`, `FanIn`, `MockModel`, `Backends`, `IniModel`,
`RigModel`), and the theorems are about those. The
concurrent run is a step relation (`Pipeline`) whose steps are those same functions.

| files | what they hold |
|---|---|
| `Machine`, `Binary32` | integer widths; non-negative binary32 arithmetic and its rounding (IEEE 754-2019, sections 3.4 and 4.3.1) |
| `Frames`, `Wire`, `WireBuffers` | the frame, its message format, and packing and unpacking over buffers |
| `FanIn` | a bounded table of per-source states, and why it is nothing but independent runs |
| `SinkModel`, `SinkTrace`, `SinkLaws`, `SinkMeaning`, `Sink` | the streaming checker, what its counters mean, its laws, everything it remembers said of the stream alone, and the object itself |
| `MockModel`, `Band`, `MockCamera` | pacing, the walking band and the synthetic backend |
| `Tiling`, `RowMajor`, `BlockMeans`, `Yuyv`, `Webcam` | block bounds, row-major listing, float block means, the four-deep loop and the backend around it |
| `Backends`, `Camera` | either backend as a value, and the publisher over either |
| `Pipeline`, `PipelineInvariant`, `PipelineLaws`, `PipelineExits`, `DrainLoop`, `CountExit`, `CameraThread` | the concurrent run, its invariant, its theorems, what leaving the drain loop means, what each of its turns decides, that it can end by count, and the thread loop that refines it |
| `IniText`, `IniModel`, `Ini`, `IniForms`, `IniLaws`, `IniRoundTrip` | strings cut in place, the parser, what a line is, when a file is accepted, lookups, round trips |
| `BackendConfig`, `RigModel`, `Rig`, `RigLaws`, `BuildLaws`, `Configured` | backends from sections, building cameras from a configuration, releasing them, exactly when a build succeeds, and what a run starts from |

Conventions. Integers are unbounded and every wrap-around is written out. Signal values
are binary32 bit patterns, moved as the code moves them. The clock, the network, number
parsing and device behaviour are parameters of the operations that meet them: a send is
accepted, refused or fails; a wake comes at or after its deadline.

## Model

| member | source | states |
|---|---|---|
| `Frames.Frame.NewFrames` | src/c/frame.c:20-43 | a fresh empty frame with room for the capacity asked for, or null for capacity 0 |
| `Frames.Frame.Reserve` | src/c/frame.c:58-77 | capacity never shrinks and becomes at least what was asked for; a readable frame keeps its value |
| `Frames.Frame.Reset` | src/c/frame.c:80-89 | count, stamp and sequence become zero and nothing else moves |
| `Wire.RoundTrip` | src/c/wire.h:78-174 | parsing a packed frame restores every field and every array bit; the message has exactly 32 + 8 * count bytes |
| `Wire.EncodedParses` | src/c/wire.h:115-174 | a message at any accepted version and with any flags parses to its frame |
| `Wire.PackInjective` | src/c/wire.h:78-110 | two frames with the same message are the same frame |
| `Wire.AcceptedLanguage` | src/c/wire.h:115-174 | exactly which byte strings are accepted: the encodings, at an accepted version with any flags, of the frame they yield |
| `Wire.Layout` | src/c/wire.h:24-110 | where every byte of a packed message goes: "FRM1", version 1, flags 0, then the header's fields and the two arrays, little-endian |
| `Wire.ErrorsAre` | src/c/wire.h:115-136 | exactly which messages are too short, of another format, of a newer version or of the wrong length, in bytes and in the code's order |
| `Wire.LengthIsExact` | src/c/wire.h:115-136 | every strict prefix or extension of an accepted message is rejected, and with which error |
| `Wire.RepackAgrees` | src/c/wire.h:78-174 | re-packing an accepted message gives the same bytes everywhere but in bytes 4 to 7 |
| `Wire.RepackIdentity` | src/c/wire.h:78-174 | and gives the message itself exactly when it was version 1 with no flags |
| `WireBuffers.Pack` | src/c/wire.h:78-110 | writes exactly the encoding, or nothing when the buffer is too small, and no byte beyond |
| `WireBuffers.Unpack` | src/c/wire.h:144-174 | fills the frame with what the message says; a rejection leaves the frame alone, and one that does not fit leaves only its count behind |
| `FanIn.Decompose` | src/c/sink.c:43-84 | whatever the stream, the bounded table holds the first sixteen ids, each slot is that source's run on its own items alone, and everything counted is the sum of the sources' shares |
| `FanIn.OrderIrrelevant` | src/c/sink.c:181-273 | the sum of the shares does not depend on the order in which sources were met |
| `SinkModel.MessagesAreFrames` | src/c/sink.c:314-330 | receiving a stream is counting what does not parse and validating, in order, what does |
| `SinkTrace.SlotRemembers` | src/c/sink.c:54-82 | a slot knows how many frames came, the last stamp and sequence, and for good what the first spec for its id says, or the fallbacks if none does |
| `SinkTrace.CountersCount` | src/c/sink.c:194-255 | each counter is the number of places in the camera's run where its test fails |
| `SinkTrace.LossesAdd` | src/c/sink.c:214-221 | the lost counter is the sum of the forward jumps; a camera is unexpected at most once |
| `SinkTrace.GoodIffNothingFound` | src/c/sink.c:181-273 | the judged counters of a camera are zero exactly when stamps increase at all pairs, sequences count up modulo 2^64, indices and values are in range and the id is configured |
| `SinkTrace.VerdictByCamera` | src/c/sink.c:387-392 | for any stream: PASS exactly when something arrived, everything parsed and each of the first sixteen cameras is good |
| `SinkMeaning.SlotMeans` | src/c/sink.c:43-272 | after any stream a slot holds its camera's frame count, last stamp and sequence, the number, sum and extremes of the intervals between advancing stamps, and what the first spec for its id says, or the fallbacks |
| `SinkMeaning.SlotsFill` | src/c/sink.c:43-84 | the slots are those of senders, all of them up to sixteen |
| `SinkMeaning.SlotsKept` | src/c/sink.c:43-84 | and whoever has one keeps it, whatever comes later |
| `SinkMeaning.JitterCounts` | src/c/sink.c:203-212 | a camera's jitter count is the number of advancing neighbours whose interval is below period * (1 - tol) or above period * (1 + tol) of its own spec |
| `SinkMeaning.OrderCounts` | src/c/sink.c:196-221 | its other timing counts: neighbours whose stamp did not advance, neighbours whose sequence does not follow modulo 2^64, and the sum of the forward jumps |
| `SinkMeaning.ContentCounts` | src/c/sink.c:231-255 | its frames with an index at or past the bound of its spec, its frames with a value outside [0, 1], and whether it is unexpected |
| `SinkMeaning.GoodCameraMeans` | src/c/sink.c:181-273 | what a good camera is, in terms of its frames and the spec table only |
| `SinkLaws.VerdictDecidesTrace` | src/c/sink.c:181-392 | with room for its senders (at most sixteen ids, or a spec table that names fewer than sixteen of them) the one-pass verdict decides the whole-trace specification, both ways |
| `SinkLaws.GoodTracePasses` | src/c/sink.c:181-392 | a good trace passes with any number of cameras |
| `SinkLaws.SeventeenthIsOverlooked` | src/c/sink.c:187-192 | for any sixteen senders the sink would not call unexpected and any other one, a stream passes although the other sent an infinity |
| `SinkLaws.VerdictDecidesIff` | src/c/sink.c:187-192 | exactly which set of senders the verdict decides, for everything they may send: at most sixteen ids, or a spec table that names fewer than sixteen of them |
| `SinkLaws.SmallTablesDecide` | src/c/sink.c:181-392 | with one to fifteen configured cameras the verdict decides every stream, whoever else sends |
| `SinkLaws.InterleavingIrrelevant` | src/c/sink.c:43-273 | two interleavings of the same per-camera streams give the same counters, the same slot for every id and the same verdict |
| `SinkLaws.TableInvariant` | src/c/sink.c:43-111 | after any stream the used slots have distinct ids and what the first spec for each id says, and received = bad_parse + frames held by slots + frames turned away |
| `SinkLaws.SequenceConserved` | src/c/sink.c:214-221 | with increasing sequences, frames + lost = last - first + 1 |
| `SinkLaws.IntervalsTelescope` | src/c/sink.c:194-229 | with increasing stamps the interval sum is last - first over frames - 1 intervals |
| `SinkLaws.ExtremesAttained` | src/c/sink.c:223-229 | dt_min and dt_max bound every interval between advancing stamps, and each is one of those intervals |
| `SinkLaws.MeanBetweenExtremes` | src/c/sink.c:223-229 | in every stream dt_min * dt_n <= dt_sum <= dt_max * dt_n |
| `Sink.Sink.constructor` | src/c/sink.c:120-164 | a new sink is the empty state with the default tolerance and decode capacity |
| `Sink.Sink.Expect` | src/c/sink.c:87-111 | replaces the spec table, grows the decode buffer to the widest spec, changes no slot already open, and refuses more than sixteen |
| `Sink.Sink.FindCam` | src/c/sink.c:43-84 | the slot of an id, opened with its bounds if it is new and there is room |
| `Sink.Sink.Count` | src/c/sink.c:194-272 | moves every counter by what the frame adds and computes the slot's next content |
| `Sink.Sink.Validate` | src/c/sink.c:181-273 | the table takes exactly one step of the specification |
| `Sink.Sink.Decode` | src/c/sink.c:314-320 | the status and the frame are those of a pure parse, whatever capacity the buffer starts with; a frame that fits never grows it |
| `Sink.Sink.Recv` | src/c/sink.c:276-334 | the whole state moves by the delivered message, or not at all, and the return code says which |
| `Sink.Sink.Report` | src/c/sink.c:345-393 | the verdict of the state, read off the counters |
| `MockModel.FramesHealthy` | src/c/mock_camera.c:161-180 | every synthetic frame has its indices on the grid, its values in [0, 1] and fits the capacity |
| `MockModel.FrameIs` | src/c/mock_camera.c:137-183 | what the k-th frame is: its stamp, its number, the least of the sites asked for, the cells and the room, site i at (k mod total + i) in 32 bits mod total, and the float nearest to each site's index modulo 256 over 255 |
| `MockModel.BandWidth` | src/c/mock_camera.c:161-166 | a frame has the least of the sites asked for, the grid's cells and the room there is |
| `MockModel.SignalsRamp` | src/c/mock_camera.c:175 | signals ramp up with the site from 0.0 to 1.0 over each run of 256 |
| `MockModel.DeadlineStep` | src/c/mock_camera.c:145-159 | of the state after k and k + 1 acquires: wake < next <= wake + period; the deadline moves by exactly a period, or to one period after a wake that came that late |
| `MockModel.StampsSpread` | src/c/mock_camera.c:145-159 | of the frames acquired i-th and j-th: stamps strictly increase and t_j - t_i > (j - i - 1) * period |
| `MockModel.FramesNumbered` | src/c/mock_camera.c:180-182 | the sequence counter after k acquires is k modulo 2^64 |
| `MockModel.NoDrift` | src/c/mock_camera.c:102-159 | without a stall of a whole period the deadline after k acquires is exactly start + (k + 1) * period |
| `Band.BandIsCyclicIff` | src/c/mock_camera.c:168-172 | the 32-bit band is the cyclic interval it is meant to be exactly when base + n <= 2^32 |
| `Band.BandDistinct` | src/c/mock_camera.c:168-176 | the sites of one frame, as the 32-bit code computes them, are distinct cells exactly when base + n <= 2^32 |
| `Band.GridCoveredEvenly` | src/c/mock_camera.c:161-182 | any rows*cols consecutive frames show every cell exactly as often as a frame has sites |
| `Band.CoveredEvenlyIff` | src/c/mock_camera.c:161-182 | exactly the geometries whose frames cover the grid evenly: rows*cols + n <= 2^32 + 1, n being the sites of a frame; otherwise cell 0 is shown too often in every full round |
| `MockModel.PeriodOf` | src/c/mock_camera.c:70-76 | the period is the rate's, cut to whole nanoseconds, and is zero exactly for rates beyond one per nanosecond |
| `MockCamera.MockCamera.Create` | src/c/mock_camera.c:58-79 | fails exactly for an empty grid or a rate without a positive period, and otherwise is a zeroed state with that period |
| `MockCamera.MockCamera.Init` | src/c/mock_camera.c:102-114 | the first deadline is one period from now and the counter restarts |
| `MockCamera.MockCamera.Acquire` | src/c/mock_camera.c:137-183 | fills the frame with the specified band, stamp and sequence and advances the deadline and the counter |
| `Webcam.Webcam.Acquire` | src/c/v4l2_webcam.c:442-519 | each of poll's and the driver's answers has its return code; a dequeued image fills the frame with exactly its sites, the driver's stamp and its number |
| `Webcam.CapturedOnGrid` | src/c/v4l2_webcam.c:387-439 | whatever the image, a webcam's frame fits and its indices are below the site count |
| `Webcam.CapturedIs` | src/c/v4l2_webcam.c:387-509 | the frame an image fills: its listed sites in order as far as there is room, each as row * cols + col with its signal, under the driver's stamp and number |
| `Webcam.NeverEscapesIff` | src/c/v4l2_webcam.c:420-433 | exactly which geometries keep every value of every image in [0, 1]: those whose cells' all-white means are at most 255 |
| `Backends.FilledHealthy` | src/c/mock_camera.c:161-180 | either backend's frame has its indices below the backend's site count, and its values in [0, 1] if the backend is safe |
| `Camera.Camera.New` | src/c/camera.c:42-108 | over either backend: frame and scratch buffer are sized alike, the backend is started, and a mock whose start failed has been stopped |
| `Camera.Camera.Tick` | src/c/camera.c:135-175 | over either backend: an acquire's timeout or failure is passed on, an acquired frame is published as exactly its encoding, sent and dropped are counted, and scratch never falls short |
| `Tiling.Tiles` | src/c/v4l2_webcam.c:396-404 | pixel p lies in band k exactly when k = ((p+1)*cells - 1) / extent |
| `Tiling.NearlyEven` | src/c/v4l2_webcam.c:396-404 | every band has the floor or the ceiling of extent/cells pixels |
| `Tiling.NoCellEmpty` | src/c/v4l2_webcam.c:396-404 | no band is empty when there are no more cells than pixels |
| `BlockMeans.ThresholdIsExact` | src/c/v4l2_webcam.c:420-425 | up to 65793 pixels the float threshold test is the exact test sum > thr * n |
| `BlockMeans.SignalInRange` | src/c/v4l2_webcam.c:420-433 | up to 65793 pixels the emitted signal is in [0, 1] |
| `BlockMeans.LargeBlockEscapes` | src/c/v4l2_webcam.c:420-433 | an all-white block of 65797 pixels is emitted with a signal above 1 |
| `BlockMeans.SafeIffWhiteIsWhite` | src/c/v4l2_webcam.c:420-433 | exactly which block sizes keep every signal in [0, 1]: those whose all-white mean is at most 255 |
| `BlockMeans.PassesIffShown` | src/c/v4l2_webcam.c:420-433 | for a block of any size: it passes with a signal exactly when sum, count, their quotient and that over 255, each rounded to the nearest float, give a mean above the threshold and that signal |
| `BlockMeans.SignalWithin` | src/c/v4l2_webcam.c:420-433 | up to 65793 pixels the signal is the exact mean over 255 to within 2^-23 |
| `Binary32.RoundIsNearest` | src/c/v4l2_webcam.c:420-433 | the rounding used for those float operations is to the nearest value, ties to even |
| `Binary32.NearestIsRound` | src/c/v4l2_webcam.c:420-433 | and nothing else is: the nearest finite pattern, the even one of two, is unique |
| `Yuyv.YuyvToSparse` | src/c/v4l2_webcam.c:387-439 | the output is exactly the first min(capacity, total) passing cells in row-major order |
| `Yuyv.ListedIffShown` | src/c/v4l2_webcam.c:391-435 | which sites are listed, of images and grids of any size: the block r*height/rows .. (r+1)*height/rows by c*width/cols .. (c+1)*width/cols is not empty and is shown with that signal |
| `Yuyv.ListedSignal` | src/c/v4l2_webcam.c:420-433 | a listed cell of at most 65793 pixels carries its exact mean luminance over 255 to within 2^-23 |
| `Yuyv.OnePixel` | src/c/v4l2_webcam.c:406-414 | a block of one pixel sums to the byte at 2*(y*width+x) |
| `Yuyv.CutsAddUp` | src/c/v4l2_webcam.c:406-414 | and a block cut in two, down or across, to the sums of its parts |
| `Yuyv.PixelCell` | src/c/v4l2_webcam.c:393-404 | every pixel is in exactly one cell, row ((y+1)*rows-1)/height and column ((x+1)*cols-1)/width |
| `Yuyv.ListedIffBright` | src/c/v4l2_webcam.c:406-435 | on exact blocks a cell is listed exactly when its exact mean exceeds the threshold, with a signal in [0, 1] |
| `Yuyv.SupportIncreases` | src/c/v4l2_webcam.c:432-434 | support indices strictly increase and stay below rows*cols |
| `Yuyv.NeverTruncated` | src/c/v4l2_webcam.c:114-122 | with room for v4l2_max_sites nothing is turned away |
| `Yuyv.PixelInside` | src/c/v4l2_webcam.c:409-414 | every read is in bounds, at 2*(y*width+x) |
| `Yuyv.LuminanceConserved` | src/c/v4l2_webcam.c:396-414 | the cell sums add up to the luminance of the whole image |
| `Yuyv.AreaConserved` | src/c/v4l2_webcam.c:396-414 | the cell areas add up to height * width |
| `PipelineInvariant.Step` | src/c/smoke.c:237-572 | every step of threads, queues and drain loop keeps the run's invariant: accounting, queues that are the tail of what was sent, healthy logs, a sink in the state its trace says |
| `PipelineInvariant.Reachable` | src/c/smoke.c:516-572 | so every state of every run has it |
| `PipelineLaws.RunsAreSafe` | src/c/smoke.c:237-572 | any mix of up to sixteen cameras, any interleaving: bad_parse, bad_index and unexpected cameras are 0 in every reachable state; bad_value too if the webcams' blocks are of safe sizes, backwards if there are no webcams |
| `PipelineLaws.MockRunsAreSafe` | src/c/smoke.c:237-572 | with synthetic cameras only all five are 0 in every reachable state |
| `PipelineLaws.StampsPaced` | src/c/mock_camera.c:145-159 | in every reachable state two frames a synthetic camera sent are stamped further apart than the whole periods between their acquires, refused ones included |
| `PipelineLaws.SentIsValidatedPlusQueued` | src/c/camera.c:163-174 | for every camera, with a slot or without: sent = frames validated + frames queued, and every counted tick sent, dropped or timed out |
| `PipelineLaws.SequenceCountsSends` | src/c/mock_camera.c:180-182 | the sequence counter is sent + dropped, plus one only after a send that failed outright |
| `PipelineLaws.LossesAreRefusals` | src/c/sink.c:214-221 | a synthetic camera's share of the lost frames is exactly what was refused between its first and last received frame, and it shows no gap exactly when that is nothing |
| `PipelineLaws.LossesAddUp` | src/c/sink.c:214-221 | the sink's own seq_lost is the sum of those refusals over all cameras, and its seq_gaps is 0 exactly when there are none |
| `PipelineLaws.MockVerdict` | src/c/sink.c:387-392 | an all-synthetic run passes exactly when something arrived and nothing was refused within what any camera delivered |
| `PipelineExits.CountExitIsConclusive` | src/c/smoke.c:549-551 | leaving by count means every camera sent exactly what was asked, dropped nothing, never timed out and has nothing queued |
| `PipelineExits.CountExitPasses` | src/c/smoke.c:549-551 | and with synthetic cameras only the report is PASS |
| `DrainLoop.EnoughIsNoticed` | src/c/smoke.c:549-551 | in every reachable state in which everything asked for has arrived the loop is at its count check or has ended |
| `CountExit.CountExitHappens` | src/c/smoke.c:516-572 | any synthetic cameras, asked for any number of frames their clocks last for, have a run that ends by count |
| `DrainLoop.TurnWithMessage` | src/c/smoke.c:538-570 | from every reachable poll, whichever camera's message it brings, the main thread alone ends the turn by count, quietly or at the next poll, exactly as received, attempts and quiet polls say |
| `DrainLoop.TurnInVain` | src/c/smoke.c:538-570 | and so does a poll that brings nothing, with one more quiet poll |
| `DrainLoop.EndsExplained` | src/c/smoke.c:516-572 | in every reachable state: the stop flag is up exactly after an interrupt, a thread that failed to start or the loop's end; the sink and the deadline end it exactly when a receive failed or the deadline passed; every camera runs unless one failed to start |
| `DrainLoop.LoopNeverStuck` | src/c/smoke.c:538-570 | the main thread has a step to take exactly until the loop has ended |
| `DrainLoop.StopIsFinal` | src/c/smoke.c:241-248 | once a stop is up a camera at most finishes the tick it is in |
| `DrainLoop.ExitIsFinal` | src/c/smoke.c:572-585 | once the loop has ended neither the sink nor what it received changes |
| `DrainLoop.ThreadEnds` | src/c/smoke.c:241-253 | a camera counts as failed exactly if one of its own acquires or sends failed, and leaves otherwise only after a stop or with all its attempts made |
| `DrainLoop.ReturnsZeroIff` | src/c/smoke.c:585-592 | smoke returns 0 over synthetic cameras exactly when no deadline passed, something arrived and nothing was refused within what any camera delivered |
| `PipelineExits.QuietExitMeansFinished` | src/c/smoke.c:553-563 | leaving quietly means every camera never started, failed, or made all its attempts |
| `PipelineExits.QuietExitSawTwo` | src/c/smoke.c:545-563 | and that the sink was polled in vain at least twice in a row |
| `PipelineExits.QuietExitCanStrand` | src/c/smoke.c:553-563 | but a run exists that leaves quietly with a message still queued |
| `PipelineExits.QuietExitStrandsIff` | src/c/smoke.c:545-563 | if polls find nothing only when nothing is queued, leaving quietly leaves something of a camera behind exactly when it sent after the last poll in vain |
| `PipelineExits.NothingQueuedIff` | src/c/smoke.c:580-585 | in any state nothing is queued exactly when the received counter equals the sum of the sent counters |
| `CameraThread.CameraLoop.CamRun` | src/c/smoke.c:237-254 | the loop over a real camera ends where its specification says, with the same counters and the same messages queued |
| `CameraThread.LoopHappens` | src/c/smoke.c:237-254 | whatever the loop does can happen in any run that has come to its guard, by that thread's own steps and the stop it saw |
| `CameraThread.LoopEnds` | src/c/smoke.c:237-254 | the loop goes round exactly while no stop is seen and attempts are left, one frame sent, dropped or timed out each time, and leaves early only where a tick fails |
| `IniText.StripCommentAt` | src/c/ini.c:76-84 | cuts the C string at its first comment character, in place |
| `IniText.TrimAt` | src/c/ini.c:55-69 | trims in place and touches only the string's own cells |
| `IniText.FindAt` | src/c/ini.c:150-183 | where the character is in the string, or that it is not there |
| `Ini.Fgets` | src/c/ini.c:129-132 | takes one line or 511 characters, whichever ends first, and terminates it |
| `Ini.ReadLine` | src/c/ini.c:132-192 | the buffer is taken apart into exactly the line the specification classifies |
| `Ini.Load` | src/c/ini.c:103-231 | the loaded table, or the line number and kind of the failure, is the specification's |
| `IniForms.LineForms` | src/c/ini.c:132-192 | exactly what a line is, character by character: blank, a header up to its first bracket, an assignment cut at its first equals sign, or broken in one of four ways |
| `IniForms.LinesIff` | src/c/ini.c:129-192 | exactly which lines a text has: each through its newline or 511 characters, up to a NUL, in that form |
| `Ini.Ini.FindSection` | src/c/ini.c:87-100 | the first section of that name, or none |
| `Ini.Ini.OpenSection` | src/c/ini.c:159-178 | a section is appended, or refused as too long, duplicate or one too many, in that order |
| `Ini.Ini.AddPair` | src/c/ini.c:193-222 | a pair is appended to the section opened last, or refused, with the code's order of checks |
| `Ini.Ini.Lookup` | src/c/ini.c:262-277 | the value of the first matching key, or none |
| `Ini.Ini.Check` | src/c/ini.c:382-407 | all keys allowed, or the first that is not |
| `IniLaws.AcceptedIff` | src/c/ini.c:129-222 | a file loads exactly when every line is acceptable given the lines before it |
| `IniLaws.FirstFault` | src/c/ini.c:129-222 | a failure names the first line that is not, and the first of the code's checks it fails |
| `IniLaws.BuildRepresents` | src/c/ini.c:129-222 | the loaded table is the headers in order, each with the assignments said under it, in order |
| `IniLaws.LookupIsText` | src/c/ini.c:262-277 | a lookup yields a value exactly when exactly one assignment line under that header says so, and that line says this value |
| `IniLaws.CheckIs` | src/c/ini.c:382-407 | a key check says that there is no such section, names the first key that is not allowed, or passes, each exactly when that is so |
| `IniRoundTrip.LoadedIsWellFormed` | src/c/ini.c:129-222 | accepted tables have unique trimmed names and keys and respect every limit |
| `IniRoundTrip.RenderParses` | src/c/ini.c:129-222 | every well-formed table written in normal form loads back as itself |
| `IniRoundTrip.ParseRenderParse` | src/c/ini.c:129-222 | parsing, writing and parsing again is parsing |
| `BackendConfig.CreateMock` | src/c/smoke.c:89-131 | the synthetic backend a section describes, or none, with the code's checks |
| `BackendConfig.CreateWebcam` | src/c/smoke.c:138-193 | the webcam a section describes, or none, with the code's checks |
| `BackendConfig.MadeProper` | src/c/smoke.c:89-193 | what a section makes has cells in its grid; a mock has sites, a positive period and a zero counter; and its kind is the one named |
| `BuildLaws.BooleanWords` | src/c/ini.c:349-378 | exactly which words are booleans, in any case |
| `BuildLaws.MockFromIniIff` | src/c/smoke.c:89-131 | exactly which synthetic camera a section describes: its keys, each with its default, a grid with cells, sites, and a positive rate whose period is the whole nanoseconds |
| `BuildLaws.WebcamFromIniIff` | src/c/smoke.c:138-193 | exactly which webcam a section describes: its keys, each with its default, both sizes with no empty side, a threshold of at most 255 and two buffers or more |
| `BuildLaws.BuildSucceedsIff` | src/c/smoke.c:326-429 | exactly which configurations build: switches that read, at most sixteen wanted sections with distinct ids, each with a known backend of 1 to 2^32 - 1 sites, an id and a rate that parse and a camera that comes up |
| `BuildLaws.FailureLeaves` | src/c/smoke.c:393-415 | what a section whose camera cannot be had leaves behind: its backend in the next slot, no camera and no spec |
| `RigModel.ExpectedPeriod` | src/c/smoke.c:417-421 | period times rate is one second in milliseconds, and no rate means no cadence check |
| `RigLaws.BuiltAgrees` | src/c/smoke.c:326-429 | a successful build has at most sixteen cameras with distinct ids, and for each the started backend's site count = the frame's capacity = the spec's bound, neither zero nor past 32 bits |
| `RigLaws.EverySectionBuilt` | src/c/smoke.c:335-350 | it has one camera per enabled camera section, in file order, with the backend that section describes, its id and its rate |
| `RigLaws.EverythingReleasedOnce` | src/c/smoke.c:260-273 | on every path each backend created is destroyed once, each camera deleted once after its backend was stopped, and nothing happens to a destroyed backend |
| `Rig.CameraTable.BuildCameras` | src/c/smoke.c:326-429 | the tables hold what the specification builds, complete or not, and the return value says which |
| `Rig.CameraTable.Release` | src/c/smoke.c:260-273 | releases each slot's camera before its backend and clears the slot |
| `Rig.CameraTable.Lifetime` | src/c/smoke.c:486-590 | build and release together leave nothing released twice or never |
| `Configured.BuiltRunIsInitial` | src/c/smoke.c:486-528 | the run main starts over a successful build, producer by producer from its slots, is one the pipeline's theorems are about |
| `Configured.MockConfigurationsPass` | src/c/smoke.c:432-593 | a configuration of synthetic cameras that builds never makes the sink count a fault other than a gap, and passes if it leaves by count |
| `Configured.QueuedFitsTheDecoder` | src/c/sink.c:93-108 | after sink_expect no message a configured camera can have queued needs the capacity retry |

## Left out

- Sockets, polling, contexts and high-water marks: replaced by one queue per camera, a send that may be refused and a receive that may find nothing.
- The webcam's driver (open, ioctl, mmap, streaming): opening grants some image size or fails, and each acquire is given poll's and the driver's answers, an image among them.
- Logging, verbose printing and the report's formatting: only the counters and the verdict are kept.
- Number and grid scanning by the C library: parameters of the build (`BackendConfig.Numbers`). Whether a camera comes up over its backend, when, and with which image size, is a parameter too (`RigModel.World`).
- Running out of memory, and with it a second failed `realloc` in `frame_reserve` (src/c/frame.c:68-71), after which the frame is not usable.
- Signal handling and the wall clock: an interrupt may come at any step, and a deadline, if there is one, may pass at the end of any turn of the drain loop.
- The [sink] section's settings (src/c/smoke.c:289-320): tolerance, frames per camera and whether there is a deadline are parameters of a run.
- The drain loop and the threads as running code side by side: they are steps of `Pipeline`; only the thread's loop is also a method, over a list of what the world shows it.
- Rounding of the sink's interval and jitter arithmetic: intervals are exact nanoseconds and periods exact reals. Jitter is counted but never judged, as in the code.
- Overflow of `t_ns` differences and of the nanosecond clock, and wrap-around of the message counters after 2^64 messages; seq_lost and the sequence counter do wrap.
- The order of allocation and the identity of handles: a camera and its backend are known by the slot that owns them.
- A section's array of pairs is a sequence kept at sixteen, replaced as a whole when a pair is added.
- Text before the first section: src/c/ini.h:7 says it is ignored, the code rejects a key there (src/c/ini.c:193-197), and the model follows the code.
- Getters, null-argument guards and `ini_get_bool`'s error text.
- ThresholdIsExact: stated up to 65793 pixels a block; beyond, the pixel sum itself may round and the float test is not tied to the exact mean.
- YuyvToSparse: asks for rows*cols below 2^32, which src/c/smoke.c:399 guarantees, and for an image buffer below 2^32 bytes, the width of a driver buffer's length.
- LossesAreRefusals: and LossesAddUp and MockVerdict ask that no camera has acquired more than 2^64 frames, past which equal sequence numbers recur.
- CoveredEvenlyIff: and GridCoveredEvenly ask that the sequence counter does not wrap within the round of frames.
- NeverEscapesIff: asks that an image of that size fits a driver buffer, whose length is 32 bits wide.
- QuietExitStrandsIff: asks that a poll finds nothing only when nothing is queued; a message still on its way between processes breaks that, and QuietExitCanStrand needs no such thing.
- CountExitHappens: asks for synthetic cameras whose next deadlines, for as many frames as asked for, fit the 64-bit clock.
- ListedSignal: and SignalWithin are stated up to 65793 pixels a block, where the pixel sum is exact; PassesIffShown and ListedIffShown hold for any size.
- CamRun: models the loop for as long as a given list of rounds lasts, each with the stop flag, wake time and send outcome it meets.
