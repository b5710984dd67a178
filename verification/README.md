# K4 radio client: verification model

This project models the byte-level, concurrent and index-arithmetic core of the K4 radio client and proves
properties of the model for all inputs, all interleavings and all runs. `dafny verify dfyconfig.toml` checks it.

| file | what it models |
|---|---|
| Basics.dfy | small functions that several parts share |
| FrameFormat.dfy, Protocol.dfy | the K4 frame format, the streaming parser over its buffer, the encoder |
| Words.dfy | 64-bit wrap-around arithmetic, bit operations, the power-of-two round-up |
| Spsc.dfy, RingBuffer.dfy | the single-producer single-consumer ring buffer: the concurrent protocol and the object |
| NrLms.dfy, LmsEnergy.dfy | the LMS noise filter and its circular delay line; where its energy goes over a whole stream |
| Decimal.dfy | decimal printing, zero padding, `snprintf` truncation, `strtoll` |
| RadioState.dfy | the radio state, its setters and notifications, and the CAT commands it obeys |
| CatServer.dfy | splitting a CAT client's stream, answering queries, the status report |
| CatMirror.dfy | CAT answers through the frame parser into another radio's state |
| UiMirror.dfy | the view model that mirrors the native state from queued refreshes |
| RadioToScreen.dfy | the composition of all of these: when what a radio answers is what the screen shows, after any earlier session |
| FrequencyText.dfy | the C++ and the Kotlin frequency formatter and the parser |
| Spectrum.dfy | bands, span tiers, pixel/frequency maps, centre clamping |
| Reconnect.dfy | the backoff policy, the reconnect loop, and the engine calls around it |

## How the model is built

* The parser object (`Protocol.FrameParser`) keeps its fields as in the code. A ghost field remembers every byte fed
  since the last reset, and the object invariant says that state, retained buffer and dispatched frames are those of
  parsing that whole stream at once. The meaning of a stream is given twice: by the parser's loop (`Resume`) and by a
  grammar of segments and tails (`Transcript`); every stream has a reading in the grammar and the two agree.
* The ring buffer's concurrency is a state machine over micro-steps (load own position, see a possibly old position
  of the other side, touch one slot, publish). Positions are 64-bit words that wrap; the histories of completed writes
  and reads are unbounded.
* The view model runs on one main thread, so its next step is determined; the interleaving is the choice, before each
  step, between a native setter (atomic with its notification) and the main thread.
* Floats and doubles are reals. Sums are taken in the code's order.
* Characters and bytes are 8-bit values; `size_t` is 64 bits wide.

## Where the code and its documents differ

* A payload of exactly the maximum frame size does not survive encoding and decoding, although design property 1
  includes it: the type byte counts towards the limit. `EncodeDecode` gives the exact condition, for a frame fed at
  once or cut in any way.
* The documented backoff doubles from the first to the second attempt; the code waits the initial delay twice.
  `DelayAsDocumented` says for which attempts the two agree, `SecondAttemptIsEarly` names the shipped counterexample.
* `clampCenter` does not keep the displayed range in the band when the band is narrower than the span (30 m with the
  default span, for one). `TouchStaysInBand` is an equivalence with "the span fits".
* A VFO number that is even and not 0 writes VFO A but is reported as VFO B. `NotificationNamesChange` and
  `OneSetterIsFollowed` give the exact conditions. Nothing in the program passes such a number: the only caller of
  these setters, `parseCatCommand`, passes 0 and 1.
* The Kotlin and C++ frequency formatters differ on every negative frequency: `KotlinFormatFrequency`.
* `VerdictReached` is about arbitrary policy states: a loop entered with its attempts used up would report nothing.
  `LossIsDecided` shows that the engine never gets there, so requirement 3.7 (an error after the attempts are used up)
  holds in every session.
* A read loop that ends by itself leaves its flag set, so the one to be started after a successful reconnect does not
  start: the state says CONNECTED, but nothing is received. The user's next successful connect repairs this. If the
  reconnection was given up instead, the user's next successful connect only reports CONNECTED, and it takes one more.
  `ReadingAfterLoss` proves it for every session, `ConnectReads` gives the exact condition.
* A connect while the radio is being read makes the stopped read loop start a reconnection of its own beside the new
  connection: `CallReady` shows that it is the only call that leaves the policy reconnecting under a read loop.
* The zero-stripping step of both frequency formatters never removes anything: both contracts give the grouped text
  unstripped.
* The IF answer numbers the mode as `mode + 1`, which is the number of the MD answer for LSB, USB and CW only:
  `StatusModeDiffers`.
* The LMS filter takes the delayed input as its desired signal, and the delayed input is one of its own taps. So it
  learns to cancel any signal, wanted or not: however long and loud the input, the energy of everything it ever outputs
  is at most (1 + mu * taps) / mu, about 122 full-scale samples at level 5 (`OutputDiesOut`, `SamplesDieOut`).
* Design property 4 (noise reduction does not raise the energy) holds for the LMS filter on everything since its last
  reset: `OutputBelowInput`, `NeverAmplifies`. For a later buffer taken alone it does not, because the output lags the
  input by half the filter: `EarlyBlock` says exactly when, up to the moment the filter starts to learn, with
  `SilenceCanSound` as its plainest case, and `LaterBlock` bounds the excess of any later block.

## Model

| member | source | states |
|---|---|---|
| FrameFormat.LengthRoundTrip | core/src/network/protocol.cpp:37-41 | reading back the four length bytes gives the length, for every 32-bit length |
| FrameFormat.LengthBytesRoundTrip | core/src/network/protocol.cpp:92-95 | the four bytes are the only encoding of the length read from them |
| FrameFormat.MarkerAfterGap | core/src/network/protocol.cpp:74-87 | a gap without a start marker cannot form one with the marker after it: the first marker is found exactly at the end of the gap |
| FrameFormat.SeekRest | core/src/network/protocol.cpp:76-82 | dropping all but the last three bytes while seeking changes nothing that any later bytes could reveal |
| FrameFormat.Resume | core/src/network/protocol.cpp:70-149 | the loop ends; what is retained is at most three bytes, or less than the expected payload; every dispatched payload is below the size limit |
| FrameFormat.ResumeSplit | core/src/network/protocol.cpp:58-149 | from any parser state, feeding two pieces one after the other equals feeding their concatenation: same state, buffer and frames |
| FrameFormat.ChunkingUnobservable | core/src/network/protocol.cpp:58-68 | any sequence of feeds that does not overflow equals one feed of the concatenation |
| FrameFormat.SmallChunksNeverOverflow | core/src/network/tcp_client.cpp:274-295 | chunks of at most the frame limit plus one (so the socket's 8192-byte reads) never trigger the overflow reset, in any run |
| FrameFormat.SafeChunkSizeIsTight | core/src/network/protocol.cpp:58-65 | the frame limit plus one is the largest chunk size that is safe in every state |
| FrameFormat.Parses | core/src/network/protocol.cpp:70-149 | a stream that reads as segments and a tail yields exactly their frames and leaves the parser where the tail says |
| FrameFormat.Explain | core/src/network/protocol.cpp:70-149 | every byte stream reads as segments and a tail |
| FrameFormat.ShortStreamNeverOverflows | core/src/network/protocol.cpp:58-65 | nor does any cutting of a stream that fits the buffer limit |
| FrameFormat.StreamMeaning | core/src/network/protocol.cpp:58-149 | in any chunking that does not overflow the buffer, the frames dispatched are a given list if and only if the stream has a reading with that list |
| FrameFormat.NoisyRoundTrip | core/src/network/protocol.cpp:70-164 | frames come out once each and in order whatever marker-free garbage lies between them, whatever the trailers hold, however payloads look, in any chunking that does not overflow the buffer |
| FrameFormat.BadHeaderRecovery | core/src/network/protocol.cpp:89-107 | after a length of 0 or above the limit, exactly the frames of the remaining bytes are dispatched |
| FrameFormat.EncodeDecode | core/src/network/protocol.cpp:27-51 | an encoded frame, however its bytes are cut, comes back as the only frame exactly when type byte and data fit the limit |
| FrameFormat.EncodeDecodeAtOnce | core/src/network/protocol.cpp:27-68 | the same for the whole frame in one feed, for every payload |
| FrameFormat.EncodedOnTheWire | core/src/network/protocol.cpp:27-51 | the encoder's bytes are exactly FE FD FC FB, the length of type byte and data in four bytes most significant first, the type byte, the data, and four zeros |
| FrameFormat.WireDelivers | core/src/network/protocol.cpp:70-149 | any bytes of that shape, whatever the trailer and however they are cut, make a fresh parser dispatch exactly that frame if and only if the data is shorter than 1048576 bytes |
| FrameFormat.WireRejects | core/src/network/protocol.cpp:89-107 | after FE FD FC FB and a length of 0 or above 1048576, parsing resumes right behind the length |
| Protocol.FrameParser.constructor | core/src/network/protocol.h:83-87 | a fresh parser agrees with the empty stream |
| Protocol.FrameParser.Reset | core/src/network/protocol.cpp:19-25 | from any state the parser becomes a fresh one and forgets its stream, keeping what was dispatched |
| Protocol.FrameParser.FeedData | core/src/network/protocol.cpp:58-68 | the object stays equal to the parse of everything fed since the last reset; more than 2097152 buffered bytes reset it and dispatch nothing; chunks up to 1048577 bytes never do |
| Protocol.FrameParser.ProcessBuffer | core/src/network/protocol.cpp:70-149 | the loop terminates and leaves the state, buffer and dispatches that the pure parse of the buffer gives |
| Protocol.FrameParser.Advance | core/src/network/protocol.cpp:72-147 | one pass of the switch |
| Protocol.FrameParser.FindStartMarker | core/src/network/protocol.cpp:151-164 | finds the first FE FD FC FB, and fails only when there is none |
| Protocol.Encode | core/src/network/protocol.cpp:27-51 | the bytes of the frame, with the length as a 32-bit word; below 2^32 they are those of EncodedOnTheWire |
| Protocol.ReadLoop | core/src/network/tcp_client.cpp:274-295 | feeding the socket's reads one after the other dispatches what their concatenation holds; one frame on the wire gives exactly that frame |
| CatMirror.CatCommandRoundTrip | core/src/network/protocol.cpp:53-56 | a CAT command arrives as a frame of type 1 with the text it was sent with, however its bytes are cut, exactly when it is below the limit |
| Words.RoundUpMeaning | core/src/audio/ring_buffer.cpp:12-24 | for 1..2^63 the bit smearing gives the least power of two not below the argument; for every other word it wraps to 0 |
| Words.NextPowerOf2 | core/src/audio/ring_buffer.cpp:12-24 | the method with its six smearing steps computes that value |
| Words.SmearDoubles | core/src/audio/ring_buffer.cpp:14-21 | after the steps, a bit is set exactly when one of the next 2^steps bits of the argument was |
| Words.MaskIgnoresWrap | core/src/audio/ring_buffer.cpp:39-40 | masking a wrapped position selects the slot of the unbounded position modulo the capacity, across the wrap |
| Words.WrappedDistance | core/src/audio/ring_buffer.cpp:36 | the wrapping difference of two positions is their true distance |
| Spsc.StepPreserves | core/src/audio/ring_buffer.cpp:32-60 | every micro-step of producer and consumer keeps the invariant on counters, slots and both threads' progress |
| Spsc.SeeReadPreserves | core/src/audio/ring_buffer.cpp:33-37 | from a possibly old read position the producer claims exactly min(count, capacity minus the fill level it sees) |
| Spsc.SeeWritePreserves | core/src/audio/ring_buffer.cpp:48-52 | from a possibly old write position the consumer claims exactly min(limit, the fill level it sees) |
| Spsc.FifoSafety | core/src/audio/ring_buffer.cpp:32-60 | under every interleaving, what was read followed by the unread slots is exactly what was written, and the wrapping difference is the true fill level within the capacity |
| Spsc.RunMatchesBooks | core/src/audio/ring_buffer.cpp:32-60 | under every interleaving, computed from the events alone: the completed writes have delivered exactly the blocks that found room, the completed reads exactly the oldest samples of these, and both positions count them modulo 2^64 |
| Spsc.WriteCompletes | core/src/audio/ring_buffer.cpp:32-45 | from every reachable state an idle producer can complete a write, whatever position of the reader it sees, and delivers as many samples as that leaves room for |
| Spsc.ReadCompletes | core/src/audio/ring_buffer.cpp:47-60 | likewise an idle consumer can complete a read and returns the oldest samples |
| Spsc.NoDataRace | core/src/audio/ring_buffer.cpp:39-41 | under every interleaving, no slot the producer has yet to write is one the consumer has yet to read |
| RingBuffers.WindowPush | core/src/audio/ring_buffer.cpp:39-43 | storing behind a window that is not full appends one sample and overwrites none |
| RingBuffers.RingBuffer.constructor | core/src/audio/ring_buffer.cpp:26-30 | an empty buffer whose capacity is the least power of two that holds the request; for 0 and above 2^63 the capacity is 0 |
| RingBuffers.RingBuffer.Write | core/src/audio/ring_buffer.cpp:32-45 | appends exactly the first min(count, free) samples |
| RingBuffers.RingBuffer.Read | core/src/audio/ring_buffer.cpp:47-60 | takes exactly the oldest min(count, available) samples and touches nothing else of the caller's array |
| RingBuffers.RingBuffer.Available | core/src/audio/ring_buffer.cpp:62-66 | the number of unread samples |
| RingBuffers.RingBuffer.Space | core/src/audio/ring_buffer.cpp:68-70 | capacity minus the number of unread samples |
| RingBuffers.RingBuffer.Reset | core/src/audio/ring_buffer.cpp:72-75 | the contents become empty |
| NrLms.Filter.constructor | core/src/dsp/nr_lms.cpp:13-15 | a disabled filter at level 5 (72 taps, step size 0.02) with no history |
| NrLms.Filter.SetLevel | core/src/dsp/nr_lms.cpp:17-29 | 32 + 8 * level taps and step size 0.005 + 0.003 * level for the clamped level, with no history |
| NrLms.Filter.Reset | core/src/dsp/nr_lms.cpp:44-48 | no history, same parameters |
| NrLms.Filter.ProcessSample | core/src/dsp/nr_lms.cpp:50-81 | slot for slot the circular delay line holds the last inputs, and output and weights are those of the recursion on the whole history |
| NrLms.Filter.Process | core/src/dsp/nr_lms.cpp:31-42 | rewrites the block to what that recursion gives, each sample saturated or rounded towards 0 from its output, or nothing when disabled or the count is not positive |
| NrLms.BlockSplit | core/src/dsp/nr_lms.cpp:31-42 | processing a stream in two blocks gives the same samples as in one |
| NrLms.ConversionsLoseOneStep | core/src/dsp/nr_lms.cpp:35-40 | a sample that only passes both conversions loses exactly one step towards zero, and -32768 is never output |
| NrLms.SaturatesAndRounds | core/src/dsp/nr_lms.cpp:39-40 | a written sample is 32767 exactly for outputs of at least 1, -32767 exactly for outputs of at most -1, and in between 32767 times the output rounded towards 0 |
| NrLms.ConversionMonotone | core/src/dsp/nr_lms.cpp:39-40 | a smaller output never becomes a larger sample |
| NrLms.LearningContracts | core/src/dsp/nr_lms.cpp:61-74 | on inputs within [-1, 1], a learning step multiplies the error on its own input by a factor in (0, 1] |
| LmsEnergy.EnergyConserved | core/src/dsp/nr_lms.cpp:50-81 | for every stream, the residual output energy, the energy of the estimates and the energy stored in the weights make up the energy of the delayed input |
| LmsEnergy.DelayWeight | core/src/dsp/nr_lms.cpp:61-74 | the weight on the delayed input is the normalised correlation of output and delayed input |
| LmsEnergy.OutputBelowInput | core/src/dsp/nr_lms.cpp:50-81 | on inputs within [-1, 1], at every moment the output so far has no more energy than the input so far |
| LmsEnergy.OutputDiesOut | core/src/dsp/nr_lms.cpp:50-81 | on such inputs, the energy of the whole output is at most (1 + mu * taps) / mu, however long the stream |
| LmsEnergy.NeverAmplifies | core/src/dsp/nr_lms.cpp:31-42 | in 16-bit samples: what a freshly reset filter returns never has more energy than what it was given |
| LmsEnergy.SamplesDieOut | core/src/dsp/nr_lms.cpp:31-42 | in 16-bit samples: the bound on everything the filter ever returns |
| LmsEnergy.LaterBlock | core/src/dsp/nr_lms.cpp:31-42 | a later block exceeds its own input at most by what the earlier ones held back |
| LmsEnergy.EarlyBlock | core/src/dsp/nr_lms.cpp:60-80 | for any history and any block that end before the filter starts to learn: the block alone stays within its own energy exactly when it ends before the delay has passed, or has at least the energy of the very first sample less one step |
| LmsEnergy.SilenceCanSound | core/src/dsp/nr_lms.cpp:60-80 | half a filter length of silence after one sample comes out louder than it went in exactly when that sample is more than one step from 0 |
| NrLms.SilentStart | core/src/dsp/nr_lms.cpp:60-80 | for the first taps/2 inputs the weights stay zero and the output is 0; the next output is the first input unchanged |
| Decimal.ParsePadded | core/src/network/cat_server.cpp:195-199 | a zero-padded number of any sign and width reads back as itself |
| Decimal.ParseCut | core/src/network/cat_server.cpp:195-199 | a padded number cut by its buffer still reads as a number, but never as itself |
| Decimal.PaddedFits | core/src/network/cat_server.cpp:195-199 | the exact range of numbers whose padded text fits a given room |
| Decimal.DigitAt | core/src/network/cat_server.cpp:195-199 | every digit of a number's text is the one its place calls for |
| Decimal.PaddedDigits | core/src/network/cat_server.cpp:195-199 | a number that keeps to its width is printed in exactly that many digits, each the one of its place |
| Decimal.NegativePadded | core/src/network/cat_server.cpp:195-199 | a minus sign takes one place of the width |
| Decimal.ParsesExactlyNumbers | core/src/models/radio_state.cpp:344-390 | the library parser reads a text as v exactly when it begins, after blanks and an optional sign, with digits whose value is v and in range |
| RadioStates.Interpret | core/src/models/radio_state.cpp:330-392 | whatever the text, a command asks for at most one setter, with a listed mode and a VFO number of 0 or 1 |
| RadioStates.EveryCommand | core/src/models/radio_state.cpp:330-342 | every command of two or more characters is two letters and an argument, with or without a closing semicolon; a shorter one does nothing |
| RadioStates.FrequencyCommand | core/src/models/radio_state.cpp:344-355 | FA sets VFO A's frequency and FB VFO B's, exactly for arguments of at least eleven characters that parse as 64-bit numbers |
| RadioStates.ModeCommand | core/src/models/radio_state.cpp:356-373 | MD sets VFO A's mode for the eight K4 numbers, each to its mode, and does nothing otherwise |
| RadioStates.SmeterCommand | core/src/models/radio_state.cpp:374-382 | SM0 sets VFO A's S-meter and SM1 VFO B's, exactly when at least three more characters parse as a 32-bit number; any other VFO character does nothing |
| RadioStates.TransmitCommand | core/src/models/radio_state.cpp:383-390 | TQ sets PTT on for 1 and off for anything else but nothing; PC sets the power exactly for a 32-bit number |
| RadioStates.OtherCommand | core/src/models/radio_state.cpp:344-392 | any other two letters do nothing |
| RadioStates.SmeterDigits | core/src/models/radio_state.cpp:374-382 | on digits alone: which S-meter is set to which value, and when none is |
| RadioStates.FrequencyDigits | core/src/models/radio_state.cpp:344-355 | on digits alone: which frequency is set to which value, and when none is |
| RadioStates.OnlyTargetChanges | core/src/models/radio_state.cpp:80-168 | a setter leaves every field but its own alone |
| RadioStates.TargetIsSet | core/src/models/radio_state.cpp:80-168 | after a setter its field reads what was asked for |
| RadioStates.NotificationNamesChange | core/src/models/radio_state.cpp:80-132 | the one notification of a change names exactly the field that changed if and only if the VFO number is 0 or odd |
| RadioStates.CommandChangesOneField | core/src/models/radio_state.cpp:330-403 | any command string changes at most one field, notifies at most once, exactly when something changed, naming that field |
| RadioStates.RunStaysSane | core/src/models/radio_state.cpp:12-24 | in every run both modes stay in 0..7 and exactly one VFO is active |
| RadioStates.RadioState.constructor | core/src/models/radio_state.cpp:12-24 | the initial state, field by field |
| RadioStates.RadioState.SetFrequency | core/src/models/radio_state.cpp:80-87 | the new state, and a notification exactly on change |
| RadioStates.RadioState.SetMode | core/src/models/radio_state.cpp:89-96 | likewise |
| RadioStates.RadioState.SetSmeter | core/src/models/radio_state.cpp:98-105 | likewise |
| RadioStates.RadioState.SetTuningRate | core/src/models/radio_state.cpp:107-114 | likewise |
| RadioStates.RadioState.SetSubOn | core/src/models/radio_state.cpp:116-122 | likewise |
| RadioStates.RadioState.SetActiveVfo | core/src/models/radio_state.cpp:124-132 | likewise, both flags together |
| RadioStates.RadioState.SetPtt | core/src/models/radio_state.cpp:138-144 | likewise |
| RadioStates.RadioState.SetTune | core/src/models/radio_state.cpp:146-152 | likewise |
| RadioStates.RadioState.SetPower | core/src/models/radio_state.cpp:154-160 | likewise |
| RadioStates.RadioState.SetSwr | core/src/models/radio_state.cpp:162-168 | likewise |
| RadioStates.RadioState.ParseCatCommand | core/src/models/radio_state.cpp:330-392 | does exactly what the command asks for, or nothing |
| CatServer.ModeToK4 | core/src/network/cat_server.cpp:206-209 | the mode table is the inverse of the table the listener uses; other modes read back as LSB |
| CatServer.ModeTables | core/src/models/radio_state.cpp:361-372 | a K4 mode number is accepted exactly when it is in the server's table, and maps back to itself |
| CatServer.WhoAnswers | core/src/network/cat_server.cpp:183-250 | exactly the seven queries are answered locally, under their own name; anything else goes to the radio unchanged, or draws an error when it cannot be sent |
| CatServer.HearFrequency | core/src/network/cat_server.cpp:195-204 | the FA/FB answer sets the listener's frequency, to the same value exactly for -10^16 < f < 10^17 |
| CatServer.HearMode | core/src/network/cat_server.cpp:205-212 | the MD answer sets the same mode for 0..7, and LSB for any other |
| CatServer.HearSmeter | core/src/network/cat_server.cpp:213-217 | the SM answer sets the same S-meter exactly for -10^7 < s < 10^8 |
| CatServer.HearPower | core/src/network/cat_server.cpp:221-225 | the PC answer sets the same power exactly for -10^8 < w < 10^9 |
| CatServer.FrequencyAnswerText | core/src/network/cat_server.cpp:194-204 | the FA/FB answer is its two letters, eleven digits of the frequency and a semicolon |
| CatServer.SmeterAnswerText | core/src/network/cat_server.cpp:213-217 | the SM answer is SM0, four digits and a semicolon |
| CatServer.PowerAnswerText | core/src/network/cat_server.cpp:221-225 | the PC answer is PC, three digits and a semicolon |
| CatServer.ModeAnswerTexts | core/src/network/cat_server.cpp:205-212 | the nine MD answers, letter by letter |
| CatServer.StatusIsIgnored | core/src/network/cat_server.cpp:226-242 | a radio that hears an IF answer ignores it, whatever it says |
| CatServer.StatusFields | core/src/network/cat_server.cpp:226-242 | the report has 36 characters exactly when every value keeps to its width; then frequency and rate read back from their places, PTT and mode stand at theirs, and every other character is the fixed one |
| CatServer.StatusFrequency | core/src/network/cat_server.cpp:226-242 | whatever the other values, the frequency reads back from its place exactly when it keeps to its width |
| CatServer.StatusModeDiffers | core/src/network/cat_server.cpp:205-242 | the report's mode number is the one of the MD answer exactly for LSB, USB and CW; so is the character at its place in a report of the usual width |
| CatServer.SplitAppend | core/src/network/cat_server.cpp:152-158 | feeding more bytes is splitting the unfinished command with them |
| CatServer.SplitFirst | core/src/network/cat_server.cpp:156-158 | taking off the first command with a search agrees with splitting character by character |
| CatServer.SplitRejoins | core/src/network/cat_server.cpp:156-158 | the commands and the rest make up the stream; each command ends at its only semicolon |
| CatServer.SplittingIgnoresChunks | core/src/network/cat_server.cpp:144-177 | if no semicolon-free stretch exceeds 1024 characters, the commands and the rest are those of splitting the whole stream |
| CatServer.ChunksUnobservableExactly | core/src/network/cat_server.cpp:144-177 | for chunks as the socket delivers them (1 to 511 bytes), the chunk boundaries are unobservable if and only if no semicolon-free stretch exceeds 1024 characters |
| CatServer.ClientHandler.OnReceive | core/src/network/cat_server.cpp:148-177 | serves exactly the completed commands in order, each from the radio state of its moment: which are handed to the radio, which are answered with what, which draw which error; the rest is kept up to 1024 characters and dropped beyond |
| CatServer.ServedAsExpected | core/src/network/cat_server.cpp:160-170 | what becomes of one complete command, case by case |
| CatServer.ClientHandler.Dispatch | core/src/network/cat_server.cpp:154-171 | the inner loop serves every complete command, the too-long ones with an error |
| CatMirror.EndToEndMirror | core/src/engine/qk4_engine.cpp:477-484 | the framed answers to six queries, with any noise and trailers and any chunking that does not overflow the buffer, make any other radio agree on frequencies, mode, S-meter, PTT and power exactly when every value fits its answer |
| CatMirror.HearEach | core/src/models/radio_state.cpp:330-390 | value by value: what a listener holds after the six answers is the sender's value exactly when that value fits its answer |
| CatMirror.OnlyResponsesMatter | core/src/engine/qk4_engine.cpp:477-484 | frames of any type but 2 among the CAT responses leave the state alone |
| UiMirror.KeysRoute | android/app/src/main/java/com/qk4/android/viewmodel/RadioViewModel.kt:153-160 | the key of a mirrored setter refreshes the VFO it writes exactly when its number is 0 or odd; vfo.active refreshes VFO A |
| UiMirror.RouteMeaning | android/app/src/main/java/com/qk4/android/viewmodel/RadioViewModel.kt:153-160 | a key refreshes VFO A exactly if it begins with vfo.a, VFO B exactly if it begins with vfo.b, and otherwise nothing |
| UiMirror.NativePreserves | core/src/models/radio_state.cpp:80-105 | a setter between any two main-thread steps keeps the mirror invariant |
| UiMirror.MainPreserves | android/app/src/main/java/com/qk4/android/viewmodel/RadioViewModel.kt:162-174 | each separate read and the final replacement keep the mirror invariant |
| UiMirror.QuiescentConsistency | android/app/src/main/java/com/qk4/android/viewmodel/RadioViewModel.kt:122-174 | under every interleaving, a VFO with no refresh pending or in flight is mirrored; its mode is the native one when that is in 0..7 and USB otherwise |
| UiMirror.EventuallyMirrored | android/app/src/main/java/com/qk4/android/viewmodel/RadioViewModel.kt:122-174 | once the setters stop, the main thread finishes and both VFOs are mirrored |
| UiMirror.OneSetterIsFollowed | core/src/models/radio_state.cpp:80-105 | after any one setter on a settled screen, VFO B ends up mirrored, and VFO A exactly unless the setter wrote it under an even number other than 0 and changed what is shown |
| UiMirror.OtherVfoNumbersBreakTheMirror | core/src/models/radio_state.cpp:80-105 | from the start, a visible change of VFO A's frequency, mode or S-meter under an even number is mirrored exactly when the number is 0 |
| UiMirror.ViewModel.OnStateChanged | android/app/src/main/java/com/qk4/android/viewmodel/RadioViewModel.kt:122-127 | queues one refresh |
| UiMirror.ViewModel.RunNext | android/app/src/main/java/com/qk4/android/viewmodel/RadioViewModel.kt:124-126 | an uninterrupted refresh is the main thread's steps one after the other |
| UiMirror.ViewModel.RefreshState | android/app/src/main/java/com/qk4/android/viewmodel/RadioViewModel.kt:153-160 | which refresh a key causes |
| UiMirror.ViewModel.RefreshVfo | android/app/src/main/java/com/qk4/android/viewmodel/RadioViewModel.kt:162-174 | leaves the VFO mirrored and the other one alone |
| RadioToScreen.ScreenShowsTheRadio | core/src/engine/qk4_engine.cpp:62-82 | after any earlier session, from the bytes of the answers, through any noise and interleaving and any chunking that does not overflow the buffer, the caught-up screen shows the other radio's frequencies, mode and S-meter if and only if each of them fits its answer |
| FrequencyTexts.FrequencyRoundTrip | core/src/utils/radio_utils.cpp:62-118 | parsing the text of any 64-bit frequency gives it back (0 if negative); the text is one to three digits, then groups of exactly three |
| FrequencyTexts.FrequencyTextDigits | core/src/utils/radio_utils.cpp:62-99 | the digits of the text are those of the frequency, seven of them or as many as it needs, with one period for every three after the first group |
| FrequencyTexts.TextFrequencyMeaning | core/src/utils/radio_utils.cpp:101-118 | a text is a frequency exactly when it has only digits and periods, at least one digit, and a value of at most 2^63 - 1; it is then that value, otherwise -1 |
| FrequencyTexts.NoSuperfluousZero | core/src/utils/radio_utils.cpp:86-96 | the text has a period after its first group and never starts with a zero unless that is the whole group |
| FrequencyTexts.GroupedByLoop | core/src/utils/radio_utils.cpp:78-84 | the left-to-right loop puts periods exactly where grouping from the right does |
| FrequencyTexts.FormatFrequency | core/src/utils/radio_utils.cpp:62-99 | the C++ formatter gives that text |
| FrequencyTexts.KotlinFormatFrequency | android/app/src/main/java/com/qk4/android/data/RadioState.kt:114-132 | the Kotlin formatter gives its padded digits grouped, nothing stripped; the text is the C++ one if and only if the frequency is not negative |
| FrequencyTexts.KotlinKeepsText | android/app/src/main/java/com/qk4/android/data/RadioState.kt:124-130 | a grouped text starts with a zero only before its first period, so there is nothing to strip; a minus sign survives exactly for negative frequencies |
| FrequencyTexts.KotlinNegative | android/app/src/main/java/com/qk4/android/data/RadioState.kt:114-116 | what is grouped for a negative frequency is zeros up to the width, the minus sign and its digits |
| FrequencyTexts.ParseFrequency | core/src/utils/radio_utils.cpp:101-118 | the frequency in the text, -1 for any other character, no digits, or a value out of range |
| Spectrum.BandConsistency | core/src/utils/radio_utils.cpp:18-56 | a frequency gets a band's id exactly when it is within that band, -1 exactly when in none |
| Spectrum.BandTable | core/src/utils/radio_utils.cpp:18-41 | the eleven bands, edge by edge |
| Spectrum.FreqToBand | core/src/utils/radio_utils.cpp:43-50 | the search loop gives that id |
| Spectrum.SnapToSpanTier | core/src/utils/radio_utils.cpp:186-199 | the nearest tier, the lower of two equally near |
| Spectrum.SnapProperties | core/src/utils/radio_utils.cpp:186-199 | that tier is unique, a tier is its own, and a wider request never gets a narrower tier |
| Spectrum.TierTable | core/src/utils/radio_utils.cpp:172-186 | the sixteen tiers |
| Spectrum.SnapRange | core/src/utils/radio_utils.cpp:186-199 | the exact range of requests that snap to each tier, the middle between two belonging to the lower |
| Spectrum.PixelRoundTrip | core/src/utils/radio_utils.cpp:254-264 | pixel to frequency and back moves any pixel towards the left edge by at most ceil((width-1)/span) pixels, so by at most one when span >= width |
| Spectrum.FreqRoundTrip | core/src/utils/radio_utils.cpp:254-264 | frequency to pixel and back moves any frequency towards the left edge by at most ceil((span-1)/width) Hz |
| Spectrum.PixelMonotone | core/src/utils/radio_utils.cpp:254-258 | further right is never a lower frequency, for any two pixels; with a negative span never a higher one |
| Spectrum.FreqMonotone | core/src/utils/radio_utils.cpp:260-264 | a higher frequency is never further left, for any two frequencies; with a negative width never further right |
| Spectrum.TouchTolerance | core/src/utils/radio_utils.cpp:254-258 | a pixel's frequency is the exact linear one rounded to a Hertz towards the left edge, on the display or off it; the centre when there is no display |
| Spectrum.PixelTolerance | core/src/utils/radio_utils.cpp:260-264 | a frequency's pixel is the exact linear one rounded towards the left edge; the middle when there is no span |
| Spectrum.ClampIsNearest | core/src/utils/radio_utils.cpp:266-279 | the clamped centre is the nearest one that keeps the span within the bounds; if there is none, it is the middle |
| Spectrum.TouchStaysInBand | core/src/utils/radio_utils.cpp:254-279 | for a band, a tier and any requested centre, every touch on the clamped spectrum is in that band if and only if the tier fits the band |
| Reconnect.ReconnectPolicy.constructor | core/src/network/reconnect_policy.cpp:11-12 | an idle policy |
| Reconnect.ReconnectPolicy.OnDisconnected | core/src/network/reconnect_policy.cpp:14-19 | starts counting anew unless already reconnecting |
| Reconnect.ReconnectPolicy.OnAttemptFailed | core/src/network/reconnect_policy.cpp:25-28 | counts, and says whether attempts are left |
| Reconnect.ReconnectPolicy.Reset | core/src/network/reconnect_policy.cpp:41-44 | an idle policy |
| Reconnect.ReconnectPolicy.GetNextDelayMs | core/src/network/reconnect_policy.cpp:30-39 | the closed form of the delay at every counter, as long as doubling a negative delay stays within 64 bits |
| Reconnect.SoundDelay | core/src/network/reconnect_policy.cpp:30-39 | without negative delays, no counter overflows the 64-bit product and the delay is the capped backoff |
| Reconnect.DelayAsDocumented | core/src/network/reconnect_policy.h:5-7 | for every configuration, the exact condition under which the delay before an attempt is the documented one (doubling from the first attempt, capped) |
| Reconnect.SecondAttemptIsEarly | core/src/network/reconnect_policy.cpp:30-39 | the shipped configuration waits 1 s instead of 2 s before the second attempt |
| Reconnect.OnDisconnected | core/src/engine/qk4_engine.cpp:435-475 | for every outcome of the connects and any earlier policy state: the final state, the policy and the exact sequence of sleeps, resets, connects, reports and errors |
| Reconnect.VerdictReached | core/src/engine/qk4_engine.cpp:443-473 | from any policy state: unless it is shut down, the loop ends connected or disconnected exactly when attempts were left |
| Reconnect.SessionReady | core/src/engine/qk4_engine.cpp:106-145 | in every sequence of disconnects, lost connections, and connects made while nothing is read, a read loop only runs on a connection with the policy reset |
| Reconnect.CallReady | core/src/engine/qk4_engine.cpp:106-133 | of all calls, exactly a successful connect while a read loop runs breaks this |
| Reconnect.ConnectReads | core/src/network/tcp_client.cpp:50-115 | while nothing is read, a connect starts a read loop if and only if it succeeds and the client believes to be connected or has its loop flag clear |
| Reconnect.ReadingAfterLoss | core/src/network/tcp_client.cpp:50-126 | in every such session nothing is read after a lost connection; the next successful connect starts a read loop if and only if the loss ended connected, otherwise the one after it does |
| Reconnect.LossIsDecided | core/src/engine/qk4_engine.cpp:435-475 | in every such session and for every requested number of attempts, a lost connection is re-established, or given up after that number of connects (10 if it is not positive) with one DISCONNECTED, one error and the literal total wait |
| Reconnect.EngineConfig | core/src/qk4_api.cpp:47 | whatever is asked for, at least one attempt and no negative delay |
| Reconnect.EngineWait | core/src/engine/qk4_engine.cpp:46-51 | the limit is the number asked for or 10; n refused connects take 1000 * 2^(n-1) ms, from the eighth on a minute more each |
| Reconnect.Exhaustion | core/src/engine/qk4_engine.cpp:463-472 | when all connects are refused there are exactly the configured number of them, one DISCONNECTED directly followed by one error at the end, and the total wait |
| Reconnect.Success | core/src/engine/qk4_engine.cpp:455-461 | after k refusals and a success: k + 1 connects, the last directly followed by the one CONNECTED at the end, no error, the policy reset, and the total wait |
| Reconnect.AfterShutdown | core/src/engine/qk4_engine.cpp:443-447 | after k refusals and a shutdown: k connects, nothing connected or given up, the loop ends right after the wait |
| Reconnect.ConnectsArePrepared | core/src/engine/qk4_engine.cpp:444-453 | in every run each connect directly follows a wait and a reset of the frame parser |
| Reconnect.AttemptsCountUp | core/src/engine/qk4_engine.cpp:463-464 | the attempt numbers reported are 0, 1, 2, ... without gaps |
| Reconnect.TotalDelayClosed | core/src/network/reconnect_policy.cpp:30-39 | the total wait in closed form, as long as no delay loses bits in 32: the last backoff doubled, plus the cap for every later round |

## Left out

- Sockets, TLS, keepalive, threads, Opus, JNI, Compose UI, OpenGL, DataStore and the Android service: I/O and foreign code.
- Protocol.FrameParser.FeedData: a parser without a frame callback, which drops its frames, is not modelled; the engine always installs one.
- RingBuffers.RingBuffer.constructor: an allocation that fails.
- Spsc.FifoSafety: memory-model detail below stale positions; slot contents are sequentially consistent, and `reset`, which the header allows only when both sides are idle, is not a step.
- NrLms.Filter.ProcessSample: IEEE rounding.
- LmsEnergy.EarlyBlock: for blocks that end later no condition is given beyond the bound of LaterBlock.
- CatServer.StatusFields: where the rate, PTT and mode end up in a report with a wider value.
- CatServer.StatusModeDiffers: mode 2147483647, whose increment overflows 32 bits and is undefined in the source; the same holds for the other members about the report.
- Spectrum.PixelRoundTrip: IEEE rounding.
- Spectrum.SnapToSpanTier: 32-bit overflow of the difference for requests below -2147483648 + 500000.
- Reconnect.OnDisconnected: a user connecting or disconnecting while the reconnect thread runs; the loop runs alone. A negative delay whose doubling leaves 64 bits is undefined in the source and excluded.
- Reconnect.SessionReady: calls come one after the other, not concurrently; a connect while a read loop runs is not followed further, because the reconnect thread it starts would run beside the later calls.
- Reconnect.LossIsDecided: the same sessions only.
- Reconnect.ReadingAfterLoss: the same sessions only.
- UiMirror.QuiescentConsistency: the view model is created before the first native change; a later one starts from defaults.
- The spectrum, audio, NR, CW, KPA, connection and cluster setters, the spectrum and audio frame handlers, tuning-rate cycling, span stepping, S-meter text, band lookup by id and `parseFrequencyKhz`: they would only add easy members or floating point.
- NrSsnr: a trigonometric transform.
