# A verified model of the web and inference server

The repository is an epoll-based C++ network library (reactor, buffers, connections, timers,
asynchronous log), an HTTP server on top of it, and an inference service (model registry, bounded
scheduler, YOLOv8 pre- and post-processing, metrics). This project models the parts whose behaviour
is hardest to see from the code and proves what they are for.

Code that changes state is a class whose methods are proved against functions of the old state; what
the source promises is then proved about those functions for every input, every run and every
interleaving. Threads are modelled by their atomic steps: one step per critical section, or per
stretch of code that touches a thread's own data only. What the kernel, the clock or a library
answers is a parameter or a nondeterministic choice.

| file | part of the system |
|---|---|
| Text, Numerals | searching, trimming, line breaks; decimal text and `strtoull` |
| Buffer | the growing and compacting byte buffer as a queue |
| HttpRequest, HttpParsing, HttpContext | the request, the parser as a function, the parser as the object |
| HttpLocality, HttpServer, HttpFragments | resumption, the message loop, independence from TCP fragmentation |
| HttpPrinting, Multipart | print/parse round trips for pipelines and uploads |
| FormGrammar, HttpVerdicts | exactly which bodies and which streams are accepted, refused or waited on, and the answers |
| ModelRegistry, Scheduler | backend routing; the bounded scheduler over all interleavings |
| EventLoop, Poller, TcpConnection | the reactor: functor queue, epoll registration, output stream and half-close |
| Utf, UtfReplacement | the UTF-8/16/32 codec; what malformed input becomes |
| Letterbox, Sampling | image scaling and box geometry; where the samples lie |
| Detections, Overlap | decoding and non-maximum suppression; what intersection over union counts |
| AsyncLogging, LogStream | the log hand-off; integers formatted in place |
| TimerQueue, Metrics | timers; Prometheus counters, histograms and labels |

Where a promised property does not hold for all inputs, the exact condition is proved:

- Fragmentation independence holds if and only if no request that the parser can produce is taken on
  asynchronously with reading left on (`HttpFragments.FragmentationIndependence`): such a request ends
  one call of `onMessage`, the next read continues behind it, so two requests in one read are not
  treated like the same two in separate reads (`HttpPrinting.HoldingDependsOnTheCut` shows it on two
  copies of one request). The asynchronous handler of the repository turns reading off
  (src/api/InferenceController.cc:245) and is not affected.
- A `Content-Length` lets a body through if and only if it is absent or empty, or spells a number up
  to 10 MiB behind optional white space and plus sign, or is a minus sign in front of zero or of a
  number within 10 MiB of 2^64, which `strtoull` wraps around; text behind a NUL is not looked at
  (`HttpParsing.LengthWithinLimit`). "-18446744073709551615" asks for a body of one byte
  (`HttpParsing.NegativeLength`).
- The bytes written to a connection followed by its output buffer are the accepted messages if and
  only if no step of the run is a send of a non-empty message that meets EPIPE or ECONNRESET while
  connected, with nothing buffered and no write interest (`TcpConnections.EveryRun`).
- UTF-8 and UTF-16 conversions return their input if and only if it is well-formed. A high surrogate
  without its partner becomes U+FFFD and swallows the unit behind it (`UtfReplacements.Encode16Meaning`).
- Every interest change that leaves a channel without interest, not only `disableAll`, puts its fd
  into the kernel's set with an empty mask if and only if it was not registered before
  (`Pollers.NoInterestTogglesTheFd`).
- A log record is kept if and only if it is shorter than a buffer; `FixedBuffer::append` drops the
  others silently (`AsyncLogs.NothingDropped`).
- The timer descriptor is armed after it fired if and only if something was due and something is
  left. If it fires before any timer is due, it stays disarmed although timers are waiting
  (`TimerQueues.TimerQueue.HandleRead`). A repeating timer is due again later than now if and only if
  its interval is a microsecond or more (`TimerQueues.RestartedLater`).
- A sample is taken at the nearest place inside the image if and only if it does not fall in front of
  the first pixel centre. It does in the first rows and columns of an enlarged image, for `2 * y + 1`
  less than the scale: the neighbours are clamped but the fraction is not, so the first two pixels are
  mixed as if the sample lay one pixel further on (`Samplings.FirstRowsAreOff`; `Samplings.AffineSample`
  has both directions).
- A byte that breaks off a UTF-8 character is swallowed with it, even where it starts the next one
  (`UtfReplacements.MalformedMeaning`).
- An image is scaled to no pixels at all if and only if one side is more than 1280 times the other
  (`Letterboxes.Vanishes`).

## Model

| member | source | states |
|---|---|---|
| Buffers.Buffer.Retrieve | src/muduo_core/Buffer.h:48-65 | drops the oldest bytes; asking for too many empties the buffer |
| Buffers.Buffer.RetrieveUntil | src/muduo_core/Buffer.h:43-46 | drops exactly the bytes before a position |
| Buffers.Buffer.RetrieveAsString | src/muduo_core/Buffer.h:72-78 | what is handed out followed by what stays is what was there |
| Buffers.Buffer.MakeSpace | src/muduo_core/Buffer.h:143-158 | growth and the overlapping slide both keep the contents and make enough room; it slides exactly if the bytes already read make room |
| Buffers.Buffer.EnsureWritableBytes | src/muduo_core/Buffer.h:81-88 | room for the request, same contents |
| Buffers.Buffer.Append | src/muduo_core/Buffer.h:91-102 | contents extended by exactly the text |
| Buffers.Buffer.ReadFd | src/muduo_core/Buffer.cc:15-46 | a scatter read of any size up to the tail plus the spill area extends the contents by the bytes delivered, a failed one changes nothing |
| Buffers.Buffer.FindCRLF | src/muduo_core/Buffer.h:115-122 | a line break stands at the position returned and nowhere before it; none anywhere if nothing is returned |
| Buffers.Buffer.Search | src/muduo_core/Buffer.h:115-122 | the scan over the stored bytes finds what the search on the queue finds |
| Buffers.CopyDown | src/muduo_core/Buffer.h:150-156 | the upward copy onto an overlapping lower range moves the bytes intact |
| Buffers.Pour | src/muduo_core/Buffer.cc:15-46 | bytes of any number arrive whole through scatter reads that fill the tail and spill over |
| Buffers.Replay | src/muduo_core/Buffer.h:43-158 | any sequence of operations, spilling scatter reads included, returns and leaves what an abstract byte queue does |
| Buffers.QueueConserves | src/muduo_core/Buffer.h:67-102 | bytes taken out followed by bytes left are the bytes put in |
| Text.FindMeans | src/muduo_core/Buffer.h:115-122 | the search finds the first occurrence, or there is none |
| Text.StripMeaning | src/http/HttpContext.cc:10-17 | trimming removes exactly the padding on both sides |
| Text.PaddingMeaning | src/http/HttpContext.cc:10-17 | `trim` strips space, tab and line ends, a header value all six white-space characters, from both ends and nothing else |
| Text.LowerMeaning | src/http/HttpRequest.h:118-136 | two names fall together exactly if they differ in the case of ASCII letters only |
| HttpRequests.HttpRequest.SetMethod | src/http/HttpRequest.h:38-67 | the five known verbs, anything else is invalid and refused |
| HttpRequests.HttpRequest.AddHeader | src/http/HttpRequest.h:118-136 | the header table gains the lower-cased name with the value stripped of white space |
| HttpRequests.HttpRequest.Swap | src/http/HttpRequest.h:187-198 | every field is exchanged |
| HttpContexts.HttpContext.Reset | src/http/HttpContext.h:39-50 | the context is as new |
| HttpContexts.HttpContext.ProcessRequestLine | src/http/HttpContext.cc:35-55 | refines the request-line function: fields set and verdict, also on a malformed line |
| HttpContexts.HttpContext.PrepareBody | src/http/HttpContext.cc:57-73 | body length read from the header, refused when it is not a number |
| HttpContexts.HttpContext.ReadPart | src/http/HttpContext.cc:86-123 | one part of a multipart body: end, defect, or contents and the next cursor |
| HttpContexts.HttpContext.ParseMultipartBody | src/http/HttpContext.cc:75-139 | refines the multipart function, with a cursor that strictly advances |
| HttpContexts.HttpContext.ParseRequest | src/http/HttpContext.cc:141-194 | result, parser state and bytes left equal the parser function on the buffered bytes |
| HttpVerdicts.RequestLineMeaning | src/http/HttpContext.cc:35-55 | a line is accepted exactly if it is the request line of some message: known verb, target without a space, path without a question mark, version 1.0 or 1.1, single spaces |
| HttpVerdicts.KnownLines | src/http/HttpContext.cc:35-55 | the five verbs and two versions by their texts |
| HttpVerdicts.HeadRead | src/http/HttpContext.cc:145-180 | any request line and header lines within the limit are consumed line by line, into the header table in order |
| HttpVerdicts.DeclaresMeaning | src/http/HttpContext.cc:57-73 | the declared length is that of the last Content-Length header, as spelled, none if there is none or it is empty |
| HttpVerdicts.WholeBodyRead | src/http/HttpContext.cc:182-188 | head, blank line and body of the declared length give exactly that request and leave the bytes behind, complete exactly if the body is acceptable |
| HttpVerdicts.VerdictMeaning | src/http/HttpContext.cc:141-194 | for all streams: complete, bad, too large or incomplete exactly if the text has the shape described for that verdict; the shapes name the bad first line, the line that is no header, the unreadable length, the body that is no form, the 16 KiB and 10 MiB limits |
| HttpVerdicts.CompleteStays | src/http/HttpContext.cc:189-192 | a completed context answers complete again until it is reset, and takes no input |
| FormGrammar.ParameterMeaning | src/http/HttpContext.cc:19-32 | what a parameter is read as: absent, quoted up to the closing quote, quoted without one, bare up to the semicolon and trimmed |
| FormGrammar.FormIsRead | src/http/HttpContext.cc:75-139 | every text put together from parts and a closing boundary is accepted, and its parts are stored in order |
| FormGrammar.ReadIsForm | src/http/HttpContext.cc:75-139 | nothing else is accepted |
| FormGrammar.MultipartMeaning | src/http/HttpContext.cc:75-139 | so a body is accepted exactly if it is not declared multipart, or a boundary is declared and the body is a form under it |
| HttpParsing.NextPart | src/http/HttpContext.cc:88-137 | a part that is read moves the cursor forward, within the body |
| HttpLocality.ParseMore | src/http/HttpContext.cc:141-194 | stopping for lack of input and resuming with more equals parsing everything at once, from every parser state |
| HttpLocality.ParseExact | src/http/HttpContext.cc:141-194 | a completed parse depends only on the bytes it consumed: it is the same with any other bytes behind them |
| HttpLocality.ParseConsumes | src/http/HttpContext.cc:141-194 | a complete request uses up at least one byte, so the message loop ends |
| HttpLocality.ParseUntimed | src/http/HttpContext.cc:161 | the receive time influences nothing but itself |
| HttpLocality.IncompleteIsBounded | src/http/HttpContext.h:17-18 | while more input is asked for, what is held back is within the 16 KiB and 10 MiB limits |
| HttpServers.HttpServer.OnMessage | src/http/HttpServer.cc:52-96 | refines the session function: requests answered in order, refusals, half-close, bytes left |
| HttpServers.HttpServer.OnRequest | src/http/HttpServer.cc:98-122 | the asynchronous handler first, then the response with its keep/close rule: whether the loop goes on, the connection stays open and is still read |
| HttpVerdicts.FirstAnswer | src/http/HttpServer.cc:74-95 | 400, 413, silence or a handled request exactly for the four kinds of input; after a refusal nothing is handled and the sending side is closed |
| HttpVerdicts.RefusedThroughAnyCut | src/http/HttpServer.cc:52-96 | the same for every way the network may cut the stream |
| HttpVerdicts.AnswerMeaning | src/http/HttpServer.cc:91-122 | what becomes of a complete request, by what the two handlers say: taken with reading on or off, closed, or served on with the bytes behind it; the closing rule by the texts of version and Connection header |
| HttpServers.ServeShrinks | src/http/HttpServer.cc:74-95 | every further turn of the loop has less input to serve |
| HttpFragments.ServeSplit | src/http/HttpServer.cc:74-95 | serving a prefix and then the rest equals serving both at once |
| HttpFragments.RunIsOneRead | src/http/HttpServer.cc:52-96 | any number of reads ends where a single read of the whole stream ends |
| HttpFragments.HoldIsVisible | src/http/HttpServer.cc:91-93 | for a handler that holds a request with reading on, a stream and two cuts with different outcomes |
| HttpPrinting.HoldingDependsOnTheCut | src/http/HttpServer.cc:91-93 | such a handler and such a stream exist, so fragmentation independence fails for it |
| HttpFragments.FragmentationIndependence | src/http/HttpServer.cc:52-96 | for all streams and cuts the same requests, refusals, parser state and left-over bytes, exactly for handlers that never hold a request |
| HttpPrinting.HeaderTableLookup | src/http/HttpRequest.h:145-157 | look-up ignores letter case and returns the last header of a name, without padding |
| HttpPrinting.FirstLineRoundTrip | src/http/HttpContext.cc:35-55 | a printed request line is parsed into its method, path, query and version |
| HttpPrinting.LengthIsRead | src/http/HttpContext.cc:57-73 | the printed Content-Length is the body length read |
| HttpPrinting.RequestRoundTrip | src/http/HttpContext.cc:141-194 | every well-formed message within the limits is parsed back, consuming exactly its own bytes, whatever follows |
| HttpPrinting.PipelineRoundTrip | src/http/HttpServer.cc:74-95 | a pipeline of messages is answered message by message, in order, with nothing left |
| HttpPrinting.PipelineThroughAnyCut | src/http/HttpServer.cc:52-96 | the same for every way the network may cut the pipeline |
| HttpPrinting.ConnectionRule | src/http/HttpServer.cc:102-121 | with handlers that leave the rule alone a message keeps the connection exactly if its last Connection header is not `close` and, in HTTP/1.0, is `Keep-Alive` |
| HttpPrinting.PipelineStaysOpen | src/http/HttpServer.cc:74-122 | a pipeline of such messages is answered whole and the connection stays open |
| HttpPrinting.PipelineCloses | src/http/HttpServer.cc:74-122 | otherwise it is answered up to the first message that closes, and what follows stays unread |
| MultipartForms.FindDelimiter | src/http/HttpContext.cc:97 | the delimiter behind a content is found at its end if the content does not contain it, overlaps included |
| MultipartForms.NameParameter | src/http/HttpContext.cc:19-32 | the field name is read from a printed disposition |
| MultipartForms.FileNameParameter | src/http/HttpContext.cc:19-32 | the file name is read from a printed disposition |
| MultipartForms.NoFileName | src/http/HttpContext.cc:121-124 | a plain field is never taken for a file |
| MultipartForms.HeadRoundTrip | src/http/HttpContext.cc:100-117 | the header lines of a printed part are read back |
| MultipartForms.NextPartRoundTrip | src/http/HttpContext.cc:86-137 | a printed part is read back, byte for byte |
| MultipartForms.BareBoundary | src/http/HttpContext.cc:80-82 | a bare boundary is read up to the end or the next parameter |
| MultipartForms.QuotedBoundary | src/http/HttpContext.cc:25-29 | a quoted boundary is read up to its closing quote, whatever it contains |
| MultipartForms.MultipartRoundTrip | src/http/HttpContext.cc:75-139 | any list of fields and files comes back under any declaration of the boundary the parser reads: fields by name, the last one winning, files in order, contents unchanged |
| MultipartForms.UploadRoundTrip | src/http/HttpContext.cc:141-194 | the same through the request parser, leaving the bytes of the next request |
| Numerals.DecimalRoundTrip | src/http/HttpContext.cc:66-71 | canonical decimal text denotes its number |
| Numerals.DecimalUnique | src/http/HttpContext.cc:66-71 | and is the only such text |
| Numerals.StrtoullDecimal | src/http/HttpContext.cc:66-71 | every 64-bit length survives printing and `strtoull` |
| Numerals.SpelledIsRead | src/http/HttpContext.cc:66-71 | what `strtoull` makes of white space, sign and digits in front of the first NUL |
| Numerals.AcceptedUpTo | src/http/HttpContext.cc:66-71 | exactly which texts are read as a number up to a limit, wrapped negative ones included |
| HttpParsing.LengthWithinLimit | src/http/HttpContext.cc:57-73 | exactly which Content-Length values let a body through the 10 MiB limit |
| HttpParsing.NegativeLength | src/http/HttpContext.cc:66-71 | a negative length that asks for a body of one byte |
| ModelRegistries.SelectMeaning | src/inference/ModelRegistry.cc:165-177 | the selected registration is the available one of highest priority, the earliest on ties; none if there is none |
| ModelRegistries.ChoiceIsUnique | src/inference/ModelRegistry.cc:165-177 | that description fits one registration only |
| ModelRegistries.ResolveMeaning | src/inference/ModelRegistry.cc:165-177 | an explicit backend resolves exactly when it is available and to that entry; `auto` exactly when any is |
| ModelRegistries.InitializedWellFormed | src/inference/ModelRegistry.cc:139-163 | loading keeps the registry well-formed |
| ModelRegistries.LoadingMeaning | src/inference/ModelRegistry.cc:139-163 | after loading a backend serves a model exactly if their entry has a backend object and that loaded; "default" stands for the first model |
| ModelRegistries.CountMeaning | src/inference/ModelRegistry.cc:196-210 | the counts are numbers of entries |
| ModelRegistries.ModelRegistry.Add | src/inference/ModelRegistry.cc:117-137 | one entry per model and backend kind; refusals change nothing; the first model becomes the default |
| ModelRegistries.ModelRegistry.Initialize | src/inference/ModelRegistry.cc:139-163 | availability is what loading returned; success if anything is available |
| ModelRegistries.ModelRegistry.ResolveBackend | src/inference/ModelRegistry.cc:165-177 | the loop computes the specified choice and the model name |
| ModelRegistries.ModelRegistry.KnowsModel | src/inference/ModelRegistry.cc:179-185 | found exactly if registered |
| ModelRegistries.ModelRegistry.KnowsBackend | src/inference/ModelRegistry.cc:187-194 | found exactly if registered and available |
| ModelRegistries.ModelRegistry.BackendCounts | src/inference/ModelRegistry.cc:196-210 | numbers of available and of healthy backends |
| Schedulers.StepKeeps | src/inference/InferenceScheduler.cc:33-123 | every atomic step of submitters, workers and the stopping thread keeps the invariant |
| Schedulers.RunsAreSafe | src/inference/InferenceScheduler.cc:33-123 | the invariant over all interleavings |
| Schedulers.EveryRun | src/inference/InferenceScheduler.cc:67-123 | accepted tasks are the disjoint union of queued, in-flight and completed ones, none completes twice, dequeue order is acceptance order, the queue is bounded, every accepted task carries the backend its registry chose at submission, every queued or in-flight one that of the present registry, and while a worker sleeps at least as many are runnable as tasks are queued |
| Schedulers.QueueIsServed | src/inference/InferenceScheduler.cc:100-123 | with tasks queued there is always a worker step to take |
| Schedulers.VerdictMeaning | src/inference/InferenceScheduler.cc:67-76 | each of the five answers to a submission exactly under its own condition on flags, entries and queue length, in the order of precedence |
| Schedulers.SubmissionMeaning | src/inference/InferenceScheduler.cc:67-86 | in every reachable state a submission adds one routed task at the end of the queue and wakes one sleeper exactly if the scheduler is open, an entry is available for it and the queue is not full; otherwise it changes nothing |
| Schedulers.StartMeaning | src/inference/InferenceScheduler.cc:33-49 | the scheduler runs after a start exactly if it did before or has workers, capacity and a backend that loads; what the threads, the queue and the entries are then |
| Schedulers.StoppingRefuses | src/inference/InferenceScheduler.cc:71 | once stopping, nothing is accepted |
| Schedulers.DrainStep | src/inference/InferenceScheduler.cc:51-65 | every step of a stopping scheduler decreases a measure and loses no task |
| Schedulers.DrainIsBounded | src/inference/InferenceScheduler.cc:51-65 | so it takes finitely many steps, from every reachable state |
| Schedulers.DrainProgresses | src/inference/InferenceScheduler.cc:51-65 | and is never stuck before the join |
| Schedulers.StopCompletesEverything | src/inference/InferenceScheduler.cc:51-65 | when `stop` returns every accepted task has completed exactly once |
| Schedulers.StopReturns | src/inference/InferenceScheduler.cc:51-65 | from every running state a run from the stop flag to the join exists, with everything accepted completed |
| Schedulers.InferenceScheduler.StartWorkers | src/inference/InferenceScheduler.cc:33-49 | the object takes the protocol's start step |
| Schedulers.InferenceScheduler.SubmitTask | src/inference/InferenceScheduler.cc:67-86 | verdict and new state are those of the protocol; accepted exactly if open, servable and not full |
| Schedulers.InferenceScheduler.WorkerCheck | src/inference/InferenceScheduler.cc:100-116 | exit, sleep or take the front task, as in the protocol |
| Schedulers.InferenceScheduler.WorkerFinish | src/inference/InferenceScheduler.cc:117-123 | the task in hand is completed |
| Schedulers.InferenceScheduler.RaiseStop | src/inference/InferenceScheduler.cc:53-57 | the stop flag |
| Schedulers.InferenceScheduler.NotifyWorkers | src/inference/InferenceScheduler.cc:58 | all sleepers wake |
| Schedulers.InferenceScheduler.JoinWorkers | src/inference/InferenceScheduler.cc:59-64 | the threads are gone and the flags reset |
| Utf.CategoryMeaning | end2end/include/filesystem.hpp:1528-1537 | the packed table classifies every byte as the class ranges of RFC 3629 say |
| Utf.NextStateMeaning | end2end/include/filesystem.hpp:1528-1537 | the packed automaton moves exactly on the continuation bytes allowed |
| Utf.AcceptsMeaning | end2end/include/filesystem.hpp:1540-1554 | from every state the automaton accepts exactly the continuations the grammar allows |
| Utf.ValidUtf8 | end2end/include/filesystem.hpp:1540-1554 | accepts exactly the byte strings of section 4 of RFC 3629 |
| Utf.ConsumeUtf8Fragment | end2end/include/filesystem.hpp:1528-1538 | refines the automaton's state and codepoint functions |
| Utf.AppendUtf8 | end2end/include/filesystem.hpp:1496-1523 | appends the encoding, U+FFFD for surrogates and values beyond U+10FFFF |
| Utf.ScalarRoundTrip | end2end/include/filesystem.hpp:1496-1523 | the encoding of a scalar value is one well-formed character that denotes it |
| Utf.CharRoundTrip | end2end/include/filesystem.hpp:1496-1523 | a well-formed character is the encoding of what it denotes, so there is one encoding per scalar |
| Utf.DecodeEncode | end2end/include/filesystem.hpp:1608-1639 | decoding encoded UTF-32 returns it, with U+FFFD for what is no scalar value |
| Utf.EncodeIsWellFormed | end2end/include/filesystem.hpp:1686-1694 | everything encoded is well-formed |
| Utf.EncodeDecode | end2end/include/filesystem.hpp:1608-1639 | encoding decoded bytes returns them exactly if they are well-formed |
| Utf.PairRoundTrip | end2end/include/filesystem.hpp:1657-1684 | the surrogate arithmetic of section 2 of RFC 2781 and its inverse |
| Utf.DecodeEncode16 | end2end/include/filesystem.hpp:1657-1684 | UTF-16 through UTF-8 and back is the identity exactly on well-formed UTF-16 |
| Utf.EncodeDecode16 | end2end/include/filesystem.hpp:1568-1606 | UTF-8 through UTF-16 and back is the identity exactly on well-formed UTF-8 |
| UtfReplacements.DecodeCases | end2end/include/filesystem.hpp:1608-1639 | every byte string is decoded by four cases: empty, a character, a beginning cut off at the end, a byte that carries nothing on |
| UtfReplacements.MalformedMeaning | end2end/include/filesystem.hpp:1608-1639 | a byte that carries a beginning on to no character is replaced, beginning included, by one U+FFFD, and decoding starts over behind it |
| UtfReplacements.UnfinishedMeaning | end2end/include/filesystem.hpp:1608-1639 | a beginning at the end becomes one U+FFFD |
| UtfReplacements.Encode16Meaning | end2end/include/filesystem.hpp:1657-1684 | unit by unit: EF BF BD for a surrogate that starts no pair and the unit behind it, whatever that is |
| UtfReplacements.CodepointMeaning | end2end/include/filesystem.hpp:1528-1538 | the value of a character as a base-64 number, instead of shifts and masks |
| UtfReplacements.PairMeaning | end2end/include/filesystem.hpp:1657-1684 | the value of a surrogate pair as a base-1024 number |
| Utf.FromUtf8To32 | end2end/include/filesystem.hpp:1608-1639 | the loop computes the decoding function |
| Utf.FromUtf8To16 | end2end/include/filesystem.hpp:1568-1606 | the loop computes the decoding function in UTF-16 units |
| Utf.ToUtf8From32 | end2end/include/filesystem.hpp:1686-1694 | the loop computes the encoding function |
| Utf.ToUtf8From16 | end2end/include/filesystem.hpp:1657-1684 | the loop joins pairs, replaces lone surrogates and encodes |
| EventLoops.StepKeeps | src/muduo_core/EventLoop.cc:64-195 | every atomic step of the loop and of other threads keeps the invariant |
| EventLoops.EveryRun | src/muduo_core/EventLoop.cc:64-195 | over all interleavings functors run in enqueue order, none lost, and a loop that polls with functors pending has a readable eventfd or a producer about to write it |
| EventLoops.FlagMatters | src/muduo_core/EventLoop.cc:136 | no run strands a functor exactly if functors queued by functors bring a wakeup; without it some run from the start does |
| EventLoops.OneTurnRunsEverything | src/muduo_core/EventLoop.cc:64-93 | with the eventfd readable, one turn of the loop by itself runs everything pending |
| EventLoops.QuitMeaning | src/muduo_core/EventLoop.cc:64-112 | over all interleavings the loop is left only after `quit` was called |
| EventLoops.QuitIsPrompt | src/muduo_core/EventLoop.cc:72-93 | once it was, the loop condition is passed no more |
| EventLoops.QuitEnds | src/muduo_core/EventLoop.cc:72-112 | from every reachable state with the quit flag a run leaves the loop, with what was pending or in hand executed first; a sleeping loop is woken for it |
| EventLoops.EventLoop.QueueInLoop | src/muduo_core/EventLoop.cc:127-140 | the object takes the protocol's step from the loop thread, its push and wakeup from another |
| EventLoops.EventLoop.RunInLoop | src/muduo_core/EventLoop.cc:115-125 | in place on the loop thread, with what the callback queues; push and wakeup elsewhere |
| EventLoops.EventLoop.AskToQuit | src/muduo_core/EventLoop.cc:103-112 | the protocol's quit step, with the wakeup from another thread |
| EventLoops.EventLoop.DoPendingFunctors | src/muduo_core/EventLoop.cc:179-195 | a run of the protocol that executes what was pending on entry, in order, and leaves pending what arrived from other threads and from the functors meanwhile, in order, with a wakeup each |
| EventLoops.EventLoop.Turn | src/muduo_core/EventLoop.cc:64-93 | one turn of the loop is a run of the protocol, so it keeps its invariant, and runs what was pending and what its channels' callbacks queued |
| Pollers.EveryHistory | src/muduo_core/EPollPoller.cc:71-116 | over any changes and removals the index is kAdded exactly when the kernel holds the fd with the channel's mask, and the table holds the channel exactly when the index is not kNew |
| Pollers.NoInterestTogglesTheFd | src/muduo_core/EPollPoller.cc:76-98 | a change that leaves no interest ends with an empty-mask entry in the kernel exactly if the channel was not registered, and repeating it toggles |
| Pollers.Bits | src/muduo_core/Channel.h:44-54 | read and write interest do not disturb each other |
| Pollers.MaskMeaning | src/muduo_core/Channel.h:44-54 | over any history a channel asks for EPOLLIN and EPOLLPRI, and for EPOLLOUT, exactly if that interest was switched on and not off since, and for no other bit |
| Pollers.EPollPoller.UpdateChannel | src/muduo_core/EPollPoller.cc:71-99 | table, index and the one epoll_ctl call by index and mask, whether the kernel accepts or refuses it |
| Pollers.EPollPoller.RemoveChannel | src/muduo_core/EPollPoller.cc:102-116 | out of the table and, if added, one DEL, accepted or refused |
| Pollers.EPollPoller.Perform | src/muduo_core/Channel.h:44-49 | one change of one channel: the kernel accepts the call and no other channel is touched |
| Pollers.Play | src/muduo_core/EPollPoller.cc:71-116 | any script over channels with distinct fds: each ends where its own changes lead, and epoll_ctl never fails |
| TcpConnections.StepKeeps | src/muduo_core/TcpConnection.cc:65-281 | every call and event on the loop thread keeps the output invariant |
| TcpConnections.EveryRun | src/muduo_core/TcpConnection.cc:65-281 | with arbitrary partial writes and errors: bytes written followed by the output buffer are the accepted stream exactly if no send gave a message up; write interest is on exactly while bytes wait, and the kernel then watches for it; at most one `shutdownWrite`, after the last byte |
| TcpConnections.LostIsGivenUp | src/muduo_core/TcpConnection.cc:114-131 | bytes are lost exactly if some step is a direct write of a non-empty message that meets EPIPE or ECONNRESET |
| TcpConnections.ConservedUntilAFault | src/muduo_core/TcpConnection.cc:84-149 | without EPIPE/ECONNRESET on a send nothing is lost |
| TcpConnections.EveryWriteHelps | src/muduo_core/TcpConnection.cc:234-268 | every write the kernel takes shortens the buffer; the one that empties it turns write interest off and completes a pending half-close |
| TcpConnections.WrittenIsTaken | src/muduo_core/TcpConnection.cc:84-149 | over every run the bytes written number what the kernel answered to the writes made |
| TcpConnections.SendMeaning | src/muduo_core/TcpConnection.cc:65-149 | one send: with nothing waiting what the kernel does not take waits, nothing after a fault; with something waiting the message waits behind it |
| TcpConnections.ShutdownMeaning | src/muduo_core/TcpConnection.cc:152-171 | the write side is closed at once exactly if nothing waits, and no message is accepted any more |
| TcpConnections.ClosedIsFinal | src/muduo_core/TcpConnection.cc:271-281 | after the close event nothing is accepted, written, taken out of the buffer or shut down, over all runs |
| TcpConnections.ReadUntilStopped | src/muduo_core/TcpConnection.cc:179-194 | an established connection that is not disconnected is read exactly until the first `stopRead` |
| TcpConnections.DestroyedMeaning | src/muduo_core/TcpConnection.cc:200-210 | the channel is out of the table and the kernel, the phase disconnected if it was connected |
| TcpConnections.TcpConnection.Send | src/muduo_core/TcpConnection.cc:65-79 | refines the send step; refused unless connected |
| TcpConnections.TcpConnection.SendInLoop | src/muduo_core/TcpConnection.cc:84-149 | refines the send function, whose meaning is `SendMeaning` and `WrittenIsTaken` |
| TcpConnections.TcpConnection.Shutdown | src/muduo_core/TcpConnection.cc:152-171 | half-close now or once the buffer is empty |
| TcpConnections.TcpConnection.StopReadInLoop | src/muduo_core/TcpConnection.cc:179-186 | read interest off once, write interest untouched |
| TcpConnections.TcpConnection.HandleWrite | src/muduo_core/TcpConnection.cc:234-268 | refines the write-event step |
| TcpConnections.TcpConnection.HandleClose | src/muduo_core/TcpConnection.cc:271-281 | disconnected, no interest left |
| TcpConnections.TcpConnection.ConnectEstablished | src/muduo_core/TcpConnection.cc:189-194 | connected and reading |
| TcpConnections.TcpConnection.ConnectDestroyed | src/muduo_core/TcpConnection.cc:200-210 | disconnected if it was connected, and the channel out of the poller |
| Letterboxes.Fits | src/inference/YoloV8Processor.cc:69-74 | the scaled image lies inside the square and fills it in one direction, with non-negative padding |
| Letterboxes.Vanishes | src/inference/YoloV8Processor.cc:71-72 | the scaled height is zero exactly for images more than 1280 times as wide as high, and the scaled width the other way round |
| Letterboxes.IndexInRange | src/inference/YoloV8Processor.cc:93-96 | every pixel position read is inside the decoded image |
| Letterboxes.Neighbours | src/inference/YoloV8Processor.cc:81-90 | clamped neighbours and fractions are in range at the borders too |
| Letterboxes.TargetIsOneToOne | src/inference/YoloV8Processor.cc:97 | tensor positions are in range and never written for two cells |
| Letterboxes.CellInUnit | src/inference/YoloV8Processor.cc:77-98 | every tensor value is between 0 and 1 |
| Letterboxes.SampleWithin | src/inference/YoloV8Processor.cc:81-98 | interpolation stays within the bounds of the component's values |
| Letterboxes.UnscaledIsCopied | src/inference/YoloV8Processor.cc:69-98 | an image whose longer side is 640 is copied pixel by pixel, with 114/255 around it |
| Samplings.GeometryMeaning | src/inference/YoloV8Processor.cc:69-74 | the larger side becomes 640, the other is rounded to the nearest pixel, and the padding is halved with the odd pixel behind |
| Samplings.GreyAround | src/inference/YoloV8Processor.cc:77 | 114/255 in every cell outside the scaled image |
| Samplings.PixelMeaning | src/inference/YoloV8Processor.cc:93-96 | the decoded image is rows of pixels of three components |
| Samplings.AffineSample | src/inference/YoloV8Processor.cc:81-98 | on an image affine in row and column every sample, borders included, is the affine function at the effective coordinates |
| Samplings.CentresMeet | src/inference/YoloV8Processor.cc:81-87 | between the first and the last pixel centre that is the place the cell centre is mapped to, for all sizes |
| Samplings.FirstRowsAreOff | src/inference/YoloV8Processor.cc:81-84 | a sample lies at the nearest place inside the image exactly if it is not in front of the first pixel centre or the image has one row |
| Samplings.HalfSizeIsMean | src/inference/YoloV8Processor.cc:69-98 | an image whose longer side is 1280 is halved: every cell is the mean of its four pixels, in the middle of the tensor |
| Letterboxes.Blend | src/inference/YoloV8Processor.cc:81-98 | bilinear interpolation with all reads in range, result between 0 and 1 |
| Letterboxes.Preprocess | src/inference/YoloV8Processor.cc:37-104 | a tensor comes out exactly for decodable images within the limits, and every cell of it is the specified one |
| Letterboxes.LetterboxRoundTrip | src/inference/YoloV8Processor.cc:132-137 | decoding the letterboxed corners of a box returns the box exactly if it lies inside the image |
| Letterboxes.UnboxedRoundTrip | src/inference/YoloV8Processor.cc:132-137 | without clipping the detector's coordinates come back; with it the box stays inside the image |
| Samplings.CornersMove | src/inference/YoloV8Processor.cc:132-137 | each corner of a box is scaled and shifted like the image |
| Samplings.PointsKept | src/inference/YoloV8Processor.cc:132-137 | a decoded box holds exactly the points of the box that lie in the image |
| Samplings.CellsAndBoxesAgree | src/inference/YoloV8Processor.cc:81-87 | the place a cell is sampled at is moved to the centre of that cell by the map of the boxes |
| Detections.IoUBounds | src/inference/YoloV8Processor.cc:23-34 | for all boxes, inverted ones too: symmetric, between 0 and 1, 0 exactly without overlap |
| Detections.OnlyItself | src/inference/YoloV8Processor.cc:23-34 | for non-empty boxes 1 exactly on equal boxes |
| Overlaps.IoUCounts | src/inference/YoloV8Processor.cc:23-34 | for boxes with integer corners, times the number of unit cells in either box it is the number in both |
| Overlaps.IoUPlaced | src/inference/YoloV8Processor.cc:23-34 | neither the units of the axes nor the origin matter, which carries the count to rational corners |
| Detections.BestClass | src/inference/YoloV8Processor.cc:115-121 | the first class of highest score |
| Detections.DecodeCandidates | src/inference/YoloV8Processor.cc:113-140 | exactly the columns whose best score passes and whose clipped box is non-empty, in order |
| Detections.CandidatesInImage | src/inference/YoloV8Processor.cc:132-139 | candidates are non-empty, inside the image, above the threshold, of a known class |
| Detections.DecodedIsUnique | src/inference/YoloV8Processor.cc:113-140 | that description fits one list of candidates only |
| Overlaps.DecodingMeaning | src/inference/YoloV8Processor.cc:113-140 | on the output as 84 rows of 8400: found is exactly each column whose first best class score reaches the threshold and whose clipped box is not empty, with that class, score and box |
| Detections.GreedyMeaning | src/inference/YoloV8Processor.cc:144-157 | the selection is part of the candidates, by falling confidence, no two of a class overlap above the threshold, and each one missing lost to a kept one of its class with at least its confidence |
| Detections.TheOnlyChoice | src/inference/YoloV8Processor.cc:144-157 | the rule "kept unless an earlier kept one suppresses it" has one solution, the greedy one |
| Overlaps.SuppressionMeaning | src/inference/YoloV8Processor.cc:144-157 | kept ones of a class overlap by at most the threshold; each candidate missing overlaps a kept one of its class, at least as confident, by more |
| Detections.Suppress | src/inference/YoloV8Processor.cc:144-158 | the nested loops compute it |
| Detections.Sort | src/inference/YoloV8Processor.cc:142-143 | a permutation by falling confidence, ties in any order |
| Detections.Postprocess | src/inference/YoloV8Processor.cc:106-159 | all of it together, and no detections for a missing or wrongly sized output |
| AsyncLogs.FixedBuffer.Append | src/logger/FixedBuffer.h:22-29 | the text is added if it is shorter than the space left, otherwise dropped |
| AsyncLogs.FixedBuffer.Reset | src/logger/FixedBuffer.h:38 | empty again |
| AsyncLogs.StepKeeps | src/logger/AsyncLogging.cc:25-118 | every critical section and back-end step keeps the hand-off invariant |
| AsyncLogs.EveryRun | src/logger/AsyncLogging.cc:25-118 | over all interleavings no null buffer is used and no empty vector popped, a missing next buffer implies full ones waiting, and every record shorter than a buffer is there once and in order across file, taken, full and current buffers |
| AsyncLogs.NothingDropped | src/logger/FixedBuffer.h:22-29 | nothing is lost exactly if every record is shorter than a buffer |
| AsyncLogs.AppendedMeaning | src/logger/AsyncLogging.cc:25-51 | over every run the records appended are those the producers asked for, in order |
| AsyncLogs.RotationMeaning | src/logger/AsyncLogging.cc:25-51 | a record goes behind the others exactly if that leaves the buffer short of four million bytes; otherwise the buffer is full and an empty one takes it |
| AsyncLogs.OneTurnWritesAll | src/logger/AsyncLogging.cc:65-118 | one undisturbed turn of the back end hands over everything appended and leaves two empty buffers in front |
| AsyncLogs.AsyncLogging.Append | src/logger/AsyncLogging.cc:25-51 | the object takes the append step; buffers have one owner throughout |
| AsyncLogs.AsyncLogging.Swap | src/logger/AsyncLogging.cc:67-86 | the back end's critical section |
| AsyncLogs.AsyncLogging.WriteOne | src/logger/AsyncLogging.cc:89-92 | the next buffer is handed to the file |
| AsyncLogs.AsyncLogging.Refill | src/logger/AsyncLogging.cc:95-116 | both spares come back empty |
| TimerQueues.SentrySplits | src/timer/TimerQueue.cc:115-116 | the sentry cuts exactly between the entries due and those to come |
| TimerQueues.SortedIsUnique | src/timer/TimerQueue.h:26-27 | the entries determine the order, so the contracts below determine the queue |
| TimerQueues.DelayArms | src/timer/TimerQueue.cc:81-92 | the time span armed is valid, never zero and never short of the expiration |
| TimerQueues.RestartedLater | src/timer/Timer.cc:3-14 | a restarted timer is due its interval in microseconds ahead, less than one short of it; later than now exactly if that is a microsecond or more |
| TimerQueues.RestartedMeaning | src/timer/TimerQueue.cc:143-166 | exactly the timers with a positive interval come back, each its interval in microseconds, rounded down, after it was restarted |
| TimerQueues.EarliestFirst | src/timer/TimerQueue.h:26-27 | the queue is in order of time, ties by address |
| TimerQueues.TimerQueue.Insert | src/timer/TimerQueue.cc:168-183 | one entry more, keyed by the timer's expiration; tells whether it is the earliest |
| TimerQueues.TimerQueue.AddTimerInLoop | src/timer/TimerQueue.cc:60-70 | the descriptor stays armed for the earliest timer |
| TimerQueues.TimerQueue.GetExpired | src/timer/TimerQueue.cc:111-121 | splits the queue into times up to now and later ones |
| TimerQueues.TimerQueue.Reset | src/timer/TimerQueue.cc:143-166 | exactly the repeating timers are back; armed for the earliest if anything expired and anything is left |
| TimerQueues.TimerQueue.RunExpired | src/timer/TimerQueue.cc:130-136 | the callbacks run in time order and the timers they add are in the queue |
| TimerQueues.TimerQueue.HandleRead | src/timer/TimerQueue.cc:123-141 | every timer due runs once, in time order; left are the timers not due, those the callbacks added and the repeating ones of those that ran; armed for the earliest exactly if something was due and something is left; no timer is in the queue twice and every key is its timer's expiration |
| Metrics.EscapeLabel | src/inference/InferenceMetrics.cc:12-23 | the loop computes the escaped text |
| Metrics.EscapeRoundTrip | src/inference/InferenceMetrics.cc:12-23 | an escaped value between quotes is read back, whatever follows |
| Metrics.LabelsRoundTrip | src/inference/InferenceMetrics.cc:25-31 | model, backend and status are read back from the label text |
| Metrics.LabelsInjective | src/inference/InferenceMetrics.cc:25-31 | different label triples have different texts |
| Metrics.Observe | src/inference/InferenceMetrics.cc:49-58 | every bucket of the key's histogram is the number of observations up to its bound, count and sum are those of the observations, other keys untouched |
| Metrics.BucketsAreCumulative | src/inference/InferenceMetrics.cc:56-57 | buckets never decrease and never exceed the count |
| Metrics.CountsAgree | src/inference/InferenceMetrics.cc:60-71 | in every history the observations of a model and backend are exactly its success and error requests |
| Metrics.SumMeaning | src/inference/InferenceMetrics.cc:60-71 | the sums in seconds are the milliseconds of the completions of that model and backend, each histogram of its own latency |
| Metrics.BucketsMeaning | src/inference/InferenceMetrics.cc:6-10 | the twelve buckets from a millisecond to ten seconds each count the observations up to their bound |
| Metrics.InferenceMetrics.CountersMeaning | src/inference/InferenceMetrics.cc:33-71 | the stored counters are the numbers of successes, errors, refusals and invalid requests, and of refusals by reason |
| Metrics.InferenceMetrics.StoredCountsAgree | src/inference/InferenceMetrics.cc:60-71 | so in the stored tables all three histogram counts equal the success plus the error counter |
| Metrics.InferenceMetrics.RecordCompletion | src/inference/InferenceMetrics.cc:60-71 | all tables again agree with the history, longer by this completion |
| Metrics.InferenceMetrics.RecordSubmissionFailure | src/inference/InferenceMetrics.cc:40-47 | the same for a refused submission |
| Metrics.InferenceMetrics.RecordValidationFailure | src/inference/InferenceMetrics.cc:33-38 | the same for an invalid request |
| LogStreams.OneDigit | src/logger/LogStream.cc:4-22 | truncating division and the mirrored table give the right digit for either sign |
| LogStreams.NumeralRoundTrip | src/logger/LogStream.cc:7-32 | the text reads back as the number and is the only canonical one that does |
| LogStreams.NumeralLength | src/logger/LogStream.h:66 | at most 20 characters for every 64-bit number, so the terminator is within the 48 bytes |
| LogStreams.ReverseRange | src/logger/LogStream.cc:29 | reversal in place, nothing outside touched |
| LogStreams.WriteDigits | src/logger/LogStream.cc:13-22 | the digits from last to first, the minimum of the signed type included |
| LogStreams.LogStream.FormatInteger | src/logger/LogStream.cc:7-32 | the numeral is appended with a NUL behind it if 48 bytes are free; otherwise nothing changes |

## Left out

- Sockets, epoll_wait, eventfd, timerfd and file calls: their results are parameters or nondeterministic, the kernel's interest set, counter and timer are state.
- Bytes are characters: `seq<char>` stands for byte strings outside the codec, and `isspace`/`tolower` act on ASCII.
- Floating point: `float` and `double` are reals; rounding, infinities and NaN are not modelled, nor is `%.12g` output.
- Counters of 64 bits (metrics, buffer sizes, the eventfd counter) are unbounded.
- TensorFlow, TensorRT, CUDA and stb: decoded pixels and network outputs are parameters. `Detection.label` is a table look-up by class and is omitted.
- JSON, `ModelRegistry::loadFromFile`, the management endpoints, the web page, response formatting and `renderPrometheus` text: plumbing.
- Error texts and log lines, including those `start` and `initialize` hand back.
- The rest of `filesystem.hpp`: operating-system calls, Windows branches and path algebra.
- Interest changes of a connection act on its channel as a value with its registration (`Pollers.View`), which `EPollPoller.Perform` is proved to follow; the two objects are not linked.
- `send` and `shutdown` racing from several threads: `sendInLoop` only refuses a disconnected connection, so a message queued before a half-close may be sent after it. Write-complete and high-water callbacks are not modelled either.
- Connection removal after `stopRead`: with no interest left the fd is out of epoll, so nothing is claimed about it.
- Log file contents: `FixedBuffer::length` returns the capacity, so whole buffers are written; and the back end stops without a last swap, so nothing is claimed about the records still in front at `stop`.
- Wall-clock behaviour of timers: `Timestamp::now` counts seconds in a microsecond field, so the clock is an arbitrary number in each call. `EventLoop` does not construct its `timerQueue_`; the queue is modelled on its own.
- Pollers.Play: covers channels whose fds are open and distinct; reuse of an fd after close and reopen is not modelled.
- Schedulers.EveryRun: assumes that `infer` and callbacks return and do not throw, and that there is one stopping thread.
- The idle-connection time wheel, the memory pool and the MySQL pool.
- Quitting the event loop before `loop` starts.
