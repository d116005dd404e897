# Verified models of the concurrency examples

This project models the components of `concurrencyexamples` whose correctness depends on how
threads, tasks or processes interleave, and proves what each of them promises for every schedule.

Each component has one module (or a few) built the same way:

- a `State`, an `Event` per critical section, queue operation or step of a wait, and a partial `Step`;
- `Exec(es)`, which replays a sequence of events: a run is any sequence `es` with `Exec(es).Some?`,
  so a lemma about `es` is a statement about every interleaving of any number of callers;
- functions of the event sequence alone (what was accepted, handled, claimed, approved, ...), so that a
  theorem compares the state with the history and not with itself;
- an invariant proved by induction over the run, and the theorems built on it;
- a class with the fields the source updates. Its ghost `trace` is the history, `Valid()` says that
  replaying the history gives exactly the present fields, and each method appends its event to the
  history and states its new fields outright as well, so every theorem about runs holds of the
  object. (The leaderboard's history is the list of accepted recordings; the retry executor has no
  state of its own, so its loops produce the history of one run.)

| modules | component |
|---|---|
| `Pipeline`, `PipelineRefinement`, `PipelineShutdown`, `PipelineConservation`, `PipelineObject` | document pipeline |
| `JobQueue`, `JobQueueShutdown`, `JobQueueObject` | asynchronous job queue |
| `Shuffles`, `ImportEvents`, `ImportJobs` | import event collector |
| `CircuitBreaker`, `CircuitBreakerObject` | circuit breaker |
| `PriorityQueues`, `PriorityDrain`, `PriorityQueueObject` | support queue and shipping queue |
| `Waiting`, `RequestTracking`, `Approvals` | request tracker, batch approval, asynchronous review batch |
| `Ranking`, `Leaderboards` | leaderboard |
| `Retries`, `RetryObject` | retry executor |
| `Rollbacks` | deployment rollback |
| `SeatBookings` | seat booking |
| `Sequences`, `Wrappers` | shared definitions |

## What is assumed

- A lock makes its critical section one step. A FIFO, LIFO or priority queue does one `put`, `get` or
  `task_done` per step, and a `get` returns the oldest, the newest or a least entry. The unfinished count
  rises with each `put`, falls with each `task_done`, and releases everyone in `join` when it reaches zero.
- A process queue keeps the order of one producer's messages and nothing more.
- `notify_all` wakes everyone asleep at that moment. A woken waiter runs again only once it has the lock, and
  anything may happen before that.
- Callbacks are arbitrary. A pipeline stage is a private state machine that only its own worker drives.
  The outcome of a handler, a partner operation or an attempt is part of the event that records it.
  A task given to the retry executor is a stream of outcomes, one per call. A callback ends, normally or with an
  `Exception`. A job handler does not itself call `stop` or `join`.
- The thread pool of the retry executor runs at most as many tasks at once as it has workers.
- The breaker's clock reads real numbers and never goes back.
- What the constructors demand of their arguments is a precondition here.

## Where the code and its documentation differ

- `src/concurrencyexamples/asyncseatbooking/booking.py:35-36` says that a booking ID may be used once. `cancel`
  forgets the ID, so it may be used again: `SeatBookings.IdCanBeReused` gives a run, and `IdTakenExactly` says
  exactly when an ID is taken.
- `src/concurrencyexamples/circuitbreaker/breaker.py:76` calls the counter the current consecutive failures. It
  stands still while the circuit is not closed: `CircuitBreaker.CounterStandsStill` gives a run in which the last
  outcome was a success and the counter is 1. `CounterIsTrailing` says what the counter is in every state, and
  `CounterStaysRight` and `CounterAlwaysRight` say exactly when it is the number of consecutive failures.
- `src/concurrencyexamples/asyncjobqueue/queue.py:67` says that `stop` drains the jobs and stops the workers. A
  second `stop` returns at once while the first is still draining: `JobQueueShutdown.SecondStopReturnsUndrained`
  gives a run, and `LaterStopReturnsAtOnce` says exactly when its return means a stopped queue.
- `src/concurrencyexamples/supportqueue/queue.py:77` and `:81` speak of claimed tickets. The queue counts insertions:
  `PriorityQueues.UnclaimedCanBeMarked` gives a run in which a ticket nobody has claimed is marked and `join` may
  return, and `MarksCountInsertions` says exactly when a mark is accepted and when `join` returns.

Three remarks on what the code does within its documentation:

- A call of the circuit breaker carries only the state it was admitted in, so an old call may fail in a later closed
  period and is counted there: `CircuitBreaker.StaleFailureCounts` and `StaleIffNotClosed`.
- An asynchronous waiter whose timeout has expired answers False even if the last approval was recorded before it
  got the lock back: `Approvals.LateTimeoutAnswersFalse`, and `TaskRefusedIffTimedOut` for the exact rule.
- `begin_shutdown` of the request tracker notifies when drained, but then nobody is asleep:
  `RequestTracking.ShutdownWakesNobody`.

## Model

| member | source | states |
|---|---|---|
| PipelineRefinement.EveryStateRefines | src/concurrencyexamples/documentpipeline/pipeline.py:114-156 | In every state of every schedule, running what is still queued or in hand through the remaining stages gives, stage by stage, the memory, failures and results of the sequential program that takes one accepted document after another through all stages. |
| PipelineRefinement.StepRefines | src/concurrencyexamples/documentpipeline/pipeline.py:81-160 | One step of anyone keeps that refinement: an accepted submission advances the sequential program by one document, every other step leaves its meaning alone. |
| PipelineRefinement.PassTravels | src/concurrencyexamples/documentpipeline/pipeline.py:126-156 | One more input at stage k, with everything downstream still busy, ends up changing the outcome exactly as carrying that document alone from stage k to the end or to its first failing stage. |
| PipelineRefinement.FinishItemConsumes | src/concurrencyexamples/documentpipeline/pipeline.py:126-156 | Finishing a document takes it out of its own stage, gives it to the next stage if and only if the stage produced an output, and touches no other stage. |
| PipelineObject.ResultsArePrefix | src/concurrencyexamples/documentpipeline/pipeline.py:104-112 | At every moment the completed documents are, in original and final contents, a prefix of the sequential ones for the documents accepted so far, and so are the failures of each stage. |
| PipelineObject.DrainedEqualsSequential | src/concurrencyexamples/documentpipeline/pipeline.py:69-156 | Once all workers have exited, the completed documents, with their originals and final contents, equal the sequential ones in submission order, the failures of each stage equal them in order, and all failures equal them as a multiset. |
| Pipeline.SequentialStart | src/concurrencyexamples/documentpipeline/pipeline.py:60-68 | With nothing accepted every stage is in its own initial private state and there are no results or failures. |
| Pipeline.SequentialNext | src/concurrencyexamples/documentpipeline/pipeline.py:114-156 | What one more accepted document adds to the sequential program: its successive contents start with the document itself, each is the output of the next stage in its private state so far; if all stages succeed the last contents are the one new result, and otherwise the first stage to fail is the last to run and the one new failure names the original document, that stage and its error. |
| PipelineObject.FailuresLogged | src/concurrencyexamples/documentpipeline/pipeline.py:128-137 | In every run each recorded failure names the stage at the position where it happened. |
| PipelineConservation.DocumentsConserved | src/concurrencyexamples/documentpipeline/pipeline.py:81-86 | In every state a document occurs in queues, hands, results and failures together exactly as often as it was accepted. |
| PipelineShutdown.ShutdownStructure | src/concurrencyexamples/documentpipeline/pipeline.py:88-122 | Before close there is no sentinel; afterwards, however often close is called, there is one at some stage p: last in its queue or in the worker's hand, stages before p exited with empty queues, stages after p alive and free of sentinels. |
| PipelineShutdown.SentinelStep | src/concurrencyexamples/documentpipeline/pipeline.py:117-160 | The sentinel moves on by exactly one stage when its holder forwards it and stays in place under every other step. |
| PipelineShutdown.DrainProgress | src/concurrencyexamples/documentpipeline/pipeline.py:95-122 | No deadlock: after close, while any worker is alive, some worker has an enabled step. |
| PipelineShutdown.WorkerStepDecreases | src/concurrencyexamples/documentpipeline/pipeline.py:117-141 | Every step of a worker lowers the outstanding work. |
| PipelineShutdown.DrainTerminates | src/concurrencyexamples/documentpipeline/pipeline.py:95-102 | After close, whatever other callers do meanwhile, workers can take at most as many steps as there was outstanding work. |
| PipelineShutdown.ClosedAcceptsNothing | src/concurrencyexamples/documentpipeline/pipeline.py:83-93 | After a close nothing more is accepted, whoever calls, so the drained results are those of the documents accepted before it. |
| Pipeline.ClosedExactly | src/concurrencyexamples/documentpipeline/pipeline.py:90-92 | The pipeline is closed exactly when some close has happened. |
| PipelineObject.DocumentPipeline.constructor | src/concurrencyexamples/documentpipeline/pipeline.py:60-79 | A new pipeline has an empty queue, an idle worker and the initial private state of its own stage at each position, and no results or failures. |
| PipelineObject.DocumentPipeline.Submit | src/concurrencyexamples/documentpipeline/pipeline.py:81-86 | Raises exactly when the pipeline was closed before, changing nothing; otherwise the document joins the first queue and the accepted documents, and nothing else changes. |
| PipelineObject.DocumentPipeline.Take | src/concurrencyexamples/documentpipeline/pipeline.py:118 | The worker holds the oldest message of its queue; nothing else changes. |
| PipelineObject.DocumentPipeline.Finish | src/concurrencyexamples/documentpipeline/pipeline.py:119-141 | For the sentinel: the worker exits and forwards it. For a document: the stage runs on its private state; an error is recorded with the original document, the stage and the error; an output goes to the next queue with the original, or at the last stage to the results. Nothing else changes. |
| PipelineObject.DocumentPipeline.ForwardItem | src/concurrencyexamples/documentpipeline/pipeline.py:143-156 | Appends the output to the results at the last stage, and otherwise the output with its original to the next queue; nothing else changes. |
| PipelineObject.DocumentPipeline.ForwardSentinel | src/concurrencyexamples/documentpipeline/pipeline.py:158-160 | Appends the sentinel to the next queue if there is one. |
| PipelineObject.DocumentPipeline.SendSentinel | src/concurrencyexamples/documentpipeline/pipeline.py:90-93 | The first time, closes the pipeline and queues one sentinel at the first stage; later, changes nothing. |
| PipelineObject.DocumentPipeline.AwaitWorkers | src/concurrencyexamples/documentpipeline/pipeline.py:95-102 | Terminates while other threads go on submitting and closing; without a timeout it ends with all workers gone, and the answer is True exactly when they are. |
| PipelineObject.DocumentPipeline.Close | src/concurrencyexamples/documentpipeline/pipeline.py:88-102 | Terminates, with other threads free to submit and close meanwhile; answers whether all workers have exited, always True without a timeout; if True, the results are one by one the final contents of the sequentially completed documents accepted before the call, and failures equal the sequential ones as a multiset and, for each stage, in order. |
| PipelineObject.DocumentPipeline.Results | src/concurrencyexamples/documentpipeline/pipeline.py:104-107 | Returns the results: one by one the final contents of the first sequentially completed documents. |
| PipelineObject.DocumentPipeline.Failures | src/concurrencyexamples/documentpipeline/pipeline.py:109-112 | Returns the failures; each names its stage, and per stage they are a prefix of the sequential ones. |
| JobQueueShutdown.StopIsGraceful | src/concurrencyexamples/asyncjobqueue/queue.py:66-91 | When stop completes, every accepted job has been handled exactly once, the queue is empty, every worker has exited after exactly one stop token, and the failures are exactly what handlers raised, in order. |
| JobQueueShutdown.Invariant | src/concurrencyexamples/asyncjobqueue/queue.py:53-91 | In every run the unfinished count equals messages waiting plus messages in hand; no token exists before the drain and no job after it; tokens waiting, in hand and consumed add up to the tokens sent. |
| JobQueueShutdown.FirstInFirstOut | src/concurrencyexamples/asyncjobqueue/queue.py:53-83 | The jobs taken followed by the jobs queued are the jobs accepted, in order. |
| JobQueueShutdown.TakenOrHandled | src/concurrencyexamples/asyncjobqueue/queue.py:83-91 | Each job taken is in one worker's hands until its handler ends, once. |
| JobQueueShutdown.FailuresRecorded | src/concurrencyexamples/asyncjobqueue/queue.py:88-89 | The failures are exactly the exceptions the handlers raised, in order. |
| JobQueueShutdown.OneTokenEach | src/concurrencyexamples/asyncjobqueue/queue.py:85-86 | A worker has consumed a stop token exactly when it is leaving or gone, and then exactly one. |
| JobQueueShutdown.QuietMeansHandled | src/concurrencyexamples/asyncjobqueue/queue.py:62-64 | Whenever the unfinished count is zero, the handled jobs are exactly the accepted ones, as multisets. |
| JobQueueShutdown.NoJobBehindToken | src/concurrencyexamples/asyncjobqueue/queue.py:71-74 | Behind a stop token there are only stop tokens, and once one is queued all accepted jobs have been handled. |
| JobQueueShutdown.JoinIsSound | src/concurrencyexamples/asyncjobqueue/queue.py:62-64 | When a join may return, everything accepted before it was called has been handled, however long after the signal it resumes and whatever was submitted meanwhile. |
| JobQueueShutdown.JoinProgress | src/concurrencyexamples/asyncjobqueue/queue.py:62-91 | No deadlock for join, with or without a stop: while anything is unfinished some worker has an enabled step. |
| JobQueueShutdown.NoJoinAsleep | src/concurrencyexamples/asyncjobqueue/queue.py:62-91 | No lost wakeup: in every state with nothing unfinished, everyone inside join has been signalled. |
| JobQueueShutdown.JoinReturnsOnceDrained | src/concurrencyexamples/asyncjobqueue/queue.py:62-64 | A caller inside join at some moment with nothing unfinished is signalled from then on and can return at any time, whatever is submitted or handled in between. |
| JobQueueShutdown.DrainedIsStable | src/concurrencyexamples/asyncjobqueue/queue.py:71-74 | Once stop's join has been signalled, the queue stays drained and nothing more is accepted until stop sends its first token, however late it resumes. |
| JobQueueShutdown.StopProgress | src/concurrencyexamples/asyncjobqueue/queue.py:66-91 | No deadlock: a stop that has not returned always has an enabled step, its own or a worker's. |
| JobQueueShutdown.StopTerminates | src/concurrencyexamples/asyncjobqueue/queue.py:66-91 | After a stop, the number of such steps is bounded by a rank of the state at that moment, whatever other callers do meanwhile. |
| JobQueueShutdown.StoppingAcceptsNothing | src/concurrencyexamples/asyncjobqueue/queue.py:57-58 | After an effective stop nothing more is accepted, whoever calls. |
| JobQueueShutdown.LaterStopReturnsAtOnce | src/concurrencyexamples/asyncjobqueue/queue.py:68-69 | A later stop returns at once and changes nothing; the queue is then stopped if and only if no earlier stop is still under way. |
| JobQueueShutdown.SecondStopReturnsUndrained | src/concurrencyexamples/asyncjobqueue/queue.py:66-69 | A run in which a second stop returns while an accepted job is still waiting. |
| JobQueueObject.AsyncJobQueue.constructor | src/concurrencyexamples/asyncjobqueue/queue.py:24-40 | A new queue has no jobs, workers, failures or waiting callers. |
| JobQueueObject.AsyncJobQueue.StartWorkers | src/concurrencyexamples/asyncjobqueue/queue.py:42-51 | Raises exactly on a second start, changing nothing, and otherwise starts the given number of idle workers. |
| JobQueueObject.AsyncJobQueue.Submit | src/concurrencyexamples/asyncjobqueue/queue.py:53-60 | Raises before a start and after an effective stop, with the right error and changing nothing; otherwise the job joins the queue and the accepted jobs and is one more unfinished. |
| JobQueueObject.AsyncJobQueue.BeginJoin | src/concurrencyexamples/asyncjobqueue/queue.py:62-64 | A caller who finds nothing unfinished need not wait; any other is recorded as waiting. |
| JobQueueObject.AsyncJobQueue.EndJoin | src/concurrencyexamples/asyncjobqueue/queue.py:64 | A signalled caller returns and is no longer waiting. |
| JobQueueObject.AsyncJobQueue.Take | src/concurrencyexamples/asyncjobqueue/queue.py:83 | The worker holds the oldest message; nothing else changes. |
| JobQueueObject.AsyncJobQueue.FinishTurn | src/concurrencyexamples/asyncjobqueue/queue.py:84-91 | A token ends the worker; a job makes it idle, is handled once more and adds its error, if any, to the failures. Either is one less unfinished, and at zero everyone inside join is signalled. |
| JobQueueObject.AsyncJobQueue.MarkDone | src/concurrencyexamples/asyncjobqueue/queue.py:91 | Lowers the unfinished count; at zero everyone inside join is signalled, and a draining stop too; above zero nobody newly is. |
| JobQueueObject.AsyncJobQueue.SendStopToken | src/concurrencyexamples/asyncjobqueue/queue.py:73-74 | One more token at the end of the queue, unfinished and counted as sent; nothing else changes. |
| JobQueueObject.AsyncJobQueue.AwaitStop | src/concurrencyexamples/asyncjobqueue/queue.py:72-75 | Terminates with stop complete, while other tasks go on starting, submitting, joining and stopping. |
| JobQueueObject.AsyncJobQueue.StopWorkers | src/concurrencyexamples/asyncjobqueue/queue.py:66-75 | Does nothing before a start or after an earlier stop; otherwise, whatever other tasks call meanwhile, returns with an empty queue, all workers gone after one token each, all accepted jobs handled once and all failures recorded. After a start, its return means a stopped queue if and only if no earlier stop was still under way. |
| JobQueueObject.AsyncJobQueue.BeginStop | src/concurrencyexamples/asyncjobqueue/queue.py:68-72 | The call is the one that stops the queue exactly when it comes after a start and no stop came so before; any other changes nothing. |
| ImportEvents.CollectedIsShuffle | src/concurrencyexamples/importjobevents/events.py:106-113 | When the parent has counted as many sentinels as processes, it holds an interleaving of what all the processes sent, each in its own order, and nothing is unsent or in transit. |
| Shuffles.ShufflePositions | src/concurrencyexamples/importjobevents/events.py:106-113 | What a shuffle of parts is, place by place: every place holds one element of one part, within a part the order is kept, and every element of every part has its place. |
| ImportEvents.CollectedIsPartialShuffle | src/concurrencyexamples/importjobevents/events.py:109-113 | At every earlier moment it holds an interleaving of a prefix of each process's messages. |
| ImportEvents.CountingSuffices | src/concurrencyexamples/importjobevents/events.py:107-111 | As many processes heard to the end as there are processes if and only if every process has been heard to the end. |
| ImportEvents.Invariant | src/concurrencyexamples/importjobevents/events.py:106-113 | In every run, what is received, in transit and unsent of each process is its program in order, and the sentinels counted are the processes heard to the end. |
| ImportEvents.CollectProgress | src/concurrencyexamples/importjobevents/events.py:108-109 | The parent never waits in vain: until it has all sentinels, some message can be sent or received. |
| ImportEvents.CollectTerminates | src/concurrencyexamples/importjobevents/events.py:108-113 | Every run has at most two steps per message. |
| ImportEvents.CollectUntilFinished | src/concurrencyexamples/importjobevents/events.py:106-113 | The loop ends and returns a shuffle of the processes' progress events. |
| ImportJobs.Program | src/concurrencyexamples/importjobevents/events.py:125-167 | A process sends its job's report and then one sentinel, whether or not its import fails. |
| ImportJobs.ReportsSay | src/concurrencyexamples/importjobevents/events.py:125-167 | The stages a job reports are exactly started, parsed, failed if it should fail validation and started, parsed, validated, stored if not; each event has the job's ID and the stated detail with its file name and row count. |
| ImportJobs.DecimalReads | src/concurrencyexamples/importjobevents/events.py:139 | The row count is written in decimal digits, without leading zeros, that read back as the row count. |
| ImportJobs.CollectedReports | src/concurrencyexamples/importjobevents/events.py:106-167 | For any jobs and any schedule, the collected events are a shuffle of started, parsed, validated, stored or started, parsed, failed, one such report per job, and their number is three or four per job. |
| ImportJobs.Collect | src/concurrencyexamples/importjobevents/events.py:87-122 | Raises without jobs, and otherwise, once all events are in, raises for the first process that exited with a nonzero code; when there is none, returns a shuffle of one part per job, each event of each part with the stage, the job ID and the detail of that job. |
| ImportJobs.FirstFailure | src/concurrencyexamples/importjobevents/events.py:115-118 | The first process with a nonzero exit code, or None exactly when all exited with zero. |
| CircuitBreaker.Invariant | src/concurrencyexamples/circuitbreaker/breaker.py:54-121 | In every run: closed means fewer failures than the threshold and no opening time; open and half-open mean exactly the threshold and an opening time; exactly one trial is in flight when half-open and none otherwise. |
| CircuitBreaker.NeverInvalid | src/concurrencyexamples/circuitbreaker/breaker.py:87-88 | The invalid-state error never occurs. |
| CircuitBreaker.OnlyTheTrialDecides | src/concurrencyexamples/circuitbreaker/breaker.py:84-113 | From half-open, exactly the end of the one trial leaves that state: its success closes and resets, its failure opens anew from that time; any other event leaves the breaker as it is. |
| CircuitBreaker.CounterIsTrailing | src/concurrencyexamples/circuitbreaker/breaker.py:95-121 | In every run the counter equals the failures since the last success, in the order calls ended, whenever the circuit is closed, and the threshold whenever it is not. |
| CircuitBreaker.CounterStandsStill | src/concurrencyexamples/circuitbreaker/breaker.py:97-113 | A run in which the last call to end succeeded and the counter is 1. |
| CircuitBreaker.CounterStaysRight | src/concurrencyexamples/circuitbreaker/breaker.py:95-121 | A counter that equals the failures in a row still does after the next event if and only if that event is a new call, or finds the circuit closed, or is the success of the trial. |
| CircuitBreaker.CounterAlwaysRight | src/concurrencyexamples/circuitbreaker/breaker.py:95-121 | Over a whole run: the counter was the number of failures in a row at every moment if and only if no call ended while the circuit was not closed, other than by the success of a trial. |
| CircuitBreaker.OpensAtThreshold | src/concurrencyexamples/circuitbreaker/breaker.py:112-117 | A closed circuit opens at exactly the failure that makes the threshold-th failure in a row in the history, with that time as its opening time, and at no other event. |
| CircuitBreaker.TrialsSpacedOut | src/concurrencyexamples/circuitbreaker/breaker.py:87-93 | Two successive half-open admissions are at least a recovery timeout apart. |
| CircuitBreaker.TrialsTakeTime | src/concurrencyexamples/circuitbreaker/breaker.py:80-121 | From the i-th to the j-th trial at least j - i recovery timeouts pass. |
| CircuitBreaker.TrialsApart | src/concurrencyexamples/circuitbreaker/breaker.py:80-121 | Any two half-open admissions of a run are at least a recovery timeout apart. |
| CircuitBreaker.NoCallWhileOpen | src/concurrencyexamples/circuitbreaker/breaker.py:87-121 | After an open state, no call of any kind is admitted before its opening time plus the recovery timeout, whatever completes meanwhile. |
| CircuitBreaker.TrialAdmittedOnceRecovered | src/concurrencyexamples/circuitbreaker/breaker.py:87-93 | An open circuit admits a trial if and only if the recovery timeout has passed, and refuses if and only if it has not. |
| CircuitBreaker.PendingTrialBlocks | src/concurrencyexamples/circuitbreaker/breaker.py:84-113 | Until the trial ends, the breaker does not change and every call is refused. |
| CircuitBreaker.StaleFailureCounts | src/concurrencyexamples/circuitbreaker/breaker.py:107-117 | A run in which a failure of a call admitted before the circuit opened and closed again opens it once more. |
| CircuitBreaker.StaleIffNotClosed | src/concurrencyexamples/circuitbreaker/breaker.py:95-117 | However often the circuit has opened and closed since a call was admitted in closed state, its outcome is ignored if the circuit is not closed when it ends, and otherwise the counter then equals the failures in a row, this one included. |
| CircuitBreakerObject.CircuitBreaker.constructor | src/concurrencyexamples/circuitbreaker/breaker.py:45-56 | A new breaker is closed with no failures, no opening time and no call in flight. |
| CircuitBreakerObject.CircuitBreaker.BeforeCall | src/concurrencyexamples/circuitbreaker/breaker.py:80-93 | Admits when closed, refuses when half-open or open and not recovered, and otherwise admits as the trial and makes the circuit half-open; never the invalid-state error; the counter and the opening time stay. |
| CircuitBreakerObject.CircuitBreaker.RecordSuccess | src/concurrencyexamples/circuitbreaker/breaker.py:95-105 | Ends a call in flight: ignored if admitted closed and the circuit is not closed, and otherwise the circuit is closed with no failures and no opening time. |
| CircuitBreakerObject.CircuitBreaker.RecordFailure | src/concurrencyexamples/circuitbreaker/breaker.py:107-117 | Ends a call in flight: a trial opens the circuit from now; a call admitted closed is ignored if the circuit is not closed, and otherwise counts one, opening the circuit from now exactly at the threshold. |
| CircuitBreakerObject.CircuitBreaker.Trip | src/concurrencyexamples/circuitbreaker/breaker.py:119-121 | The circuit is open, with the given opening time. |
| CircuitBreakerObject.CircuitBreaker.Call | src/concurrencyexamples/circuitbreaker/breaker.py:58-68 | A call with no other in between runs its operation unless the circuit is half-open or open and not recovered; it passes on value or error, and its steps are an admission and an outcome or one refusal; success closes the circuit, failure of a trial reopens it, any other failure counts and opens at the threshold. |
| PriorityQueues.RealTimeOrder | src/concurrencyexamples/supportqueue/queue.py:60-74 | If the submission of A returned before that of B began and A is at least as urgent, then B is claimed only after A, whatever other submissions overlap. |
| PriorityQueues.ClaimedInKeyOrder | src/concurrencyexamples/supportqueue/queue.py:66-74 | Of two tickets, the one with the smaller priority, or the same priority and the smaller number, is claimed first if it was inserted before the other was claimed. |
| PriorityQueues.NumbersRespectRealTime | src/concurrencyexamples/supportqueue/queue.py:62-66 | A submission that has returned has a smaller number than any that begins later. |
| PriorityQueues.Invariant | src/concurrencyexamples/supportqueue/queue.py:60-74 | In every run each numbered ticket is being inserted, queued once, or claimed once, under its own number and priority. |
| PriorityQueues.TicketsConserved | src/concurrencyexamples/supportqueue/queue.py:60-74 | No ticket is lost and none is claimed twice: it is in exactly one of those three places. |
| PriorityQueues.KeysNeverTie | src/concurrencyexamples/supportqueue/queue.py:66 | Two different queued entries always differ in priority or number, so tickets themselves are never compared. |
| PriorityQueues.InsertedUntilClaimed | src/concurrencyexamples/asyncshippingqueue/queue.py:60-84 | An inserted entry stays queued until it is claimed; timeouts do not touch it. |
| PriorityQueues.UnfinishedCount | src/concurrencyexamples/supportqueue/queue.py:76-82 | The unfinished count is insertions minus accepted task_done calls. |
| PriorityQueues.WaitingCount | src/concurrencyexamples/supportqueue/queue.py:84-86 | What is queued is insertions minus claims. |
| PriorityQueues.MarksCountInsertions | src/concurrencyexamples/supportqueue/queue.py:76-82 | task_done is accepted if and only if there are fewer marks than insertions, and join may return if and only if the marks are as many as the claims and the waiting tickets together; so when all claimed tickets have been marked it may return exactly if none is waiting. |
| PriorityQueues.UnclaimedCanBeMarked | src/concurrencyexamples/supportqueue/queue.py:76-82 | A run in which a ticket nobody has claimed is marked as handled and join may return. |
| PriorityDrain.ClaimsAscend | src/concurrencyexamples/supportqueue/queue.py:68-74 | Claims with no submission in between come in ascending key order, each before all that stays, and take exactly what left the queue. |
| PriorityDrain.DrainIsStableSort | src/concurrencyexamples/supportqueue/queue.py:60-74 | From any state, claiming until nothing is left gives the stable sort by priority of exactly the tickets inserted and not yet claimed, in order of submission. |
| PriorityDrain.DrainOrder | src/concurrencyexamples/supportqueue/queue.py:60-74 | A drain claims exactly the entries that were queued, each as often as queued, by growing priority and within a priority by growing number. |
| PriorityDrain.BacklogMeans | src/concurrencyexamples/supportqueue/queue.py:60-74 | In every state the tickets left to claim are, by growing number, exactly those whose submission has returned and that have not been claimed, and these are the queued ones. |
| PriorityDrain.FullDrainSortsAll | src/concurrencyexamples/supportqueue/queue.py:60-74 | Submitting any tickets and claiming until nothing is left gives the stable sort of the submissions by priority. |
| PriorityQueueObject.SupportQueue.constructor | src/concurrencyexamples/supportqueue/queue.py:54-58 | A new queue is empty and starts numbering at zero. |
| PriorityQueueObject.SupportQueue.TakeNumber | src/concurrencyexamples/supportqueue/queue.py:62-64 | The first half of submit, under the sequence lock: the ticket gets the next number and that number is used up; the queue does not change. |
| PriorityQueueObject.SupportQueue.Put | src/concurrencyexamples/supportqueue/queue.py:66 | The second half of submit: the entry of priority, number and ticket enters the queue and is one more unfinished. |
| PriorityQueueObject.SupportQueue.Submit | src/concurrencyexamples/supportqueue/queue.py:60-66 | A submission with no other in between takes the next number and enters the queue with it; nothing is left half-inserted. |
| PriorityQueueObject.SupportQueue.ClaimNext | src/concurrencyexamples/supportqueue/queue.py:68-74 | Returns None exactly when the queue is empty, changing nothing; otherwise removes one entry and returns its ticket, and every entry that stays has a larger priority, or the same and a larger number. |
| PriorityQueueObject.SupportQueue.TimeOut | src/concurrencyexamples/asyncshippingqueue/queue.py:73-82 | A dispatch that gives up waiting returns None and changes nothing. |
| PriorityQueueObject.SupportQueue.MarkDone | src/concurrencyexamples/supportqueue/queue.py:76-78 | Raises exactly when as many tickets have been marked done as were inserted, and otherwise is one less unfinished; the queue does not change. |
| PriorityQueueObject.SupportQueue.Size | src/concurrencyexamples/supportqueue/queue.py:84-86 | The number of tickets inserted and not yet claimed. |
| PriorityQueueObject.SupportQueue.ClaimAll | src/concurrencyexamples/supportqueue/queue.py:68-72 | From any state, claiming until None terminates and returns the tickets of exactly the queued entries, by growing priority and within it by growing number: the stable sort of the tickets inserted and not yet claimed. |
| RequestTracking.Invariant | src/concurrencyexamples/requesttracker/tracker.py:37-63 | In every run the active count is the number of admitted requests that have not ended, and nobody is asleep while it is zero: no wakeup is lost. |
| RequestTracking.AdmittedUntilShutdown | src/concurrencyexamples/requesttracker/tracker.py:40-43 | A request is admitted exactly when shutdown has not begun and rejected exactly when it has. |
| RequestTracking.DrainedForGood | src/concurrencyexamples/requesttracker/tracker.py:41-63 | Drained after shutdown is stable: from then on nobody is asleep and nobody is told False. |
| RequestTracking.WaitersReturnTrue | src/concurrencyexamples/requesttracker/tracker.py:60-63 | When drained, every waiter not yet answered needs only the lock to return True, even if its time is up. |
| RequestTracking.AnswersAreCurrent | src/concurrencyexamples/requesttracker/tracker.py:60-63 | Over every run, a waiter that has been answered was told True if and only if no request was in progress at its last step, and False only once its time had expired or with that very step. |
| RequestTracking.TimeoutsHappen | src/concurrencyexamples/requesttracker/tracker.py:60-63 | A waiter can run out of time whenever it is asleep, and only then. |
| RequestTracking.TimeoutIsAnswered | src/concurrencyexamples/requesttracker/tracker.py:60-63 | A timeout ends the wait: after it the next step of the waiter with the lock answers, with True exactly when no request is in progress. |
| RequestTracking.ShutdownWakesNobody | src/concurrencyexamples/requesttracker/tracker.py:53-58 | The notification in begin_shutdown never finds anyone to wake. |
| RequestTracking.RequestTracker.constructor | src/concurrencyexamples/requesttracker/tracker.py:31-35 | A new tracker has no active request, no shutdown and no waiter. |
| RequestTracking.RequestTracker.EnterRequest | src/concurrencyexamples/requesttracker/tracker.py:40-43 | Raises exactly when shutdown has begun, and otherwise is one more active request; waiters do not change. |
| RequestTracking.RequestTracker.ExitRequest | src/concurrencyexamples/requesttracker/tracker.py:47-51 | One active request less; at zero every sleeping waiter is notified, before that none, and nothing else changes. |
| RequestTracking.RequestTracker.StartShutdown | src/concurrencyexamples/requesttracker/tracker.py:53-58 | Shutdown has begun; the active count and all waiters stay as they are. |
| RequestTracking.RequestTracker.WaitUntilDrained | src/concurrencyexamples/requesttracker/tracker.py:60-63 | Answers True at once when no request is in progress and otherwise falls asleep. |
| RequestTracking.RequestTracker.ResumeWaiting | src/concurrencyexamples/requesttracker/tracker.py:62-63 | A waiter with the lock again answers True exactly when no request is in progress, False exactly when one is and its time is up, and sleeps again otherwise; nothing else changes. |
| RequestTracking.RequestTracker.GiveUp | src/concurrencyexamples/requesttracker/tracker.py:62-63 | The timeout of a sleeping waiter: it has expired and nothing else changes. |
| Approvals.Invariant | src/concurrencyexamples/batchapproval/approval.py:36-54 | In every run the approved set is the reviewers whose approval was recorded, each recorded once and required, and nobody is asleep once approved: no wakeup is lost. |
| Approvals.ReleasedAtLastApproval | src/concurrencyexamples/batchapproval/approval.py:41-72 | Approved if and only if as many approve calls have returned True as there are required reviewers; never more. |
| Approvals.ApprovedForGood | src/concurrencyexamples/batchapproval/approval.py:47-54 | Approval is stable: from then on nobody is asleep and no thread is told False. |
| Approvals.TaskRefusedIffTimedOut | src/concurrencyexamples/asyncreviewbatch/review.py:57-72 | Over every run, an asynchronous waiter that has been answered was told False if and only if its timeout had expired, whatever was approved by then. |
| Approvals.ThreadAnswerIsCurrent | src/concurrencyexamples/batchapproval/approval.py:51-54 | Over every run, a threaded waiter that has been answered was told whether the batch was approved at its last step with the lock, and False only at the end of its time. |
| Approvals.TrueMeansApproved | src/concurrencyexamples/batchapproval/approval.py:47-54 | Once a waiter of either form has been told True, the batch is approved in every later state. |
| Approvals.TimeoutsHappen | src/concurrencyexamples/asyncreviewbatch/review.py:61-70 | A thread can run out of time whenever it is asleep and only then, a task also when notified and without the lock. |
| Approvals.TimeoutIsAnswered | src/concurrencyexamples/asyncreviewbatch/review.py:61-70 | A timeout ends the wait: the next step with the lock answers, False for a task, and for a thread True exactly when all approvals are in. |
| Approvals.NotifiedReturnsTrue | src/concurrencyexamples/batchapproval/approval.py:47-54 | Once all approvals are in, every waiter that has neither been answered nor run out of time answers True at its next step, which it can take. |
| Approvals.LateTimeoutAnswersFalse | src/concurrencyexamples/asyncreviewbatch/review.py:61-70 | A run in which an asynchronous waiter answers False although the batch is approved. |
| Approvals.ApprovalBatch.constructor | src/concurrencyexamples/batchapproval/approval.py:24-34 | A new batch has no approvals and no waiters. |
| Approvals.ApprovalBatch.ApproveBy | src/concurrencyexamples/batchapproval/approval.py:36-49 | Raises for an empty name and for a reviewer not required; otherwise returns whether this is the reviewer's first approval, records it, and if so notifies every sleeping waiter; nothing else changes. |
| Approvals.ApprovalBatch.BeginWaiting | src/concurrencyexamples/batchapproval/approval.py:51-54 | Answers True at once if all approvals are in and otherwise falls asleep. |
| Approvals.ApprovalBatch.ResumeWaiting | src/concurrencyexamples/asyncreviewbatch/review.py:61-72 | A waiter with the lock again answers True, answers False or sleeps again, exactly by the approvals and timeouts in the history; nothing else changes. |
| Approvals.ApprovalBatch.GiveUp | src/concurrencyexamples/asyncreviewbatch/review.py:61-70 | The timeout of a waiter: it has expired and nothing else changes. |
| Approvals.ApprovalBatch.RemainingReviewers | src/concurrencyexamples/batchapproval/approval.py:66-69 | The remaining reviewers and those who approved partition the required ones. |
| Leaderboards.ScoresAreMaxima | src/concurrencyexamples/leaderboard/scores.py:48-51 | The table has exactly the players recorded, each with the maximum of all scores recorded for it. |
| Leaderboards.OrderIrrelevant | src/concurrencyexamples/leaderboard/scores.py:48-51 | Any permutation and any duplication of the recordings gives the same table. |
| Leaderboards.SameTop | src/concurrencyexamples/leaderboard/scores.py:48-74 | And therefore the same top list. |
| Ranking.TopUnique | src/concurrencyexamples/leaderboard/scores.py:67-74 | For any table and limit there is only one strictly ranked list of that many entries whose members rank before every entry left out. |
| Ranking.TopMeans | src/concurrencyexamples/leaderboard/scores.py:67-74 | What a top list is, on scores and IDs: as many entries as the limit or the players, each with its player's score, scores not increasing, equal scores in ascending ID order, and every player left out scores less than every listed one, or the same with a later ID. |
| Ranking.LexLessExactly | src/concurrencyexamples/leaderboard/scores.py:69 | The ID order on the characters: one ID comes before another if and only if they agree up to some place where it ends first or has the smaller character. |
| Ranking.TopIsPrefix | src/concurrencyexamples/leaderboard/scores.py:71-74 | The top for a smaller limit is a prefix of the top for a larger one. |
| Ranking.CutOfTop | src/concurrencyexamples/leaderboard/scores.py:67-74 | Cutting the ranked list of all players at the limit gives the top. |
| Leaderboards.Leaderboard.constructor | src/concurrencyexamples/leaderboard/scores.py:36-39 | A new leaderboard has no scores. |
| Leaderboards.Leaderboard.RecordScore | src/concurrencyexamples/leaderboard/scores.py:41-51 | Raises for an empty player and for a negative score, changing nothing; otherwise the player's score becomes the new one exactly if there was none or a lower one, and the recording joins the history that the table is the maximum of. |
| Leaderboards.Leaderboard.ScoreFor | src/concurrencyexamples/leaderboard/scores.py:53-59 | The highest score recorded for the player, or None exactly when none was. |
| Leaderboards.Leaderboard.SortedEntries | src/concurrencyexamples/leaderboard/scores.py:67-70 | All entries, strictly ranked by score descending and then player ID. |
| Leaderboards.Leaderboard.Top | src/concurrencyexamples/leaderboard/scores.py:61-74 | Raises exactly for a limit that is not positive, and otherwise returns the top of the maxima of the history: scores not increasing, ties by ascending ID, and nobody left out ranks before anybody listed. |
| Leaderboards.Leaderboard.Snapshot | src/concurrencyexamples/leaderboard/scores.py:76-79 | The table of maxima of the history. |
| Retries.OneResultPerTask | src/concurrencyexamples/retryexecutor/executor.py:61-102 | For any outcomes, pool size and completion order, when all is collected there is one result per task ID and no other, and it is explained by the calls made of that task: all but the last failed, the last succeeded or was the last allowed. |
| Retries.AttemptsEndAtFirstSuccess | src/concurrencyexamples/retryexecutor/executor.py:91-102 | In terms of a task's stream of outcomes: attempts is the index of the first success if that is within the limit and the limit otherwise, and there is an error, the last one, exactly when every outcome within the limit is a failure. |
| Retries.StreamDeterminesResult | src/concurrencyexamples/retryexecutor/executor.py:86-102 | The stream of outcomes determines the whole result. |
| Retries.ScheduleIndependent | src/concurrencyexamples/retryexecutor/executor.py:68-78 | For any streams, one per task: two complete runs give the same results, whatever their schedules, completion orders and numbers of workers. |
| Retries.TaskInvariant | src/concurrencyexamples/retryexecutor/executor.py:91-102 | In every run a task's attempt count and last error fit the calls made so far, below the limit while it runs, and its result appears only once collected. |
| Retries.RunTerminates | src/concurrencyexamples/retryexecutor/executor.py:69-78 | Every run is bounded by the attempts allowed. |
| Retries.SomethingToDo | src/concurrencyexamples/retryexecutor/executor.py:69-78 | Until everything is collected, some task can be attempted, started or collected. |
| RetryObject.RetryExecutor.constructor | src/concurrencyexamples/retryexecutor/executor.py:47-55 | Keeps the two limits. |
| RetryObject.RetryExecutor.RunWithRetries | src/concurrencyexamples/retryexecutor/executor.py:86-102 | Calls until the first success or the limit: all calls but the last failed, attempts is their number, the value is that of the success, and without one the error is the last and attempts is the limit. |
| RetryObject.RetryExecutor.RunAll | src/concurrencyexamples/retryexecutor/executor.py:61-84 | Raises exactly for no tasks or an empty ID, with the right error; otherwise one result per task and no other, explained by exactly the first `attempts` outcomes of that task's own stream. |
| RetryObject.RetryExecutor.CollectAll | src/concurrencyexamples/retryexecutor/executor.py:68-78 | The pool, with each task behaving as its own stream, runs until all results are collected, and terminates with one result per ID. |
| RetryObject.RetryExecutor.Run | src/concurrencyexamples/retryexecutor/executor.py:57-59 | Raises exactly for an empty ID; otherwise the result read off the task's own outcomes: first success within the limit, or the last error at the limit. |
| Rollbacks.Invariant | src/concurrencyexamples/deploymentrollback/rollback.py:54-70 | In every run each registered action is stacked, in registration order, or claimed, once; the running ones are claimed; unfinished is stacked plus running. |
| Rollbacks.LastInFirstOut | src/concurrencyexamples/deploymentrollback/rollback.py:58-63 | An action is claimed only when every action registered after it has already been claimed, whatever registers or runs concurrently. |
| Rollbacks.ActionsConserved | src/concurrencyexamples/deploymentrollback/rollback.py:54-70 | Each registered action is stacked if and only if it has not been claimed, and is claimed at most once. |
| Rollbacks.NothingLeftMeansAllClaimed | src/concurrencyexamples/deploymentrollback/rollback.py:62-77 | Whenever the stack is found empty, as by drain before it returns, every action registered so far has been claimed, whatever registers or runs concurrently. |
| Rollbacks.ReverseAt | src/concurrencyexamples/deploymentrollback/rollback.py:72-77 | What reverse order means, position by position. |
| Rollbacks.DeploymentRollback.constructor | src/concurrencyexamples/deploymentrollback/rollback.py:50-52 | A new rollback is empty. |
| Rollbacks.DeploymentRollback.RegisterAction | src/concurrencyexamples/deploymentrollback/rollback.py:54-56 | Puts the action on top of the stack and is one more unfinished; nothing else changes. |
| Rollbacks.DeploymentRollback.ClaimNext | src/concurrencyexamples/deploymentrollback/rollback.py:60-63 | None exactly on an empty stack, and otherwise removes the top and starts running it. |
| Rollbacks.DeploymentRollback.MarkDone | src/concurrencyexamples/deploymentrollback/rollback.py:65-68 | The handler has returned or raised: the action is no longer running and no longer unfinished. |
| Rollbacks.DeploymentRollback.RunNext | src/concurrencyexamples/deploymentrollback/rollback.py:58-70 | False on an empty stack; otherwise runs exactly the top action, which is gone even if its handler raises. |
| Rollbacks.DeploymentRollback.Drain | src/concurrencyexamples/deploymentrollback/rollback.py:72-77 | Terminates; runs the exact reverse of registration order, also stated position by position, and returns the count exactly when no handler raises; if the k-th raises, the first k are gone and the older ones remain in order. |
| SeatBookings.Invariant | src/concurrencyexamples/asyncseatbooking/booking.py:66-92 | In every run the two dictionaries are inverse to each other and equally large, only known seats are booked, and booked seats are confirmed bookings minus removed ones. |
| SeatBookings.SameNumberOfKeys | src/concurrencyexamples/asyncseatbooking/booking.py:77-91 | Inverse dictionaries have equally many keys. |
| SeatBookings.CancelNeverMissesAKey | src/concurrencyexamples/asyncseatbooking/booking.py:86-92 | In every reachable state cancel removes exactly the IDs that are booked, and its del never hits a missing key. |
| SeatBookings.BookedUntilCancelled | src/concurrencyexamples/asyncseatbooking/booking.py:66-92 | A confirmed booking stays as it is until it is cancelled. |
| SeatBookings.SeatSoldOnce | src/concurrencyexamples/asyncseatbooking/booking.py:66-79 | No double booking: between two confirmed bookings of one seat the first was cancelled. |
| SeatBookings.IdReusedOnlyAfterCancel | src/concurrencyexamples/asyncseatbooking/booking.py:67-68 | Between two confirmed bookings with one ID the first was cancelled. |
| SeatBookings.IdTakenExactly | src/concurrencyexamples/asyncseatbooking/booking.py:66-92 | An ID is taken if and only if some confirmed booking with it has not been cancelled since. |
| SeatBookings.IdCanBeReused | src/concurrencyexamples/asyncseatbooking/booking.py:81-92 | A run in which one ID is confirmed twice. |
| SeatBookings.AsyncSeatBooking.constructor | src/concurrencyexamples/asyncseatbooking/booking.py:40-50 | A new service has no bookings. |
| SeatBookings.AsyncSeatBooking.BookSeat | src/concurrencyexamples/asyncseatbooking/booking.py:52-79 | Raises for an empty booking ID, an empty customer or an unknown seat; otherwise confirms exactly when both ID and seat are free, adding this booking to both dictionaries, and in every other case changes nothing. |
| SeatBookings.AsyncSeatBooking.CancelBooking | src/concurrencyexamples/asyncseatbooking/booking.py:81-92 | Raises exactly for an empty ID; otherwise says whether there was a booking, and if so removes it and its seat from the dictionaries, and if not changes nothing. |
| SeatBookings.AsyncSeatBooking.BookingForSeat | src/concurrencyexamples/asyncseatbooking/booking.py:94-103 | Raises exactly for an unknown seat; otherwise the booking of that seat, or None exactly when there is none; the second lookup cannot fail. |
| SeatBookings.AsyncSeatBooking.BookedSeats | src/concurrencyexamples/asyncseatbooking/booking.py:105-108 | The known seats some booking is for, one per booking, in number confirmed bookings minus removed ones. |
| SeatBookings.AsyncSeatBooking.AvailableSeats | src/concurrencyexamples/asyncseatbooking/booking.py:110-113 | The known seats no booking is for: with the booked seats of the same moment they partition the seats. |

## Left out

- Real threads, processes and event loops, pickling, the closing of the process queue, task names and daemon flags: replaced by interleaved steps.
- Fairness of the scheduler: the drains are shown to have no deadlock and boundedly many steps; that an enabled step is eventually taken is the scheduler's part.
- Wall-clock timeouts: a timeout is a step at which a caller gives up, or a bound on the steps it waits for; a negative timeout's `ValueError` is not modelled.
- Rounding of floating-point clock readings: the breaker's clock reads real numbers.
- Task cancellation and exceptions outside `Exception`: callbacks end normally or with an `Exception`.
- Constructor validation, error message texts and the fields of tickets, shipments and actions that play no part in ordering.
- The algorithms inside the standard library's heap, sort, dict and futures: a least entry, a ranked list, a map, a bounded pool.
- `task_done` on the pipeline's queues, which nothing joins, and `join` on the support, shipping and rollback queues beyond the unfinished count it waits for.
- Plain getters that return one field under the lock (`state`, `consecutive_failures`, `active_requests`, `is_shutting_down`, `approved_by`, `is_approved`, the rollback's `size`, the job queue's `failures`).
- CircuitBreakerObject.CircuitBreaker.Call: states one call with no other in between; overlapping calls are the runs of the lemmas about the breaker.
- PriorityQueueObject.SupportQueue.Submit: states one submission with no other in between; overlapping ones are runs of `TakeNumber` and `Put`.
- RetryObject.RetryExecutor.RunAll: follows one schedule of the pool; that every schedule gives the same results is `Retries.ScheduleIndependent`.
- ImportJobs.Collect: follows one schedule of the processes; that every schedule gives such events is `ImportJobs.CollectedReports`. Exit codes are given; a process that dies without its sentinel, for which the source waits for ever, is not modelled.
- Rollbacks.DeploymentRollback.RunNext: states a call during which nobody else registers or claims; runs in which they do are those of `Rollbacks.LastInFirstOut`, `ActionsConserved` and `NothingLeftMeansAllClaimed`.
- Rollbacks.DeploymentRollback.Drain: the same for a whole drain, whose exact order is promised only without concurrent registration.
- The thin wrappers over library primitives (`boundedqueue`, `barrierdeployment`, `servicestartup`, `ratelimiter`, `downloadpool`, `taskgroup`, `threadlocalrequest`, `asynccontextrequest`, `scheduledcleanup`): their behaviour is the library's.
- The components with one branch or one counter (`inventoryreservation`, `paymentwebhook`, `featureflags`, `fraudscorebatch`, `asyncpaymentstatus`, `connectionpool`, `asyncbatchuploader`): they would add only easy members.
