# Verified model of the Lychee facial-recognition service

This project models the stateful parts of the service in Dafny and proves what
they keep: the job queue with its workers and backends, the embedding store
with its sync protocol and search, and three self-contained algorithms (face
crop, cross-cluster suggestions, detector pipeline).

## How the model is built

Every database transaction, SQL statement or Redis command is one atomic step.
Each stateful class of the service is a Dafny class whose fields are the tables
it changes. Its methods are proved against functions on values (`Step`,
`Sqlite`, `Pg`, ...), and the theorems about whole runs are lemmas about those
functions. Interleavings are arbitrary sequences of steps; a step of a worker or
process that is not at the right place does nothing.

| file | what it models |
|---|---|
| `Basics.dfy` | slices and truncation |
| `Jobs.dfy` | jobs, the operations of the queue interface, finite-set facts |
| `AbstractQueue.dfy` | the queue every backend should be: pending sequence and in-flight set |
| `DbQueue.dfy` | the job table and `SQLiteJobQueue`; `PgJobQueue` issues the same statements |
| `RedisQueue.dfy` | the list, the hash and the counter as seen by one process |
| `QueueRefinement.dfy` | table and Redis against the abstract queue, and against each other |
| `JobHistory.dfy` | the life of every accepted job through purges and restarts |
| `Workers.dfy` | N worker tasks, clients, cancellation, crashes; exclusive delivery |
| `AutoClustering.dfy` | when a finished detect job is clustered, and exactly when it is not |
| `WorkerProgress.dfy` | that everything accepted is run and clustered when clients stop |
| `WorkerCapacity.dfy` | how many jobs there can be, through crashes |
| `WorkerBackends.dfy` | the operations clients and workers issue, on either backend |
| `EnqueueRace.dfy` | several processes whose bounded enqueue is two statements |
| `RedisCommands.dfy` | several processes whose Redis operations are several commands |
| `Embeddings.dfy` | stored faces, and the effect of each operation under both backends |
| `SqliteStore.dfy`, `PgStore.dfy` | the two stores; the SQLite one has two tables |
| `SyncSession.dfy` | batches, purge, and adds and deletes in between |
| `Search.dfy` | over-fetch, filter, early break |
| `Crop.dfy`, `Suggestions.dfy`, `Detector.dfy` | the three algorithms |

Assumed of the foreign parts: a transaction, statement, Lua script or Redis
command is atomic and succeeds; an auto-increment id is one more than the
highest id ever given out; the vector index hands over the requested number of
nearest rows in ascending distance; a new vector row gets a row id not in use.
Distances, similarities and coordinates are real numbers.

## What turned out

These are findings about the code; each is a lemma of the table below.

- `complete` of an id that is still waiting removes the row from the table but
  not the element of the Redis list. The backends agree exactly when no such
  call is made, and the worker loop never makes one: it completes only what a
  dequeue gave it, and two workers never hold the same job.
- A finished detect job can go without clustering. Exactly these moves take a
  due clustering away, for any number of workers: a detect handler that raises
  (or a job of an unknown kind), an idle check that is switched off or finds
  nothing but clusterings that began before the detect job ended, a worker
  cancelled in a job or before its check, a purge of waiting jobs, and a restart
  with a check outstanding. At rest, clustering is owed if and only if one of
  them happened and nothing has brought it back since. The setting's own
  description promises it after the last detect job (app/config.py:153-155).
- With one worker and no disturbance the only such move is a raising handler.
  The detection job handles every exception itself, so the handler raises only on
  a payload that is not a JSON object with a photo path
  (app/queue/worker.py:52-55), and `/detect` never writes one
  (app/api/routes.py:125-129). With two workers the refused check is possible
  too.
- A worker cancelled while its dequeue runs in a thread leaves the job in flight
  with nobody to run it. Until the next restart the queue never counts as idle, so
  no clustering is dispatched.
- P processes can exceed the queue limit by P - 1 waiting jobs, and one process
  with N workers can have N jobs more than the limit waiting after a restart.
  Both bounds are reached.
- The Redis idle script can report an idle queue while another process is
  between the two commands of its dequeue; conversely a job whose process died
  keeps the queue from ever counting as idle.
- Replacing a stored face during a sync session protects it from the purge
  under SQLite, but not under PostgreSQL.
- `sync_batch` documents its answer as the number of rows marked
  (app/embeddings/store.py:124-125). SQLite counts a stored id once per chunk
  of 999 in which it is repeated.
- The interface describes the threshold of `similarity_search` as a minimum and
  also says that only entries above it are included
  (app/embeddings/store.py:61-67); the code keeps entries at it. The second
  wording holds exactly when none of the `limit` nearest rows lies at the
  threshold itself.
- A `max_per_face` of zero or less still yields one suggestion per face, because
  the limit is looked at only after one was added. The service itself always uses
  the default of 3 (app/api/routes.py:612-618), so this concerns other callers
  only.
- The search for suggestions asks for ten results more than it needs. That is too
  few exactly when more than ten of the nearest matches do not qualify (the face
  itself and those of its own cluster or of none) while one further away does.

## Model

| member | source | states |
|---|---|---|
| AbstractQueue.FirstFor | app/queue/redis_queue.py:114-121 | the answer is the index of the first job of the photo, none exactly if there is no such job |
| AbstractQueue.Fifo | app/queue/base.py:30-32 | in every purge-free sequence of operations the dequeues hand out the jobs that were pending at its start, in their order |
| AbstractQueue.PositionForetells | app/queue/base.py:46-51 | an answer k >= 1 means that the k-th dequeue to come is the first to return a job of that photo, and none up to it comes back empty |
| AbstractQueue.SizeForetells | app/queue/base.py:38-40 | `size` is the number of dequeues in a row that will deliver a job |
| AbstractQueue.WhatGoesInComesOut | app/queue/base.py:19-36 | in every purge-free run, the requests that waited before and those accepted are, in this order and unchanged, those delivered and those still waiting |
| AbstractQueue.RefusedExactlyWhenFull | app/config.py:161-163 | in every run an enqueue is refused exactly when there is a positive limit and that many jobs wait at that moment, so never at the default of 0 |
| AbstractQueue.ShiftRun | app/queue/redis_queue.py:67-68 | answers depend on where the id counter starts only by that constant in the ids |
| DbQueue.StepKeepsOrder | app/queue/db_queue.py:138-152 | each operation keeps every id in flight below every waiting id, and ids never fall |
| DbQueue.LifeKeepsOrder | app/queue/db_queue.py:77-98 | the same through any sequence of operations, purges and restarts |
| DbQueue.PositionMeans | app/queue/db_queue.py:186-203 | after any such sequence `position` is 0 exactly when some job of the photo is in flight, None exactly when it has none, and otherwise counts the jobs up to its oldest waiting one, although only the lowest row is read |
| DbQueue.SQLiteJobQueue.constructor | app/queue/db_queue.py:77-98 | opening keeps every row with its job, and all of them wait |
| DbQueue.SQLiteJobQueue.Enqueue | app/queue/db_queue.py:100-114 | refused exactly at a positive limit, otherwise the table has one more row: the request, waiting, under an id never stored before |
| DbQueue.SQLiteJobQueue.EnqueueIfIdle | app/queue/db_queue.py:116-136 | accepted exactly when the table has no row at all, waiting or in flight; then the request is its only row |
| DbQueue.SQLiteJobQueue.Dequeue | app/queue/db_queue.py:138-158 | None exactly when nothing waits, otherwise the lowest waiting job as stored, whose status is all that changes |
| DbQueue.SQLiteJobQueue.Complete | app/queue/db_queue.py:160-167 | the row with that id is gone, every other row stays as it is; an absent id changes nothing |
| DbQueue.SQLiteJobQueue.Purge | app/queue/db_queue.py:177-184 | exactly the rows in flight stay, unchanged |
| DbQueue.SizeForetells | app/queue/db_queue.py:169-175 | the number of waiting rows is the number of dequeues in a row that will deliver a job |
| DbQueue.SQLiteJobQueue.Size | app/queue/db_queue.py:169-175 | the answer n means that k dequeues in a row succeed exactly for k up to n |
| DbQueue.SQLiteJobQueue.Position | app/queue/db_queue.py:186-205 | the position function of the table, 0 exactly when a job of the photo is in flight |
| RedisQueue.StepRefines | app/queue/redis_queue.py:51-121 | each operation of one process changes list, hash and counter as the abstract queue says and gives its answer |
| RedisQueue.RunRefines | app/queue/redis_queue.py:51-121 | so does every sequence of operations |
| RedisQueue.LostJobBlocksIdle | app/queue/redis_queue.py:51-61 | while a job stays in the hash uncompleted, every idle enqueue is refused |
| RedisQueue.RedisJobQueue.Enqueue | app/queue/redis_queue.py:63-70 | appends under the next number unless the limit is reached, as on the abstract queue |
| RedisQueue.RedisJobQueue.EnqueueIfIdle | app/queue/redis_queue.py:51-79 | accepts exactly when list and hash are empty, as on the abstract queue |
| RedisQueue.RedisJobQueue.Dequeue | app/queue/redis_queue.py:81-95 | moves the head of the list to the hash, as on the abstract queue |
| RedisQueue.RedisJobQueue.Complete | app/queue/redis_queue.py:97-98 | removes the job from the hash only |
| RedisQueue.RedisJobQueue.Purge | app/queue/redis_queue.py:103-104 | empties the list as on the abstract queue: from now on only photos in flight have a position |
| RedisQueue.RedisJobQueue.Size | app/queue/redis_queue.py:100-101 | the size of the abstract queue: k dequeues in a row succeed exactly for k up to n |
| RedisQueue.RedisJobQueue.Position | app/queue/redis_queue.py:106-121 | the two scans give the abstract position; a positive rank points at the first job of the photo |
| QueueRefinement.PositionAgrees | app/queue/db_queue.py:186-203 | lowest row and count give the position of the abstract queue |
| QueueRefinement.StepRefines | app/queue/db_queue.py:100-205 | every operation on the table matches the abstract queue, `complete` provided its job does not wait |
| QueueRefinement.CompleteAgreesExactlyWhen | app/queue/db_queue.py:160-167 | after `complete` table and abstract queue agree if and only if the id was not waiting; else the sizes already differ |
| QueueRefinement.DeliveredNeverWaitsAgain | app/queue/worker.py:27-41 | a caller that completes only what a dequeue gave it never completes a waiting job; the workers are such callers by WorkerBackends.WorkersCompleteOnlyDelivered |
| QueueRefinement.TableRunRefines | app/queue/db_queue.py:100-205 | whole runs of the table give the answers of the abstract queue |
| QueueRefinement.BackendsAgree | app/queue/factory.py:12-58 | from empty, table and Redis answer every sequence of operations of such a caller alike, positions included, up to the offset of the id counters |
| QueueRefinement.BackendsDisagree | app/queue/redis_queue.py:97-98 | without that discipline they differ: a concrete run |
| QueueRefinement.EveryTableIsAQueue | app/queue/db_queue.py:77-98 | every valid table whose jobs in flight are older than the waiting ones represents an abstract queue, after recovery too |
| QueueRefinement.TablePositionForetells | app/queue/db_queue.py:186-203 | after any operations, purges and restarts, an answer k >= 1 of `position` means that the k-th later dequeue is the first to return that photo, provided nothing is purged and no waiting job completed in between |
| QueueRefinement.RedisPositionForetells | app/queue/redis_queue.py:106-121 | the same for Redis |
| JobHistory.RecordKeeps | app/queue/db_queue.py:77-184 | each event keeps conservation and order of delivery |
| JobHistory.NothingLostNothingTwice | app/queue/db_queue.py:82-184 | through any operations, purges and restarts the rows are exactly the accepted jobs neither completed nor purged, ids are fresh, each is delivered at most 1 + restarts times, deliveries between restarts strictly increase, and every row and every delivery is the very request accepted under its id |
| JobHistory.RequestsStay | app/queue/db_queue.py:95 | the request recorded under an id never changes, in any later history |
| JobHistory.FinishedForGood | app/queue/db_queue.py:160-184 | a completed or purged job stays so and is never delivered again |
| Workers.ChecksExactlyAfterDetect | app/queue/worker.py:40-44 | a worker is about to check exactly after a detect job of its own whose handler returned, until it checks, is cancelled or the process restarts |
| Workers.MovesKeepExclusive | app/queue/worker.py:25-41 | in every run each running job is in the table and in flight, and no two workers run the same |
| Workers.InFlightIsRun | app/queue/worker.py:27-41 | however workers finish, raise, are cancelled or restarted, a job is in flight only while a worker runs it, unless a worker was cancelled during its dequeue |
| Workers.AbandonLosesJob | app/queue/db_queue.py:50-51 | in that case the lowest waiting job is in flight and nobody runs it |
| Workers.AbandonedUntilRestart | app/queue/db_queue.py:116-123 | it stays so until the next restart, and every idle check until then is refused |
| WorkerBackends.WorkersCompleteOnlyDelivered | app/queue/worker.py:25-46 | between restarts the table changes exactly as by the operations the clients and workers issue, and these complete only delivered jobs |
| WorkerBackends.WorkersCannotTellBackends | app/queue/factory.py:12-58 | a Redis server gives everything that clients and workers issue from a fresh start the answers of the table, up to the offset of the id counters |
| WorkerBackends.FinishedJobsNeverWait | app/queue/worker.py:40-41 | in every run, restarts included, completing the job of a running worker leaves the waiting jobs alone |
| AutoClustering.NextKeepsWatch | app/queue/worker.py:25-83 | every move whatsoever keeps: while a finished detect job lacks a clustering and none was dropped, a check is to come or a job that is no outdated clustering; that such jobs do lead to a clustering is WorkerProgress.WorkGetsDone |
| AutoClustering.IdleCheckDispatchesClustering | app/queue/worker.py:76-83 | after an idle check of an empty table its only row is a waiting job of kind "cluster" without photo and with an empty payload |
| AutoClustering.NoDispatchWhenOff | app/queue/worker.py:78-79 | with automatic dispatch switched off no clustering is ever in the table unless a client asked for one |
| WorkerProgress.WorkGetsDone | app/queue/worker.py:25-83 | when clients stop, a worker whose handlers return brings everything to rest within a stated number of moves: every waiting detect job has been run, and all of them have been clustered |
| WorkerProgress.OneWorkerGetsEverythingDone | app/queue/worker.py:25-83 | so after any undisturbed run of one worker in which no handler raised |
| WorkerProgress.RestartGetsEverythingDone | app/queue/db_queue.py:94-96 | after any run of any number of workers with purges, cancellations and restarts: one more restart, and one worker runs every stored detect job and clusters them all, provided some job was stored or no clustering was owed |
| WorkerProgress.SubmittedJobWaits | app/queue/db_queue.py:100-114 | an accepted request waits as submitted, next to all that waited before |
| AutoClustering.ClusteringMissedExactlyWhenDropped | app/queue/worker.py:25-83 | for any workers, kinds of jobs, configuration and moves (raising handlers, purges, cancellations and restarts among them): at rest, a finished detect job has seen no clustering begin after it and run to its end if and only if one of the listed moves dropped it and none brought it back |
| AutoClustering.NextKeepsCheckDue | app/queue/worker.py:25-46 | each undisturbed move of any worker or client keeps the steady clause of the next row |
| AutoClustering.DetectionIsFollowedByClustering | app/queue/worker.py:76-83 | in any run, if at rest the last completed job is a detect job, its clustering was dropped; in runs without purge, restart and cancellation, while the last completed job is a detect job whose handler returned, the queue has a job or a worker has its idle check before it, so at rest the last one was a clustering unless a handler raised in it (that rest is reached is WorkerProgress.WorkGetsDone) |
| AutoClustering.OneWorkerClustersEverything | app/queue/worker.py:25-44 | with one worker and no purge, restart or cancellation: at rest every finished detect job was followed by a clustering that began later and ran to its end, except exactly when the last job was a detect job whose handler raised |
| AutoClustering.OnlyARefusedCheckMissesFaces | app/queue/db_queue.py:116-130 | with more workers and nothing raised either: if clustering is owed at rest, an idle check had found nothing but clusterings that began too early |
| AutoClustering.TwoWorkersCanMissFaces | app/queue/worker.py:43-44 | two workers suffice for that: a concrete run |
| AutoClustering.DisturbancesPreventClustering | app/queue/worker.py:40-49 | a raising handler, a purge and a restart: a concrete run of one worker for each that ends at rest with a detect job as the last |
| WorkerCapacity.CapacitySurvivesCrashes | app/queue/db_queue.py:94-165 | with a limit and n workers, waiting and running jobs never exceed limit + n, running ones never n, in any run with crashes, cancellations and purges |
| WorkerCapacity.CapacityIsReached | app/queue/db_queue.py:94-114 | for every limit and n a run reaches limit + n, all of them waiting after a restart |
| EnqueueRace.UninterruptedIsAtomic | app/queue/db_queue.py:100-114 | without interruption the two statements are the bounded enqueue of one process |
| EnqueueRace.RacesOvershootByLessThanProcesses | app/queue/db_queue.py:100-114 | with P racing processes the waiting jobs never exceed limit + P - 1, or what recovery had left there if that is more |
| EnqueueRace.OneProcessKeepsLimit | app/queue/db_queue.py:100-114 | one process never exceeds the limit from an empty table |
| EnqueueRace.RacesReachTheBound | app/queue/db_queue.py:104-111 | for every limit and P an interleaving reaches limit + P - 1 |
| RedisCommands.OperationIsAtomic | app/queue/redis_queue.py:51-104 | without interruption the commands of each operation change list, hash and counter as the operation does for one process |
| RedisCommands.WithoutOverlapOneQueue | app/queue/redis_queue.py:51-104 | in whole runs, processes whose operations do not overlap leave the server as one process would |
| RedisCommands.NextKeepsFaithful | app/queue/redis_queue.py:51-104 | each single command, and each crash between two, keeps the record of where every job is right |
| RedisCommands.EveryJobInOnePlace | app/queue/redis_queue.py:81-98 | for any number of processes an outstanding job is in the list once, or in the hash, or with one process between LPOP and HSET, never in two; at most one job is lost per crash |
| RedisCommands.CrashLosesJob | app/queue/redis_queue.py:83-94 | a crash between LPOP and HSET leaves that job nowhere, and everything else as it was |
| RedisCommands.IdleScriptSees | app/queue/redis_queue.py:51-61 | the script finds the queue idle if and only if every outstanding job is between the two commands of a dequeue |
| RedisCommands.IdleIsExactForOneProcess | app/queue/redis_queue.py:72-79 | for one process idle means that nothing is outstanding |
| RedisCommands.IdleIsWrongForTwo | app/queue/redis_queue.py:81-95 | for two it does not: a concrete run |
| RedisCommands.ListStaysBelowLimit | app/queue/redis_queue.py:63-70 | the list never exceeds limit + P - 1 |
| RedisCommands.RacesReachTheBound | app/queue/redis_queue.py:65-69 | for every limit and P an interleaving of commands reaches limit + P - 1 |
| RedisCommands.OneProcessKeepsLimit | app/queue/redis_queue.py:63-70 | and never the limit for one process |
| Embeddings.ChunkedCountExact | app/embeddings/sqlite_store.py:299-310 | the chunked row count is at least the number of stored ids named, and equal exactly when no stored id occurs in two chunks |
| Embeddings.CopiesCountOncePerChunk | app/embeddings/sqlite_store.py:299-310 | n copies of one stored id count once per chunk of 999: right up to 999, twice from 1000 on |
| Embeddings.MarkedInParts | app/embeddings/sqlite_store.py:302-308 | marking in two statements is marking in one |
| Embeddings.BackendsDifferExactlyOn | app/embeddings/pgvector_store.py:67-73 | an operation leaves the two backends with different faces exactly when it re-adds a face whose flag is off |
| SqliteStore.RowsRemoved | app/embeddings/sqlite_store.py:259-267 | deleting faces from both tables keeps the bijection and removes exactly them |
| SqliteStore.RowInserted | app/embeddings/sqlite_store.py:70-79 | inserting a vector and its row keeps the bijection and adds exactly that face |
| SqliteStore.SameSize | app/embeddings/sqlite_store.py:197-204 | the two tables always have equally many rows |
| Embeddings.DeletedCount | app/embeddings/sqlite_store.py:131-151 | the answer of `delete_many` is the number of faces that are gone |
| SqliteStore.SQLiteEmbeddingStore.Add | app/embeddings/sqlite_store.py:56-82 | the face is stored once with the given details and its flag set, all others stay as they are, the tables stay in bijection |
| SqliteStore.SQLiteEmbeddingStore.DeleteInternal | app/embeddings/sqlite_store.py:259-267 | exactly that face is gone from both tables |
| SqliteStore.SQLiteEmbeddingStore.Delete | app/embeddings/sqlite_store.py:84-92 | exactly that face is gone; an unknown id changes nothing |
| SqliteStore.SQLiteEmbeddingStore.DeleteMany | app/embeddings/sqlite_store.py:131-151 | the loop removes the set of ids and answers the number of distinct stored ones, by which the store shrank, however often an id is repeated |
| SqliteStore.SQLiteEmbeddingStore.SyncBatch | app/embeddings/sqlite_store.py:269-282 | batch 0 clears all flags first, the named stored faces are set, no face comes or goes |
| SqliteStore.SQLiteEmbeddingStore.MarkPresentChunked | app/embeddings/sqlite_store.py:299-310 | chunks of 999 leave the flags of one update over the whole list; the answer is the chunked count |
| SqliteStore.SQLiteEmbeddingStore.UpdatePresent | app/embeddings/sqlite_store.py:305-309 | one chunk: the stored ids in it are set and counted once each |
| SqliteStore.SQLiteEmbeddingStore.PurgeAbsent | app/embeddings/sqlite_store.py:284-297 | exactly the faces with a set flag stay, in both tables, and the answer is the number dropped |
| SqliteStore.SQLiteEmbeddingStore.Count | app/embeddings/sqlite_store.py:197-204 | the number of faces, which is also the number of vectors |
| SqliteStore.SQLiteEmbeddingStore.GetAll | app/embeddings/sqlite_store.py:153-171 | the join returns every stored face with its own vector and nothing else |
| SqliteStore.SQLiteEmbeddingStore.SimilaritySearch | app/embeddings/sqlite_store.py:94-129 | although only 5 * limit rows are fetched, the answer is the best matches of the whole store at or above the threshold, each with one minus its distance |
| PgStore.PgVectorEmbeddingStore.Add | app/embeddings/pgvector_store.py:65-76 | the face has the given details; its flag is set if it was not stored, and left alone if it was; all others stay |
| PgStore.PgVectorEmbeddingStore.Delete | app/embeddings/pgvector_store.py:79-88 | that face is not stored any more, every other face is as it was |
| PgStore.PgVectorEmbeddingStore.DeleteMany | app/embeddings/pgvector_store.py:116-130 | removes the set of ids, and the answer is by how much the table shrank |
| PgStore.PgVectorEmbeddingStore.SyncBatch | app/embeddings/pgvector_store.py:181-196 | flags of one statement over the whole list; the answer is the number of stored faces it names |
| PgStore.PgVectorEmbeddingStore.PurgeAbsent | app/embeddings/pgvector_store.py:198-206 | a face stays, unchanged, exactly if its flag was set, and the answer is by how much the table shrank |
| SyncSession.FlagsSqlite | app/embeddings/sqlite_store.py:69-79 | within a session a stored face has its flag set exactly if it had it before, was named, or was added |
| SyncSession.FlagsPg | app/embeddings/pgvector_store.py:65-76 | the same, where only the insertion of a face not stored counts as added |
| SyncSession.DetailsAreTheLatestSqlite | app/embeddings/sqlite_store.py:56-82 | through any adds, deletes, batches and purges a stored face has the vector, photo, sharpness and crop it was last added with |
| SyncSession.DetailsAreTheLatestPg | app/embeddings/pgvector_store.py:56-77 | the same under PostgreSQL |
| SyncSession.SqlitePurgeLeaves | app/embeddings/sqlite_store.py:269-297 | after batch 0, further batches and any adds, deletes and purges, the purge leaves exactly the stored faces that were named or added since, and answers the number dropped |
| SyncSession.PgPurgeLeaves | app/embeddings/pgvector_store.py:181-206 | the same with only fresh insertions counting as added |
| SyncSession.PurgesAgreeExactlyWhen | app/embeddings/pgvector_store.py:67-73 | the purges of both backends keep the same faces if and only if every stored face replaced in the session was also named |
| SyncSession.PurgeBeforeSyncIsSafe | docs/3-reference/api.md:262 | without a batch 0 since the store was empty a purge drops nothing |
| SyncSession.SplitDoesNotMatter | app/api/routes.py:213-223 | how a list of ids is split into batches, ordered or repeated makes no difference to the purge |
| Search.AtLeastIsPrefix | app/embeddings/sqlite_store.py:121-124 | among rows in ascending distance the threshold keeps a prefix |
| Search.OverFetchLosesNothing | app/embeddings/sqlite_store.py:108-117 | filtered and cut, the 5 * limit nearest rows give the answer of the whole store |
| Search.CutOffIsBest | app/embeddings/pgvector_store.py:103-110 | filter, order and limit give distinct stored faces in descending similarity, and whoever is missing is below the threshold or crowded out by faces at least as similar |
| Search.AboveThresholdExactlyWhen | app/embeddings/store.py:61-67 | all returned similarities are above the threshold if and only if none of the `limit` nearest rows is at it |
| Search.AtThresholdIsReturned | app/embeddings/sqlite_store.py:123-124 | a face exactly at the threshold is returned: a concrete store |
| Search.AnswersDifferOnlyInTies | app/embeddings/pgvector_store.py:103-110 | two rankings of one store give answers with the same similarities, and the same faces strictly above the last |
| Search.Collect | app/embeddings/sqlite_store.py:120-127 | the loop with its early break returns the first `limit` qualifying rows |
| Crop.PlaceSquare | app/detection/cropper.py:46-70 | centre and side of the padded box, the side capped to fit the image |
| Crop.ShiftIntoImage | app/detection/cropper.py:72-101 | the four shift branches and the truncation give the floor of the clamped window |
| Crop.CalculateSquareCropCoords | app/detection/cropper.py:24-101 | the result is the clamped window, lies in the image, and its sides differ by at most one pixel |
| Crop.TruncatedSides | app/detection/cropper.py:101 | a truncated side is the floor of the exact side or one more |
| Crop.ClampedIsBestPlace | app/detection/cropper.py:29-32 | the window keeps its side, lies in the image, and is of all such windows closest to being centred |
| Crop.PaddingIsEven | app/detection/cropper.py:52-70 | the margin on each side of the face is exactly the padding factor times its extent, and the centre is that of the face |
| Crop.NothingInImageIsCut | app/detection/cropper.py:61-99 | if the side was not capped, every point of the padded box in the image is in the window |
| Crop.NoSmallerSquareCovers | app/detection/cropper.py:61-66 | no square smaller than the chosen one covers the padded box |
| Crop.CappedIsLargest | app/detection/cropper.py:64-66 | where the padded box does not fit, no square in the image is larger |
| Crop.PadToSquare | app/detection/cropper.py:104-122 | the picture is unchanged in the middle of a black square of its longer side |
| Crop.CropNeedsOneLineAtMost | app/detection/cropper.py:117-120 | a crop gets at most one line of padding, and none in front |
| Suggestions.SuggestFor | app/api/routes.py:694-710 | one face gets its first qualifying matches up to what is left of its limit |
| Suggestions.GenerateCrossClusterSuggestions | app/api/routes.py:678-712 | the nested loops, searching the store anew for every face, give the concatenated contributions of all entries |
| Suggestions.CountAppended | app/api/routes.py:709 | rescanning the list counts what a running counter would |
| Suggestions.EachFaceGetsItsBest | app/api/routes.py:682-710 | with distinct faces each non-noise face gets exactly its first qualifying matches, as many as the limit says but at least one |
| Suggestions.NoSuggestionIsMissed | app/api/routes.py:682-710 | a known face of another non-noise cluster that the search finds at place k is suggested with its similarity, or the face already has as many suggestions as it may, all of them nearer |
| Suggestions.HeadroomLosesExactlyWhen | app/api/routes.py:691-697 | a face gets other suggestions than a search of the whole store would give it if and only if more than ten of the perFace + 10 nearest matches do not qualify while one further away does |
| Suggestions.SuggestionsJoinClusters | app/api/routes.py:694-708 | every suggestion joins two known faces of different non-noise clusters, never a face to itself |
| Detector.FacesAccountedFor | app/detection/detector.py:176-225 | survivors and the three filter counters add up to the raw faces; survivors lie in the unit square and reach the threshold |
| Detector.JudgedExactlyWhen | app/detection/detector.py:181-225 | each of the four verdicts exactly: too uncertain, else too small on its longest side, else blurred where it shares pixels with the image, else passed |
| Detector.RegionIsSharedPixels | app/detection/detector.py:207-213 | sharpness is measured on exactly the pixels that the face, with truncated edges, and the image share |
| Detector.SharpnessOfSharedPixels | app/detection/detector.py:211-216 | it is the sharpness of that region, and zero when they share none |
| Detector.DetectArray | app/detection/detector.py:176-248 | the counters count the first filter each face fails, the result is a descending permutation of the survivors; every result describes a face that passed and every such face is described: its embedding, confidence and sharpness, and for a face in the image its box scaled to the image size |
| Detector.ClampIsNearest | app/detection/detector.py:228-231 | for a face outside the image each coordinate is the nearest in [0, 1] |
| Detector.SortedDescends | app/detection/detector.py:248 | the sort orders by descending confidence |
| Detector.SortedKeepsAll | app/detection/detector.py:248 | the sort loses and adds nothing |
| Detector.SortedIsStable | app/detection/detector.py:248 | faces of equal confidence keep their order |
| Detector.LimitKeepsTheBest | app/api/routes.py:440-446 | no face cut by the limit is more certain than one kept, kept and cut faces are the survivors, a non-negative limit keeps as many as it says and a negative one cuts that many |

## Left out

- Several processes on PostgreSQL: ids may become visible out of order there, so the table model covers `PgJobQueue` as one connection only.
- A second process that starts while a first one works: its start-up puts the first one's jobs back to waiting; the move `Restarting` of `Workers.dfy` restarts all workers together.
- Failing transactions, lock timeouts, connection handling and SQL engine internals.
- JSON and Lua encoding of Redis items, float32 packing of vectors, and the `created_at` column.
- DeepFace, OpenCV, Pillow encoding and resizing, and DBSCAN: raw faces, region sharpness and cluster labels are arbitrary inputs.
- HTTP routes, callbacks, authentication, settings, start-up checks, path resolution, and the persistence part of the detection job.
- Reads without a property of their own: `get_all_with_metadata`, `count_by_photo_id`.
- Search with a negative limit: the index is asked for a negative number of rows, which is up to the extension. `Suggestions.Context.Headroom` takes such a limit as zero.
- SqliteStore.SQLiteEmbeddingStore.GetAll: returns a set of rows, because the query fixes no order.
- PgStore.PgVectorEmbeddingStore has no search method: its query is filter, order and limit over a ranking, which is what `Search.AnswersDifferOnlyInTies` and `Search.CutOffIsBest` speak about.
- Crop.CalculateSquareCropCoords: the one function of the source is three methods here, cut between the centre and the shifting; rounding of floating-point numbers is not modelled.
- Suggestions.GenerateCrossClusterSuggestions: the inner loop and the search are methods of their own, and the ranking of the store by distance to a vector is a fixed function during the call.
- Fairness and progress: that a waiting job is eventually taken is not stated, since workers may sleep or stop at any time.
