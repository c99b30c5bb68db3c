# Pub/Sub demo: counting consumer and publishing producer, in Dafny

This project models the two programs of a small Google Cloud Pub/Sub demo.

- **The consumer** (`src/bin/consume.rs`) spawns three workers with identities 0, 1 and 2.
  - In each pass of its loop, a worker pulls a batch of at most 10 messages and acks each message in turn.
  - An ack failure is only reported.
  - The worker then sends the whole batch, tagged with its identity, over a channel.
  - A single aggregator receives the tagged batches. It keeps a `HashMap<u8, i32>` from worker identity to the number of messages received. For each batch it reads the worker's count (0 if absent), adds the batch length and stores the sum.
- **The producer** (`src/main.rs`) builds one message per index of the range `1..10000`, whose payload is the bytes of `some-<index>`. It spawns one publish task per message.
  - It then joins the tasks in submission order and reports each outcome: a message id, or a publish error.
  - The `?` on the join ends the whole run at the first task that cannot be joined.

The model has three modules:

- `Common` (`common.dfy`) holds the machine integer types, `Option`, the client's error `Status`, and `Wrap32`.
  - `Wrap32` is the two's-complement truncation that Rust's `as i32` performs.
  - `i32` `+` also wraps this way in a release build.
- `Consumer` (`consumer.dfy`) holds the following.
  - The aggregator is a class `Aggregator`. Its `counters` field is a `map<u8, i32>`. `ProcessBatch` updates that field, and `Receive` loops over a finite prefix of the delivered batches.
  - The pure functions `Record` and `Aggregate` specify both methods.
  - The lemmas give each worker's count, the key set, order independence, monotonicity, and the end-to-end property of the pool.
  - One worker pass is the method `WorkerIteration`. It takes the pull's result and an ack function as inputs, and returns the trace of its ack calls and its send (`WorkerEvent`) in the order they are made.
- `Producer` (`producer.dfy`) holds the following.
  - Decimal formatting of the index, the payload bytes, the message list, and its properties.
  - The report loop: the method `ReportAll`, the fold `ReportRun` that it equals, and the predicate `Reports`, which states what the report loop promises for a run.

Counts are modelled faithfully to the code.

- `len() as i32` truncates modulo 2^32 in every build. `now + len` wraps modulo 2^32 as in a release build.
- The general count lemmas (`RecordSpec`, `AggregateCounts`, `AggregateFromEmpty`, `PoolCounts`) state counts modulo 2^32.
- `RecordAddsLength`, `AggregateExact` and `CountsNeverDecrease` state exact counts when the total fits in an `i32`. So do the concrete cases `RedeliveryCountsTwice`, `ThreeWorkersInOrder` and `ThreeWorkers`.

The network is not modelled.

- A pull is given as its `PullResult`.
- An ack is given as a function from (call number, message) to its outcome.
- The channel's interleaving of the workers' batches is any sequence, related to what the workers sent by `multiset` equality.
- Each producer task is given as its already-joined `TaskOutcome`.

Two behaviours of the code are easy to misread, and the model follows the code in both.

- The producer does not wait for every publish before reporting. It joins and reports task by task, in submission order, and stops at the first task that cannot be joined. Tasks after that one are not reported.
- An empty batch leaves every existing count unchanged. It still inserts a 0 entry for a worker not yet in the table (`RecordEmptyBatch`).

## Model

| member | source | states |
|---|---|---|
| Common.Wrap32InRange | src/bin/consume.rs:66 | A value that already fits in an `i32` is not changed by the truncating cast. |
| Common.WrapAddLeft | src/bin/consume.rs:66 | Wrapping `len` to an `i32` before adding it to the count gives the same wrapped sum as adding the full length. |
| Consumer.SpawnPool | src/bin/consume.rs:50-53 | Workers are spawned with identities `0..CONSUMERS`: exactly 3 of them, worker `k` having identity `k`, so no identity is used twice. |
| Consumer.Aggregator.constructor | src/bin/consume.rs:55 | The table starts empty. |
| Consumer.Aggregator.ProcessBatch | src/bin/consume.rs:62-66 | The batch's worker gains the batch length (its absent entry read as 0), modulo 2^32. The key set gains that worker, and every other entry is unchanged. |
| Consumer.Aggregator.Receive | src/bin/consume.rs:55-68 | After receiving a sequence of batches, the table is the fold `Aggregate` of those batches over the old table. |
| Consumer.Aggregate | src/bin/consume.rs:55-68 | The fold's key set is the old keys plus every worker that sent a batch. |
| Consumer.RecordSpec | src/bin/consume.rs:62-66 | One batch adds its length to its own worker's count, modulo 2^32. It creates the entry if absent and leaves every other worker's entry unchanged. |
| Consumer.RecordAddsLength | src/bin/consume.rs:62-66 | Without overflow, one batch adds exactly its length, so the worker's count does not decrease. |
| Consumer.RecordEmptyBatch | src/bin/consume.rs:62-66 | An empty batch changes no existing count, and leaves an entry of 0 for a worker not seen before. |
| Consumer.SendersMembers | src/bin/consume.rs:66 | A worker is in `Senders` exactly when some batch carries its identity. |
| Consumer.AggregateCounts | src/bin/consume.rs:55-68 | After any sequence of batches, each present worker's count is its old count plus the messages it sent, modulo 2^32. |
| Consumer.AggregateFromEmpty | src/bin/consume.rs:55-68 | From an empty table, the keys are exactly the workers that sent a batch. Each count is the total length of that worker's batches, modulo 2^32. |
| Consumer.AggregateExact | src/bin/consume.rs:55-68 | When a worker's total fits in an `i32`, its count is that total exactly. |
| Consumer.CountsNeverDecrease | src/bin/consume.rs:66 | With no overflow of the worker's total, its count after `i` batches is at most its count after `j >= i` batches, and it stays present. |
| Consumer.TotalPermutation | src/bin/consume.rs:56-66 | Any reordering of the batches leaves each worker's message total unchanged. |
| Consumer.SendersPermutation | src/bin/consume.rs:56-66 | Any reordering of the batches leaves the set of senders unchanged. |
| Consumer.ExpectedCountPermutation | src/bin/consume.rs:56-66 | Any reordering of the batches leaves each worker's expected count unchanged. |
| Consumer.AggregateOrderIndependent | src/bin/consume.rs:48-68 | Any reordering of the same batches yields the same table, so the interleaving on the channel does not matter. |
| Consumer.RedeliveryCountsTwice | src/bin/consume.rs:62-66 | The same batch delivered twice to a fresh table counts twice: there is no deduplication. |
| Consumer.ThreeWorkersInOrder | src/bin/consume.rs:55-68 | Batches of 4, 0 and 6 messages from workers 0, 1 and 2, received in that order, give the table {0: 4, 1: 0, 2: 6}. |
| Consumer.ThreeWorkers | src/bin/consume.rs:48-68 | The same three batches, in any arrival order, give the table {0: 4, 1: 0, 2: 6}. |
| Consumer.WorkerIteration | src/bin/consume.rs:77-95 | On a successful pull, the pass's trace of effects is one ack call per message, in pull order, followed by a single send of the whole batch with the worker's identity, whatever the acks returned. On a pull error, the trace is empty: nothing is acked or forwarded. The reported ack failures are those of the failed acks, in order. |
| Consumer.RunWorker | src/bin/consume.rs:75-98 | Over a finite number of passes a worker forwards exactly `WorkerOutput` of its pulls, whatever every ack returns. |
| Consumer.WorkerOutputTotal | src/bin/consume.rs:76-97 | Over many passes, a worker forwards under its own identity exactly the number of messages its successful pulls returned, and nothing under any other identity. |
| Consumer.WorkerOutputSenders | src/bin/consume.rs:76-97 | A worker appears as a sender exactly when at least one of its pulls succeeded, even with zero messages. |
| Consumer.PoolOutputShares | src/bin/consume.rs:50-97 | With distinct identities, each worker's share of the pool's output is what that worker pulled. Identities outside the pool contribute nothing. |
| Consumer.PoolCounts | src/bin/consume.rs:48-98 | End to end, for any interleaving of the pool's batches: a worker is in the table exactly when one of its pulls succeeded. Its count is the number of messages it pulled, modulo 2^32, however many acks failed. |
| Producer.DecimalCanonical | src/main.rs:36 | The decimal text of an index is a non-empty string of digits that starts with `0` only for zero. |
| Producer.DecimalRoundTrip | src/main.rs:36 | Reading the decimal text back gives the index. |
| Producer.DecimalInjective | src/main.rs:36 | Distinct indices have distinct decimal texts. |
| Producer.Utf8RoundTrip | src/main.rs:36 | The bytes `Utf8` gives for an ASCII string, read back one character per byte, are that string. |
| Producer.PayloadRoundTrip | src/main.rs:35-38 | The payload of index `i` decodes to the text `some-` followed by `i` in decimal, and parsing it gives back `i`. |
| Producer.PayloadInjective | src/main.rs:36 | Distinct indices give distinct payloads. |
| Producer.MessagesCoverRange | src/main.rs:32-38 | There are exactly 9999 messages, and the message at position `k` carries the payload of index `k + 1`, so the end-exclusive range covers 1 through 9999. |
| Producer.MessagesDistinct | src/main.rs:32-38 | No two messages carry the same payload. |
| Producer.ReportRunReports | src/main.rs:46-53 | The report fold meets `Reports`.<br>- There is one report per task, in order, for a prefix of tasks that all joined.<br>- The run returns `Ok` exactly when all tasks are reported.<br>- Otherwise it ends with the error of the first task that did not join. |
| Producer.ReportsDetermineRun | src/main.rs:46-53 | The `Reports` promise determines the run: every run that meets it is the fold's run. |
| Producer.NoJoinFailure | src/main.rs:46-53 | If no task fails to join, there are as many reports as tasks and the run returns `Ok`. |
| Producer.FirstJoinFailure | src/main.rs:47 | If the first join failure is at position `k`, exactly the `k` tasks before it are reported, none after, and the run ends with that task's join error. |
| Producer.PublishOutcomeReported | src/main.rs:48-50 | A task that joined, with no join failure before it, is reported at its own position: a publish error as an error report and a success with its message id. The loop does not stop at a publish error. |
| Producer.ReportAll | src/main.rs:46-53 | The loop's reports and result equal the fold's run, and so meet the `Reports` promise. |

## Left out

- Client construction, the `exists`/`create` calls for the topic and the subscription, and `SubscriptionConfig`. These are network calls into the Pub/Sub client library, which is not part of this model.
- Environment parsing with `envy` and the `Config` struct of the producer. This is configuration input.
- `tokio::spawn`, the mpsc channel, and concurrency in general. The channel's interleaving is any sequence, related to the workers' output by `multiset` equality (`PoolCounts`). Each producer task is its joined outcome.
- The `unwrap` on the channel `send`, which panics once the receiver is gone. This is about channel closure, which never happens while the aggregator runs.
- The real `pull`, `ack`, `publish` and `Awaiter::get` calls. They are inputs: a `PullResult` per pass, an ack outcome per (call number, message), and a `TaskOutcome` per task.
- The infinite worker loop and the never-ending `for batch in receiver`. These are modelled as one pass (`WorkerIteration`), a finite sequence of passes (`WorkerOutput`), and a finite prefix of the received batches (`Receive`).
- `MAX_PULL`: the pull's size bound is the transport's promise. No lemma assumes it, so the counts hold for batches of any length.
- All `println!`/`eprintln!` output: the text of the count snapshots and of the reports. A report is modelled as a value (`Report`), not as text.
- Consumer.Aggregator.ProcessBatch: the addition is modelled with release-build semantics (wrap-around modulo 2^32). A debug build would panic on overflow instead, which is not modelled.
- Producer.Utf8: only the UTF-8 encoding of ASCII text is modelled. That is the only text the payload can contain (`PayloadTextIsAscii`).
- Producer.Messages: only the `data` field of `PubsubMessage` is modelled. Every other field keeps its default value in the source.
- Tasks after the first join failure are abandoned rather than joined. Whether their publishes reach the server is not modelled.
- The aggregator prints its table after every batch. The model does not model the printing. The table after each batch is what `ProcessBatch`'s ensures give.
