/**
 * The consumer binary: a pool of workers that pull batches from a
 * subscription, acknowledge every message and forward the batch, tagged with
 * the worker's identity, to one aggregator that keeps a count per worker.
 *
 * The transport (pull, ack) is abstract: a pull is given as its result and
 * the acks as a function from (call number, message) to the ack's outcome.
 * The never-ending loops of the source are modelled as one worker iteration
 * and as a finite prefix of the aggregator's receive loop.
 */
module Consumer {
  import opened Common

  /** Number of workers in the pool. */
  const CONSUMERS: u8 := 3

  /** A message handed out by the subscription; its content is opaque here. */
  datatype ReceivedMessage = ReceivedMessage(ackId: string, data: seq<u8>)

  /** What one worker forwards to the aggregator. */
  datatype TaggedMessageBatch = TaggedMessageBatch(consumerId: u8, messageBatch: seq<ReceivedMessage>)

  /** The result of one `pull`. */
  datatype PullResult = Pulled(messages: seq<ReceivedMessage>) | PullFailed(status: Status)

  /** The result of one `ack`. */
  datatype AckOutcome = Acked | AckFailed(status: Status)

  /** The aggregator's table from worker identity to message count. */
  type CounterTable = map<u8, i32>

  // ---------------------------------------------------------------------------
  // Worker-id assignment
  // ---------------------------------------------------------------------------

  /** No identity occurs twice. */
  ghost predicate Distinct(ids: seq<u8>)
  {
    forall j, k :: 0 <= j < k < |ids| ==> ids[j] != ids[k]
  }

  /** The pool loop: worker `i` is spawned with identity `i`, for `i` in `0..CONSUMERS`. */
  method SpawnPool() returns (ids: seq<u8>)
    ensures |ids| == CONSUMERS as int
    ensures forall k :: 0 <= k < |ids| ==> ids[k] as int == k
    ensures Distinct(ids)
  {
    ids := [];
    var i: u8 := 0;
    while i < CONSUMERS
      invariant i <= CONSUMERS
      invariant |ids| == i as int
      invariant forall k :: 0 <= k < |ids| ==> ids[k] as int == k
    {
      ids := ids + [i];
      i := i + 1;
    }
  }

  // ---------------------------------------------------------------------------
  // The aggregator
  // ---------------------------------------------------------------------------

  /** `counters.get(&id)`, an absent entry read as 0. */
  function Current(counters: CounterTable, id: u8): i32
  {
    if id in counters then counters[id] else 0
  }

  /**
   * One turn of the receive loop: `now + len as i32` stored under the batch's
   * worker. Both the cast and the addition wrap around as in a release build.
   */
  function Record(counters: CounterTable, batch: TaggedMessageBatch): CounterTable
  {
    var now := Current(counters, batch.consumerId);
    var len := Wrap32(|batch.messageBatch|);
    counters[batch.consumerId := Wrap32(now as int + len as int)]
  }

  /**
   * The table after receiving `batches`, in order, starting from `counters`:
   * its keys are the old keys plus every worker that sent a batch.
   */
  function Aggregate(counters: CounterTable, batches: seq<TaggedMessageBatch>): (r: CounterTable)
    ensures r.Keys == counters.Keys + Senders(batches)
  {
    if batches == [] then counters
    else Record(Aggregate(counters, batches[..|batches| - 1]), batches[|batches| - 1])
  }

  /** The workers that sent at least one batch. */
  function Senders(batches: seq<TaggedMessageBatch>): set<u8>
  {
    if batches == [] then {}
    else Senders(batches[..|batches| - 1]) + {batches[|batches| - 1].consumerId}
  }

  /** The number of messages a batch contributes to worker `w`. */
  function Weight(batch: TaggedMessageBatch, w: u8): nat
  {
    if batch.consumerId == w then |batch.messageBatch| else 0
  }

  /** The number of messages worker `w` sent in `batches`, as an unbounded integer. */
  function Total(batches: seq<TaggedMessageBatch>, w: u8): nat
  {
    if batches == [] then 0
    else Total(batches[..|batches| - 1], w) + Weight(batches[|batches| - 1], w)
  }

  class Aggregator {
    var counters: CounterTable

    /** `HashMap::new()`. */
    constructor ()
      ensures counters == map[]
    {
      counters := map[];
    }

    /** Read the worker's count (0 if absent), add the batch length, write it back. */
    method ProcessBatch(batch: TaggedMessageBatch)
      modifies this
      ensures counters == Record(old(counters), batch)
      ensures counters.Keys == old(counters).Keys + {batch.consumerId}
      ensures counters[batch.consumerId]
              == Wrap32(Current(old(counters), batch.consumerId) as int + |batch.messageBatch|)
      ensures forall w :: w in old(counters) && w != batch.consumerId ==> counters[w] == old(counters)[w]
    {
      var now: i32;
      if batch.consumerId in counters {
        now := counters[batch.consumerId];
      } else {
        now := 0;
      }
      counters := counters[batch.consumerId := Wrap32(now as int + Wrap32(|batch.messageBatch|) as int)];
      RecordSpec(old(counters), batch);
    }

    /** The receive loop over a finite prefix of what the channel delivers. */
    method Receive(batches: seq<TaggedMessageBatch>)
      modifies this
      ensures counters == Aggregate(old(counters), batches)
    {
      var i := 0;
      while i < |batches|
        invariant 0 <= i <= |batches|
        invariant counters == Aggregate(old(counters), batches[..i])
      {
        assert batches[..i + 1][..i] == batches[..i];
        ProcessBatch(batches[i]);
        i := i + 1;
      }
      assert batches[..i] == batches;
    }
  }

  // ---------------------------------------------------------------------------
  // Properties of one batch
  // ---------------------------------------------------------------------------

  /**
   * A batch adds its length to its worker's count, modulo 2^32, creates the
   * entry if it was absent, and leaves every other worker's count alone.
   */
  lemma RecordSpec(counters: CounterTable, batch: TaggedMessageBatch)
    ensures Record(counters, batch).Keys == counters.Keys + {batch.consumerId}
    ensures Record(counters, batch)[batch.consumerId]
            == Wrap32(Current(counters, batch.consumerId) as int + |batch.messageBatch|)
    ensures forall w :: w in counters && w != batch.consumerId ==> Record(counters, batch)[w] == counters[w]
  {
    WrapAddLeft(|batch.messageBatch|, Current(counters, batch.consumerId) as int);
  }

  /** Without overflow a batch adds exactly its length, so the count never decreases. */
  lemma RecordAddsLength(counters: CounterTable, batch: TaggedMessageBatch)
    requires Current(counters, batch.consumerId) as int + |batch.messageBatch| <= I32_MAX
    ensures Record(counters, batch)[batch.consumerId] as int
            == Current(counters, batch.consumerId) as int + |batch.messageBatch|
    ensures Record(counters, batch)[batch.consumerId] >= Current(counters, batch.consumerId)
  {
    RecordSpec(counters, batch);
    Wrap32InRange(Current(counters, batch.consumerId) as int + |batch.messageBatch|);
  }

  /** An empty batch changes no existing count, but creates a 0 entry for a new worker. */
  lemma RecordEmptyBatch(counters: CounterTable, batch: TaggedMessageBatch)
    requires batch.messageBatch == []
    ensures Record(counters, batch).Keys == counters.Keys + {batch.consumerId}
    ensures forall w :: w in counters ==> Record(counters, batch)[w] == counters[w]
    ensures batch.consumerId !in counters ==> Record(counters, batch)[batch.consumerId] == 0
  {
    RecordSpec(counters, batch);
    Wrap32InRange(Current(counters, batch.consumerId) as int);
  }

  // ---------------------------------------------------------------------------
  // Properties of a sequence of batches
  // ---------------------------------------------------------------------------

  /** A worker is a sender exactly when some batch carries its id. */
  lemma {:induction false} SendersMembers(batches: seq<TaggedMessageBatch>, w: u8)
    ensures w in Senders(batches) <==> exists k :: 0 <= k < |batches| && batches[k].consumerId == w
  {
    if batches != [] {
      var n := |batches|;
      SendersMembers(batches[..n - 1], w);
      if exists k :: 0 <= k < n && batches[k].consumerId == w {
        var k :| 0 <= k < n && batches[k].consumerId == w;
        if k < n - 1 { assert batches[..n - 1][k].consumerId == w; }
      }
    }
  }

  lemma {:induction false} TotalOfNonSender(batches: seq<TaggedMessageBatch>, w: u8)
    requires w !in Senders(batches)
    ensures Total(batches, w) == 0
  {
    if batches != [] {
      TotalOfNonSender(batches[..|batches| - 1], w);
    }
  }

  /**
   * What worker `w`'s count should be after `batches`, starting from
   * `counters`: its old count plus the messages it sent, modulo 2^32.
   */
  function ExpectedCount(counters: CounterTable, batches: seq<TaggedMessageBatch>, w: u8): i32
  {
    Wrap32(Current(counters, w) as int + Total(batches, w))
  }

  /** A worker that is neither in the table nor a sender is expected to have 0. */
  lemma ExpectedCountOfAbsent(counters: CounterTable, batches: seq<TaggedMessageBatch>, w: u8)
    requires w !in counters.Keys + Senders(batches)
    ensures ExpectedCount(counters, batches, w) == 0
  {
    TotalOfNonSender(batches, w);
  }

  /** Before any batch, every worker is expected to have the count it already has. */
  lemma ExpectedCountOfNothing(counters: CounterTable, w: u8)
    ensures ExpectedCount(counters, [], w) == Current(counters, w)
  {
    Wrap32InRange(Current(counters, w) as int);
  }

  /** One more batch adds its length to its own worker's expected count, and nothing to the others'. */
  lemma ExpectedCountStep(counters: CounterTable, batches: seq<TaggedMessageBatch>, w: u8)
    requires batches != []
    ensures var init, last := batches[..|batches| - 1], batches[|batches| - 1];
            w == last.consumerId ==>
              ExpectedCount(counters, batches, w) == Wrap32(ExpectedCount(counters, init, w) as int + |last.messageBatch|)
    ensures var init, last := batches[..|batches| - 1], batches[|batches| - 1];
            w != last.consumerId ==> ExpectedCount(counters, batches, w) == ExpectedCount(counters, init, w)
  {
    var init, last := batches[..|batches| - 1], batches[|batches| - 1];
    WrapAddLeft(Current(counters, w) as int + Total(init, w), |last.messageBatch|);
  }

  /**
   * If the table holds `expected` for `w` (an absent entry counting as 0) and
   * `next` is `expected` plus what `batch` contributes to `w`, then recording
   * the batch leaves `next` for `w`.
   */
  lemma RecordTracks(counters: CounterTable, batch: TaggedMessageBatch, w: u8, expected: i32, next: i32)
    requires Current(counters, w) == expected
    requires w == batch.consumerId ==> next == Wrap32(expected as int + |batch.messageBatch|)
    requires w != batch.consumerId ==> next == expected
    ensures w in counters || w == batch.consumerId ==> Record(counters, batch)[w] == next
  {
    RecordSpec(counters, batch);
  }

  /** Every worker present after a sequence of batches holds its expected count. */
  lemma {:induction false} AggregateCounts(counters: CounterTable, batches: seq<TaggedMessageBatch>, w: u8)
    ensures w in counters.Keys + Senders(batches) ==> Aggregate(counters, batches)[w] == ExpectedCount(counters, batches, w)
  {
    if batches != [] {
      var n := |batches|;
      var init, last := batches[..n - 1], batches[n - 1];
      var before := Aggregate(counters, init);
      AggregateCounts(counters, init, w);
      ExpectedCountStep(counters, batches, w);
      if w !in before {
        ExpectedCountOfAbsent(counters, init, w);
      }
      RecordTracks(before, last, w, ExpectedCount(counters, init, w), ExpectedCount(counters, batches, w));
    } else {
      ExpectedCountOfNothing(counters, w);
    }
  }

  /**
   * Starting from an empty table, the keys are exactly the workers that sent
   * a batch, and each count is the number of messages that worker sent,
   * modulo 2^32.
   */
  lemma AggregateFromEmpty(batches: seq<TaggedMessageBatch>, w: u8)
    ensures Aggregate(map[], batches).Keys == Senders(batches)
    ensures w in Senders(batches) ==> Aggregate(map[], batches)[w] == Wrap32(Total(batches, w))
  {
    AggregateCounts(map[], batches, w);
    assert ExpectedCount(map[], batches, w) == Wrap32(Total(batches, w));
  }

  /** When a worker's total fits in an `i32`, its count is that total exactly. */
  lemma AggregateExact(batches: seq<TaggedMessageBatch>, w: u8)
    requires w in Senders(batches)
    requires Total(batches, w) <= I32_MAX
    ensures Aggregate(map[], batches)[w] as int == Total(batches, w)
  {
    AggregateFromEmpty(batches, w);
    Wrap32InRange(Total(batches, w));
  }

  lemma {:induction false} PrefixBounds(batches: seq<TaggedMessageBatch>, i: nat, w: u8)
    requires i <= |batches|
    ensures Total(batches[..i], w) <= Total(batches, w)
    ensures Senders(batches[..i]) <= Senders(batches)
  {
    if i < |batches| {
      var n := |batches|;
      assert batches[..n - 1][..i] == batches[..i];
      PrefixBounds(batches[..n - 1], i, w);
    } else {
      assert batches[..i] == batches;
    }
  }

  /**
   * Counts never decrease: as long as a worker's total fits in an `i32`, its
   * count after `i` batches is at most its count after `j >= i` batches.
   */
  lemma CountsNeverDecrease(batches: seq<TaggedMessageBatch>, i: nat, j: nat, w: u8)
    requires i <= j <= |batches|
    requires w in Senders(batches[..i])
    requires Total(batches, w) <= I32_MAX
    ensures w in Aggregate(map[], batches[..j])
    ensures Aggregate(map[], batches[..i])[w] <= Aggregate(map[], batches[..j])[w]
  {
    var small, large := batches[..i], batches[..j];
    assert large[..i] == small;
    PrefixBounds(large, i, w);
    PrefixBounds(batches, j, w);
    AggregateExact(small, w);
    AggregateExact(large, w);
  }

  lemma {:induction false} TotalConcat(a: seq<TaggedMessageBatch>, b: seq<TaggedMessageBatch>, w: u8)
    ensures Total(a + b, w) == Total(a, w) + Total(b, w)
  {
    if b == [] {
      assert a + b == a;
    } else {
      var n := |b|;
      assert (a + b)[..|a + b| - 1] == a + b[..n - 1];
      TotalConcat(a, b[..n - 1], w);
    }
  }

  lemma {:induction false} SendersConcat(a: seq<TaggedMessageBatch>, b: seq<TaggedMessageBatch>)
    ensures Senders(a + b) == Senders(a) + Senders(b)
  {
    if b == [] {
      assert a + b == a;
    } else {
      var n := |b|;
      assert (a + b)[..|a + b| - 1] == a + b[..n - 1];
      SendersConcat(a, b[..n - 1]);
    }
  }

  lemma MultisetWithout(ys: seq<TaggedMessageBatch>, j: nat)
    requires j < |ys|
    ensures multiset(ys[..j] + ys[j + 1..]) == multiset(ys) - multiset{ys[j]}
  {
    assert ys == ys[..j] + [ys[j]] + ys[j + 1..];
  }

  /** Taking batch `j` out of a sequence takes its weight out of every worker's total. */
  lemma TotalRemove(ys: seq<TaggedMessageBatch>, j: nat, w: u8)
    requires j < |ys|
    ensures Total(ys, w) == Total(ys[..j] + ys[j + 1..], w) + Weight(ys[j], w)
  {
    var left, right := ys[..j], ys[j + 1..];
    assert ys == left + [ys[j]] + right;
    TotalConcat(left + [ys[j]], right, w);
    TotalConcat(left, [ys[j]], w);
    TotalConcat(left, right, w);
    assert [ys[j]][..0] == [];
  }

  /** Reordering the delivered batches does not change any worker's total. */
  lemma {:induction false} TotalPermutation(xs: seq<TaggedMessageBatch>, ys: seq<TaggedMessageBatch>, w: u8)
    requires multiset(xs) == multiset(ys)
    ensures Total(xs, w) == Total(ys, w)
  {
    if xs == [] {
      assert |ys| == |multiset(ys)| == 0;
    } else {
      var n := |xs|;
      var last := xs[n - 1];
      MultisetWithout(xs, n - 1);
      assert last in multiset(ys);
      var j :| 0 <= j < |ys| && ys[j] == last;
      MultisetWithout(ys, j);
      TotalPermutation(xs[..n - 1], ys[..j] + ys[j + 1..], w);
      assert xs[..n - 1] + xs[n..] == xs[..n - 1];
      TotalRemove(ys, j, w);
    }
  }

  /** Reordering the delivered batches does not change the set of senders. */
  lemma SendersPermutation(xs: seq<TaggedMessageBatch>, ys: seq<TaggedMessageBatch>)
    requires multiset(xs) == multiset(ys)
    ensures Senders(xs) == Senders(ys)
  {
    forall w ensures w in Senders(xs) ==> w in Senders(ys) {
      SendersMembers(xs, w);
      SendersMembers(ys, w);
      if w in Senders(xs) {
        var k :| 0 <= k < |xs| && xs[k].consumerId == w;
        assert xs[k] in multiset(ys);
      }
    }
    forall w ensures w in Senders(ys) ==> w in Senders(xs) {
      SendersMembers(xs, w);
      SendersMembers(ys, w);
      if w in Senders(ys) {
        var k :| 0 <= k < |ys| && ys[k].consumerId == w;
        assert ys[k] in multiset(xs);
      }
    }
  }

  /** Reordering the delivered batches does not change any worker's expected count. */
  lemma ExpectedCountPermutation(counters: CounterTable, xs: seq<TaggedMessageBatch>, ys: seq<TaggedMessageBatch>, w: u8)
    requires multiset(xs) == multiset(ys)
    ensures ExpectedCount(counters, xs, w) == ExpectedCount(counters, ys, w)
  {
    TotalPermutation(xs, ys, w);
  }

  /**
   * The table does not depend on how batches from different workers
   * interleave: any reordering of the same batches gives the same table.
   */
  lemma AggregateOrderIndependent(counters: CounterTable, xs: seq<TaggedMessageBatch>, ys: seq<TaggedMessageBatch>)
    requires multiset(xs) == multiset(ys)
    ensures Aggregate(counters, xs) == Aggregate(counters, ys)
  {
    SendersPermutation(xs, ys);
    forall w | w in Aggregate(counters, xs) ensures Aggregate(counters, xs)[w] == Aggregate(counters, ys)[w] {
      AggregateCounts(counters, xs, w);
      AggregateCounts(counters, ys, w);
      ExpectedCountPermutation(counters, xs, ys, w);
    }
  }

  /** There is no deduplication: the same batch delivered twice to a fresh table counts twice. */
  lemma RedeliveryCountsTwice(batch: TaggedMessageBatch)
    requires 2 * |batch.messageBatch| <= I32_MAX
    ensures Aggregate(map[], [batch, batch]) == map[batch.consumerId := (2 * |batch.messageBatch|) as i32]
  {
    var once := Aggregate(map[], [batch]);
    assert [batch, batch][..1] == [batch];
    RecordAddsLength(map[], batch);
    RecordAddsLength(once, batch);
  }

  /** The batches of sizes 4, 0 and 6 from workers 0, 1 and 2, in that order. */
  lemma ThreeWorkersInOrder(b0: TaggedMessageBatch, b1: TaggedMessageBatch, b2: TaggedMessageBatch)
    requires b0.consumerId == 0 && |b0.messageBatch| == 4
    requires b1.consumerId == 1 && |b1.messageBatch| == 0
    requires b2.consumerId == 2 && |b2.messageBatch| == 6
    ensures Aggregate(map[], [b0, b1, b2]) == map[0 := 4, 1 := 0, 2 := 6]
  {
    var t0 := Record(map[], b0);
    var t1 := Record(t0, b1);
    assert [b0][..0] == [];
    assert [b0, b1][..1] == [b0];
    assert [b0, b1, b2][..2] == [b0, b1];
    Wrap32InRange(4);
    Wrap32InRange(6);
    Wrap32InRange(0);
    assert Aggregate(map[], [b0]) == t0 == map[0 := 4];
    assert Aggregate(map[], [b0, b1]) == t1 == map[0 := 4, 1 := 0];
    assert Record(t1, b2) == map[0 := 4, 1 := 0, 2 := 6];
  }

  /**
   * Three workers with ids 0, 1 and 2 forward one batch each, of 4, 0 and 6
   * messages: whatever order they arrive in, the table is {0: 4, 1: 0, 2: 6}.
   */
  lemma ThreeWorkers(b0: TaggedMessageBatch, b1: TaggedMessageBatch, b2: TaggedMessageBatch, delivered: seq<TaggedMessageBatch>)
    requires b0.consumerId == 0 && |b0.messageBatch| == 4
    requires b1.consumerId == 1 && |b1.messageBatch| == 0
    requires b2.consumerId == 2 && |b2.messageBatch| == 6
    requires multiset(delivered) == multiset([b0, b1, b2])
    ensures Aggregate(map[], delivered) == map[0 := 4, 1 := 0, 2 := 6]
  {
    AggregateOrderIndependent(map[], delivered, [b0, b1, b2]);
    ThreeWorkersInOrder(b0, b1, b2);
  }

  // ---------------------------------------------------------------------------
  // One worker iteration
  // ---------------------------------------------------------------------------

  /** What one iteration forwards: the pulled batch tagged with the worker's id, or nothing. */
  function Forward(id: u8, pull: PullResult): Option<TaggedMessageBatch>
  {
    match pull
    case Pulled(messages) => Some(TaggedMessageBatch(id, messages))
    case PullFailed(_) => None
  }

  /** The statuses of the failed acks, in call order, when `messages` are acked in order. */
  function AckFailures(ack: (nat, ReceivedMessage) -> AckOutcome, messages: seq<ReceivedMessage>): seq<Status>
  {
    if messages == [] then []
    else
      var n := |messages|;
      AckFailures(ack, messages[..n - 1])
        + match ack(n - 1, messages[n - 1]) case Acked => [] case AckFailed(status) => [status]
  }

  /** An externally visible step of one worker pass, in the order it happens. */
  datatype WorkerEvent = AckCall(call: nat, message: ReceivedMessage) | Send(batch: TaggedMessageBatch)

  /**
   * One pass of the worker loop. `ack(k, m)` is the outcome of the `k`-th ack
   * call of this pass, on message `m`. Returns what is sent to the
   * aggregator, the messages acked (in call order), the reported ack
   * failures, and the trace of ack calls and sends in the order they are
   * made: every message is acked, in pull order, before the batch is sent.
   */
  method WorkerIteration(id: u8, pull: PullResult, ack: (nat, ReceivedMessage) -> AckOutcome)
    returns (sent: Option<TaggedMessageBatch>, acked: seq<ReceivedMessage>, ackFailures: seq<Status>,
             events: seq<WorkerEvent>)
    ensures sent == Forward(id, pull)
    ensures pull.Pulled? ==> sent == Some(TaggedMessageBatch(id, pull.messages)) && acked == pull.messages
    ensures pull.PullFailed? ==> sent == None && acked == []
    ensures ackFailures == AckFailures(ack, acked)
    ensures pull.Pulled? ==>
      events == seq(|pull.messages|, k requires 0 <= k < |pull.messages| => AckCall(k, pull.messages[k]))
                + [Send(TaggedMessageBatch(id, pull.messages))]
    ensures pull.PullFailed? ==> events == []
  {
    acked, ackFailures, events := [], [], [];
    match pull {
      case Pulled(messages) =>
        var i := 0;
        while i < |messages|
          invariant 0 <= i <= |messages|
          invariant acked == messages[..i]
          invariant ackFailures == AckFailures(ack, acked)
          invariant events == seq(i, k requires 0 <= k < i => AckCall(k, messages[k]))
        {
          var outcome := ack(i, messages[i]);
          events := events + [AckCall(i, messages[i])];
          match outcome {
            case Acked =>
            case AckFailed(status) => ackFailures := ackFailures + [status];
          }
          assert messages[..i + 1][..i] == acked;
          acked := acked + [messages[i]];
          i := i + 1;
        }
        assert acked == messages;
        sent := Some(TaggedMessageBatch(id, messages));
        events := events + [Send(TaggedMessageBatch(id, messages))];
      case PullFailed(_) =>
        sent := None;
    }
  }

  // ---------------------------------------------------------------------------
  // Many iterations, many workers
  // ---------------------------------------------------------------------------

  /** Everything worker `id` forwards over the iterations whose pulls are `pulls`. */
  function WorkerOutput(id: u8, pulls: seq<PullResult>): seq<TaggedMessageBatch>
  {
    if pulls == [] then []
    else
      var n := |pulls|;
      WorkerOutput(id, pulls[..n - 1]) + AsSeq(Forward(id, pulls[n - 1]))
  }

  /**
   * The worker loop over a finite number of passes, the pass `p` pulling
   * `pulls[p]`. `ack(p, k, m)` is the outcome of the `k`-th ack call of pass
   * `p`, on message `m`. Whatever the acks return, what the worker forwards
   * is `WorkerOutput(id, pulls)`.
   */
  method RunWorker(id: u8, pulls: seq<PullResult>, ack: (nat, nat, ReceivedMessage) -> AckOutcome)
    returns (forwarded: seq<TaggedMessageBatch>)
    ensures forwarded == WorkerOutput(id, pulls)
  {
    forwarded := [];
    var p := 0;
    while p < |pulls|
      invariant 0 <= p <= |pulls|
      invariant forwarded == WorkerOutput(id, pulls[..p])
    {
      var pass: nat := p;
      var sent, _, _, _ := WorkerIteration(id, pulls[p], (k: nat, m: ReceivedMessage) => ack(pass, k, m));
      assert pulls[..p + 1][..p] == pulls[..p];
      forwarded := forwarded + AsSeq(sent);
      p := p + 1;
    }
    assert pulls[..p] == pulls;
  }

  /** The number of messages that the successful pulls among `pulls` returned. */
  function PulledCount(pulls: seq<PullResult>): nat
  {
    if pulls == [] then 0
    else
      var n := |pulls|;
      PulledCount(pulls[..n - 1]) + match pulls[n - 1] case Pulled(ms) => |ms| case PullFailed(_) => 0
  }

  /** Some pull among `pulls` succeeded (possibly with no messages). */
  ghost predicate SomePullSucceeded(pulls: seq<PullResult>)
  {
    exists k :: 0 <= k < |pulls| && pulls[k].Pulled?
  }

  lemma SomePullSucceededStep(pulls: seq<PullResult>)
    requires pulls != []
    ensures SomePullSucceeded(pulls) <==> SomePullSucceeded(pulls[..|pulls| - 1]) || pulls[|pulls| - 1].Pulled?
  {
    var n := |pulls|;
    if SomePullSucceeded(pulls) && !pulls[n - 1].Pulled? {
      var k :| 0 <= k < n && pulls[k].Pulled?;
      assert pulls[..n - 1][k].Pulled?;
    }
    if SomePullSucceeded(pulls[..n - 1]) {
      var k :| 0 <= k < n - 1 && pulls[..n - 1][k].Pulled?;
      assert pulls[k].Pulled?;
    }
  }

  /** A worker forwards, tagged with its own id, every message it pulls, whatever the acks did. */
  lemma {:induction false} WorkerOutputTotal(id: u8, pulls: seq<PullResult>, w: u8)
    ensures Total(WorkerOutput(id, pulls), w) == if w == id then PulledCount(pulls) else 0
  {
    if pulls != [] {
      var n := |pulls|;
      var tail := AsSeq(Forward(id, pulls[n - 1]));
      WorkerOutputTotal(id, pulls[..n - 1], w);
      TotalConcat(WorkerOutput(id, pulls[..n - 1]), tail, w);
      assert tail != [] ==> tail[..0] == [];
    }
  }

  lemma SendersOfForward(id: u8, pull: PullResult)
    ensures Senders(AsSeq(Forward(id, pull))) == if pull.Pulled? then {id} else {}
  {
    if pull.Pulled? {
      assert AsSeq(Forward(id, pull))[..0] == [];
    }
  }

  /** A worker appears as a sender exactly once one of its pulls has succeeded. */
  lemma {:induction false} WorkerOutputSenders(id: u8, pulls: seq<PullResult>)
    ensures Senders(WorkerOutput(id, pulls)) == if SomePullSucceeded(pulls) then {id} else {}
  {
    if pulls != [] {
      var n := |pulls|;
      var tail := AsSeq(Forward(id, pulls[n - 1]));
      WorkerOutputSenders(id, pulls[..n - 1]);
      SendersConcat(WorkerOutput(id, pulls[..n - 1]), tail);
      SendersOfForward(id, pulls[n - 1]);
      SomePullSucceededStep(pulls);
    }
  }

  /** Everything the pool forwards: worker `ids[k]` runs the iterations whose pulls are `pulls[k]`. */
  function PoolOutput(ids: seq<u8>, pulls: seq<seq<PullResult>>): seq<TaggedMessageBatch>
    requires |ids| == |pulls|
  {
    if ids == [] then []
    else
      var n := |ids|;
      PoolOutput(ids[..n - 1], pulls[..n - 1]) + WorkerOutput(ids[n - 1], pulls[n - 1])
  }

  /** With distinct ids, each worker's share of the pool's output is what that worker pulled. */
  lemma {:induction false} PoolOutputShares(ids: seq<u8>, pulls: seq<seq<PullResult>>, w: u8)
    requires |ids| == |pulls|
    requires Distinct(ids)
    ensures w !in ids ==> Total(PoolOutput(ids, pulls), w) == 0 && w !in Senders(PoolOutput(ids, pulls))
    ensures forall k :: 0 <= k < |ids| && ids[k] == w ==>
              && Total(PoolOutput(ids, pulls), w) == PulledCount(pulls[k])
              && (w in Senders(PoolOutput(ids, pulls)) <==> SomePullSucceeded(pulls[k]))
  {
    if ids != [] {
      var n := |ids|;
      var init, own := PoolOutput(ids[..n - 1], pulls[..n - 1]), WorkerOutput(ids[n - 1], pulls[n - 1]);
      assert Distinct(ids[..n - 1]);
      PoolOutputShares(ids[..n - 1], pulls[..n - 1], w);
      TotalConcat(init, own, w);
      SendersConcat(init, own);
      WorkerOutputTotal(ids[n - 1], pulls[n - 1], w);
      WorkerOutputSenders(ids[n - 1], pulls[n - 1]);
      forall k | 0 <= k < n && ids[k] == w
        ensures Total(PoolOutput(ids, pulls), w) == PulledCount(pulls[k])
        ensures w in Senders(PoolOutput(ids, pulls)) <==> SomePullSucceeded(pulls[k])
      {
        if k == n - 1 {
          assert w !in ids[..n - 1];
        } else {
          assert ids[..n - 1][k] == w && pulls[..n - 1][k] == pulls[k];
        }
      }
      if w !in ids {
        assert w !in ids[..n - 1];
      }
    }
  }

  /**
   * The pool end to end: however the workers' batches interleave on the
   * channel, the table holds worker `ids[k]` exactly when one of its pulls
   * succeeded, with the number of messages it pulled, modulo 2^32. Acks do
   * not appear: `RunWorker` forwards `WorkerOutput` whatever they return,
   * so this holds however many acks fail.
   */
  lemma PoolCounts(ids: seq<u8>, pulls: seq<seq<PullResult>>, delivered: seq<TaggedMessageBatch>, k: nat)
    requires |ids| == |pulls| && k < |ids|
    requires Distinct(ids)
    requires multiset(delivered) == multiset(PoolOutput(ids, pulls))
    ensures ids[k] in Aggregate(map[], delivered) <==> SomePullSucceeded(pulls[k])
    ensures SomePullSucceeded(pulls[k]) ==> Aggregate(map[], delivered)[ids[k]] == Wrap32(PulledCount(pulls[k]))
  {
    var w := ids[k];
    PoolOutputShares(ids, pulls, w);
    AggregateOrderIndependent(map[], delivered, PoolOutput(ids, pulls));
    AggregateFromEmpty(PoolOutput(ids, pulls), w);
  }
}
