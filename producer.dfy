/**
 * The producer binary: it publishes one message per index of the range
 * `1..10000`, each carrying the text `some-<index>`, spawning one task per
 * message, and then joins the tasks in submission order, reporting each
 * publish outcome. A task that cannot be joined ends the run with an error.
 *
 * Publishing itself is abstract: the model takes, for each task, what
 * joining it produced.
 */
module Producer {
  import opened Common

  /** First index of the range, inclusive. */
  const FIRST_INDEX: nat := 1
  /** End of the range, exclusive. */
  const END_INDEX: nat := 10000

  // ---------------------------------------------------------------------------
  // Decimal text of an index
  // ---------------------------------------------------------------------------

  predicate IsDigit(c: char)
  {
    '0' <= c <= '9'
  }

  predicate AllDigits(s: string)
  {
    forall k :: 0 <= k < |s| ==> IsDigit(s[k])
  }

  function DigitChar(d: nat): char
    requires d < 10
  {
    (d + '0' as int) as char
  }

  function DigitValue(c: char): int
  {
    c as int - '0' as int
  }

  /** How an unsigned integer is displayed: its decimal digits, most significant first. */
  function Decimal(n: nat): string
  {
    if n < 10 then [DigitChar(n)] else Decimal(n / 10) + [DigitChar(n % 10)]
  }

  /** The number a string of decimal digits denotes. */
  function DecimalValue(s: string): int
  {
    if s == [] then 0 else DecimalValue(s[..|s| - 1]) * 10 + DigitValue(s[|s| - 1])
  }

  /** The decimal text is a non-empty digit string without a leading zero. */
  lemma {:induction false} DecimalCanonical(n: nat)
    ensures |Decimal(n)| >= 1
    ensures AllDigits(Decimal(n))
    ensures Decimal(n)[0] == '0' <==> n == 0
  {
    if n >= 10 {
      DecimalCanonical(n / 10);
    }
  }

  /** Reading the decimal text back gives the number. */
  lemma {:induction false} DecimalRoundTrip(n: nat)
    ensures DecimalValue(Decimal(n)) == n
  {
    if n < 10 {
      assert Decimal(n)[..0] == [];
    } else {
      var s := Decimal(n);
      assert s[..|s| - 1] == Decimal(n / 10);
      DecimalRoundTrip(n / 10);
    }
  }

  /** Distinct numbers have distinct decimal texts. */
  lemma DecimalInjective(m: nat, n: nat)
    requires Decimal(m) == Decimal(n)
    ensures m == n
  {
    DecimalRoundTrip(m);
    DecimalRoundTrip(n);
  }

  // ---------------------------------------------------------------------------
  // Payloads
  // ---------------------------------------------------------------------------

  predicate IsAscii(s: string)
  {
    forall k :: 0 <= k < |s| ==> s[k] as int < 0x80
  }

  /** The UTF-8 bytes of an ASCII string: one byte per character. */
  function Utf8(s: string): seq<u8>
    requires IsAscii(s)
  {
    seq(|s|, k requires 0 <= k < |s| => s[k] as int as u8)
  }

  /** Each byte read as the character with that code. */
  function Latin1(bytes: seq<u8>): string
  {
    seq(|bytes|, k requires 0 <= k < |bytes| => bytes[k] as int as char)
  }

  /** Decoding the bytes of an ASCII string gives the string back. */
  lemma Utf8RoundTrip(s: string)
    requires IsAscii(s)
    ensures Latin1(Utf8(s)) == s
  {
  }

  const PREFIX: string := "some-"

  /** Text made of the fixed prefix and decimal digits is ASCII. */
  lemma PayloadTextIsAscii(i: nat)
    ensures IsAscii(PREFIX + Decimal(i))
  {
    DecimalCanonical(i);
    var t := PREFIX + Decimal(i);
    forall k | 0 <= k < |t| ensures t[k] as int < 0x80 {
      if k >= |PREFIX| {
        assert t[k] == Decimal(i)[k - |PREFIX|];
      }
    }
  }

  /** The bytes sent for index `i`: the text `some-` followed by `i` in decimal. */
  function Payload(i: nat): seq<u8>
  {
    PayloadTextIsAscii(i);
    Utf8(PREFIX + Decimal(i))
  }

  /** The index a payload names, if it has the form `some-<digits>`. */
  function PayloadIndex(data: seq<u8>): Option<int>
  {
    var text := Latin1(data);
    if |text| > |PREFIX| && text[..|PREFIX|] == PREFIX && AllDigits(text[|PREFIX|..])
    then Some(DecimalValue(text[|PREFIX|..]))
    else None
  }

  /** The payload of index `i` is the text `some-<i>`, and it names `i`. */
  lemma PayloadRoundTrip(i: nat)
    ensures Latin1(Payload(i)) == PREFIX + Decimal(i)
    ensures PayloadIndex(Payload(i)) == Some(i)
  {
    var text := PREFIX + Decimal(i);
    Utf8RoundTrip(text);
    DecimalCanonical(i);
    DecimalRoundTrip(i);
    assert text[..|PREFIX|] == PREFIX;
    assert text[|PREFIX|..] == Decimal(i);
  }

  /** Distinct indices give distinct payloads. */
  lemma PayloadInjective(i: nat, j: nat)
    requires Payload(i) == Payload(j)
    ensures i == j
  {
    PayloadRoundTrip(i);
    PayloadRoundTrip(j);
  }

  // ---------------------------------------------------------------------------
  // The messages
  // ---------------------------------------------------------------------------

  /** A message to publish; every other field keeps its default. */
  datatype PubsubMessage = PubsubMessage(data: seq<u8>)

  /** One message per index of `FIRST_INDEX..END_INDEX`, in order. */
  function Messages(): seq<PubsubMessage>
  {
    seq(END_INDEX - FIRST_INDEX, k requires 0 <= k < END_INDEX - FIRST_INDEX => PubsubMessage(Payload(FIRST_INDEX + k)))
  }

  /**
   * There are 9999 messages, and the message at position `k` is the one for
   * index `k + 1`: each index from 1 to 9999 has exactly one message, which
   * names it.
   */
  lemma MessagesCoverRange()
    ensures |Messages()| == 9999
    ensures forall k :: 0 <= k < |Messages()| ==> PayloadIndex(Messages()[k].data) == Some(k + 1)
  {
    forall k | 0 <= k < |Messages()| ensures PayloadIndex(Messages()[k].data) == Some(k + 1) {
      PayloadRoundTrip(k + 1);
    }
  }

  /** No two messages carry the same payload. */
  lemma MessagesDistinct()
    ensures forall j, k :: 0 <= j < k < |Messages()| ==> Messages()[j].data != Messages()[k].data
  {
    forall j, k | 0 <= j < k < |Messages()| ensures Messages()[j].data != Messages()[k].data {
      if Messages()[j].data == Messages()[k].data {
        PayloadInjective(j + 1, k + 1);
      }
    }
  }

  // ---------------------------------------------------------------------------
  // Joining the tasks and reporting
  // ---------------------------------------------------------------------------

  /** Why a task could not be joined (it panicked or was cancelled). */
  datatype JoinError = JoinError(reason: string)

  /** What a publish task returns: the server-assigned id, or an error status. */
  datatype PublishResult = Published(messageId: string) | PublishFailed(status: Status)

  /** What awaiting a task's handle gives. */
  datatype TaskOutcome = Joined(result: PublishResult) | JoinFailed(error: JoinError)

  /** One line of the report. */
  datatype Report = PublishedReport(messageId: string) | ErrorReport(status: Status)

  /** How the run ends: `Ok(())`, or the first join error. */
  datatype RunResult = Completed | Aborted(error: JoinError)

  datatype Run = Run(reports: seq<Report>, result: RunResult)

  function ReportOf(result: PublishResult): Report
  {
    match result
    case Published(id) => PublishedReport(id)
    case PublishFailed(status) => ErrorReport(status)
  }

  /** The report loop as a fold over the tasks in submission order. */
  function ReportRun(tasks: seq<TaskOutcome>): Run
  {
    if tasks == [] then Run([], Completed)
    else
      match tasks[0]
      case JoinFailed(e) => Run([], Aborted(e))
      case Joined(r) => var rest := ReportRun(tasks[1..]); Run([ReportOf(r)] + rest.reports, rest.result)
  }

  /**
   * What the run promises: one report per task, in order, for a prefix of
   * the tasks that all joined; the run completes exactly when that prefix
   * is all of them, and otherwise stops at the first task that did not join,
   * with that task's error.
   */
  ghost predicate Reports(tasks: seq<TaskOutcome>, run: Run)
  {
    && |run.reports| <= |tasks|
    && (forall k :: 0 <= k < |run.reports| ==> tasks[k].Joined? && run.reports[k] == ReportOf(tasks[k].result))
    && (run.result == Completed <==> |run.reports| == |tasks|)
    && (run.result.Aborted? ==> tasks[|run.reports|] == JoinFailed(run.result.error))
  }

  lemma {:induction false} ReportRunReports(tasks: seq<TaskOutcome>)
    ensures Reports(tasks, ReportRun(tasks))
  {
    if tasks != [] && tasks[0].Joined? {
      var rest := tasks[1..];
      ReportRunReports(rest);
      var run := ReportRun(tasks);
      forall k | 0 <= k < |run.reports|
        ensures tasks[k].Joined? && run.reports[k] == ReportOf(tasks[k].result)
      {
        if k > 0 {
          assert tasks[k] == rest[k - 1];
        }
      }
    }
  }

  /** The promise determines the run: `ReportRun` is the only way to meet it. */
  lemma {:induction false} ReportsDetermineRun(tasks: seq<TaskOutcome>, run: Run)
    requires Reports(tasks, run)
    ensures run == ReportRun(tasks)
  {
    if tasks != [] {
      match tasks[0]
      case JoinFailed(_) =>
        assert |run.reports| == 0;
      case Joined(_) =>
        assert |run.reports| >= 1;
        var rest := Run(run.reports[1..], run.result);
        assert Reports(tasks[1..], rest) by {
          forall k | 0 <= k < |rest.reports|
            ensures tasks[1..][k].Joined? && rest.reports[k] == ReportOf(tasks[1..][k].result)
          {
            assert rest.reports[k] == run.reports[k + 1];
          }
        }
        ReportsDetermineRun(tasks[1..], rest);
        assert run.reports == [run.reports[0]] + rest.reports;
    }
  }

  /** With no join failure, every task is reported and the run returns `Ok`. */
  lemma {:induction false} NoJoinFailure(tasks: seq<TaskOutcome>)
    requires forall k :: 0 <= k < |tasks| ==> tasks[k].Joined?
    ensures |ReportRun(tasks).reports| == |tasks|
    ensures ReportRun(tasks).result == Completed
  {
    if tasks != [] {
      assert tasks[0].Joined?;
      NoJoinFailure(tasks[1..]);
    }
  }

  /** The first join failure, at `k`, ends the run: exactly the tasks before `k` are reported. */
  lemma {:induction false} FirstJoinFailure(tasks: seq<TaskOutcome>, k: nat)
    requires k < |tasks| && tasks[k].JoinFailed?
    requires forall j :: 0 <= j < k ==> tasks[j].Joined?
    ensures |ReportRun(tasks).reports| == k
    ensures ReportRun(tasks).result == Aborted(tasks[k].error)
  {
    if k > 0 {
      assert tasks[0].Joined?;
      FirstJoinFailure(tasks[1..], k - 1);
    }
  }

  /**
   * A publish error is reported like a success and does not stop the loop:
   * if no task up to `k` failed to join, task `k` is reported at position `k`.
   */
  lemma PublishOutcomeReported(tasks: seq<TaskOutcome>, k: nat)
    requires k < |tasks|
    requires forall j :: 0 <= j <= k ==> tasks[j].Joined?
    ensures k < |ReportRun(tasks).reports|
    ensures tasks[k].result.PublishFailed? ==> ReportRun(tasks).reports[k] == ErrorReport(tasks[k].result.status)
    ensures tasks[k].result.Published? ==> ReportRun(tasks).reports[k] == PublishedReport(tasks[k].result.messageId)
  {
    ReportRunReports(tasks);
  }

  /** The `for awaiter in awaiters` loop: join each task in turn, report it, stop at a join error. */
  method ReportAll(tasks: seq<TaskOutcome>) returns (reports: seq<Report>, result: RunResult)
    ensures Run(reports, result) == ReportRun(tasks)
    ensures Reports(tasks, Run(reports, result))
  {
    reports := [];
    var i := 0;
    while i < |tasks|
      invariant 0 <= i <= |tasks|
      invariant ReportRun(tasks) == Run(reports + ReportRun(tasks[i..]).reports, ReportRun(tasks[i..]).result)
    {
      assert tasks[i..][1..] == tasks[i + 1..];
      match tasks[i] {
        case JoinFailed(e) =>
          result := Aborted(e);
          ReportRunReports(tasks);
          return;
        case Joined(r) =>
          reports := reports + [ReportOf(r)];
      }
      i := i + 1;
    }
    result := Completed;
    ReportRunReports(tasks);
  }
}
