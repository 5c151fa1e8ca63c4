/**
 * The crawl form's submit handler: start a crawl, poll its status at most
 * sixty times, follow the chain of result chunks once it completes, and hand
 * the usable pages to the home page. Every server reply is an input.
 */
module CrawlerForm {
  import opened Pages

  // ------------------------------------------------------------------ Inputs

  /** A page as the crawl service returns it; "" stands for a missing field. */
  datatype PageData = PageData(markdown: string, sourceUrl: string)

  /**
   * The reply to starting a crawl: a response that is not ok (with the
   * `error` field of its body), an ok one, or a request that rejects before
   * any response, with the message of the exception it rejects with.
   */
  datatype StartReply =
    | StartNotOk(error: string)
    | StartOk(success: bool, id: string)
    | StartThrew(message: string)

  /**
   * The reply to one status poll: a response that is not ok, a request that
   * rejects with an exception's message, or an ok response. `total` and `completed` are 0 when absent,
   * `data` is None when absent, `next` and `error` are "" when absent.
   */
  datatype StatusReply =
    | StatusNotOk
    | StatusThrew(message: string)
    | StatusOk(status: string, total: nat, completed: nat, data: Option<seq<PageData>>, next: string, error: string)

  /** The reply to one request for the next chunk of results; a failed request of any kind is `ChunkFail`. */
  datatype ChunkReply =
    | ChunkFail
    | ChunkOk(data: Option<seq<PageData>>, next: string, total: nat, completed: nat)

  const MaxAttempts: nat := 60

  /** Math.round(completed / total * 100) for a positive total, in integers (halves round up). */
  function RoundPercent(completed: nat, total: nat): (p: nat)
    requires total > 0
    ensures 2 * total * p <= 200 * completed + total < 2 * total * (p + 1)
  {
    (200 * completed + total) / (2 * total)
  }

  /** A status or chunk reply changes the progress only when it carries both counts. */
  function NextProgress(total: nat, completed: nat, progress: nat): nat {
    if total != 0 && completed != 0 then RoundPercent(completed, total) else progress
  }

  // ------------------------------------------------------ Result processing

  /** A page worth displaying: it has both Markdown and a source URL. */
  predicate Usable(p: PageData) {
    p.markdown != "" && p.sourceUrl != ""
  }

  /** The pages kept for display: the usable ones, as `{url, content}`, in order. */
  function Process(pages: seq<PageData>): (r: seq<CrawlResult>)
    ensures |r| <= |pages|
  {
    if pages == [] then []
    else
      var p := pages[0];
      (if Usable(p) then [CrawlResult(p.sourceUrl, p.markdown)] else [])
        + Process(pages[1..])
  }

  lemma {:induction false} ProcessAppend(a: seq<PageData>, b: seq<PageData>)
    ensures Process(a + b) == Process(a) + Process(b)
  {
    if a == [] {
      assert a + b == b;
    } else {
      assert (a + b)[1..] == a[1..] + b;
      ProcessAppend(a[1..], b);
      var p := a[0];
      var head := if Usable(p) then [CrawlResult(p.sourceUrl, p.markdown)] else [];
      assert Process(a + b) == head + Process(a[1..] + b);
      assert Process(a) == head + Process(a[1..]);
    }
  }

  /** A result is delivered exactly when a usable page carries its URL and content. */
  lemma {:induction false} ProcessMembers(pages: seq<PageData>, r: CrawlResult)
    ensures r in Process(pages) <==>
      exists i :: 0 <= i < |pages| && Usable(pages[i]) && r == CrawlResult(pages[i].sourceUrl, pages[i].markdown)
  {
    if pages != [] {
      ProcessMembers(pages[1..], r);
      if r in Process(pages[1..]) {
        var i :| 0 <= i < |pages[1..]| && Usable(pages[1..][i])
          && r == CrawlResult(pages[1..][i].sourceUrl, pages[1..][i].markdown);
        assert pages[i + 1] == pages[1..][i];
      }
      if exists i :: 0 <= i < |pages| && Usable(pages[i]) && r == CrawlResult(pages[i].sourceUrl, pages[i].markdown) {
        var i :| 0 <= i < |pages| && Usable(pages[i]) && r == CrawlResult(pages[i].sourceUrl, pages[i].markdown);
        if i > 0 {
          assert pages[1..][i - 1] == pages[i];
        }
      }
    }
  }

  /** Every page is delivered, in order, when every page is usable. */
  lemma {:induction false} ProcessAllUsable(pages: seq<PageData>)
    requires forall i :: 0 <= i < |pages| ==> Usable(pages[i])
    ensures |Process(pages)| == |pages|
    ensures forall i :: 0 <= i < |pages| ==>
      Process(pages)[i] == CrawlResult(pages[i].sourceUrl, pages[i].markdown)
  {
    if pages != [] {
      ProcessAllUsable(pages[1..]);
    }
  }

  // -------------------------------------------------------------- Pagination

  function DataOf(data: Option<seq<PageData>>): seq<PageData> {
    if data.Some? then data.value else []
  }

  /**
   * The pages the chunk chain adds when `next` is the link to follow and
   * `chunks[k]` answers the next request: nothing once the link is empty or
   * a request fails (a request past the end of `chunks` fails).
   */
  function Follow(chunks: seq<ChunkReply>, k: nat, next: string): seq<PageData>
    decreases |chunks| - k
  {
    if next == "" || k >= |chunks| then []
    else match chunks[k]
      case ChunkFail => []
      case ChunkOk(data, link, _, _) => DataOf(data) + Follow(chunks, k + 1, link)
  }

  /** The result of following the chain: the pages that came with the completed status first. */
  function Gather(data: Option<seq<PageData>>, next: string, chunks: seq<ChunkReply>): seq<PageData> {
    DataOf(data) + Follow(chunks, 0, next)
  }

  /** The number of chunk requests that succeed. */
  function Fetched(chunks: seq<ChunkReply>, k: nat, next: string): (n: nat)
    ensures k + n <= |chunks| || n == 0
    decreases |chunks| - k
  {
    if next == "" || k >= |chunks| || chunks[k].ChunkFail? then 0
    else 1 + Fetched(chunks, k + 1, chunks[k].next)
  }

  /** The link in hand after the first `n` requests from `k` on have succeeded. */
  function LinkAfter(chunks: seq<ChunkReply>, k: nat, next: string, n: nat): string
    requires n == 0 || (k + n <= |chunks| && chunks[k + n - 1].ChunkOk?)
  {
    if n == 0 then next else chunks[k + n - 1].next
  }

  function ConcatData(chunks: seq<ChunkReply>): seq<PageData>
    requires forall i :: 0 <= i < |chunks| ==> chunks[i].ChunkOk?
  {
    if chunks == [] then [] else DataOf(chunks[0].data) + ConcatData(chunks[1..])
  }

  /**
   * The chain is followed link by link with no retry: the successful replies
   * are consecutive, and each but the last hands on a non-empty link.
   */
  lemma {:induction false} FollowChainLinks(chunks: seq<ChunkReply>, k: nat, next: string)
    requires k <= |chunks|
    ensures var n := Fetched(chunks, k, next);
      && (forall i :: k <= i < k + n ==> chunks[i].ChunkOk?)
      && (forall m :: 0 <= m < n ==> LinkAfter(chunks, k, next, m) != "")
    decreases |chunks| - k
  {
    var n := Fetched(chunks, k, next);
    if n > 0 {
      var link := chunks[k].next;
      FollowChainLinks(chunks, k + 1, link);
      forall m | 0 <= m < n ensures LinkAfter(chunks, k, next, m) != "" {
        if m > 0 {
          assert LinkAfter(chunks, k, next, m) == LinkAfter(chunks, k + 1, link, m - 1);
        }
      }
    }
  }

  /** The following stops at the first empty link or the first failed request. */
  lemma {:induction false} FollowChainStops(chunks: seq<ChunkReply>, k: nat, next: string)
    requires k <= |chunks|
    ensures var n := Fetched(chunks, k, next);
      (k + n <= |chunks|) && (n == 0 || chunks[k + n - 1].ChunkOk?)
      && (LinkAfter(chunks, k, next, n) == "" || k + n == |chunks| || chunks[k + n].ChunkFail?)
    decreases |chunks| - k
  {
    var n := Fetched(chunks, k, next);
    if n > 0 {
      var link := chunks[k].next;
      FollowChainStops(chunks, k + 1, link);
      if n > 1 {
        assert LinkAfter(chunks, k, next, n) == LinkAfter(chunks, k + 1, link, n - 1);
      }
    }
  }

  /** The pages gathered are the successful replies' data, in order. */
  lemma {:induction false} FollowChainData(chunks: seq<ChunkReply>, k: nat, next: string)
    requires k <= |chunks|
    ensures var n := Fetched(chunks, k, next);
      (forall i :: k <= i < k + n ==> chunks[i].ChunkOk?)
      && Follow(chunks, k, next) == ConcatData(chunks[k..k + n])
    decreases |chunks| - k
  {
    FollowChainLinks(chunks, k, next);
    var n := Fetched(chunks, k, next);
    if n > 0 {
      var link := chunks[k].next;
      FollowChainData(chunks, k + 1, link);
      assert chunks[k..k + n][1..] == chunks[k + 1..k + 1 + (n - 1)];
    }
  }

  /** The progress after following the chain: the last successful reply that carried both counts sets it. */
  function ChunkProgress(chunks: seq<ChunkReply>, k: nat, next: string, progress: nat): nat
    decreases |chunks| - k
  {
    if next == "" || k >= |chunks| then progress
    else match chunks[k]
      case ChunkFail => progress
      case ChunkOk(_, link, total, completed) =>
        ChunkProgress(chunks, k + 1, link, NextProgress(total, completed, progress))
  }

  /** A reply without both counts leaves the progress alone. */
  predicate NoCounts(total: nat, completed: nat) {
    total == 0 || completed == 0
  }

  /** Following a chain whose replies never carry both counts leaves the progress as it was. */
  lemma {:induction false} ChunkProgressWithoutCounts(chunks: seq<ChunkReply>, k: nat, next: string, progress: nat)
    requires forall i :: 0 <= i < |chunks| && chunks[i].ChunkOk? ==> NoCounts(chunks[i].total, chunks[i].completed)
    ensures ChunkProgress(chunks, k, next, progress) == progress
    decreases |chunks| - k
  {
    if next != "" && k < |chunks| && chunks[k].ChunkOk? {
      ChunkProgressWithoutCounts(chunks, k + 1, chunks[k].next, progress);
    }
  }

  // ----------------------------------------------------------------- Polling

  /** Why a submission ended. */
  datatype Stop =
    | Delivered(results: seq<CrawlResult>)
    | StartRejected(serverError: string)
    | InvalidStart
    | StatusCheckFailed
    | RequestThrew(message: string)
    | CrawlFailed(serverError: string)
    | TimedOut

  /** The error shown for each ending; a delivery shows none. */
  function ErrorMessage(stop: Stop): string {
    match stop
    case Delivered(_) => ""
    case StartRejected(e) => if e != "" then e else "Failed to crawl URL"
    case InvalidStart => "Invalid response from crawl endpoint"
    case StatusCheckFailed => "Failed to check crawl status"
    case RequestThrew(m) => m
    case CrawlFailed(e) => if e != "" then e else "Crawl failed"
    case TimedOut => "Crawl timed out - please try again"
  }

  /** How a submission ended, after how many status polls, with what progress on display. */
  datatype Run = Run(stop: Stop, attempts: nat, progress: nat)

  /** A reply that neither fails nor completes the crawl: polling goes on. */
  predicate InProgress(reply: StatusReply) {
    reply.StatusOk? && reply.status != "failed" && reply.status != "completed"
  }

  /**
   * The polling from the poll numbered `attempts` on (`statusAt(k)` answers
   * poll `k`), with `progress` on display.
   */
  function Poll(statusAt: nat -> StatusReply, chunks: seq<ChunkReply>, attempts: nat, progress: nat): (run: Run)
    requires attempts <= MaxAttempts
    ensures attempts <= run.attempts <= MaxAttempts
    ensures run.stop.TimedOut? ==> run.attempts == MaxAttempts
    decreases MaxAttempts - attempts
  {
    if attempts == MaxAttempts then Run(TimedOut, attempts, progress)
    else
      var reply := statusAt(attempts);
      var n := attempts + 1;
      match reply
      case StatusNotOk => Run(StatusCheckFailed, n, progress)
      case StatusThrew(m) => Run(RequestThrew(m), n, progress)
      case StatusOk(status, total, completed, data, next, error) =>
        var p := NextProgress(total, completed, progress);
        if status == "failed" then Run(CrawlFailed(error), n, p)
        else if status == "completed" then
          Run(Delivered(Process(Gather(data, next, chunks))), n, ChunkProgress(chunks, 0, next, p))
        else Poll(statusAt, chunks, n, p)
  }

  /** One status request of the polling, taken apart by its reply. */
  lemma PollStep(statusAt: nat -> StatusReply, chunks: seq<ChunkReply>, attempts: nat, progress: nat)
    requires attempts < MaxAttempts
    ensures var reply, run := statusAt(attempts), Poll(statusAt, chunks, attempts, progress);
      && (reply.StatusNotOk? ==> run == Run(StatusCheckFailed, attempts + 1, progress))
      && (reply.StatusThrew? ==> run == Run(RequestThrew(reply.message), attempts + 1, progress))
      && (reply.StatusOk? ==>
            var p := NextProgress(reply.total, reply.completed, progress);
            && (reply.status == "failed" ==> run == Run(CrawlFailed(reply.error), attempts + 1, p))
            && (reply.status == "completed" ==>
                  run == Run(Delivered(Process(Gather(reply.data, reply.next, chunks))), attempts + 1,
                             ChunkProgress(chunks, 0, reply.next, p)))
            && (reply.status != "failed" && reply.status != "completed" ==>
                  run == Poll(statusAt, chunks, attempts + 1, p)))
  {
  }

  /** A whole submission: the start call, then the polling when the start is valid. */
  function Submit(start: StartReply, statusAt: nat -> StatusReply, chunks: seq<ChunkReply>): (run: Run)
    ensures run.attempts == 0 <==> !start.StartOk? || !start.success || start.id == ""
    ensures run.attempts <= MaxAttempts
  {
    match start
    case StartNotOk(error) => Run(StartRejected(error), 0, 0)
    case StartThrew(m) => Run(RequestThrew(m), 0, 0)
    case StartOk(success, id) =>
      if !success || id == "" then Run(InvalidStart, 0, 0) else Poll(statusAt, chunks, 0, 0)
  }

  /**
   * The polling times out exactly when every remaining poll up to the
   * sixtieth reports a crawl still in progress.
   */
  lemma {:induction false} TimeoutIffAllInProgress(
    statusAt: nat -> StatusReply, chunks: seq<ChunkReply>, attempts: nat, progress: nat)
    requires attempts <= MaxAttempts
    ensures Poll(statusAt, chunks, attempts, progress).stop.TimedOut?
      <==> forall k :: attempts <= k < MaxAttempts ==> InProgress(statusAt(k))
    decreases MaxAttempts - attempts
  {
    if attempts < MaxAttempts {
      var reply := statusAt(attempts);
      if InProgress(reply) {
        TimeoutIffAllInProgress(statusAt, chunks, attempts + 1, NextProgress(reply.total, reply.completed, progress));
      }
    }
  }

  /**
   * Polling ends at the first reply that is not "in progress": after exactly
   * that many polls, failing or delivering as that reply says.
   */
  lemma {:induction false} PollStopsAtFirstDecisive(
    statusAt: nat -> StatusReply, chunks: seq<ChunkReply>, attempts: nat, progress: nat, j: nat)
    requires attempts <= j < MaxAttempts
    requires forall k :: attempts <= k < j ==> InProgress(statusAt(k))
    requires !InProgress(statusAt(j))
    ensures var run := Poll(statusAt, chunks, attempts, progress);
      && run.attempts == j + 1
      && (statusAt(j).StatusNotOk? ==> run.stop == StatusCheckFailed)
      && (statusAt(j).StatusThrew? ==> run.stop == RequestThrew(statusAt(j).message))
      && (statusAt(j).StatusOk? && statusAt(j).status == "failed" ==> run.stop == CrawlFailed(statusAt(j).error))
      && (statusAt(j).StatusOk? && statusAt(j).status == "completed" ==>
            run.stop == Delivered(Process(Gather(statusAt(j).data, statusAt(j).next, chunks))))
    decreases j - attempts
  {
    if attempts < j {
      var reply := statusAt(attempts);
      PollStopsAtFirstDecisive(statusAt, chunks, attempts + 1, NextProgress(reply.total, reply.completed, progress), j);
    }
  }

  /** Results are delivered only after a poll reported "completed", every earlier one in progress. */
  lemma {:induction false} DeliveredOnlyWhenCompleted(
    statusAt: nat -> StatusReply, chunks: seq<ChunkReply>, attempts: nat, progress: nat)
    requires attempts <= MaxAttempts
    requires Poll(statusAt, chunks, attempts, progress).stop.Delivered?
    ensures var j := Poll(statusAt, chunks, attempts, progress).attempts - 1;
      && attempts <= j < MaxAttempts
      && statusAt(j).StatusOk? && statusAt(j).status == "completed"
      && (forall k :: attempts <= k < j ==> InProgress(statusAt(k)))
    decreases MaxAttempts - attempts
  {
    var reply := statusAt(attempts);
    if InProgress(reply) {
      DeliveredOnlyWhenCompleted(statusAt, chunks, attempts + 1, NextProgress(reply.total, reply.completed, progress));
    }
  }

  /** A timed-out submission shows the timeout message after sixty polls. */
  lemma TimeoutMessage(start: StartReply, statusAt: nat -> StatusReply, chunks: seq<ChunkReply>)
    requires Submit(start, statusAt, chunks).stop.TimedOut?
    ensures Submit(start, statusAt, chunks).attempts == MaxAttempts
    ensures ErrorMessage(Submit(start, statusAt, chunks).stop) == "Crawl timed out - please try again"
  {
  }

  /**
   * The progress shown only ever comes from a reply carrying both counts:
   * when none does, it stays where it started.
   */
  lemma {:induction false} PollProgressWithoutCounts(
    statusAt: nat -> StatusReply, chunks: seq<ChunkReply>, attempts: nat, progress: nat)
    requires attempts <= MaxAttempts
    requires forall k :: attempts <= k < MaxAttempts && statusAt(k).StatusOk? ==>
      NoCounts(statusAt(k).total, statusAt(k).completed)
    requires forall i :: 0 <= i < |chunks| && chunks[i].ChunkOk? ==> NoCounts(chunks[i].total, chunks[i].completed)
    ensures Poll(statusAt, chunks, attempts, progress).progress == progress
    decreases MaxAttempts - attempts
  {
    if attempts < MaxAttempts && statusAt(attempts).StatusOk? {
      var reply := statusAt(attempts);
      if reply.status == "completed" {
        ChunkProgressWithoutCounts(chunks, 0, reply.next, progress);
      } else if reply.status != "failed" {
        PollProgressWithoutCounts(statusAt, chunks, attempts + 1, progress);
      }
    }
  }

  // ------------------------------------------------------ Loading messages

  const LoadingStates: seq<string> := [
    "Teaching the fire to crawl...",
    "Giving the docs a thorough pat-down...",
    "Poking Firecrawl with a stick...",
    "Glazing Firecrawl expeditiously..."
  ]

  /** The message index the form computes, Math.floor(progress / 100 * 4). */
  function LoadingIndexAsWritten(progress: nat): nat {
    progress * |LoadingStates| / 100
  }

  /** A page count reported as fully done shows 100 percent, which points past the last message. */
  lemma FullProgressOutOfRange(completed: nat)
    requires completed > 0
    ensures RoundPercent(completed, completed) == 100
    ensures LoadingIndexAsWritten(RoundPercent(completed, completed)) == |LoadingStates|
  {
    var p := RoundPercent(completed, completed);
    if p >= 101 {
      MulAtLeast(2 * completed, p, 101);
    } else if p <= 99 {
      MulAtLeast(2 * completed, 100, p + 1);
    }
  }

  lemma MulAtLeast(c: nat, a: nat, b: nat)
    requires a >= b
    ensures c * a >= c * b
  {
  }

  /** The message index kept inside the table: the last message from 75 percent on. */
  function LoadingIndex(progress: nat): (i: nat)
    ensures i < |LoadingStates|
    ensures progress < 100 ==> i == LoadingIndexAsWritten(progress)
  {
    var i := LoadingIndexAsWritten(progress);
    if i < |LoadingStates| then i else |LoadingStates| - 1
  }

  // ---------------------------------------------------------------- The form

  /** The form's state fields that the submit handler updates. */
  class CrawlerForm {
    var loading: bool
    var progress: nat
    var error: string

    constructor()
      ensures !loading && progress == 0 && error == ""
    {
      loading := false;
      progress := 0;
      error := "";
    }

    /**
     * The message the form renders while loading, as written: the first one
     * until there is progress, then the one at the computed index. None
     * stands for the render failing on the entry past the end of the table.
     */
    function LoadingMessageAsWritten(): (text: Option<string>)
      reads this
      ensures progress == 0 ==> text == Some(LoadingStates[0])
      ensures text.None? <==> progress >= 100
      ensures 0 < progress < 100 ==> text == Some(LoadingStates[LoadingIndexAsWritten(progress)])
    {
      if progress == 0 then Some(LoadingStates[0])
      else
        var i := LoadingIndexAsWritten(progress);
        if i < |LoadingStates| then Some(LoadingStates[i]) else None
    }

    /**
     * The message with the corrected index: the same as the form's below
     * 100 percent, and the last message instead of a failed render from there on.
     */
    function LoadingMessage(): (text: string)
      reads this
      ensures text in LoadingStates
      ensures progress == 0 ==> text == LoadingStates[0]
      ensures progress >= 75 ==> text == LoadingStates[|LoadingStates| - 1]
      ensures progress < 100 ==> LoadingMessageAsWritten() == Some(text)
    {
      if progress == 0 then LoadingStates[0] else LoadingStates[LoadingIndex(progress)]
    }

    /**
     * Gathers the pages of a completed crawl: those that came with the
     * status, then each chunk's, following the links until one is empty or
     * a request fails; each chunk with both counts updates the progress.
     */
    method FetchAllResults(data: Option<seq<PageData>>, next: string, chunks: seq<ChunkReply>)
      returns (allResults: seq<PageData>)
      modifies this`progress
      ensures allResults == Gather(data, next, chunks)
      ensures progress == ChunkProgress(chunks, 0, next, old(progress))
    {
      allResults := DataOf(data);
      var nextUrl := next;
      var k := 0;
      while nextUrl != ""
        invariant allResults + Follow(chunks, k, nextUrl) == Gather(data, next, chunks)
        invariant ChunkProgress(chunks, k, nextUrl, progress) == ChunkProgress(chunks, 0, next, old(progress))
        decreases |chunks| - k
      {
        if k >= |chunks| {
          break;
        }
        var reply := chunks[k];
        if reply.ChunkFail? {
          break;
        }
        allResults := allResults + DataOf(reply.data);
        nextUrl := reply.next;
        if reply.total != 0 && reply.completed != 0 {
          progress := RoundPercent(reply.completed, reply.total);
        }
        k := k + 1;
      }
    }

    /**
     * One submission: resets the error and progress, starts the crawl,
     * polls until a reply fails or completes the crawl or sixty polls have
     * passed, and ends not loading, with the error the ending calls for.
     */
    method HandleSubmit(start: StartReply, statusAt: nat -> StatusReply, chunks: seq<ChunkReply>)
      returns (delivered: Option<seq<CrawlResult>>, attempts: nat)
      modifies this
      ensures var run := Submit(start, statusAt, chunks);
        && attempts == run.attempts
        && progress == run.progress
        && error == ErrorMessage(run.stop)
        && (run.stop.Delivered? ==> delivered == Some(run.stop.results))
        && (!run.stop.Delivered? ==> delivered == None)
      ensures !loading
    {
      loading := true;
      error := "";
      progress := 0;
      delivered := None;
      attempts := 0;
      var stop: Stop;
      if start.StartNotOk? {
        stop := StartRejected(start.error);
      } else if start.StartThrew? {
        stop := RequestThrew(start.message);
      } else if !start.success || start.id == "" {
        stop := InvalidStart;
      } else {
        stop, attempts := PollStatus(statusAt, chunks);
        if stop.Delivered? {
          delivered := Some(stop.results);
        }
      }
      error := ErrorMessage(stop);
      loading := false;
    }

    /**
     * The polling loop of a submission: up to sixty status requests, each
     * with both counts updating the progress, until the crawl fails, a
     * request fails, or the crawl completes and its pages are gathered.
     */
    method PollStatus(statusAt: nat -> StatusReply, chunks: seq<ChunkReply>) returns (stop: Stop, attempts: nat)
      modifies this`progress
      ensures Run(stop, attempts, progress) == Poll(statusAt, chunks, 0, old(progress))
    {
      attempts := 0;
      var isComplete := false;
      var failure: Option<Stop> := None;
      var delivered: seq<CrawlResult> := [];
      while !isComplete && attempts < MaxAttempts
        invariant attempts <= MaxAttempts
        invariant !isComplete ==>
          Poll(statusAt, chunks, attempts, progress) == Poll(statusAt, chunks, 0, old(progress))
        invariant isComplete ==>
          Poll(statusAt, chunks, 0, old(progress)) == Run(Delivered(delivered), attempts, progress)
        decreases MaxAttempts - attempts
      {
        PollStep(statusAt, chunks, attempts, progress);
        ghost var progressBefore := progress;
        attempts := attempts + 1;
        var reply := statusAt(attempts - 1);
        if reply.StatusNotOk? {
          failure := Some(StatusCheckFailed);
          break;
        } else if reply.StatusThrew? {
          failure := Some(RequestThrew(reply.message));
          break;
        }
        if reply.total != 0 && reply.completed != 0 {
          progress := RoundPercent(reply.completed, reply.total);
        }
        assert progress == NextProgress(reply.total, reply.completed, progressBefore);
        if reply.status == "failed" {
          failure := Some(CrawlFailed(reply.error));
          break;
        } else if reply.status == "completed" {
          isComplete := true;
          var allResults := FetchAllResults(reply.data, reply.next, chunks);
          delivered := Process(allResults);
        }
      }
      if failure.Some? {
        stop := failure.value;
      } else if !isComplete {
        stop := TimedOut;
      } else {
        stop := Delivered(delivered);
      }
    }
  }
}
