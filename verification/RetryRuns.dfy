/**
 Runs of attempts: what the retry policy does after each attempt, and what follows
 for whole runs -- how many attempts back off, which attempts may repeat a request
 that already reached the wire.
 */
module RetryRuns {
  import opened RetryConfigs
  import opened HttpRequests
  import opened ClientExchanges

  /** The connection an attempt went over: the origin its socket was connected to, and the protocol. */
  datatype Via = Via(origin: string, http2: bool)

  /** How one attempt ended: what the client saw of it, what was really heard, and the bytes put on which wire. */
  datatype Attempt =
    | ConnectFailed
    | Failed(reused: bool, sent: bool, wire: string, via: Via)
    | Completed(reply: Reply, keepAlive: bool, heard: Heard, wire: string, via: Via)

  datatype Move = FreeRetry | Backoff | Stop

  predicate IsIdempotent(m: Method) { m in {GET, HEAD, PUT, DELETE, OPTIONS, TRACE} }

  /** The attempt put bytes on the wire. */
  predicate OnWire(a: Attempt) { !a.ConnectFailed? && a.wire != "" }

  /** The flag the client decides by tells the truth about the wire. */
  predicate Honest(a: Attempt) {
    match a
    case ConnectFailed => true
    case Failed(_, sent, wire, _) => sent <==> wire != ""
    case Completed(_, _, _, wire, _) => wire != ""
  }

  ghost predicate AllHonest(run: seq<Attempt>) { forall i :: 0 <= i < |run| ==> Honest(run[i]) }

  /** What the loop does after attempt `a` once `used` backoff slots are gone. */
  function MoveAfter(c: RetryConfig, m: Method, used: nat, a: Attempt): Move {
    var canBackoff := used + 1 < c.Attempts();
    match a
    case ConnectFailed => if canBackoff then Backoff else Stop
    case Completed(reply, _, _, _, _) => if canBackoff && reply.status in c.retryStatuses then Backoff else Stop
    case Failed(reused, sent, _, _) =>
      if reused && !sent then FreeRetry
      else if canBackoff && (!sent || (c.retryIdempotentAfterSend && IsIdempotent(m))) then Backoff
      else Stop
  }

  /** Backoff slots used by a run of attempts. */
  function Used(c: RetryConfig, m: Method, run: seq<Attempt>): nat {
    if run == [] then 0
    else
      var before := Used(c, m, run[..|run| - 1]);
      if MoveAfter(c, m, before, run[|run| - 1]) == Backoff then before + 1 else before
  }

  /** Every attempt of the run was followed by another. */
  predicate Retried(c: RetryConfig, m: Method, run: seq<Attempt>) {
    run == [] ||
    (var init := run[..|run| - 1];
     Retried(c, m, init) && MoveAfter(c, m, Used(c, m, init), run[|run| - 1]) != Stop)
  }

  /** A whole run: everything retried but the last attempt. */
  predicate WholeRun(c: RetryConfig, m: Method, run: seq<Attempt>) {
    run != [] &&
    var init := run[..|run| - 1];
    Retried(c, m, init) && MoveAfter(c, m, Used(c, m, init), run[|run| - 1]) == Stop
  }

  /** The policy may go on after this attempt. */
  predicate SafeToFollow(c: RetryConfig, m: Method, a: Attempt) {
    match a
    case ConnectFailed => true
    case Failed(_, sent, _, _) => !sent || (c.retryIdempotentAfterSend && IsIdempotent(m))
    case Completed(reply, _, _, _, _) => reply.status in c.retryStatuses
  }

  /** Repeating the request after this attempt was asked for, by status or by opting in for an idempotent method. */
  predicate RepeatAsked(c: RetryConfig, m: Method, a: Attempt) {
    (a.Completed? && a.reply.status in c.retryStatuses) || (a.Failed? && c.retryIdempotentAfterSend && IsIdempotent(m))
  }

  /** The slots never run out while the loop goes on. */
  lemma {:induction false} UsedBounded(c: RetryConfig, m: Method, run: seq<Attempt>)
    ensures Used(c, m, run) <= c.Attempts() - 1
  {
    if run != [] { UsedBounded(c, m, run[..|run| - 1]); }
  }

  /** Every attempt that is followed by another was safe to follow. */
  lemma {:induction false} RetriedSafely(c: RetryConfig, m: Method, run: seq<Attempt>)
    requires Retried(c, m, run)
    ensures forall i :: 0 <= i < |run| ==> SafeToFollow(c, m, run[i])
  {
    if run != [] {
      var init := run[..|run| - 1];
      RetriedSafely(c, m, init);
      forall i | 0 <= i < |run| ensures SafeToFollow(c, m, run[i]) {
        assert i < |run| - 1 ==> run[i] == init[i];
      }
    }
  }

  /** No unsafe re-submission over a whole run: bytes once on the wire are only ever repeated when asked to. */
  lemma NoUnsafeResubmission(c: RetryConfig, m: Method, run: seq<Attempt>)
    requires WholeRun(c, m, run) && AllHonest(run)
    ensures forall i :: 0 <= i < |run| - 1 ==> !OnWire(run[i]) || RepeatAsked(c, m, run[i])
  {
    RetriedSafely(c, m, run[..|run| - 1]);
    forall i | 0 <= i < |run| - 1 ensures !OnWire(run[i]) || RepeatAsked(c, m, run[i]) {
      assert run[i] == run[..|run| - 1][i] && SafeToFollow(c, m, run[i]) && Honest(run[i]);
    }
  }

  /** Attempts that put bytes on the wire. */
  function SentCount(run: seq<Attempt>): nat {
    if run == [] then 0 else SentCount(run[..|run| - 1]) + (if OnWire(run[|run| - 1]) then 1 else 0)
  }

  lemma {:induction false} NoneSent(run: seq<Attempt>)
    requires forall i :: 0 <= i < |run| ==> !OnWire(run[i])
    ensures SentCount(run) == 0
  {
    if run != [] { NoneSent(run[..|run| - 1]); }
  }

  /**
   With no retry statuses, a request whose method is not idempotent -- or any request
   without the opt-in -- puts bytes on the wire in at most one attempt, the last.
   */
  lemma AtMostOnceSent(c: RetryConfig, m: Method, run: seq<Attempt>)
    requires WholeRun(c, m, run) && AllHonest(run) && c.retryStatuses == []
    requires !IsIdempotent(m) || !c.retryIdempotentAfterSend
    ensures SentCount(run) == (if OnWire(run[|run| - 1]) then 1 else 0)
    ensures forall i :: 0 <= i < |run| - 1 ==> !OnWire(run[i])
  {
    NoUnsafeResubmission(c, m, run);
    var init := run[..|run| - 1];
    forall i | 0 <= i < |init| ensures !OnWire(init[i]) { assert init[i] == run[i]; }
    NoneSent(init);
  }

  /**
   When a whole run ends short of a response it ends for a reason: the slots are gone, or
   the request went out and may not be repeated. A response it ends with is not one to
   retry unless the slots are gone. There is one slot less than attempts allowed, none for zero.
   */
  lemma WhyStopped(c: RetryConfig, m: Method, run: seq<Attempt>)
    requires WholeRun(c, m, run)
    ensures var last := run[|run| - 1];
            && !(last.Failed? && last.reused && !last.sent)
            && Used(c, m, run) <= (if c.maxAttempts == 0 then 0 else c.maxAttempts - 1)
            && (Used(c, m, run) == (if c.maxAttempts == 0 then 0 else c.maxAttempts - 1) || !SafeToFollow(c, m, last))
  {
    UsedBounded(c, m, run[..|run| - 1]);
  }

  // ------------------------------------------------------------------ method by method

  /** POST, PATCH and CONNECT go out in at most one attempt, whether or not repeating was opted for. */
  lemma NeverTwice(c: RetryConfig, m: Method, run: seq<Attempt>)
    requires m == POST || m == PATCH || m == CONNECT
    requires WholeRun(c, m, run) && AllHonest(run) && c.retryStatuses == []
    ensures SentCount(run) <= 1
  {
    hide WholeRun, SentCount, OnWire;
    AtMostOnceSent(c, m, run);
  }

  /** A status that is not to be retried. */
  lemma {:induction false} SomeOtherStatus(statuses: seq<nat>) returns (n: nat)
    ensures forall i :: 0 <= i < |statuses| ==> statuses[i] < n
  {
    if statuses == [] {
      n := 200;
    } else {
      n := SomeOtherStatus(statuses[1..]);
      n := if n <= statuses[0] then statuses[0] + 1 else n;
      forall i | 0 <= i < |statuses| ensures statuses[i] < n {
        assert i > 0 ==> statuses[i] == statuses[1..][i - 1];
      }
    }
  }

  /** Any of the other six, when opted for, may go out twice: a run that does. */
  lemma MayGoTwice(c: RetryConfig, m: Method, wire: string, via: Via) returns (run: seq<Attempt>)
    requires m == GET || m == HEAD || m == PUT || m == DELETE || m == OPTIONS || m == TRACE
    requires c.retryIdempotentAfterSend && c.maxAttempts >= 2 && wire != ""
    ensures WholeRun(c, m, run) && AllHonest(run) && SentCount(run) == 2
  {
    var n := SomeOtherStatus(c.retryStatuses);
    var first := Failed(false, true, wire, via);
    var second := Completed(Reply(n, "", ""), false, Bytes("", false), wire, via);
    run := [first, second];
    assert run[..1] == [first] && [first][..0] == [];
    assert MoveAfter(c, m, 0, first) == Backoff && Used(c, m, [first]) == 1 && Retried(c, m, [first]);
    assert n !in c.retryStatuses;
    assert SentCount([first]) == 1;
  }

  // -------------------------------------------------------------------- redirects

  predicate IsRedirect(status: nat) { status in {301, 302, 303, 307, 308} }

  /** The redirect turns the request into a body-less GET. */
  predicate BecomesGet(status: nat, m: Method) {
    status == 303 || ((status == 301 || status == 302) && m != GET && m != HEAD)
  }

  /** Method and body of the requests of a redirect chain. */
  datatype Submission = Submission(m: Method, body: string)

  function Rewritten(s: Submission, status: nat): Submission {
    if BecomesGet(status, s.m) then Submission(GET, "") else s
  }

  /** Each submission is its predecessor rewritten by the status that answered it. */
  predicate Chained(chain: seq<Submission>, statuses: seq<nat>) {
    |chain| == |statuses| + 1 &&
    forall i :: 0 <= i < |statuses| ==>
      IsRedirect(statuses[i]) && chain[i + 1] == Rewritten(chain[i], statuses[i])
  }

  /** The redirect keeps method and body. */
  predicate Preserves(status: nat, m: Method) {
    status == 307 || status == 308 || ((m == GET || m == HEAD) && status != 303)
  }

  /**
   Along a whole chain every request is either the original submission, and then only
   preserving redirects came before it, or a GET without a body.
   */
  lemma {:induction false} ChainKeepsOrDrops(chain: seq<Submission>, statuses: seq<nat>, i: nat)
    requires Chained(chain, statuses) && i < |chain|
    ensures chain[i] == (if forall j :: 0 <= j < i ==> Preserves(statuses[j], chain[0].m)
                         then chain[0] else Submission(GET, ""))
  {
    if i > 0 {
      ChainKeepsOrDrops(chain, statuses, i - 1);
    }
  }

  // ------------------------------------------------- whole requests, redirects included

  /** The run ended with this reply. */
  predicate EndsWith(run: seq<Attempt>, reply: Reply) {
    run != [] && run[|run| - 1].Completed? && run[|run| - 1].reply == reply
  }

  lemma EndsWithStatus(run: seq<Attempt>, reply: Reply)
    requires EndsWith(run, reply)
    ensures EndsIn(run, reply.status)
  {
  }

  /** The run ended with a response of this status. */
  predicate EndsIn(run: seq<Attempt>, status: nat) {
    run != [] && run[|run| - 1].Completed? && run[|run| - 1].reply.status == status
  }

  /**
   A request on its way: submissions chained by redirects, each exchange so far a whole
   run under its own method, each redirect the answer that ended its run.
   */
  ghost predicate Journey(c: RetryConfig, chain: seq<Submission>, statuses: seq<nat>, runs: seq<seq<Attempt>>) {
    && Chained(chain, statuses) && |statuses| <= |runs| <= |chain|
    && (forall i :: 0 <= i < |runs| ==> WholeRun(c, chain[i].m, runs[i]) && AllHonest(runs[i]))
    && (forall i :: 0 <= i < |statuses| ==> EndsIn(runs[i], statuses[i]))
  }

  lemma JourneyStarts(c: RetryConfig, first: Submission)
    ensures Journey(c, [first], [], []) && Joined([]) == []
  {
  }

  lemma JourneyRuns(c: RetryConfig, chain: seq<Submission>, statuses: seq<nat>, runs: seq<seq<Attempt>>,
                    run: seq<Attempt>)
    requires Journey(c, chain, statuses, runs) && |runs| == |statuses|
    requires WholeRun(c, chain[|runs|].m, run) && AllHonest(run)
    ensures Journey(c, chain, statuses, runs + [run]) && Joined(runs + [run]) == Joined(runs) + run
  {
    hide WholeRun, EndsIn, AllHonest;
    assert (runs + [run])[..|runs|] == runs;
  }

  lemma JourneyRedirects(c: RetryConfig, chain: seq<Submission>, statuses: seq<nat>, runs: seq<seq<Attempt>>,
                         status: nat)
    requires Journey(c, chain, statuses, runs) && |runs| == |chain|
    requires EndsIn(runs[|statuses|], status) && IsRedirect(status)
    ensures Journey(c, chain + [Rewritten(chain[|statuses|], status)], statuses + [status], runs)
  {
    hide WholeRun, EndsIn, Rewritten, IsRedirect, AllHonest;
    var chain', statuses' := chain + [Rewritten(chain[|statuses|], status)], statuses + [status];
    forall i | 0 <= i < |statuses'|
      ensures IsRedirect(statuses'[i]) && chain'[i + 1] == Rewritten(chain'[i], statuses'[i]) {
      assert i < |statuses| ==> chain'[i + 1] == chain[i + 1] && statuses'[i] == statuses[i];
    }
  }

  function Joined(runs: seq<seq<Attempt>>): seq<Attempt> {
    if runs == [] then [] else Joined(runs[..|runs| - 1]) + runs[|runs| - 1]
  }

  /** Attempts that put a request with method `m` on the wire. */
  function SentAs(chain: seq<Submission>, runs: seq<seq<Attempt>>, m: Method): nat
    requires |runs| == |chain|
  {
    if chain == [] then 0
    else
      var n := |chain| - 1;
      SentAs(chain[..n], runs[..n], m) + (if chain[n].m == m then SentCount(runs[n]) else 0)
  }

  lemma {:induction false} SentAsAfterFirst(chain: seq<Submission>, runs: seq<seq<Attempt>>, m: Method)
    requires |runs| == |chain| > 0 && forall i :: 1 <= i < |chain| ==> chain[i].m != m
    ensures SentAs(chain, runs, m) == (if chain[0].m == m then SentCount(runs[0]) else 0)
    decreases |chain|
  {
    if |chain| > 1 {
      var n := |chain| - 1;
      SentAsAfterFirst(chain[..n], runs[..n], m);
    } else {
      assert chain[..0] == [];
    }
  }

  /**
   Retries and redirects together: with no retry statuses and no 307 or 308 on the way, a
   request whose method is not idempotent is put on the wire by at most one attempt.
   */
  lemma SubmittedOnce(c: RetryConfig, chain: seq<Submission>, statuses: seq<nat>, runs: seq<seq<Attempt>>, m: Method)
    requires Journey(c, chain, statuses, runs) && |runs| == |chain|
    requires c.retryStatuses == [] && !IsIdempotent(m) && 307 !in statuses && 308 !in statuses
    ensures SentAs(chain, runs, m) <= 1
  {
    hide WholeRun;
    forall i | 1 <= i < |chain| ensures chain[i].m != m {
      ChainKeepsOrDrops(chain, statuses, i);
      assert statuses[0] in statuses;
      assert chain[0].m == m ==> !Preserves(statuses[0], chain[0].m);
    }
    SentAsAfterFirst(chain, runs, m);
    if chain[0].m == m { AtMostOnceSent(c, m, runs[0]); }
  }
}
