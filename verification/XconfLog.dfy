/** What a run sent and was answered, and when a failed attempt is followed by another. */
module XconfLog {
  import opened XconfProtocol
  import opened XconfRun

  /** One entry for every attempt so far. */
  predicate Logged(log: Log, attempt: nat) {
    |log.requests| == attempt && |log.replies| == attempt
  }

  /** A later log: the same entries, and behind them the server's answers to the requests made. */
  ghost predicate Extends(env: Env, before: Log, after: Log) {
    && |before.requests| == |before.replies| && |after.requests| == |after.replies|
    && |before.requests| <= |after.requests|
    && before.requests == after.requests[..|before.requests|] && before.replies == after.replies[..|before.replies|]
    && forall i :: |before.requests| <= i < |after.requests| ==> after.replies[i] == env.server(i, after.requests[i])
  }

  lemma ExtendsOn(env: Env, a: Log, b: Log, c: Log)
    requires Extends(env, a, b) && Extends(env, b, c)
    ensures Extends(env, a, c)
  {
    assert c.requests[..|a.requests|] == c.requests[..|b.requests|][..|a.requests|];
    assert c.replies[..|a.replies|] == c.replies[..|b.replies|][..|a.replies|];
    forall i | |a.requests| <= i < |c.requests|
      ensures c.replies[i] == env.server(i, c.requests[i])
    {
      if i < |b.requests| {
        assert c.requests[i] == b.requests[i] && c.replies[i] == b.replies[i];
      }
    }
  }

  lemma ExchangeLogs(env: Env, s: Session, attempt: nat)
    requires Logged(s.log, attempt)
    ensures var log := Exchange(env, s, attempt).log;
            Logged(log, attempt + 1) && Extends(env, s.log, log) && log.requests[attempt] == RequestOf(s)
  {
    hide Remember, RequestOf;
  }

  lemma {:induction false} LoopLogs(env: Env, s: Session, attempt: nat)
    requires attempt <= RETRY_COUNT && Logged(s.log, attempt)
    ensures Extends(env, s.log, RunLoop(env, s, attempt).s.log)
    ensures |RunLoop(env, s, attempt).s.log.requests| > attempt <==> attempt < RETRY_COUNT && env.allocates(attempt)
    decreases RETRY_COUNT - attempt
  {
    hide RunLoop, Digest, Process, RequestOf, Exchange, IsOk, Repeats;
    LoopUnfolds(env, s, attempt);
    if attempt < RETRY_COUNT && env.allocates(attempt) {
      var s1 := ChooseUrl(env, s, attempt);
      var reply := env.server(attempt, RequestOf(s1));
      var s2 := Exchange(env, s1, attempt);
      var s3 := Digest(env, s2, reply.body);
      ExchangeLogs(env, s1, attempt);
      DigestKeepsLog(env, s2, reply.body);
      if reply.http != 304 && !IsOk(reply) {
        LoopLogs(env, s2, attempt + 1);
        ExtendsOn(env, s.log, s2.log, RunLoop(env, s2, attempt + 1).s.log);
      } else if reply.http != 304 && Repeats(s3) {
        LoopLogs(env, XconfRun.Again(s3), attempt + 1);
        ExtendsOn(env, s.log, s2.log, RunLoop(env, XconfRun.Again(s3), attempt + 1).s.log);
      } else if reply.http != 304 {
        ProcessFrame(env, s3, reply);
      }
    }
  }

  predicate Fails(reply: Reply) {
    reply.http != 304 && !IsOk(reply)
  }

  lemma {:induction false} FailureInLoop(env: Env, s: Session, attempt: nat, k: nat)
    requires attempt <= RETRY_COUNT && Logged(s.log, attempt)
    requires attempt <= k < |RunLoop(env, s, attempt).s.log.requests|
    requires Fails(env.server(k, RunLoop(env, s, attempt).s.log.requests[k]))
    ensures |RunLoop(env, s, attempt).s.log.requests| > k + 1 <==> k + 1 < RETRY_COUNT && env.allocates(k + 1)
    decreases RETRY_COUNT - attempt
  {
    hide RunLoop, Digest, Process, RequestOf, Exchange, IsOk, Repeats, Extends;
    LoopUnfolds(env, s, attempt);
    LoopLogs(env, s, attempt);
    var s1 := ChooseUrl(env, s, attempt);
    var reply := env.server(attempt, RequestOf(s1));
    var s2 := Exchange(env, s1, attempt);
    var s3 := Digest(env, s2, reply.body);
    ExchangeLogs(env, s1, attempt);
    DigestKeepsLog(env, s2, reply.body);
    if Fails(reply) {
      LoopLogs(env, s2, attempt + 1);
      if k > attempt {
        FailureInLoop(env, s2, attempt + 1, k);
      }
    } else if reply.http != 304 && Repeats(s3) {
      LoopLogs(env, XconfRun.Again(s3), attempt + 1);
      LaterFailure(env, XconfRun.Again(s3).log, RunLoop(env, XconfRun.Again(s3), attempt + 1).s.log, attempt, k);
      FailureInLoop(env, XconfRun.Again(s3), attempt + 1, k);
    } else {
      ProcessFrame(env, s3, reply);
      LaterFailure(env, s2.log, if reply.http == 304 then s2.log else s3.log, attempt, k);
    }
  }

  /** A failure behind an attempt that did not fail is a later one. */
  lemma LaterFailure(env: Env, before: Log, after: Log, attempt: nat, k: nat)
    requires Logged(before, attempt + 1) && (after.requests == before.requests || Extends(env, before, after))
    requires !Fails(env.server(attempt, before.requests[attempt]))
    requires attempt <= k < |after.requests| && Fails(env.server(k, after.requests[k]))
    ensures k > attempt
  {
    assert after.requests[attempt] == before.requests[attempt];
  }

  /**
   * In every run, an answer that is neither a 304 nor a 200, such as a 404, is followed by another request exactly if
   * attempts are left and its memory can be had.
   */
  lemma FailureIsRetried(env: Env, s: Session, k: nat)
    requires Fresh(s) && k < |ProcessRequest(env, s).s.log.requests|
    requires Fails(env.server(k, ProcessRequest(env, s).s.log.requests[k]))
    ensures |ProcessRequest(env, s).s.log.requests| > k + 1 <==> k + 1 < RETRY_COUNT && env.allocates(k + 1)
  {
    hide RunLoop, Fails;
    FailureInLoop(env, s.(selectOpt := if s.state == Local then "local" else "prod"), 0, k);
  }

  /** And the log is that of the server: one answer for every request, to that request. */
  lemma RunLogs(env: Env, s: Session)
    requires Fresh(s)
    ensures var log := ProcessRequest(env, s).s.log;
            && |log.requests| == |log.replies|
            && forall i :: 0 <= i < |log.requests| ==> log.replies[i] == env.server(i, log.requests[i])
  {
    hide RunLoop;
    LoopLogs(env, s.(selectOpt := if s.state == Local then "local" else "prod"), 0);
  }

  /** How a run ends: with the reply it accepts, or with a 304, as the last of its log. */
  predicate EndsWith(run: Run) {
    && (run.outcome.Accepted? ==>
          && run.s.log.replies != [] && run.s.log.replies[|run.s.log.replies| - 1] == run.outcome.reply
          && IsOk(run.outcome.reply) && run.outcome.reply.body.Features?)
    && (run.outcome.Unchanged? ==>
          && run.s.log.replies != [] && run.s.log.replies[|run.s.log.replies| - 1] == run.outcome.reply
          && run.outcome.reply.http == 304)
  }

  lemma {:induction false} LoopEnds(env: Env, s: Session, attempt: nat)
    requires attempt <= RETRY_COUNT && XconfRun.Head(s)
    ensures EndsWith(RunLoop(env, s, attempt))
    decreases RETRY_COUNT - attempt
  {
    hide RunLoop, Digest, Process, RequestOf, Remember, XconfRun.AtMostOnce;
    XconfRun.LoopUnfolds(env, s, attempt);
    if attempt < RETRY_COUNT && env.allocates(attempt) {
      var s1 := ChooseUrl(env, s, attempt);
      var reply := env.server(attempt, RequestOf(s1));
      var s2 := Exchange(env, s1, attempt);
      if reply.http != 304 && !IsOk(reply) {
        LoopEnds(env, s2, attempt + 1);
      } else if IsOk(reply) {
        XconfRun.HeadKept(env, s2, reply.body);
        var s3 := Digest(env, s2, reply.body);
        if XconfRun.Repeats(s3) {
          LoopEnds(env, XconfRun.Again(s3), attempt + 1);
        } else {
          XconfRun.ProcessFrame(env, s3, reply);
        }
      }
    }
  }

  lemma RunEnds(env: Env, s: Session)
    requires Fresh(s)
    ensures EndsWith(ProcessRequest(env, s))
  {
    hide RunLoop;
    LoopEnds(env, s.(selectOpt := if s.state == Local then "local" else "prod"), 0);
  }

  lemma EndsIn304(env: Env, s: Session)
    requires Fresh(s) && ProcessRequest(env, s).outcome.Unchanged?
    ensures var log := ProcessRequest(env, s).s.log; log.replies != [] && log.replies[|log.replies| - 1].http == 304
  {
    hide ProcessRequest;
    RunEnds(env, s);
  }
}
