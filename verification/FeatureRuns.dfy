/** The published feature files over a whole run, with the replies it discards on the way. */
module FeatureRuns {
  import opened Wrappers
  import opened IniFile
  import opened LocalStore
  import opened XconfProtocol
  import opened FeatureFiles
  import XconfRun
  import XconfLog
  import XconfCache
  import XconfDatabase

  /** The replies that wipe the files as soon as they arrive: a 200, and a 404. */
  predicate Sweeps(reply: Reply) {
    reply.curl == 0 && (reply.http == 200 || reply.http == 404)
  }

  function Swept(dir: Directory, replies: seq<Reply>): Directory {
    if replies == [] then dir
    else
      var before := Swept(dir, replies[..|replies| - 1]);
      if Sweeps(replies[|replies| - 1]) then CleanAll(before) else before
  }

  /** The directory after a run: wiped by the replies that came in, written only by one that is accepted. */
  function DirAfter(dir: Directory, run: Run): Directory {
    var swept := Swept(dir, run.s.log.replies);
    if run.outcome.Accepted? && run.outcome.reply.body.Features? then WriteFeatures(swept, run.outcome.reply.body.list)
    else swept
  }

  function RunDir(env: Env, s: Session, dir: Directory): Directory {
    DirAfter(dir, ProcessRequest(env, s))
  }

  /** An accepting run leaves what its last reply alone would have left. */
  lemma AcceptingRun(env: Env, s: Session, dir: Directory) returns (before: Directory)
    requires Fresh(s) && ProcessRequest(env, s).outcome.Accepted?
    ensures ProcessRequest(env, s).outcome.reply.body.Features?
    ensures RunDir(env, s, dir) == AfterAccept(before, ProcessRequest(env, s).outcome.reply.body.list)
  {
    hide ProcessRequest, WriteFeatures, CleanAll;
    XconfLog.RunEnds(env, s);
    var replies := ProcessRequest(env, s).s.log.replies;
    before := Swept(dir, replies[..|replies| - 1]);
  }

  /** After a run that ends by accepting a reply, whatever it discarded before, exactly that reply's features are enabled. */
  lemma EnabledAfterRun(env: Env, s: Session, dir: Directory, name: string)
    requires Fresh(s) && ProcessRequest(env, s).outcome.Accepted? && Free(name, '/')
    ensures ProcessRequest(env, s).outcome.reply.body.Features?
    ensures var fs := ProcessRequest(env, s).outcome.reply.body.list;
            IsRfcEnabled(RunDir(env, s, dir), name)
            <==> exists i :: 0 <= i < |fs| && HasInstance(fs[i], name)
  {
    hide ProcessRequest, RunDir, AfterAccept, IsRfcEnabled;
    var before := AcceptingRun(env, s, dir);
    EnabledExactly(before, ProcessRequest(env, s).outcome.reply.body.list, name);
  }

  /**
   * And the API answers for RFC_ENABLE_<n> with the first claim of that reply on n, so with the flag of its first complete
   * feature named n exactly when none misleads.
   */
  lemma FlagAfterRun(env: Env, s: Session, dir: Directory, n: string, files: ApiFiles)
    requires Fresh(s) && ProcessRequest(env, s).outcome.Accepted? && ProcessRequest(env, s).outcome.reply.body.Features?
    requires PlainNames(ProcessRequest(env, s).outcome.reply.body.list) && Free(n, '.')
    requires Publishes(RunDir(env, s, dir), files)
    ensures var fs := ProcessRequest(env, s).outcome.reply.body.list;
            var answer := GetParameter(files, "RFC_ENABLE_" + n);
            && answer == AnswerOf(FirstClaim(fs, n))
            && (answer == AnswerOf(FlagNamed(fs, n)) <==> NoneMisleads(fs, n))
  {
    hide ProcessRequest, RunDir, AfterAccept, PlainNames, GetParameter, FirstNamed, FirstClaim, AnswerOf, Publishes, Mistaken, NoneMisleads, FlagNamed;
    var before := AcceptingRun(env, s, dir);
    AnswerIsFirstClaim(before, ProcessRequest(env, s).outcome.reply.body.list, n, files);
    FlagOfFirst(before, ProcessRequest(env, s).outcome.reply.body.list, n, files);
  }

  /*** Runs that end in a 304 ***/

  lemma SweepClears(dir: Directory, name: string)
    ensures !IsRfcEnabled(CleanAll(dir), name)
  {
    MarkerNames(name, name);
  }

  lemma {:induction false} SweptEnabled(dir: Directory, replies: seq<Reply>, name: string)
    ensures IsRfcEnabled(Swept(dir, replies), name)
        <==> IsRfcEnabled(dir, name) && forall i :: 0 <= i < |replies| ==> !Sweeps(replies[i])
    decreases |replies|
  {
    hide CleanAll, IsRfcEnabled;
    if replies != [] {
      var n := |replies| - 1;
      SweptEnabled(dir, replies[..n], name);
      SweepClears(Swept(dir, replies[..n]), name);
      assert forall i :: 0 <= i < n ==> replies[..n][i] == replies[i];
    }
  }

  /**
   * A run that ends in a 304 keeps the enabled features exactly if the server answered none of its requests with a 200,
   * which it then discarded, or a 404; otherwise the run succeeds and leaves none enabled.
   */
  lemma EnabledAfterUnchanged(env: Env, s: Session, dir: Directory, name: string)
    requires Fresh(s) && ProcessRequest(env, s).outcome.Unchanged?
    ensures var requests := ProcessRequest(env, s).s.log.requests;
            IsRfcEnabled(RunDir(env, s, dir), name)
            <==> IsRfcEnabled(dir, name) && forall i :: 0 <= i < |requests| ==> !Sweeps(env.server(i, requests[i]))
  {
    hide ProcessRequest, IsRfcEnabled, Swept, Sweeps;
    XconfLog.RunLogs(env, s);
    SweptEnabled(dir, ProcessRequest(env, s).s.log.replies, name);
  }

  /**
   * Such runs, with a server that does nothing wrong: a device that was not restarted, with known identities and
   * unchanged firmware, is first sent to the ci slot and then told there that what it has is up to date. It ends with
   * nothing enabled.
   */
  lemma DiscardedThenUnchanged(env: Env, s: Session, dir: Directory, first: Reply, name: string)
    requires Fresh(s) && s.state == Init && !s.isFirst && !env.blocked && env.allocates(0) && env.allocates(1)
    requires s.lastFirmware == s.firmware && s.ids.account != UNKNOWN && s.ids.partner != UNKNOWN && HASH_KEY in s.db.store
    requires IsOk(first) && first.body.Features? && ValueOf(ConfigMap(first.body.list), XCONF_SELECTOR_KEY) == "ci"
    requires forall r: Request :: env.server(0, r) == first
    requires forall r: Request :: r.hash == Unquote(s.db.store[HASH_KEY]) ==> env.server(1, r).http == 304
    ensures ProcessRequest(env, s).outcome.Unchanged? && !IsRfcEnabled(RunDir(env, s, dir), name)
  {
    hide Digest, RunLoop, Process, ValueOf, ConfigMap, HASH_KEY, XCONF_SELECTOR_KEY, UNKNOWN, Unquote, HashToSend, Remember, IsRfcEnabled, RunDir;
    var s0 := s.(selectOpt := if s.state == Local then "local" else "prod");
    assert s0.selectOpt == "prod";
    XconfRun.LoopUnfolds(env, s0, 0);
    var a := Exchange(env, ChooseUrl(env, s0, 0), 0);
    XconfDatabase.RememberKeepsStore(ContextOf(ChooseUrl(env, s0, 0)), s0.db);
    XconfRun.DigestRedo(env, a, first.body);
    XconfRun.DigestFrame(env, a, first.body);
    KnownStays(env, a, first.body);
    var b := XconfRun.Again(Digest(env, a, first.body));
    XconfRun.LoopUnfolds(env, b, 1);
    var c := ChooseUrl(env, b, 1);
    RedoSends(c);
    assert ProcessRequest(env, s) == RunLoop(env, s0, 0);
    assert |Exchange(env, c, 1).log.requests| == 2;
    EnabledAfterUnchanged(env, s, dir, name);
    var requests := ProcessRequest(env, s).s.log.requests;
    assert 0 < |requests| && Sweeps(env.server(0, requests[0]));
  }

  lemma KnownStays(env: Env, s: Session, body: Body)
    requires s.kv == map[] && !s.isFirst
    ensures Digest(env, s, body).ids == s.ids
  {
    hide PreProcess, ConfigMap, GoodId, ValueOf;
    XconfRun.PreProcessFacts(env, s, body);
  }

  /** In state Redo the stored hash is sent whatever the selector. */
  lemma RedoSends(s: Session)
    requires s.state == Redo && s.lastFirmware == s.firmware && HASH_KEY in s.db.store
    requires s.ids.account != UNKNOWN && s.ids.partner != UNKNOWN
    ensures RequestOf(s).hash == Unquote(s.db.store[HASH_KEY])
  {
    hide HASH_KEY, UNKNOWN, Unquote;
  }

  /**
   * For every way of hashing, a body that selects the ci slot and a body whose hash is a plain one: an honest server, a
   * device that has the second body's hash, and a directory where the feature was enabled, which make such a run.
   */
  lemma FeaturesVanish(hashOf: Body -> string, b: Body, header: string, name: string) returns (env: Env, s: Session, dir: Directory)
    requires HeaderHash(header) == Some(hashOf(XconfRun.OneEntry(XCONF_SELECTOR_KEY, "ci")))
    requires Unquote(hashOf(b)) == hashOf(b) && !XconfCache.IsSentinel(hashOf(b))
    ensures XconfCache.Honest(env, hashOf) && Fresh(s) && s.lastFirmware == s.firmware && !s.isFirst
    ensures HASH_KEY in s.db.store && s.db.store[HASH_KEY] == hashOf(b) && SelectorIsProd(s.db.store)
    ensures IsRfcEnabled(dir, name)
    ensures ProcessRequest(env, s).outcome.Unchanged? && !IsRfcEnabled(RunDir(env, s, dir), name)
  {
    hide ProcessRequest, RunDir, ConfigMap, HASH_KEY, XCONF_SELECTOR_KEY, HeaderHash, XconfCache.IsSentinel;
    var a := XconfRun.OneEntry(XCONF_SELECTOR_KEY, "ci");
    var first, same := Reply(0, 200, a, header), Reply(0, 304, b, "");
    XconfRun.KeysHaveNoEight();
    XconfRun.OneEntryMap(XCONF_SELECTOR_KEY, "ci");
    env := XconfCache.PlainEnv((k: nat, r: Request) =>
      if k == 0 then first else if r.hash == hashOf(b) then same else XconfCache.Offline(b));
    assert XconfCache.Honest(env, hashOf) by {
      forall k: nat, r: Request
        ensures var reply := env.server(k, r);
                && (IsOk(reply) ==> HeaderHash(reply.header) == Some(hashOf(reply.body)))
                && (reply.http == 304 ==> r.hash == hashOf(reply.body) && !XconfCache.IsSentinel(r.hash))
      {
        assert env.server(k, r) == if k == 0 then first else if r.hash == hashOf(b) then same else XconfCache.Offline(b);
      }
    }
    HashIsNoSelector();
    var store := map[HASH_KEY := hashOf(b), XCONF_SELECTOR_KEY := "prod"];
    XconfCache.PlainIsKnown(store);
    s := XconfCache.PlainSession(store).(state := Init);
    dir := map[MarkerName(name) := ""];
    hide UNKNOWN;
    DiscardedThenUnchanged(env, s, dir, first, name);
  }

  lemma HashIsNoSelector()
    ensures HASH_KEY != XCONF_SELECTOR_KEY
  {
    XconfCache.HashDiffers();
  }
}
