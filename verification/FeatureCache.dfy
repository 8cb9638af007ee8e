/** The published features over any sequence of runs, joined with the cache: what a 304 leaves enabled. */
module FeatureCache {
  import opened Wrappers
  import opened IniFile
  import opened XconfProtocol
  import opened FeatureFiles
  import opened FeatureRuns
  import opened XconfCache

  /** The directory before each run and after the last; nothing but the runs touches it. */
  ghost predicate Threaded(visits: seq<Visit>, dirs: seq<Directory>) {
    && |dirs| == |visits| + 1
    && forall i :: 0 <= i < |visits| ==> dirs[i + 1] == DirAfter(dirs[i], Of(visits[i]))
  }

  ghost predicate NoSweep(run: Run) {
    forall i :: 0 <= i < |run.s.log.replies| ==> !Sweeps(run.s.log.replies[i])
  }

  /** No reply of the first n runs wiped the directory since the last acceptance among them. */
  ghost predicate Unswept(visits: seq<Visit>, n: nat)
    requires n <= |visits|
  {
    n == 0 || Of(visits[n - 1]).outcome.Accepted? || (Unswept(visits, n - 1) && NoSweep(Of(visits[n - 1])))
  }

  predicate HasInstanceIn(body: Body, name: string) {
    body.Features? && exists i :: 0 <= i < |body.list| && HasInstance(body.list[i], name)
  }

  lemma OneMoreRun(v: Visit, dir: Directory, name: string)
    requires Fresh(v.s) && Free(name, '/')
    ensures var run, after := Of(v), DirAfter(dir, Of(v));
            if run.outcome.Accepted? then
              run.outcome.reply.body.Features? && (IsRfcEnabled(after, name) <==> HasInstanceIn(run.outcome.reply.body, name))
            else IsRfcEnabled(after, name) <==> IsRfcEnabled(dir, name) && NoSweep(run)
  {
    hide ProcessRequest, IsRfcEnabled, Swept, Sweeps, HasInstance;
    if Of(v).outcome.Accepted? {
      EnabledAfterRun(v.env, v.s, dir, name);
    } else {
      SweptEnabled(dir, Of(v).s.log.replies, name);
    }
  }

  /** After any number of runs: the features of the last accepted reply, or those enabled at first, unless swept since. */
  lemma {:induction false} EnabledOverRuns(visits: seq<Visit>, dirs: seq<Directory>, n: nat, name: string)
    requires Chained(visits) && Threaded(visits, dirs) && n <= |visits| && Free(name, '/')
    ensures var last := LastAccepted(visits, n);
            IsRfcEnabled(dirs[n], name)
            <==> (if last.Some? then HasInstanceIn(last.value, name) else IsRfcEnabled(dirs[0], name)) && Unswept(visits, n)
  {
    hide Of, IsRfcEnabled, HasInstanceIn, NoSweep, HASH_KEY, DirAfter;
    if n > 0 {
      EnabledOverRuns(visits, dirs, n - 1, name);
      assert Fresh(visits[n - 1].s) && dirs[n - 1 + 1] == DirAfter(dirs[n - 1], Of(visits[n - 1]));
      OneMoreRun(visits[n - 1], dirs[n - 1], name);
    }
  }

  /**
   * With honest servers, a separating hash and an inert start: after a run that ends in a 304 the enabled features are
   * exactly those of the reply the 304 stands for, if and only if nothing was swept since that reply was accepted;
   * otherwise none is.
   */
  lemma EnabledAfter304(visits: seq<Visit>, dirs: seq<Directory>, n: nat, hashOf: Body -> string, name: string)
    requires Proper(visits, hashOf) && Separates(hashOf) && Threaded(visits, dirs) && n < |visits| && Free(name, '/')
    requires Of(visits[n]).outcome.Unchanged?
    ensures IsRfcEnabled(dirs[n + 1], name)
        <==> HasInstanceIn(Of(visits[n]).outcome.reply.body, name) && Unswept(visits, n + 1)
  {
    hide Of, IsRfcEnabled, HasInstanceIn, NoSweep, HASH_KEY, DirAfter, Honest, Inert, Fresh, Separates, Threaded, Unswept;
    UnchangedIsLastAccepted(visits, n, hashOf);
    EnabledOverRuns(visits, dirs, n + 1, name);
    assert LastAccepted(visits, n + 1) == LastAfter(LastAccepted(visits, n), Of(visits[n]));
  }
}
