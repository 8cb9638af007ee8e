/** When a run asks for a reboot, and the events the manager posts about it. */
module XconfReboot {
  import opened Wrappers
  import opened IniFile
  import opened RfcText
  import opened XconfProtocol
  import opened XconfDatabase
  import XconfRun
  import XconfApply

  /*** The reboot flag through a configuration ***/

  /**
   * A known key, not at its default, that is given a value other than the one read for it just before: not an empty one, not
   * an unknown account ID, and not the URL of a server that does not answer.
   */
  predicate Changes(env: Env, store: Store, key: string, value: string) {
    && key in store && !env.defaulted(store, key)
    && value != "" && value != Unquote(store[key])
    && !(Contains(key, ACCOUNT_KEY) && StringCaseCompare(value, "Unknown"))
    && (key == BOOTSTRAP_URL_KEY ==> env.validates(value))
  }

  lemma RebootThroughKey(env: Env, ctx: Context, c: Cursor, key: string, value: string)
    ensures ApplyKey(env, ctx, c, key, value).db.reboot == (c.db.reboot || (env.maintenance && Changes(env, c.db.store, key, value)))
  {
    if Contains(key, ACCOUNT_KEY) {
      XconfApply.AccountIsInNamespace(key);
    }
    assert UNKNOWN == "Unknown";
    hide BOOTSTRAP_URL_KEY, ACCOUNT_KEY, UNKNOWN, RFC_NAMESPACE, Contains, StringCaseCompare, WriteParam, Unquote;
  }

  /** The i-th key is, in its turn, written with a value other than the one read. */
  predicate ChangesAt(env: Env, ctx: Context, c: Cursor, kv: Store, keys: seq<string>, i: nat)
    requires i < |keys|
  {
    Changes(env, ApplyKeys(env, ctx, c, kv, keys[..i]).db.store, keys[i], ValueOf(kv, keys[i]))
  }

  predicate SomeWriteChanges(env: Env, ctx: Context, c: Cursor, kv: Store, keys: seq<string>) {
    exists i :: 0 <= i < |keys| && ChangesAt(env, ctx, c, kv, keys, i)
  }

  lemma ChangesInPrefix(env: Env, ctx: Context, c: Cursor, kv: Store, keys: seq<string>, n: nat, i: nat)
    requires i < n <= |keys|
    ensures ChangesAt(env, ctx, c, kv, keys[..n], i) == ChangesAt(env, ctx, c, kv, keys, i)
  {
    hide Changes, ApplyKeys, ValueOf;
    assert keys[..n][..i] == keys[..i];
  }

  lemma {:induction false} RebootThroughKeys(env: Env, ctx: Context, c: Cursor, kv: Store, keys: seq<string>)
    ensures ApplyKeys(env, ctx, c, kv, keys).db.reboot
         == (c.db.reboot || (env.maintenance && SomeWriteChanges(env, ctx, c, kv, keys)))
    decreases |keys|
  {
    hide Changes, ApplyKey, ValueOf;
    if keys != [] {
      var n := |keys| - 1;
      RebootThroughKeys(env, ctx, c, kv, keys[..n]);
      RebootThroughKey(env, ctx, ApplyKeys(env, ctx, c, kv, keys[..n]), keys[n], ValueOf(kv, keys[n]));
      assert ChangesAt(env, ctx, c, kv, keys, n)
          == Changes(env, ApplyKeys(env, ctx, c, kv, keys[..n]).db.store, keys[n], ValueOf(kv, keys[n]));
      hide ChangesAt;
      forall i | 0 <= i < n
        ensures ChangesAt(env, ctx, c, kv, keys[..n], i) == ChangesAt(env, ctx, c, kv, keys, i)
      {
        ChangesInPrefix(env, ctx, c, kv, keys, n, i);
      }
    }
  }

  /** The same for a whole reply, starting from the cleared database. */
  predicate ReplyChanges(env: Env, s: Session, reply: Reply) {
    && reply.body.Features? && ConfigMap(reply.body.list) != map[]
    && var kv := ConfigMap(reply.body.list);
       SomeWriteChanges(env, ContextOf(s), Cursor(s.db.(store := ClearDB(env, s.db.store, CurrentAccount(s))), ""), kv, env.order(kv))
  }

  /** A reply whose hash is, ignoring case, the one remembered when the request was made. */
  predicate KnownHash(bkupHash: string, reply: Reply) {
    HeaderHash(reply.header).Some? && StringCaseCompare(bkupHash, HeaderHash(reply.header).value)
  }

  /** The flag after a reply, exactly. */
  lemma RebootAfterReply(env: Env, s: Session, reply: Reply)
    requires s.kv == map[] && !s.db.reboot
    ensures var t := Process(env, s, reply).s;
            t.db.reboot <==> env.maintenance && ReplyChanges(env, s, reply) && !KnownHash(t.db.bkupHash, reply)
  {
    hide SomeWriteChanges, ConfigMap, WriteAll, WriteParam, HeaderHash, StringCaseCompare, ClearDB, CurrentAccount, ApplyKeys;
    if reply.body.Features? {
      var kv := ConfigMap(reply.body.list);
      assert s.kv + kv == kv;
      var s1 := s.(kv := kv);
      AccountIgnoresMap(s, kv);
      if kv != map[] {
        var c := Cursor(s.db.(store := ClearDB(env, s.db.store, CurrentAccount(s))), "");
        RebootThroughKeys(env, ContextOf(s), c, kv, env.order(kv));
      }
    }
  }

  /*** Over a whole run ***/

  /** A run that ended by processing a changing reply in a session with the initial database and no flag yet. */
  ghost predicate Processed(env: Env, start: Store, run: Run) {
    exists s: Session :: s.db.store == start && s.kv == map[] && !s.db.reboot && run.outcome.Accepted?
      && run == Process(env, s, run.outcome.reply) && ReplyChanges(env, s, run.outcome.reply)
  }

  /** The grounds for a reboot: such a run, in maintenance mode, and not for the hash the device had already. */
  ghost predicate Grounds(env: Env, start: Store, run: Run) {
    Processed(env, start, run) && env.maintenance && !KnownHash(run.s.db.bkupHash, run.outcome.reply)
  }

  lemma GroundsSuffice(env: Env, start: Store, run: Run)
    requires Grounds(env, start, run)
    ensures run.s.db.reboot
  {
    hide Process, ReplyChanges, KnownHash;
    var s: Session :| s.db.store == start && s.kv == map[] && !s.db.reboot && run.outcome.Accepted?
      && run == Process(env, s, run.outcome.reply) && ReplyChanges(env, s, run.outcome.reply);
    RebootAfterReply(env, s, run.outcome.reply);
  }

  lemma {:induction false} RebootLoop(env: Env, s: Session, attempt: nat)
    requires attempt <= RETRY_COUNT && XconfRun.Head(s) && !s.db.reboot
    ensures var run := RunLoop(env, s, attempt);
            run.s.db.reboot ==>
              && Processed(env, s.db.store, run)
              && env.maintenance && !KnownHash(run.s.db.bkupHash, run.outcome.reply)
    decreases RETRY_COUNT - attempt
  {
    hide RunLoop, Digest, Process, RequestOf, ReplyChanges, KnownHash, XconfRun.AtMostOnce;
    XconfRun.LoopUnfolds(env, s, attempt);
    if attempt < RETRY_COUNT && env.allocates(attempt) {
      var s1 := ChooseUrl(env, s, attempt);
      var reply := env.server(attempt, RequestOf(s1));
      var s2 := Exchange(env, s1, attempt);
      if reply.http != 304 && !IsOk(reply) {
        RebootLoop(env, s2, attempt + 1);
      } else if IsOk(reply) {
        XconfRun.HeadKept(env, s2, reply.body);
        XconfRun.DigestFrame(env, s2, reply.body);
        var s3 := Digest(env, s2, reply.body);
        if XconfRun.Repeats(s3) {
          RebootLoop(env, XconfRun.Again(s3), attempt + 1);
        } else {
          RebootAfterReply(env, s3, reply);
          XconfRun.ProcessFrame(env, s3, reply);
          ReplyChangesNeedsFeatures(env, s3, reply);
        }
      }
    }
  }

  lemma ReplyChangesNeedsFeatures(env: Env, s: Session, reply: Reply)
    ensures ReplyChanges(env, s, reply) ==> reply.body.Features?
  {
  }

  /*** The manager ***/

  datatype Event = Complete | Error | CriticalUpdate | RebootRequired

  /** The events of a run whose initialisation succeeded. */
  function Events(run: Run): seq<Event> {
    if !Succeeds(run.outcome) then [Error]
    else if run.s.db.reboot then [Complete, CriticalUpdate, RebootRequired]
    else [Complete]
  }

  /**
   * A run posts Complete if it ended in a 304 or accepted a reply, and otherwise Error. It posts RebootRequired behind Complete
   * and CriticalUpdate, exactly if it accepted a reply in maintenance mode, one of whose writes changed the value read, and
   * whose hash is not the remembered one; so never after a 304, when blocked, or when a reply was rejected.
   */
  lemma RebootIsEarned(env: Env, s: Session)
    requires Fresh(s)
    ensures var run := ProcessRequest(env, s);
            && (Complete in Events(run) <==> run.outcome.Unchanged? || run.outcome.Accepted?)
            && (Error in Events(run) <==>
                  run.outcome.Exhausted? || run.outcome.Blocked? || run.outcome.NoMemory? || run.outcome.Rejected?)
            && (RebootRequired in Events(run) <==> Grounds(env, s.db.store, run))
            && (RebootRequired in Events(run) ==> Events(run) == [Complete, CriticalUpdate, RebootRequired])
            && (!run.outcome.Accepted? ==> RebootRequired !in Events(run))
  {
    hide RunLoop, Processed, KnownHash;
    var s1 := s.(selectOpt := if s.state == Local then "local" else "prod");
    RebootLoop(env, s1, 0);
    var run := ProcessRequest(env, s);
    ProcessedIsAccepted(env, s.db.store, run);
    if env.blocked {
      assert run == Run(s1, Blocked);
    } else {
      assert run == RunLoop(env, s1, 0);
      if Grounds(env, s.db.store, run) {
        GroundsSuffice(env, s.db.store, run);
      }
    }
  }

  lemma ProcessedIsAccepted(env: Env, start: Store, run: Run)
    ensures Processed(env, start, run) ==> run.outcome.Accepted?
  {
  }
}
