/** What applying a configuration leaves in the database, key by key. */
module XconfApply {
  import opened IniFile
  import opened RfcText
  import opened XconfProtocol
  import opened XconfDatabase
  import XconfRun

  /** A stored value that is, or reads as, the one wanted. */
  predicate Holds(stored: string, value: string) {
    stored == value || Unquote(stored) == value
  }

  /** A key of a reply that is to be applied: known, not empty, accepted, and not one of the guarded ones. */
  predicate Applicable(env: Env, store: Store, key: string, value: string) {
    && key in store && value != "" && env.accepts(key, value)
    && !(Contains(key, ACCOUNT_KEY) && StringCaseCompare(value, UNKNOWN))
    && (key == BOOTSTRAP_URL_KEY ==> env.validates(value))
  }

  lemma ApplyOwn(env: Env, ctx: Context, c: Cursor, key: string, value: string)
    requires Applicable(env, c.db.store, key, value)
    ensures Holds(ApplyKey(env, ctx, c, key, value).db.store[key], value)
  {
    hide ACCOUNT_KEY, RFC_NAMESPACE, StringCaseCompare, UNKNOWN, Contains, BOOTSTRAP_URL_KEY, IsClearTrigger, Unquote;
  }

  /** Any other entry is not written: empty, refused by the database, an unknown account ID, or a URL that does not answer. */
  lemma ApplyRefused(env: Env, ctx: Context, c: Cursor, key: string, value: string)
    requires key in c.db.store && !Applicable(env, c.db.store, key, value)
    ensures ApplyKey(env, ctx, c, key, value).db.store == c.db.store
  {
    if Contains(key, ACCOUNT_KEY) {
      AccountIsInNamespace(key);
    }
    hide ACCOUNT_KEY, RFC_NAMESPACE, StringCaseCompare, UNKNOWN, Contains, BOOTSTRAP_URL_KEY, IsClearTrigger, Unquote;
  }

  /**
   * Exactly what one entry does to the database. An applicable one is written, unless it reads the same already and is neither
   * named by the bootstrap file nor in the RFC namespace: such a one keeps its stored text, enclosing quotes included.
   */
  lemma WrittenExactly(env: Env, ctx: Context, c: Cursor, key: string, value: string)
    ensures ApplyKey(env, ctx, c, key, value).db.store
         == if Applicable(env, c.db.store, key, value)
               && (Unquote(c.db.store[key]) != value || env.bootstrap(key) || Contains(key, ".X_RDKCENTRAL-COM_RFC.")) then
              (if IsClearTrigger(key) then Reset(env, c.db.store) else c.db.store)[key := value]
            else c.db.store
  {
    if Contains(key, ACCOUNT_KEY) {
      AccountIsInNamespace(key);
    }
    assert RFC_NAMESPACE == ".X_RDKCENTRAL-COM_RFC.";
    hide ACCOUNT_KEY, RFC_NAMESPACE, StringCaseCompare, UNKNOWN, Contains, BOOTSTRAP_URL_KEY, IsClearTrigger, Unquote, Reset;
  }

  lemma AccountIsInNamespace(key: string)
    requires Contains(key, ACCOUNT_KEY)
    ensures Contains(key, RFC_NAMESPACE)
  {
    InNamespace("Feature.AccountInfo.AccountID");
    ContainsTransitive(key, ACCOUNT_KEY, RFC_NAMESPACE);
  }

  lemma ContainsTransitive(s: string, p: string, q: string)
    requires Contains(s, p) && Contains(p, q)
    ensures Contains(s, q)
  {
    var i :| 0 <= i <= |s| && OccursAt(s, p, i);
    var j :| 0 <= j <= |p| && OccursAt(p, q, j);
    var m := s[i + j..i + j + |q|];
    forall x | 0 <= x < |q|
      ensures m[x] == q[x]
    {
      assert m[x] == s[i + j + x] == s[i..i + |p|][j + x] == p[j..j + |q|][x];
    }
    assert m == q;
    assert OccursAt(s, q, i + j);
  }

  /** No entry behind the key clears the database again. */
  predicate QuietBehind(env: Env, store: Store, kv: Store, keys: seq<string>, key: string) {
    forall i, j :: 0 <= i < j < |keys| && keys[i] == key ==> !ClearsAgain(env, store, keys[j], ValueOf(kv, keys[j]))
  }

  lemma {:induction false} AppliedThroughKeys(env: Env, ctx: Context, c: Cursor, kv: Store, keys: seq<string>, key: string, store: Store)
    requires key in c.db.store && c.db.store.Keys == store.Keys
    ensures var after := ApplyKeys(env, ctx, c, kv, keys).db.store;
            && (Quiet(env, store, kv, keys) && (key in keys ==> !Applicable(env, store, key, ValueOf(kv, key))) ==>
                  after[key] == c.db.store[key])
            && (key in keys && Applicable(env, store, key, ValueOf(kv, key)) && QuietBehind(env, store, kv, keys, key) ==>
                  Holds(after[key], ValueOf(kv, key)))
    decreases |keys|
  {
    hide ApplyKey, ValueOf, Holds, Contains, ACCOUNT_KEY, BOOTSTRAP_URL_KEY, UNKNOWN, StringCaseCompare, IsClearTrigger;
    if keys != [] {
      var n := |keys| - 1;
      var init, last := keys[..n], keys[n];
      assert forall i :: 0 <= i < n ==> init[i] == keys[i];
      AppliedThroughKeys(env, ctx, c, kv, init, key, store);
      var mid := ApplyKeys(env, ctx, c, kv, init);
      if last == key && Applicable(env, store, key, ValueOf(kv, key)) {
        ApplyOwn(env, ctx, mid, key, ValueOf(kv, key));
      } else if last == key {
        ApplyRefused(env, ctx, mid, key, ValueOf(kv, key));
      } else if last != key && !ClearsAgain(env, store, last, ValueOf(kv, last)) {
        ApplyOther(env, ctx, mid, last, ValueOf(kv, last), key);
      }
    }
  }

  /** A key that some entry clears: one behind it, or any one if the map does not name it. */
  predicate Exposed(env: Env, store: Store, kv: Store, keys: seq<string>, key: string) {
    !QuietBehind(env, store, kv, keys, key) || (key !in keys && !Quiet(env, store, kv, keys))
  }

  lemma ExposedNext(env: Env, store: Store, kv: Store, keys: seq<string>, key: string)
    requires keys != [] && Sorted(keys)
    ensures var n := |keys| - 1;
            Exposed(env, store, kv, keys, key)
            <==> keys[n] != key && (Exposed(env, store, kv, keys[..n], key) || ClearsAgain(env, store, keys[n], ValueOf(kv, keys[n])))
  {
    hide ClearsAgain, ValueOf, Sorted;
    var n := |keys| - 1;
    var init := keys[..n];
    assert forall i :: 0 <= i < n ==> init[i] == keys[i];
    if keys[n] == key {
      forall i | 0 <= i < n
        ensures keys[i] != key
      {
        SortedAreDistinct(keys, i, n);
      }
    } else if key in init {
      var i :| 0 <= i < n && init[i] == key;
    }
  }

  /** In a database whose clear wipes every value, such a key ends up empty. */
  lemma {:induction false} WipedThroughKeys(env: Env, ctx: Context, c: Cursor, kv: Store, keys: seq<string>, key: string, store: Store)
    requires key in c.db.store && c.db.store.Keys == store.Keys && Sorted(keys) && Wipes(env)
    ensures Exposed(env, store, kv, keys, key) ==> ApplyKeys(env, ctx, c, kv, keys).db.store[key] == ""
    decreases |keys|
  {
    if keys != [] {
      hide ApplyKey, ValueOf, ClearsAgain, Before, Exposed;
      var n := |keys| - 1;
      var last, value := keys[n], ValueOf(kv, keys[n]);
      ExposedNext(env, store, kv, keys, key);
      WipedThroughKeys(env, ctx, c, kv, keys[..n], key, store);
      var mid := ApplyKeys(env, ctx, c, kv, keys[..n]);
      SameKeysClear(env, mid.db.store, store, last, value);
      if last != key && ClearsAgain(env, store, last, value) {
        ApplyTrigger(env, ctx, mid, last, value, key);
      } else if last != key {
        ApplyOther(env, ctx, mid, last, value, key);
      }
    }
  }

  lemma SameKeysClear(env: Env, a: Store, b: Store, key: string, value: string)
    requires a.Keys == b.Keys
    ensures ClearsAgain(env, a, key, value) == ClearsAgain(env, b, key, value)
  {
    assert key in a <==> key in a.Keys;
  }

  /** The parameters that end a clear. */
  predicate EndsClear(key: string) {
    key == CLEAR_DB_END_KEY || key == BOOTSTRAP_CLEAR_DB_END_KEY || key == RELOAD_CACHE_KEY
  }

  /** What a parameter is after a map was applied, given what it was after the clear. */
  ghost predicate Applied(env: Env, store: Store, cleared: Store, kv: Store, key: string, after: string)
    requires key in cleared
  {
    var keys := env.order(kv);
    && (key in kv && Applicable(env, store, key, kv[key]) ==>
          && (QuietBehind(env, store, kv, keys, key) ==> Holds(after, kv[key]))
          && (Wipes(env) ==> (Holds(after, kv[key]) <==> QuietBehind(env, store, kv, keys, key))))
    && ((key in kv ==> !Applicable(env, store, key, kv[key])) && Quiet(env, store, kv, keys) ==> after == cleared[key])
    && (key !in kv && Wipes(env) && !Quiet(env, store, kv, keys) ==> after == "")
  }

  lemma NothingHoldsNothing(value: string)
    requires value != ""
    ensures !Holds("", value)
  {
  }

  lemma AppliedByKeys(env: Env, ctx: Context, c: Cursor, kv: Store, key: string, store: Store)
    requires key in c.db.store && c.db.store.Keys == store.Keys && InMapOrder(env.order(kv), kv)
    ensures Applied(env, store, c.db.store, kv, key, ApplyKeys(env, ctx, c, kv, env.order(kv)).db.store[key])
  {
    hide ApplyKeys, Quiet, QuietBehind, Sorted, Holds, Contains, StringCaseCompare, ACCOUNT_KEY, BOOTSTRAP_URL_KEY, UNKNOWN;
    var keys := env.order(kv);
    AppliedThroughKeys(env, ctx, c, kv, keys, key, store);
    if Wipes(env) {
      WipedThroughKeys(env, ctx, c, kv, keys, key, store);
    }
    if key in kv && kv[key] != "" {
      NothingHoldsNothing(kv[key]);
    }
  }

  /**
   * Applying any map: an applicable entry holds afterwards unless an entry behind it in the map's order clears the database
   * again, and where a clear wipes the values exactly unless; a parameter the map does not name is as the clear left it
   * unless such an entry wipes it too.
   */
  lemma ConfigApplied(env: Env, ctx: Context, db: Db, stash: string, kv: Store, key: string)
    requires InMapOrder(env.order(kv), kv) && key in db.store && !EndsClear(key)
    ensures Applied(env, db.store, ClearDB(env, db.store, stash), kv, key, ApplyMap(env, ctx, db, stash, kv).store[key])
  {
    hide ClearDB, ApplyKeys, WriteAll, IsClearTrigger, Applied, InMapOrder;
    hide CLEAR_DB_END_KEY, BOOTSTRAP_CLEAR_DB_END_KEY, RELOAD_CACHE_KEY;
    var c := Cursor(db.(store := ClearDB(env, db.store, stash)), "");
    AppliedByKeys(env, ctx, c, kv, key, db.store);
    TriggersDiffer();
    WriteThreeOther(env, ApplyKeys(env, ctx, c, kv, env.order(kv)).db.store,
             Entry(CLEAR_DB_END_KEY, "true"), Entry(BOOTSTRAP_CLEAR_DB_END_KEY, "true"), Entry(RELOAD_CACHE_KEY, "true"), key);
  }

  /** The same over the whole processing of a reply. */
  lemma ConfigAfterReply(env: Env, s: Session, reply: Reply, key: string)
    requires s.kv == map[] && reply.body.Features? && ConfigMap(reply.body.list) != map[]
    requires InMapOrder(env.order(ConfigMap(reply.body.list)), ConfigMap(reply.body.list))
    requires key in s.db.store && !EndsClear(key) && !WrittenAfterwards(key)
    ensures key in Process(env, s, reply).s.db.store
    ensures Applied(env, s.db.store, ClearDB(env, s.db.store, CurrentAccount(s)), ConfigMap(reply.body.list), key,
                    Process(env, s, reply).s.db.store[key])
  {
    hide ApplyMap, UpdateHashAndTime, StoreEndpoint, ConfigMap, InMapOrder, Applied, ClearDB;
    hide EndsClear, WrittenAfterwards, CurrentAccount;
    var kv := ConfigMap(reply.body.list);
    assert s.kv + kv == kv;
    var s1 := s.(kv := kv);
    AccountIgnoresMap(s, kv);
    ConfigApplied(env, ContextOf(s1), s.db, CurrentAccount(s), kv, key);
    var applied := ApplyConfig(env, s1);
    AfterwardsKeeps(env, applied, reply.header, key);
    var last := applied.(version := s.firmware, db := UpdateHashAndTime(env, applied.db, reply.header));
    AfterwardsKeeps(env, last, reply.header, key);
    assert Process(env, s, reply).s == StoreEndpoint(env, last);
  }

  /** How a run accepts a reply: in a session with the database and the endpoint choice it started with. */
  ghost predicate AcceptedIn(env: Env, s: Session, t: Session, run: Run) {
    && run.outcome.Accepted? && run == Process(env, t, run.outcome.reply)
    && IsOk(run.outcome.reply) && run.outcome.reply.body.Features?
    && t.db.store == s.db.store && t.selectOpt == s.selectOpt && t.kv == map[]
    && t.firmware == s.firmware && t.lastFirmware == s.lastFirmware
  }

  lemma {:induction false} LoopAccepts(env: Env, s: Session, attempt: nat) returns (t: Session)
    requires attempt <= RETRY_COUNT && XconfRun.Head(s) && RunLoop(env, s, attempt).outcome.Accepted?
    ensures AcceptedIn(env, s, t, RunLoop(env, s, attempt))
    ensures t.db.bkupHash == if s.lastFirmware != s.firmware then s.db.bkupHash
                             else if SelectorIsProd(s.db.store) then PreviousHash(s.db.store)
                             else t.db.bkupHash
    decreases RETRY_COUNT - attempt
  {
    hide RunLoop, Digest, Process, RequestOf, Remember, XconfRun.AtMostOnce, SelectorIsProd, PreviousHash;
    XconfRun.LoopUnfolds(env, s, attempt);
    var s1 := ChooseUrl(env, s, attempt);
    var reply := env.server(attempt, RequestOf(s1));
    var s2 := Exchange(env, s1, attempt);
    RememberKeepsStore(ContextOf(s1), s1.db);
    Remembers(ContextOf(s1), s1.db);
    if IsOk(reply) {
      XconfRun.HeadKept(env, s2, reply.body);
      XconfRun.DigestFrame(env, s2, reply.body);
      t := Digest(env, s2, reply.body);
      if XconfRun.Repeats(t) {
        t := LoopAccepts(env, XconfRun.Again(t), attempt + 1);
      } else {
        XconfRun.ProcessFrame(env, t, reply);
      }
    } else {
      t := LoopAccepts(env, s2, attempt + 1);
    }
  }

  lemma Remembers(ctx: Context, db: Db)
    ensures !ctx.sameFirmware ==> Remember(ctx, db) == db
    ensures ctx.sameFirmware && SelectorIsProd(db.store) ==> Remember(ctx, db).bkupHash == PreviousHash(db.store)
  {
    hide SelectorIsProd, PreviousHash;
  }

  /** What is put back by the clear is the stored account where there is one, whatever the replies said. */
  lemma StoredAccount(s: Session, t: Session)
    requires t.db.store == s.db.store && t.firmware == s.firmware && t.lastFirmware == s.lastFirmware
    ensures ACCOUNT_KEY in s.db.store ==> CurrentAccount(t) == CurrentAccount(s)
  {
    hide ACCOUNT_KEY, UNKNOWN, Unquote;
  }

  /** After every run that accepts a reply whose map is not empty, the same holds of that reply, whatever the replies before it said. */
  lemma ConfigAfterRun(env: Env, s: Session, key: string) returns (account: string)
    requires Fresh(s) && ProcessRequest(env, s).outcome.Accepted? && ProcessRequest(env, s).outcome.reply.body.Features?
    requires var kv := ConfigMap(ProcessRequest(env, s).outcome.reply.body.list); kv != map[] && InMapOrder(env.order(kv), kv)
    requires key in s.db.store && !EndsClear(key) && !WrittenAfterwards(key)
    ensures ACCOUNT_KEY in s.db.store ==> account == CurrentAccount(s)
    ensures var run := ProcessRequest(env, s);
            && key in run.s.db.store
            && Applied(env, s.db.store, ClearDB(env, s.db.store, account), ConfigMap(run.outcome.reply.body.list), key,
                       run.s.db.store[key])
  {
    hide RunLoop, Process, ConfigMap, InMapOrder, Applied, EndsClear, WrittenAfterwards, ClearDB, CurrentAccount, ACCOUNT_KEY;
    var s1 := s.(selectOpt := if s.state == Local then "local" else "prod");
    var t := LoopAccepts(env, s1, 0);
    account := CurrentAccount(t);
    StoredAccount(s, t);
    ConfigAfterReply(env, t, ProcessRequest(env, s).outcome.reply, key);
  }
}
