/** What becomes of the stored account ID when a configuration is applied. */
module XconfAccount {
  import opened Wrappers
  import opened IniFile
  import opened RfcText
  import opened XconfProtocol
  import opened XconfDatabase
  import XconfApply

  lemma SelfContained(s: string)
    ensures Contains(s, s)
  {
    assert OccursAt(s, s, 0);
  }

  /*** The account ID through one key ***/

  /** An account ID a reply can put in place of the stored one. */
  predicate Usable(v: string) {
    v != "" && !StringCaseCompare(v, UNKNOWN)
  }

  lemma ApplyAccount(env: Env, ctx: Context, c: Cursor, value: string)
    requires ACCOUNT_KEY in c.db.store && forall v :: env.accepts(ACCOUNT_KEY, v)
    ensures var store := ApplyKey(env, ctx, c, ACCOUNT_KEY, value).db.store;
            store.Keys == c.db.store.Keys && store[ACCOUNT_KEY] == if Usable(value) then value else c.db.store[ACCOUNT_KEY]
  {
    hide RFC, BOOTSTRAP, RFC_NAMESPACE, StringCaseCompare, UNKNOWN, Contains, Remember;
    InNamespace("Feature.AccountInfo.AccountID");
    SelfContained(ACCOUNT_KEY);
    KeysDiffer();
  }

  /*** Through all of them ***/

  /** Every clear trigger stands in front of the account key. */
  predicate TriggersFirst(keys: seq<string>) {
    forall i, j :: 0 <= i < j < |keys| && IsClearTrigger(keys[j]) ==> keys[i] != ACCOUNT_KEY
  }

  lemma {:induction false} BeforeBehindPrefix(p: string, a: string, b: string)
    ensures Before(p + a, p + b) == Before(a, b)
  {
    if p == "" {
      assert p + a == a && p + b == b;
    } else {
      assert (p + a)[1..] == p[1..] + a && (p + b)[1..] == p[1..] + b;
      BeforeBehindPrefix(p[1..], a, b);
    }
  }

  lemma AccountIsBehindTriggers(key: string)
    requires IsClearTrigger(key)
    ensures !Before(ACCOUNT_KEY, key)
  {
    hide RFC;
    var account := "Feature.AccountInfo.AccountID";
    BeforeBehindPrefix(RFC, account, "Control.ClearDB");
    assert RFC + BOOTSTRAP + "Control.ClearDB" == RFC + (BOOTSTRAP + "Control.ClearDB");
    BeforeBehindPrefix(RFC, account, BOOTSTRAP + "Control.ClearDB");
  }

  lemma SortedTriggersFirst(keys: seq<string>)
    requires Sorted(keys)
    ensures TriggersFirst(keys)
  {
    hide IsClearTrigger, Before, ACCOUNT_KEY;
    forall i, j | 0 <= i < j < |keys| && IsClearTrigger(keys[j])
      ensures keys[i] != ACCOUNT_KEY
    {
      AccountIsBehindTriggers(keys[j]);
    }
  }

  lemma {:induction false} AccountThroughKeys(env: Env, ctx: Context, c: Cursor, kv: Store, keys: seq<string>, store: Store)
    requires ACCOUNT_KEY in c.db.store && c.db.store.Keys == store.Keys && forall v :: env.accepts(ACCOUNT_KEY, v)
    requires TriggersFirst(keys)
    ensures var after := ApplyKeys(env, ctx, c, kv, keys).db.store;
            && after.Keys == store.Keys
            && (ACCOUNT_KEY in keys && Usable(ValueOf(kv, ACCOUNT_KEY)) ==> after[ACCOUNT_KEY] == ValueOf(kv, ACCOUNT_KEY))
            && (!(ACCOUNT_KEY in keys && Usable(ValueOf(kv, ACCOUNT_KEY))) && Quiet(env, store, kv, keys) ==>
                  after[ACCOUNT_KEY] == c.db.store[ACCOUNT_KEY])
    decreases |keys|
  {
    hide ApplyKey, IsClearTrigger, ACCOUNT_KEY, Usable, ValueOf;
    if keys != [] {
      var n := |keys| - 1;
      var init, last := keys[..n], keys[n];
      AccountThroughKeys(env, ctx, c, kv, init, store);
      var mid := ApplyKeys(env, ctx, c, kv, init);
      if last == ACCOUNT_KEY {
        ApplyAccount(env, ctx, mid, ValueOf(kv, last));
      } else if !ClearsAgain(env, store, last, ValueOf(kv, last)) {
        ApplyOther(env, ctx, mid, last, ValueOf(kv, last), ACCOUNT_KEY);
      } else {
        assert ACCOUNT_KEY !in init;
      }
    }
  }

  lemma ClearRestores(env: Env, store: Store, id: string)
    requires ACCOUNT_KEY in store && (forall v :: env.accepts(ACCOUNT_KEY, v)) && id != "" && id != UNKNOWN
    ensures ClearDB(env, store, id)[ACCOUNT_KEY] == id
  {
    hide RFC, UNKNOWN, WriteAll;
    KeysDiffer();
  }

  /**
   * Applying a map keeps or replaces the stored account ID: the reply's ID if it is usable, else the old one,
   * whatever the clear does to the database, provided the reply does not itself clear the database again.
   */
  lemma AccountThroughClear(env: Env, ctx: Context, db: Db, id: string, kv: Store)
    requires ACCOUNT_KEY in db.store && (forall v :: env.accepts(ACCOUNT_KEY, v)) && id != "" && id != UNKNOWN
    requires InMapOrder(env.order(kv), kv)
    requires Usable(ValueOf(kv, ACCOUNT_KEY)) || Quiet(env, db.store, kv, env.order(kv))
    ensures var v := ValueOf(kv, ACCOUNT_KEY);
            ApplyMap(env, ctx, db, id, kv).store[ACCOUNT_KEY] == if Usable(v) then v else id
  {
    hide ClearDB, ApplyKeys, WriteAll, RFC, UNKNOWN, IsClearTrigger, Sorted, TriggersFirst;
    var cleared := ClearDB(env, db.store, id);
    ClearRestores(env, db.store, id);
    var c := Cursor(db.(store := cleared), "");
    SortedTriggersFirst(env.order(kv));
    AccountThroughKeys(env, ctx, c, kv, env.order(kv), db.store);
    KeysDiffer();
    TriggersDiffer();
    WriteThreeOther(env, ApplyKeys(env, ctx, c, kv, env.order(kv)).db.store,
                    Entry(CLEAR_DB_END_KEY, "true"), Entry(BOOTSTRAP_CLEAR_DB_END_KEY, "true"), Entry(RELOAD_CACHE_KEY, "true"), ACCOUNT_KEY);
  }

  /*** The proviso is needed ***/

  lemma AccountIsNoTrigger()
    ensures !IsClearTrigger(ACCOUNT_KEY)
  {
    TriggersDiffer();
  }

  /** The stored ID through the entries of a map that clear the database, once for each of them. */
  function Resets(env: Env, store: Store, kv: Store, keys: seq<string>, id: string): string {
    if keys == [] then id
    else
      var n := |keys| - 1;
      var before := Resets(env, store, kv, keys[..n], id);
      if ClearsAgain(env, store, keys[n], ValueOf(kv, keys[n])) then env.reset(ACCOUNT_KEY, before) else before
  }

  lemma {:induction false} ResetsThroughKeys(env: Env, ctx: Context, c: Cursor, kv: Store, keys: seq<string>, store: Store)
    requires ACCOUNT_KEY in c.db.store && c.db.store.Keys == store.Keys && forall v :: env.accepts(ACCOUNT_KEY, v)
    requires !Usable(ValueOf(kv, ACCOUNT_KEY))
    ensures ApplyKeys(env, ctx, c, kv, keys).db.store[ACCOUNT_KEY] == Resets(env, store, kv, keys, c.db.store[ACCOUNT_KEY])
    decreases |keys|
  {
    hide ApplyKey, IsClearTrigger, ACCOUNT_KEY, Usable, ValueOf;
    if keys != [] {
      var n := |keys| - 1;
      var last, value := keys[n], ValueOf(kv, keys[n]);
      ResetsThroughKeys(env, ctx, c, kv, keys[..n], store);
      var mid := ApplyKeys(env, ctx, c, kv, keys[..n]);
      if last == ACCOUNT_KEY {
        ApplyAccount(env, ctx, mid, value);
        AccountIsNoTrigger();
      } else if ClearsAgain(env, store, last, value) {
        ApplyTrigger(env, ctx, mid, last, value, ACCOUNT_KEY);
      } else {
        ApplyOther(env, ctx, mid, last, value, ACCOUNT_KEY);
      }
    }
  }

  lemma UnusableResets(env: Env, ctx: Context, db: Db, id: string, kv: Store)
    requires ACCOUNT_KEY in db.store && (forall v :: env.accepts(ACCOUNT_KEY, v)) && id != "" && id != UNKNOWN
    requires !Usable(ValueOf(kv, ACCOUNT_KEY))
    ensures ApplyMap(env, ctx, db, id, kv).store[ACCOUNT_KEY] == Resets(env, db.store, kv, env.order(kv), id)
  {
    hide ClearDB, ApplyKeys, WriteAll, RFC, UNKNOWN, IsClearTrigger;
    var c := Cursor(db.(store := ClearDB(env, db.store, id)), "");
    ClearRestores(env, db.store, id);
    ResetsThroughKeys(env, ctx, c, kv, env.order(kv), db.store);
    KeysDiffer();
    TriggersDiffer();
    WriteThreeOther(env, ApplyKeys(env, ctx, c, kv, env.order(kv)).db.store,
                    Entry(CLEAR_DB_END_KEY, "true"), Entry(BOOTSTRAP_CLEAR_DB_END_KEY, "true"), Entry(RELOAD_CACHE_KEY, "true"), ACCOUNT_KEY);
  }

  /** Whatever a clear does: the reply's ID if it is usable, else the restored one as often reset as the map clears. */
  lemma AccountFormula(env: Env, ctx: Context, db: Db, id: string, kv: Store)
    requires ACCOUNT_KEY in db.store && (forall v :: env.accepts(ACCOUNT_KEY, v)) && id != "" && id != UNKNOWN
    requires InMapOrder(env.order(kv), kv)
    ensures var v := ValueOf(kv, ACCOUNT_KEY);
            ApplyMap(env, ctx, db, id, kv).store[ACCOUNT_KEY]
              == if Usable(v) then v else Resets(env, db.store, kv, env.order(kv), id)
  {
    hide ApplyMap, ACCOUNT_KEY, UNKNOWN, InMapOrder, Usable, Resets;
    if Usable(ValueOf(kv, ACCOUNT_KEY)) {
      AccountThroughClear(env, ctx, db, id, kv);
    } else {
      UnusableResets(env, ctx, db, id, kv);
    }
  }

  lemma {:induction false} QuietResets(env: Env, store: Store, kv: Store, keys: seq<string>, id: string)
    ensures Quiet(env, store, kv, keys) ==> Resets(env, store, kv, keys, id) == id
    ensures !Quiet(env, store, kv, keys) && Wipes(env) ==> Resets(env, store, kv, keys, id) == ""
    decreases |keys|
  {
    hide ClearsAgain, ACCOUNT_KEY, ValueOf;
    if keys != [] {
      var n := |keys| - 1;
      QuietResets(env, store, kv, keys[..n], id);
      assert Quiet(env, store, kv, keys)
        <==> Quiet(env, store, kv, keys[..n]) && !ClearsAgain(env, store, keys[n], ValueOf(kv, keys[n]));
    }
  }

  /**
   * So the ID comes through exactly when the reply brings a usable one or the resets of its clearing entries give the ID back:
   * where a clear wipes every value, exactly when it has none.
   */
  lemma AccountExactly(env: Env, ctx: Context, db: Db, id: string, kv: Store)
    requires ACCOUNT_KEY in db.store && (forall v :: env.accepts(ACCOUNT_KEY, v)) && id != "" && id != UNKNOWN
    requires InMapOrder(env.order(kv), kv)
    ensures var v := ValueOf(kv, ACCOUNT_KEY);
            (ApplyMap(env, ctx, db, id, kv).store[ACCOUNT_KEY] == if Usable(v) then v else id)
            <==> Usable(v) || Resets(env, db.store, kv, env.order(kv), id) == id
    ensures Wipes(env) ==>
              (Resets(env, db.store, kv, env.order(kv), id) == id <==> Quiet(env, db.store, kv, env.order(kv)))
  {
    hide ApplyMap, ACCOUNT_KEY, UNKNOWN, InMapOrder, Quiet, Usable, Resets;
    AccountFormula(env, ctx, db, id, kv);
    QuietResets(env, db.store, kv, env.order(kv), id);
  }

  /** A reply that clears such a database again, and brings no usable ID, loses the stored one. */
  lemma AccountLost(env: Env, ctx: Context, db: Db, id: string, kv: Store)
    requires ACCOUNT_KEY in db.store && (forall v :: env.accepts(ACCOUNT_KEY, v)) && id != "" && id != UNKNOWN
    requires Wipes(env) && !Usable(ValueOf(kv, ACCOUNT_KEY)) && !Quiet(env, db.store, kv, env.order(kv))
    ensures ApplyMap(env, ctx, db, id, kv).store[ACCOUNT_KEY] == ""
  {
    hide ApplyMap, ACCOUNT_KEY, UNKNOWN, Quiet, Usable, Resets, Wipes;
    UnusableResets(env, ctx, db, id, kv);
    QuietResets(env, db.store, kv, env.order(kv), id);
  }

  /*** The account ID after a processed reply ***/

  /**
   * With the firmware unchanged and a stored ID that reads as `id`, neither empty nor "Unknown", processing a reply
   * with a non-empty map stores the reply's ID if it is usable, and `id` otherwise.
   */
  lemma AccountAfterReply(env: Env, s: Session, reply: Reply, id: string)
    requires s.kv == map[] && reply.body.Features? && ConfigMap(reply.body.list) != map[]
    requires s.lastFirmware == s.firmware && ReadParam(s.db.store, ACCOUNT_KEY) == Some(id) && id != "" && id != UNKNOWN
    requires forall v :: env.accepts(ACCOUNT_KEY, v)
    requires var kv := ConfigMap(reply.body.list);
             && InMapOrder(env.order(kv), kv)
             && (Usable(ValueOf(kv, ACCOUNT_KEY)) || Quiet(env, s.db.store, kv, env.order(kv)))
    ensures var store := Process(env, s, reply).s.db.store;
            var v := ValueOf(ConfigMap(reply.body.list), ACCOUNT_KEY);
            ACCOUNT_KEY in store && store[ACCOUNT_KEY] == if Usable(v) then v else id
  {
    hide ApplyMap, UpdateHashAndTime, StoreEndpoint, RFC, UNKNOWN, ConfigMap, Usable, ValueOf, Quiet, InMapOrder;
    var kv := ConfigMap(reply.body.list);
    assert s.kv + kv == kv;
    var s1 := s.(kv := kv);
    assert CurrentAccount(s1) == id;
    AccountThroughClear(env, ContextOf(s1), s.db, id, kv);
    var applied := ApplyConfig(env, s1);
    KeysDiffer();
    AfterwardsKeeps(env, applied, reply.header, ACCOUNT_KEY);
    var last := applied.(version := s.firmware, db := UpdateHashAndTime(env, applied.db, reply.header));
    AfterwardsKeeps(env, last, reply.header, ACCOUNT_KEY);
    assert Process(env, s, reply).s == StoreEndpoint(env, last);
  }

  /** And so over every run that accepts a reply. */
  lemma AccountAfterRun(env: Env, s: Session, id: string)
    requires Fresh(s) && ProcessRequest(env, s).outcome.Accepted? && ProcessRequest(env, s).outcome.reply.body.Features?
    requires s.lastFirmware == s.firmware && ReadParam(s.db.store, ACCOUNT_KEY) == Some(id) && id != "" && id != UNKNOWN
    requires forall v :: env.accepts(ACCOUNT_KEY, v)
    requires var kv := ConfigMap(ProcessRequest(env, s).outcome.reply.body.list);
             && kv != map[] && InMapOrder(env.order(kv), kv)
             && (Usable(ValueOf(kv, ACCOUNT_KEY)) || Quiet(env, s.db.store, kv, env.order(kv)))
    ensures var run := ProcessRequest(env, s);
            var v := ValueOf(ConfigMap(run.outcome.reply.body.list), ACCOUNT_KEY);
            ACCOUNT_KEY in run.s.db.store && run.s.db.store[ACCOUNT_KEY] == if Usable(v) then v else id
  {
    hide RunLoop, Process, ConfigMap, Quiet, InMapOrder, Usable, ValueOf, RFC, UNKNOWN;
    var t := XconfApply.LoopAccepts(env, s.(selectOpt := if s.state == Local then "local" else "prod"), 0);
    AccountAfterReply(env, t, ProcessRequest(env, s).outcome.reply, id);
  }
}
