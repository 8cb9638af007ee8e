/** What clearing the database does to every parameter, and what a processed reply leaves in those it does not name. */
module XconfClear {
  import opened Wrappers
  import opened IniFile
  import opened RfcText
  import opened XconfProtocol
  import opened XconfDatabase
  import XconfRun
  import XconfApply
  import XconfReboot

  /** A clear trigger that the database knows and accepts. */
  predicate Effective(env: Env, store: Store, trigger: string) {
    trigger in store && env.accepts(trigger, "true")
  }

  /** A value once or not at all reset. */
  function ResetIf(env: Env, effective: bool, key: string, value: string): string {
    if effective then env.reset(key, value) else value
  }

  /** A value through both triggers, in the order they are set. */
  function ResetTwice(env: Env, store: Store, key: string, value: string): string {
    ResetIf(env, Effective(env, store, BOOTSTRAP_CLEAR_DB_KEY), key,
            ResetIf(env, Effective(env, store, CLEAR_DB_KEY), key, value))
  }

  lemma TriggerResets(env: Env, store: Store, trigger: string, key: string)
    requires IsClearTrigger(trigger) && key in store && key != trigger
    ensures WriteParam(env, store, trigger, "true")[key] == ResetIf(env, Effective(env, store, trigger), key, store[key])
  {
    hide CLEAR_DB_KEY, BOOTSTRAP_CLEAR_DB_KEY;
  }

  lemma TriggerKeepsOther(env: Env, store: Store, trigger: string, other: string)
    ensures Effective(env, WriteParam(env, store, trigger, "true"), other) == Effective(env, store, other)
  {
    hide IsClearTrigger;
    assert other in store <==> other in store.Keys;
  }

  lemma ChangeTimeIsNoTrigger()
    ensures !IsClearTrigger(CHANGE_TIME_KEY) && IsClearTrigger(CLEAR_DB_KEY) && IsClearTrigger(BOOTSTRAP_CLEAR_DB_KEY)
    ensures ACCOUNT_KEY != CHANGE_TIME_KEY && !IsClearTrigger(ACCOUNT_KEY)
  {
    TriggersDiffer();
    KeysDiffer();
  }

  lemma ThreeWrites(env: Env, store: Store, key: string)
    requires key in store && !IsClearTrigger(key) && key != CHANGE_TIME_KEY
    ensures WriteAll(env, store, [Entry(CLEAR_DB_KEY, "true"), Entry(BOOTSTRAP_CLEAR_DB_KEY, "true"), Entry(CHANGE_TIME_KEY, env.clock(0))])[key]
         == ResetTwice(env, store, key, store[key])
  {
    ChangeTimeIsNoTrigger();
    NotATrigger(key);
    hide WriteAll, WriteParam, IsClearTrigger, CLEAR_DB_KEY, BOOTSTRAP_CLEAR_DB_KEY, CHANGE_TIME_KEY, ACCOUNT_KEY, Effective;
    WriteThree(env, store, Entry(CLEAR_DB_KEY, "true"), Entry(BOOTSTRAP_CLEAR_DB_KEY, "true"), Entry(CHANGE_TIME_KEY, env.clock(0)));
    var s1 := WriteParam(env, store, CLEAR_DB_KEY, "true");
    var s2 := WriteParam(env, s1, BOOTSTRAP_CLEAR_DB_KEY, "true");
    TriggerResets(env, store, CLEAR_DB_KEY, key);
    TriggerResets(env, s1, BOOTSTRAP_CLEAR_DB_KEY, key);
    TriggerKeepsOther(env, store, CLEAR_DB_KEY, BOOTSTRAP_CLEAR_DB_KEY);
    WriteOther(env, s2, CHANGE_TIME_KEY, env.clock(0), key);
  }

  lemma NotATrigger(key: string)
    requires !IsClearTrigger(key)
    ensures key != CLEAR_DB_KEY && key != BOOTSTRAP_CLEAR_DB_KEY
  {
  }

  /**
   * A clear resets every parameter once for each of the two triggers that the database knows and accepts, and then puts
   * the account back if it has one.
   */
  lemma ClearResets(env: Env, store: Store, stash: string, key: string)
    requires key in store && !IsClearTrigger(key) && key != CHANGE_TIME_KEY
    ensures var restored := stash != "" && stash != "Unknown" && env.accepts(ACCOUNT_KEY, stash);
            ClearDB(env, store, stash)[key]
              == if key == ACCOUNT_KEY && restored then stash else ResetTwice(env, store, key, store[key])
    ensures Effective(env, store, CLEAR_DB_KEY) && Effective(env, store, BOOTSTRAP_CLEAR_DB_KEY) ==>
              ResetTwice(env, store, key, store[key]) == env.reset(key, env.reset(key, store[key]))
  {
    ChangeTimeIsNoTrigger();
    ThreeWrites(env, store, key);
    assert UNKNOWN == "Unknown";
    hide WriteAll, IsClearTrigger, CLEAR_DB_KEY, BOOTSTRAP_CLEAR_DB_KEY, CHANGE_TIME_KEY, ACCOUNT_KEY, UNKNOWN;
  }

  /** The parameters a processed reply writes on its own account. */
  predicate OwnWrites(key: string) {
    IsClearTrigger(key) || key == CHANGE_TIME_KEY || key == ACCOUNT_KEY || XconfApply.EndsClear(key) || WrittenAfterwards(key)
  }

  /**
   * After every run that accepts a reply with a non-empty map, a parameter the map does not name is what the two triggers reset it
   * to, if no entry of the map clears again.
   */
  lemma UnnamedIsReset(env: Env, s: Session, key: string)
    requires Fresh(s) && ProcessRequest(env, s).outcome.Accepted? && ProcessRequest(env, s).outcome.reply.body.Features?
    requires var kv := ConfigMap(ProcessRequest(env, s).outcome.reply.body.list);
             && kv != map[] && InMapOrder(env.order(kv), kv) && key !in kv
    requires key in s.db.store && !OwnWrites(key)
    ensures var run := ProcessRequest(env, s);
            var kv := ConfigMap(run.outcome.reply.body.list);
            && key in run.s.db.store
            && (Quiet(env, s.db.store, kv, env.order(kv)) ==> run.s.db.store[key] == ResetTwice(env, s.db.store, key, s.db.store[key]))
            && (Wipes(env) && (Effective(env, s.db.store, CLEAR_DB_KEY) || Effective(env, s.db.store, BOOTSTRAP_CLEAR_DB_KEY)) ==>
                  run.s.db.store[key] == "")
  {
    hide ProcessRequest, ConfigMap, InMapOrder, IsClearTrigger, CHANGE_TIME_KEY, ACCOUNT_KEY, XconfApply.EndsClear, WrittenAfterwards;
    hide ClearDB, Quiet, XconfApply.Applicable, XconfApply.QuietBehind, XconfApply.Holds, Effective, CLEAR_DB_KEY, BOOTSTRAP_CLEAR_DB_KEY;
    var account := XconfApply.ConfigAfterRun(env, s, key);
    ClearResets(env, s.db.store, account, key);
  }

  /*** The account a clear puts back ***/

  /** The account in force while a configuration is applied, and after it. */
  lemma AccountInForce(env: Env, s: Session, reply: Reply)
    requires s.kv == map[] && reply.body.Features? && ConfigMap(reply.body.list) != map[]
    ensures var store := s.db.store;
            Process(env, s, reply).s.ids.account
              == if ACCOUNT_KEY !in store then s.ids.account
                 else if Unquote(store[ACCOUNT_KEY]) == "" || s.lastFirmware != s.firmware then "Unknown"
                 else Unquote(store[ACCOUNT_KEY])
  {
    assert UNKNOWN == "Unknown";
    hide ApplyMap, UpdateHashAndTime, WriteAll, ConfigMap, ACCOUNT_KEY, UNKNOWN, Unquote;
    assert s.kv + ConfigMap(reply.body.list) == ConfigMap(reply.body.list);
  }

  lemma AccountIsOrdinary()
    ensures !XconfApply.EndsClear(ACCOUNT_KEY) && !WrittenAfterwards(ACCOUNT_KEY)
  {
    KeysDiffer();
    hide RFC;
  }

  /**
   * Behind a firmware change the stored account is not put back: if the reply does not name it and clears nothing again, it is what
   * the two triggers reset it to.
   */
  lemma UpgradeDropsAccount(env: Env, s: Session)
    requires Fresh(s) && ProcessRequest(env, s).outcome.Accepted? && ProcessRequest(env, s).outcome.reply.body.Features?
    requires var kv := ConfigMap(ProcessRequest(env, s).outcome.reply.body.list);
             && kv != map[] && InMapOrder(env.order(kv), kv) && ACCOUNT_KEY !in kv && Quiet(env, s.db.store, kv, env.order(kv))
    requires ACCOUNT_KEY in s.db.store && s.lastFirmware != s.firmware
    ensures var run := ProcessRequest(env, s);
            && ACCOUNT_KEY in run.s.db.store
            && run.s.db.store[ACCOUNT_KEY] == ResetTwice(env, s.db.store, ACCOUNT_KEY, s.db.store[ACCOUNT_KEY])
  {
    AccountIsOrdinary();
    ChangeTimeIsNoTrigger();
    hide ProcessRequest, ConfigMap, InMapOrder, IsClearTrigger, CHANGE_TIME_KEY, ACCOUNT_KEY, XconfApply.EndsClear, WrittenAfterwards;
    hide ClearDB, Quiet, XconfApply.Applicable, XconfApply.QuietBehind, XconfApply.Holds, Effective, CLEAR_DB_KEY, BOOTSTRAP_CLEAR_DB_KEY;
    var account := XconfApply.ConfigAfterRun(env, s, ACCOUNT_KEY);
    assert account == "Unknown";
    ClearResets(env, s.db.store, account, ACCOUNT_KEY);
  }

  /*** What a processed reply writes on its own account ***/

  lemma EndKeysDiffer()
    ensures CLEAR_DB_END_KEY != BOOTSTRAP_CLEAR_DB_END_KEY && CLEAR_DB_END_KEY != RELOAD_CACHE_KEY
    ensures BOOTSTRAP_CLEAR_DB_END_KEY != RELOAD_CACHE_KEY
  {
    assert |CLEAR_DB_END_KEY| != |BOOTSTRAP_CLEAR_DB_END_KEY|;
    assert |RELOAD_CACHE_KEY| == 23 && |CLEAR_DB_END_KEY| > 23 && |BOOTSTRAP_CLEAR_DB_END_KEY| > 23;
  }

  lemma EndKeysStay()
    ensures !WrittenAfterwards(CLEAR_DB_END_KEY) && !WrittenAfterwards(BOOTSTRAP_CLEAR_DB_END_KEY) && !WrittenAfterwards(RELOAD_CACHE_KEY)
  {
    hide RFC;
    Differ(RFC, "Control.ClearDBEnd", "Control.ConfigSetHash", 9);
    Differ(RFC, "Control.ClearDBEnd", "Control.ConfigSetTime", 9);
    Differ(RFC, "Control.ClearDBEnd", "Control.XconfSelector", 8);
    Differ(RFC, "Control.ClearDBEnd", "Control.XconfUrl", 8);
    assert RFC + BOOTSTRAP + "Control.ClearDBEnd" == RFC + (BOOTSTRAP + "Control.ClearDBEnd");
    Differ(RFC, BOOTSTRAP + "Control.ClearDBEnd", "Control.ConfigSetHash", 0);
    Differ(RFC, BOOTSTRAP + "Control.ClearDBEnd", "Control.ConfigSetTime", 0);
    Differ(RFC, BOOTSTRAP + "Control.ClearDBEnd", "Control.XconfSelector", 0);
    Differ(RFC, BOOTSTRAP + "Control.ClearDBEnd", "Control.XconfUrl", 0);
    ReloadIsShort();
  }

  lemma ReloadIsShort()
    ensures !WrittenAfterwards(RELOAD_CACHE_KEY)
  {
    assert |RELOAD_CACHE_KEY| == 23 && |HASH_KEY| > 23 && |TIME_KEY| > 23 && |XCONF_SELECTOR_KEY| > 23 && |XCONF_URL_KEY| > 23;
  }

  /** A value that was written just now, if the database accepts it. */
  lemma WriteOwn(env: Env, store: Store, key: string, value: string)
    requires key in store && env.accepts(key, value)
    ensures WriteParam(env, store, key, value)[key] == value
  {
    hide IsClearTrigger;
  }

  /** The three parameters that end a clear are set, whatever the map holds. */
  lemma EndIsSet(env: Env, ctx: Context, db: Db, stash: string, kv: Store, key: string)
    requires XconfApply.EndsClear(key) && key in db.store && env.accepts(key, "true")
    ensures ApplyMap(env, ctx, db, stash, kv).store[key] == "true"
  {
    EndKeysDiffer();
    TriggersDiffer();
    hide ClearDB, ApplyKeys, WriteAll, WriteParam, IsClearTrigger, CLEAR_DB_END_KEY, BOOTSTRAP_CLEAR_DB_END_KEY, RELOAD_CACHE_KEY;
    hide CHANGE_TIME_KEY, ACCOUNT_KEY;
    var store := ApplyKeys(env, ctx, Cursor(db.(store := ClearDB(env, db.store, stash)), ""), kv, env.order(kv)).db.store;
    var a, b, c := Entry(CLEAR_DB_END_KEY, "true"), Entry(BOOTSTRAP_CLEAR_DB_END_KEY, "true"), Entry(RELOAD_CACHE_KEY, "true");
    WriteThree(env, store, a, b, c);
    var s1 := WriteParam(env, store, a.key, "true");
    var s2 := WriteParam(env, s1, b.key, "true");
    if key == a.key {
      WriteOwn(env, store, key, "true");
      WriteOther(env, s1, b.key, "true", key);
      WriteOther(env, s2, c.key, "true", key);
    } else if key == b.key {
      WriteOwn(env, s1, key, "true");
      WriteOther(env, s2, c.key, "true", key);
    } else {
      WriteOwn(env, s2, key, "true");
    }
  }

  /** And so after every processed reply with a non-empty map. */
  lemma EndIsSetAfterReply(env: Env, s: Session, reply: Reply, key: string)
    requires s.kv == map[] && reply.body.Features? && ConfigMap(reply.body.list) != map[]
    requires XconfApply.EndsClear(key) && key in s.db.store && env.accepts(key, "true")
    ensures var store := Process(env, s, reply).s.db.store; key in store && store[key] == "true"
  {
    EndKeysStay();
    hide ApplyMap, UpdateHashAndTime, StoreEndpoint, ConfigMap, CurrentAccount, WrittenAfterwards;
    hide CLEAR_DB_END_KEY, BOOTSTRAP_CLEAR_DB_END_KEY, RELOAD_CACHE_KEY;
    var kv := ConfigMap(reply.body.list);
    assert s.kv + kv == kv;
    var s1 := s.(kv := kv);
    EndIsSet(env, ContextOf(s1), s.db, CurrentAccount(s1), kv, key);
    var applied := ApplyConfig(env, s1);
    AfterwardsKeeps(env, applied, reply.header, key);
    var last := applied.(version := s.firmware, db := UpdateHashAndTime(env, applied.db, reply.header));
    AfterwardsKeeps(env, last, reply.header, key);
    assert Process(env, s, reply).s == StoreEndpoint(env, last);
  }

  lemma EndpointKeysDiffer()
    ensures TIME_KEY != XCONF_SELECTOR_KEY && TIME_KEY != XCONF_URL_KEY && XCONF_SELECTOR_KEY != XCONF_URL_KEY
    ensures !IsClearTrigger(TIME_KEY) && !IsClearTrigger(XCONF_SELECTOR_KEY) && !IsClearTrigger(XCONF_URL_KEY)
  {
    NoTriggerAfterwards();
    hide RFC;
    Differ(RFC, "Control.ConfigSetTime", "Control.XconfSelector", 8);
    Differ(RFC, "Control.ConfigSetTime", "Control.XconfUrl", 8);
    Differ(RFC, "Control.XconfSelector", "Control.XconfUrl", 13);
  }

  lemma EndpointLeaves(env: Env, s: Session)
    ensures var store := StoreEndpoint(env, s).db.store;
            && (TIME_KEY in s.db.store ==> TIME_KEY in store && store[TIME_KEY] == s.db.store[TIME_KEY])
            && (XCONF_SELECTOR_KEY in s.db.store && env.accepts(XCONF_SELECTOR_KEY, s.selectOpt) ==>
                  XCONF_SELECTOR_KEY in store && store[XCONF_SELECTOR_KEY] == s.selectOpt)
            && (XCONF_URL_KEY in s.db.store && env.accepts(XCONF_URL_KEY, s.url) ==>
                  XCONF_URL_KEY in store && store[XCONF_URL_KEY] == s.url)
  {
    EndpointKeysDiffer();
    hide WriteAll, WriteParam, IsClearTrigger, TIME_KEY, XCONF_SELECTOR_KEY, XCONF_URL_KEY;
    WriteTwo(env, s.db.store, Entry(XCONF_SELECTOR_KEY, s.selectOpt), Entry(XCONF_URL_KEY, s.url));
    var s1 := WriteParam(env, s.db.store, XCONF_SELECTOR_KEY, s.selectOpt);
    if TIME_KEY in s.db.store {
      WriteOther(env, s.db.store, XCONF_SELECTOR_KEY, s.selectOpt, TIME_KEY);
      WriteOther(env, s1, XCONF_URL_KEY, s.url, TIME_KEY);
    }
    if XCONF_SELECTOR_KEY in s.db.store && env.accepts(XCONF_SELECTOR_KEY, s.selectOpt) {
      WriteOwn(env, s.db.store, XCONF_SELECTOR_KEY, s.selectOpt);
      WriteOther(env, s1, XCONF_URL_KEY, s.url, XCONF_SELECTOR_KEY);
    }
    if XCONF_URL_KEY in s.db.store && env.accepts(XCONF_URL_KEY, s.url) {
      WriteOwn(env, s1, XCONF_URL_KEY, s.url);
    }
  }

  /**
   * Every reply that ends a run, accepted or not, leaves its time, which is 0 for a rejected one, and the endpoint the run ended
   * with, whatever its map wrote to these parameters.
   */
  lemma LastWrites(env: Env, s: Session, reply: Reply)
    ensures var store := Process(env, s, reply).s.db.store;
            var time := if reply.body.Features? then env.clock(1) else "0";
            && (TIME_KEY in s.db.store && env.accepts(TIME_KEY, time) ==> TIME_KEY in store && store[TIME_KEY] == time)
            && (XCONF_SELECTOR_KEY in s.db.store && env.accepts(XCONF_SELECTOR_KEY, s.selectOpt) ==>
                  XCONF_SELECTOR_KEY in store && store[XCONF_SELECTOR_KEY] == s.selectOpt)
            && (XCONF_URL_KEY in s.db.store && env.accepts(XCONF_URL_KEY, s.url) ==>
                  XCONF_URL_KEY in store && store[XCONF_URL_KEY] == s.url)
  {
    hide TIME_KEY, XCONF_SELECTOR_KEY, XCONF_URL_KEY, HASH_KEY, ApplyMap, CurrentAccount, StoreEndpoint, HeaderHash, ConfigMap, WriteParam;
    hide StringCaseCompare;
    if reply.body.Features? {
      var applied := ApplyConfig(env, s.(kv := s.kv + ConfigMap(reply.body.list)));
      var h := HeaderHash(reply.header);
      var hashed := if h.Some? then UpdateHash(env, applied.db, h.value) else applied.db;
      LastWritesOf(env, applied.(version := s.firmware, db := hashed), env.clock(1));
    } else {
      LastWritesOf(env, s.(db := UpdateHash(env, s.db, "CLEARED")), "0");
    }
  }

  lemma LastWritesOf(env: Env, s: Session, time: string)
    ensures var store := StoreEndpoint(env, s.(db := s.db.(store := WriteParam(env, s.db.store, TIME_KEY, time)))).db.store;
            && (TIME_KEY in s.db.store && env.accepts(TIME_KEY, time) ==> TIME_KEY in store && store[TIME_KEY] == time)
            && (XCONF_SELECTOR_KEY in s.db.store && env.accepts(XCONF_SELECTOR_KEY, s.selectOpt) ==>
                  XCONF_SELECTOR_KEY in store && store[XCONF_SELECTOR_KEY] == s.selectOpt)
            && (XCONF_URL_KEY in s.db.store && env.accepts(XCONF_URL_KEY, s.url) ==>
                  XCONF_URL_KEY in store && store[XCONF_URL_KEY] == s.url)
  {
    hide TIME_KEY, XCONF_SELECTOR_KEY, XCONF_URL_KEY, StoreEndpoint, WriteParam;
    if TIME_KEY in s.db.store && env.accepts(TIME_KEY, time) {
      WriteOwn(env, s.db.store, TIME_KEY, time);
    }
    EndpointLeaves(env, s.(db := s.db.(store := WriteParam(env, s.db.store, TIME_KEY, time))));
  }

  /** After an accepting run the last processed version is the running firmware. */
  lemma VersionIsStored(env: Env, s: Session)
    requires Fresh(s) && ProcessRequest(env, s).outcome.Accepted?
    ensures ProcessRequest(env, s).s.version == s.firmware
  {
    hide RunLoop, ApplyMap, UpdateHashAndTime, WriteAll, ConfigMap, CurrentAccount;
    var t := XconfApply.LoopAccepts(env, s.(selectOpt := if s.state == Local then "local" else "prod"), 0);
  }

  /*** The remembered hash ***/

  lemma {:induction false} KeysKeepRemembered(env: Env, ctx: Context, c: Cursor, kv: Store, keys: seq<string>)
    requires !ctx.sameFirmware || BOOTSTRAP_URL_KEY !in keys
    ensures ApplyKeys(env, ctx, c, kv, keys).db.bkupHash == c.db.bkupHash
    decreases |keys|
  {
    hide BOOTSTRAP_URL_KEY, ApplyKey;
    if keys != [] {
      var n := |keys| - 1;
      KeysKeepRemembered(env, ctx, c, kv, keys[..n]);
      KeyKeepsRemembered(env, ctx, ApplyKeys(env, ctx, c, kv, keys[..n]), keys[n], ValueOf(kv, keys[n]));
    }
  }

  lemma KeyKeepsRemembered(env: Env, ctx: Context, c: Cursor, key: string, value: string)
    requires !ctx.sameFirmware || key != BOOTSTRAP_URL_KEY
    ensures ApplyKey(env, ctx, c, key, value).db.bkupHash == c.db.bkupHash
  {
    hide BOOTSTRAP_URL_KEY, ConfigValueChange, WriteParam, SelectorIsProd, PreviousHash;
  }

  lemma UrlIsPlain()
    ensures !Contains(BOOTSTRAP_URL_KEY, ACCOUNT_KEY) && Contains(BOOTSTRAP_URL_KEY, RFC_NAMESPACE)
  {
    InNamespace(BOOTSTRAP + "XconfUrl");
    assert |ACCOUNT_KEY| == 68 && |BOOTSTRAP_URL_KEY| == 57;
    assert RFC + BOOTSTRAP + "XconfUrl" == RFC + (BOOTSTRAP + "XconfUrl");
  }

  /**
   * A new bootstrap endpoint is tried out with a request, for which the stored hash is looked up again: on unchanged firmware,
   * and in state Init from the prod slot only. No other entry changes the remembered hash.
   */
  lemma RememberedAgain(env: Env, ctx: Context, c: Cursor, key: string, value: string)
    ensures var store := c.db.store;
            ApplyKey(env, ctx, c, key, value).db.bkupHash
              == if key == BOOTSTRAP_URL_KEY && value != "" && ctx.sameFirmware
                    && (!ctx.initial || (XCONF_SELECTOR_KEY in store && Unquote(store[XCONF_SELECTOR_KEY]) == "prod")) then
                   (if HASH_KEY in store then Unquote(store[HASH_KEY]) else "UPGRADE_HASH")
                 else c.db.bkupHash
  {
    UrlIsPlain();
    hide BOOTSTRAP_URL_KEY, ACCOUNT_KEY, RFC_NAMESPACE, UNKNOWN, Contains, StringCaseCompare, WriteParam, Unquote, HASH_KEY, XCONF_SELECTOR_KEY;
  }

  lemma ProcessKeepsRemembered(env: Env, s: Session, reply: Reply)
    requires s.kv == map[] && reply.body.Features?
    requires s.lastFirmware != s.firmware || BOOTSTRAP_URL_KEY !in env.order(ConfigMap(reply.body.list))
    ensures Process(env, s, reply).s.db.bkupHash == s.db.bkupHash
  {
    hide ClearDB, ApplyKeys, WriteAll, WriteParam, HeaderHash, StringCaseCompare, ConfigMap, CurrentAccount, BOOTSTRAP_URL_KEY;
    var kv := ConfigMap(reply.body.list);
    assert s.kv + kv == kv;
    var s1 := s.(kv := kv);
    var c := Cursor(s.db.(store := ClearDB(env, s.db.store, CurrentAccount(s1))), "");
    KeysKeepRemembered(env, ContextOf(s1), c, kv, env.order(kv));
  }

  /**
   * What an accepting run compares the reply's hash with: nothing behind a firmware change, and in the prod slot the hash
   * stored when the run began, provided the reply does not make it look the hash up again to try a new endpoint.
   */
  lemma RememberedHash(env: Env, s: Session)
    requires Fresh(s) && ProcessRequest(env, s).outcome.Accepted? && ProcessRequest(env, s).outcome.reply.body.Features?
    requires BOOTSTRAP_URL_KEY !in env.order(ConfigMap(ProcessRequest(env, s).outcome.reply.body.list))
    ensures var hash := ProcessRequest(env, s).s.db.bkupHash;
            && (s.lastFirmware != s.firmware ==> hash == "")
            && (s.lastFirmware == s.firmware && ReadParam(s.db.store, XCONF_SELECTOR_KEY) == Some("prod") ==>
                  hash == if HASH_KEY in s.db.store then Unquote(s.db.store[HASH_KEY]) else "UPGRADE_HASH")
  {
    hide RunLoop, Process, ConfigMap, BOOTSTRAP_URL_KEY, HASH_KEY, XCONF_SELECTOR_KEY, Unquote;
    var t := XconfApply.LoopAccepts(env, s.(selectOpt := if s.state == Local then "local" else "prod"), 0);
    ProcessKeepsRemembered(env, t, ProcessRequest(env, s).outcome.reply);
  }

  /** So a reply that carries, in any casing, the hash stored before never asks for a reboot. */
  lemma SameHashNoReboot(env: Env, s: Session, h: string)
    requires Fresh(s) && ProcessRequest(env, s).outcome.Accepted? && ProcessRequest(env, s).outcome.reply.body.Features?
    requires BOOTSTRAP_URL_KEY !in env.order(ConfigMap(ProcessRequest(env, s).outcome.reply.body.list))
    requires s.lastFirmware == s.firmware && ReadParam(s.db.store, XCONF_SELECTOR_KEY) == Some("prod") && HASH_KEY in s.db.store
    requires HeaderHash(ProcessRequest(env, s).outcome.reply.header) == Some(h) && StringCaseCompare(Unquote(s.db.store[HASH_KEY]), h)
    ensures !ProcessRequest(env, s).s.db.reboot
  {
    hide ProcessRequest, ConfigMap, BOOTSTRAP_URL_KEY, HASH_KEY, XCONF_SELECTOR_KEY, Unquote, HeaderHash, StringCaseCompare, XconfReboot.Processed;
    RememberedHash(env, s);
    XconfReboot.RebootIsEarned(env, s);
  }
}
