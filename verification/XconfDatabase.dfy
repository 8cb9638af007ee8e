/** The parameter database as the protocol uses it: which keys are which, and what a write leaves alone. */
module XconfDatabase {
  import opened Wrappers
  import opened IniFile
  import opened RfcText
  import opened XconfProtocol

  /*** The keys involved are different keys ***/

  lemma Differ(prefix: string, a: string, b: string, i: nat)
    requires i < |a| && i < |b| && a[i] != b[i]
    ensures prefix + a != prefix + b
  {
    assert (prefix + a)[|prefix| + i] == a[i] && (prefix + b)[|prefix| + i] == b[i];
  }

  /** Enclosing quotes are dropped in pairs and once; any other text reads as it is. */
  lemma UnquoteExactly(v: string, text: string)
    ensures Unquote("\"" + text + "\"") == text
    ensures (forall x: string :: v != "\"" + x + "\"") ==> Unquote(v) == v
  {
    var q := "\"" + text + "\"";
    assert q[1..|q| - 1] == text;
    if |v| >= 2 && v[0] == '"' && v[|v| - 1] == '"' {
      assert v == "\"" + v[1..|v| - 1] + "\"";
    }
  }

  lemma KeysDiffer()
    ensures ACCOUNT_KEY != CLEAR_DB_KEY && ACCOUNT_KEY != BOOTSTRAP_CLEAR_DB_KEY && ACCOUNT_KEY != CHANGE_TIME_KEY
    ensures ACCOUNT_KEY != CLEAR_DB_END_KEY && ACCOUNT_KEY != BOOTSTRAP_CLEAR_DB_END_KEY && ACCOUNT_KEY != RELOAD_CACHE_KEY
    ensures ACCOUNT_KEY != BOOTSTRAP_URL_KEY && ACCOUNT_KEY != HASH_KEY && ACCOUNT_KEY != TIME_KEY
    ensures ACCOUNT_KEY != XCONF_SELECTOR_KEY && ACCOUNT_KEY != XCONF_URL_KEY
  {
    hide RFC;
    var account := "Feature.AccountInfo.AccountID";
    Differ(RFC, account, "Control.ClearDB", 0);
    Differ(RFC, account, "Bootstrap.", 0);
    Differ(RFC, account, "Control.ConfigChangeTime", 0);
    Differ(RFC, account, "Control.ClearDBEnd", 0);
    Differ(RFC, account, "Control.ConfigSetHash", 0);
    Differ(RFC, account, "Control.ConfigSetTime", 0);
    Differ(RFC, account, "Control.XconfSelector", 0);
    Differ(RFC, account, "Control.XconfUrl", 0);
    assert RFC + BOOTSTRAP + "Control.ClearDB" == RFC + (BOOTSTRAP + "Control.ClearDB");
    assert RFC + BOOTSTRAP + "Control.ClearDBEnd" == RFC + (BOOTSTRAP + "Control.ClearDBEnd");
    assert RFC + BOOTSTRAP + "XconfUrl" == RFC + (BOOTSTRAP + "XconfUrl");
    Differ(RFC, account, BOOTSTRAP + "Control.ClearDB", 0);
    Differ(RFC, account, BOOTSTRAP + "Control.ClearDBEnd", 0);
    Differ(RFC, account, BOOTSTRAP + "XconfUrl", 0);
    ReloadDiffers();
  }

  lemma ReloadDiffers()
    ensures ACCOUNT_KEY != RELOAD_CACHE_KEY
  {
    assert ACCOUNT_KEY[0] == 'D' && RELOAD_CACHE_KEY[0] == 'R';
  }

  lemma TriggersDiffer()
    ensures !IsClearTrigger(CLEAR_DB_END_KEY) && !IsClearTrigger(BOOTSTRAP_CLEAR_DB_END_KEY) && !IsClearTrigger(RELOAD_CACHE_KEY)
    ensures !IsClearTrigger(CHANGE_TIME_KEY) && !IsClearTrigger(ACCOUNT_KEY)
  {
    hide DEVICE_INFO;
    KeysDiffer();
    assert |CLEAR_DB_END_KEY| == |CLEAR_DB_KEY| + 3;
  }

  lemma NoTriggerAfterwards()
    ensures !IsClearTrigger(HASH_KEY) && !IsClearTrigger(TIME_KEY) && !IsClearTrigger(XCONF_SELECTOR_KEY) && !IsClearTrigger(XCONF_URL_KEY)
  {
    hide RFC;
    Differ(RFC, "Control.ConfigSetHash", "Control.ClearDB", 9);
    Differ(RFC, "Control.ConfigSetTime", "Control.ClearDB", 9);
    Differ(RFC, "Control.XconfSelector", "Control.ClearDB", 8);
    Differ(RFC, "Control.XconfUrl", "Control.ClearDB", 8);
    assert RFC + BOOTSTRAP + "Control.ClearDB" == RFC + (BOOTSTRAP + "Control.ClearDB");
    Differ(RFC, "Control.ConfigSetHash", BOOTSTRAP + "Control.ClearDB", 0);
    Differ(RFC, "Control.ConfigSetTime", BOOTSTRAP + "Control.ClearDB", 0);
    Differ(RFC, "Control.XconfSelector", BOOTSTRAP + "Control.ClearDB", 0);
    Differ(RFC, "Control.XconfUrl", BOOTSTRAP + "Control.ClearDB", 0);
  }

  /*** The order of a map ***/

  /** Byte order of strings, the order a std::map keeps its keys in. */
  predicate Before(a: string, b: string) {
    b != "" && (a == "" || a[0] < b[0] || (a[0] == b[0] && Before(a[1..], b[1..])))
  }

  predicate Sorted(keys: seq<string>) {
    forall i, j :: 0 <= i < j < |keys| ==> Before(keys[i], keys[j])
  }

  /** The keys of a map in the map's order. */
  ghost predicate InMapOrder(keys: seq<string>, kv: Store) {
    Sorted(keys) && forall k :: k in keys <==> k in kv
  }

  /*** Writes ***/

  lemma WriteTwo(env: Env, store: Store, a: Entry, b: Entry)
    ensures WriteAll(env, store, [a, b]) == WriteParam(env, WriteParam(env, store, a.key, a.value), b.key, b.value)
  {
    hide WriteParam;
    assert [a, b][1..] == [b] && [b][1..] == [];
    var s1 := WriteParam(env, store, a.key, a.value);
    assert WriteAll(env, store, [a, b]) == WriteAll(env, s1, [b]);
    assert WriteAll(env, s1, [b]) == WriteParam(env, s1, b.key, b.value);
  }

  lemma WriteThree(env: Env, store: Store, a: Entry, b: Entry, c: Entry)
    ensures WriteAll(env, store, [a, b, c])
         == WriteParam(env, WriteParam(env, WriteParam(env, store, a.key, a.value), b.key, b.value), c.key, c.value)
  {
    hide WriteParam;
    assert [a, b, c][1..] == [b, c] && [b, c][1..] == [c] && [c][1..] == [];
    var s1 := WriteParam(env, store, a.key, a.value);
    assert WriteAll(env, store, [a, b, c]) == WriteAll(env, s1, [b, c]);
    var s2 := WriteParam(env, s1, b.key, b.value);
    assert WriteAll(env, s1, [b, c]) == WriteAll(env, s2, [c]);
    assert WriteAll(env, s2, [c]) == WriteParam(env, s2, c.key, c.value);
  }

  lemma WriteOther(env: Env, store: Store, key: string, value: string, other: string)
    requires other in store && key != other && !IsClearTrigger(key)
    ensures WriteParam(env, store, key, value)[other] == store[other]
  {
    hide IsClearTrigger;
  }

  lemma WriteTwoOther(env: Env, store: Store, a: Entry, b: Entry, other: string)
    requires other in store && other != a.key && other != b.key && !IsClearTrigger(a.key) && !IsClearTrigger(b.key)
    ensures WriteAll(env, store, [a, b])[other] == store[other]
  {
    hide IsClearTrigger, WriteParam, WriteAll;
    WriteTwo(env, store, a, b);
    WriteOther(env, store, a.key, a.value, other);
    WriteOther(env, WriteParam(env, store, a.key, a.value), b.key, b.value, other);
  }

  lemma WriteThreeOther(env: Env, store: Store, a: Entry, b: Entry, c: Entry, other: string)
    requires other in store && other != a.key && other != b.key && other != c.key
    requires !IsClearTrigger(a.key) && !IsClearTrigger(b.key) && !IsClearTrigger(c.key)
    ensures WriteAll(env, store, [a, b, c])[other] == store[other]
  {
    hide IsClearTrigger, WriteParam, WriteAll;
    WriteThree(env, store, a, b, c);
    var s1 := WriteParam(env, store, a.key, a.value);
    WriteOther(env, store, a.key, a.value, other);
    WriteOther(env, s1, b.key, b.value, other);
    WriteOther(env, WriteParam(env, s1, b.key, b.value), c.key, c.value, other);
  }

  lemma RememberKeepsStore(ctx: Context, db: Db)
    ensures Remember(ctx, db).store == db.store
  {
  }

  /** The parameters written once a reply has been applied. */
  predicate WrittenAfterwards(key: string) {
    key == HASH_KEY || key == TIME_KEY || key == XCONF_SELECTOR_KEY || key == XCONF_URL_KEY
  }

  lemma AfterwardsKeeps(env: Env, s: Session, header: string, other: string)
    requires other in s.db.store && !WrittenAfterwards(other)
    ensures var db := UpdateHashAndTime(env, s.db, header);
            other in db.store && db.store[other] == s.db.store[other]
    ensures var store := StoreEndpoint(env, s).db.store;
            other in store && store[other] == s.db.store[other]
  {
    hide RFC, IsClearTrigger, WriteParam, WriteAll, HeaderHash, StringCaseCompare;
    NoTriggerAfterwards();
    var h := HeaderHash(header);
    if h.Some? {
      WriteOther(env, s.db.store, HASH_KEY, h.value, other);
      WriteOther(env, WriteParam(env, s.db.store, HASH_KEY, h.value), TIME_KEY, env.clock(1), other);
    } else {
      WriteOther(env, s.db.store, TIME_KEY, env.clock(1), other);
    }
    WriteTwoOther(env, s.db.store, Entry(XCONF_SELECTOR_KEY, s.selectOpt), Entry(XCONF_URL_KEY, s.url), other);
  }

  /*** One key of a configuration ***/

  lemma AccountIgnoresMap(s: Session, kv: Store)
    ensures CurrentAccount(s.(kv := kv)) == CurrentAccount(s)
  {
  }

  /** The entry of a reply that makes the database clear itself once more. */
  predicate ClearsAgain(env: Env, store: Store, key: string, value: string) {
    IsClearTrigger(key) && value != "" && key in store && env.accepts(key, value)
  }

  predicate Quiet(env: Env, store: Store, kv: Store, keys: seq<string>) {
    forall i :: 0 <= i < |keys| ==> !ClearsAgain(env, store, keys[i], ValueOf(kv, keys[i]))
  }

  lemma ApplyOther(env: Env, ctx: Context, c: Cursor, key: string, value: string, other: string)
    requires other in c.db.store && key != other && !ClearsAgain(env, c.db.store, key, value)
    ensures ApplyKey(env, ctx, c, key, value).db.store[other] == c.db.store[other]
  {
    hide ACCOUNT_KEY, RFC_NAMESPACE, StringCaseCompare, UNKNOWN, Contains, BOOTSTRAP_URL_KEY, CLEAR_DB_KEY, BOOTSTRAP_CLEAR_DB_KEY;
    var change := ConfigValueChange(env, c.db.store, key, value, c.current);
    assert change.write ==> change.value == value;
  }

  lemma InNamespace(suffix: string)
    ensures Contains(RFC + suffix, RFC_NAMESPACE)
  {
    assert (RFC + suffix)[17..39] == RFC_NAMESPACE;
    assert OccursAt(RFC + suffix, RFC_NAMESPACE, 17);
  }

  lemma TriggerFacts(key: string)
    requires IsClearTrigger(key)
    ensures Contains(key, RFC_NAMESPACE) && !Contains(key, ACCOUNT_KEY) && key != BOOTSTRAP_URL_KEY
  {
    InNamespace("Control.ClearDB");
    InNamespace(BOOTSTRAP + "Control.ClearDB");
    assert RFC + BOOTSTRAP + "Control.ClearDB" == RFC + (BOOTSTRAP + "Control.ClearDB");
    hide RFC;
    assert |key| < |ACCOUNT_KEY|;
    assert |BOOTSTRAP_CLEAR_DB_KEY| != |BOOTSTRAP_URL_KEY|;
    Differ(RFC, "Control.ClearDB", BOOTSTRAP + "XconfUrl", 0);
    assert RFC + BOOTSTRAP + "XconfUrl" == RFC + (BOOTSTRAP + "XconfUrl");
  }

  lemma ApplyTrigger(env: Env, ctx: Context, c: Cursor, key: string, value: string, other: string)
    requires other in c.db.store && other != key && ClearsAgain(env, c.db.store, key, value)
    ensures ApplyKey(env, ctx, c, key, value).db.store[other] == env.reset(other, c.db.store[other])
  {
    TriggerFacts(key);
    hide RFC, BOOTSTRAP, RFC_NAMESPACE, StringCaseCompare, UNKNOWN, Contains, IsClearTrigger;
  }

  /** A database whose clear wipes every value. */
  ghost predicate Wipes(env: Env) {
    forall k, v :: env.reset(k, v) == ""
  }

  lemma {:induction false} BeforeIsStrict(a: string)
    ensures !Before(a, a)
  {
    if a != "" {
      BeforeIsStrict(a[1..]);
    }
  }

  lemma SortedAreDistinct(keys: seq<string>, i: nat, j: nat)
    requires Sorted(keys) && i < j < |keys|
    ensures keys[i] != keys[j]
  {
    hide Before;
    BeforeIsStrict(keys[i]);
    assert Before(keys[i], keys[j]);
  }
}
