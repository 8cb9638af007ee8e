/** The other half of the cache: what was accepted is not fetched twice. */
module XconfCacheHit {
  import opened Wrappers
  import opened IniFile
  import opened RfcText
  import opened XconfProtocol
  import opened XconfDatabase
  import XconfRun
  import XconfApply
  import opened XconfCache

  lemma ProcessStoresSelector(env: Env, s: Session, reply: Reply)
    requires reply.body.Features? && XCONF_SELECTOR_KEY in s.db.store && forall v :: env.accepts(XCONF_SELECTOR_KEY, v)
    ensures var store := Process(env, s, reply).s.db.store;
            XCONF_SELECTOR_KEY in store && store[XCONF_SELECTOR_KEY] == s.selectOpt
  {
    NoTriggerAfterwards();
    SelectorDiffers();
    hide XCONF_SELECTOR_KEY, XCONF_URL_KEY, TIME_KEY, IsClearTrigger, ApplyConfig, HeaderHash, ConfigMap, UpdateHash, WriteAll;
    var s1 := s.(kv := s.kv + ConfigMap(reply.body.list));
    ApplyKeepsKeys(env, s1);
    var applied := ApplyConfig(env, s1);
    ApplyKeepsChoice(env, s1);
    var last := applied.(version := s.firmware, db := UpdateHashAndTime(env, applied.db, reply.header));
    HashKeepsKeys(env, applied.db, reply.header);
    assert XCONF_SELECTOR_KEY in last.db.store;
    WriteTwo(env, last.db.store, Entry(XCONF_SELECTOR_KEY, s.selectOpt), Entry(XCONF_URL_KEY, last.url));
    WriteOther(env, WriteParam(env, last.db.store, XCONF_SELECTOR_KEY, s.selectOpt), XCONF_URL_KEY, last.url, XCONF_SELECTOR_KEY);
  }

  lemma SelectorDiffers()
    ensures XCONF_SELECTOR_KEY != XCONF_URL_KEY
  {
    hide RFC;
    Differ(RFC, "Control.XconfSelector", "Control.XconfUrl", 13);
  }

  lemma ApplyKeepsChoice(env: Env, s: Session)
    ensures ApplyConfig(env, s).selectOpt == s.selectOpt
  {
    hide ApplyMap, CurrentAccount;
  }

  lemma HashKeepsKeys(env: Env, db: Db, header: string)
    ensures UpdateHashAndTime(env, db, header).store.Keys == db.store.Keys
  {
    hide HeaderHash, StringCaseCompare, HASH_KEY, TIME_KEY;
  }

  /** What an accepting run leaves for the next one. */
  lemma AcceptedLeaves(env: Env, s: Session, h: string)
    requires Fresh(s) && ProcessRequest(env, s).outcome.Accepted?
    requires HeaderHash(ProcessRequest(env, s).outcome.reply.header) == Some(h)
    requires HASH_KEY in s.db.store && forall v :: env.accepts(HASH_KEY, v)
    requires XCONF_SELECTOR_KEY in s.db.store && forall v :: env.accepts(XCONF_SELECTOR_KEY, v)
    ensures var store := ProcessRequest(env, s).s.db.store;
            && HASH_KEY in store && store[HASH_KEY] == h
            && XCONF_SELECTOR_KEY in store && store[XCONF_SELECTOR_KEY] == if s.state == Local then "local" else "prod"
  {
    hide RunLoop, Process, HeaderHash, HASH_KEY, XCONF_SELECTOR_KEY;
    var t := XconfApply.LoopAccepts(env, s.(selectOpt := if s.state == Local then "local" else "prod"), 0);
    var reply := ProcessRequest(env, s).outcome.reply;
    ProcessStoresHash(env, t, reply);
    ProcessStoresSelector(env, t, reply);
  }

  /** A session that finds what an accepting run in the same mode left, with nothing else in the way of the cache. */
  predicate Returns(s: Session, store: Store) {
    && Fresh(s) && s.lastFirmware == s.firmware && s.ids.account != UNKNOWN && s.ids.partner != UNKNOWN
    && HASH_KEY in s.db.store && HASH_KEY in store && s.db.store[HASH_KEY] == store[HASH_KEY]
    && XCONF_SELECTOR_KEY in s.db.store && XCONF_SELECTOR_KEY in store
    && s.db.store[XCONF_SELECTOR_KEY] == store[XCONF_SELECTOR_KEY]
  }

  lemma ReturnsSends(s: Session, store: Store, h: string)
    requires Returns(s, store) && store[HASH_KEY] == h
    requires store[XCONF_SELECTOR_KEY] == if s.state == Local then "local" else "prod"
    ensures HashToSend(s) == Unquote(h)
  {
    hide HASH_KEY, XCONF_SELECTOR_KEY, UNKNOWN;
  }

  lemma {:induction false} UnchangedTakesOne(env: Env, s: Session, attempt: nat)
    requires attempt <= RETRY_COUNT && RunLoop(env, s, attempt).outcome.Unchanged?
    ensures |RunLoop(env, s, attempt).s.log.requests| > |s.log.requests|
    decreases RETRY_COUNT - attempt
  {
    hide RunLoop, Digest, Process, RequestOf, Remember, IsOk;
    XconfRun.LoopUnfolds(env, s, attempt);
    if attempt < RETRY_COUNT && env.allocates(attempt) {
      var s1 := ChooseUrl(env, s, attempt);
      var reply := env.server(attempt, RequestOf(s1));
      var s2 := Exchange(env, s1, attempt);
      var s3 := Digest(env, s2, reply.body);
      XconfRun.DigestKeepsLog(env, s2, reply.body);
      if reply.http != 304 && !IsOk(reply) {
        UnchangedTakesOne(env, s2, attempt + 1);
      } else if reply.http != 304 && XconfRun.Repeats(s3) {
        UnchangedTakesOne(env, XconfRun.Again(s3), attempt + 1);
      } else if reply.http != 304 {
        XconfRun.ProcessFrame(env, s3, reply);
      }
    }
  }

  /**
   * A run that accepted a reply with hash h, and a later one in the same mode, with unchanged firmware and known identities,
   * whose server answers 304 to h and to nothing else.
   */
  ghost predicate Revisit(first: Visit, second: Visit, h: string) {
    && Fresh(first.s) && Of(first).outcome.Accepted? && HeaderHash(Of(first).outcome.reply.header) == Some(h)
    && HASH_KEY in first.s.db.store && (forall v :: first.env.accepts(HASH_KEY, v))
    && XCONF_SELECTOR_KEY in first.s.db.store && (forall v :: first.env.accepts(XCONF_SELECTOR_KEY, v))
    && Returns(second.s, Of(first).s.db.store) && second.s.state == first.s.state
    && !second.env.blocked && second.env.allocates(0)
    && (forall r: Request :: second.env.server(0, r).http == 304 <==> r.hash == h)
  }

  /** The later run ends with one request exactly when h has no enclosing quotes. A quoted hash is never recognised. */
  lemma CacheHits(first: Visit, second: Visit, h: string)
    requires Revisit(first, second, h)
    ensures Of(second).outcome.Unchanged? && |Of(second).s.log.requests| == 1 <==> Unquote(h) == h
  {
    hide RunLoop, Digest, Process, HeaderHash, HASH_KEY, XCONF_SELECTOR_KEY, HashToSend, Remember, Unquote, UNKNOWN, IsOk;
    AcceptedLeaves(first.env, first.s, h);
    var env, s := second.env, second.s.(selectOpt := if second.s.state == Local then "local" else "prod");
    XconfRun.LoopUnfolds(env, s, 0);
    var s1 := ChooseUrl(env, s, 0);
    ReturnsSends(s1.(selectOpt := second.s.selectOpt, url := second.s.url), Of(first).s.db.store, h);
    SendIgnores(s1, second.s.selectOpt, second.s.url);
    var reply := env.server(0, RequestOf(s1));
    assert reply.http == 304 <==> Unquote(h) == h;
    var s2 := Exchange(env, s1, 0);
    if reply.http != 304 {
      var s3 := Digest(env, s2, reply.body);
      XconfRun.DigestKeepsLog(env, s2, reply.body);
      if Of(second).outcome.Unchanged? {
        if !IsOk(reply) {
          UnchangedTakesOne(env, s2, 1);
        } else if XconfRun.Repeats(s3) {
          UnchangedTakesOne(env, XconfRun.Again(s3), 1);
        } else {
          XconfRun.ProcessFrame(env, s3, reply);
        }
      }
    }
  }

  lemma SendIgnores(s: Session, selectOpt: string, url: string)
    ensures HashToSend(s.(selectOpt := selectOpt, url := url)) == HashToSend(s)
  {
    hide HASH_KEY, XCONF_SELECTOR_KEY, UNKNOWN, Unquote;
  }

  /** Whatever is accepted, there are runs like this. */
  lemma RevisitsHappen(a: Body, header: string, h: string) returns (first: Visit, second: Visit)
    requires a.Features? && HeaderHash(header) == Some(h)
    ensures Revisit(first, second, h) && Of(first).outcome.reply.body == a
  {
    hide ProcessRequest, HASH_KEY, XCONF_SELECTOR_KEY, UNKNOWN, HeaderHash, Process;
    var ok, same := Reply(0, 200, a, header), Reply(0, 304, a, "");
    var env := PlainEnv((k: nat, r: Request) => ok);
    var s := PlainSession(map[HASH_KEY := "CLEARED", XCONF_SELECTOR_KEY := "local"]);
    first := Visit(env, s);
    PlainAccepts(env, s, ok);
    AcceptedLeaves(env, s, h);
    var store := Of(first).s.db.store;
    PlainIsKnown(store);
    second := Visit(PlainEnv((k: nat, r: Request) => if r.hash == h then same else Offline(a)), PlainSession(store));
  }
}
