/** The cached hash over any sequence of runs: a 304 speaks of the reply that was last applied. */
module XconfCache {
  import opened Wrappers
  import opened IniFile
  import opened RfcText
  import opened XconfProtocol
  import opened XconfDatabase
  import XconfRun

  /** A run: what it finds outside, and the session it starts from. Firmware, identities, state and server may all differ from run to run. */
  datatype Visit = Visit(env: Env, s: Session)

  function Of(v: Visit): Run {
    ProcessRequest(v.env, v.s)
  }

  predicate IsSentinel(h: string) {
    h == "UPGRADE_HASH" || h == "OVERRIDE_HASH" || h == "CLEARED"
  }

  /**
   * A server that hashes with `hashOf`: a 200 carries the hash of its body in the header, and a 304 is only
   * answered to a hash that is that of the reply it stands for, and to none of the words the client makes up.
   */
  ghost predicate Honest(env: Env, hashOf: Body -> string) {
    forall k: nat, r: Request ::
      var reply := env.server(k, r);
      && (IsOk(reply) ==> HeaderHash(reply.header) == Some(hashOf(reply.body)))
      && (reply.http == 304 ==> r.hash == hashOf(reply.body) && !IsSentinel(r.hash))
  }

  /** A hash that some header carries. */
  ghost predicate Carried(h: string) {
    exists header: string :: HeaderHash(header) == Some(h)
  }

  /**
   * No hash that can come to be stored, its enclosing quotes dropped, is the hash of another body: of all those only the
   * hashes of bodies with features are stored, and a 304 to a made-up word is none.
   */
  ghost predicate Separates(hashOf: Body -> string) {
    forall a: Body, b: Body ::
      a.Features? && Carried(hashOf(a)) && Unquote(hashOf(a)) == hashOf(b) && !IsSentinel(hashOf(b)) ==> a == b
  }

  lemma InjectiveUnquotedSeparates(hashOf: Body -> string)
    requires forall a: Body, b: Body :: hashOf(a) == hashOf(b) ==> a == b
    requires forall a: Body :: Unquote(hashOf(a)) == hashOf(a)
    ensures Separates(hashOf)
  {
    forall a: Body, b: Body | Unquote(hashOf(a)) == hashOf(b)
      ensures a == b
    {
      assert Unquote(hashOf(a)) == hashOf(a);
    }
  }

  /** A stored hash that no honest server answers with a 304: as it reads, it is a made-up word or nobody's hash. */
  ghost predicate Inert(h: string, hashOf: Body -> string) {
    forall b: Body :: hashOf(b) == Unquote(h) ==> IsSentinel(hashOf(b))
  }

  /** The stored hash is inert or that of the last accepted reply. */
  ghost predicate Coherent(store: Store, last: Option<Body>, hashOf: Body -> string) {
    HASH_KEY in store ==>
      || Inert(store[HASH_KEY], hashOf)
      || (last.Some? && last.value.Features? && Carried(hashOf(last.value)) && store[HASH_KEY] == hashOf(last.value))
  }

  /*** One run ***/

  lemma UnquoteSentinel(h: string)
    requires IsSentinel(h)
    ensures Unquote(h) == h
  {
  }

  /** What a request sends is a made-up word or the stored hash as it reads. */
  lemma HashSent(s: Session)
    ensures IsSentinel(HashToSend(s)) || (HASH_KEY in s.db.store && HashToSend(s) == Unquote(s.db.store[HASH_KEY]))
  {
    hide HASH_KEY, XCONF_SELECTOR_KEY, UNKNOWN, Unquote;
  }

  lemma UnchangedMeansLast(env: Env, s: Session, attempt: nat, last: Option<Body>, hashOf: Body -> string)
    requires Honest(env, hashOf) && Separates(hashOf) && Coherent(s.db.store, last, hashOf)
    ensures var reply := env.server(attempt, RequestOf(s)); reply.http == 304 ==> last == Some(reply.body)
  {
    hide HASH_KEY, Unquote, HashToSend, IsSentinel, Carried;
    var r := RequestOf(s);
    var reply := env.server(attempt, r);
    if reply.http == 304 {
      HashSent(s);
      assert r.hash == hashOf(reply.body) && !IsSentinel(r.hash);
      assert Unquote(s.db.store[HASH_KEY]) == hashOf(reply.body);
      assert !Inert(s.db.store[HASH_KEY], hashOf);
    }
  }

  /*** The stored hash after a processed reply ***/

  lemma HashDiffers()
    ensures HASH_KEY != TIME_KEY && HASH_KEY != XCONF_SELECTOR_KEY && HASH_KEY != XCONF_URL_KEY
    ensures !IsClearTrigger(HASH_KEY) && !IsClearTrigger(TIME_KEY) && !IsClearTrigger(XCONF_SELECTOR_KEY) && !IsClearTrigger(XCONF_URL_KEY)
  {
    NoTriggerAfterwards();
    hide RFC;
    Differ(RFC, "Control.ConfigSetHash", "Control.ConfigSetTime", 17);
    Differ(RFC, "Control.ConfigSetHash", "Control.XconfSelector", 8);
    Differ(RFC, "Control.ConfigSetHash", "Control.XconfUrl", 8);
  }

  lemma EndpointKeepsHash(env: Env, s: Session)
    requires HASH_KEY in s.db.store
    ensures var store := StoreEndpoint(env, s).db.store; HASH_KEY in store && store[HASH_KEY] == s.db.store[HASH_KEY]
  {
    HashDiffers();
    hide HASH_KEY, XCONF_SELECTOR_KEY, XCONF_URL_KEY, IsClearTrigger, WriteParam;
    WriteTwoOther(env, s.db.store, Entry(XCONF_SELECTOR_KEY, s.selectOpt), Entry(XCONF_URL_KEY, s.url), HASH_KEY);
  }

  lemma ProcessStoresHash(env: Env, s: Session, reply: Reply)
    requires HASH_KEY in s.db.store && (forall v :: env.accepts(HASH_KEY, v)) && HeaderHash(reply.header).Some?
    ensures var store := Process(env, s, reply).s.db.store;
            && HASH_KEY in store
            && store[HASH_KEY] == if reply.body.Features? then HeaderHash(reply.header).value else "CLEARED"
  {
    HashDiffers();
    hide HASH_KEY, TIME_KEY, IsClearTrigger, ApplyConfig, StoreEndpoint, HeaderHash, StringCaseCompare, ConfigMap;
    if reply.body.Features? {
      ApplyKeepsKeys(env, s.(kv := s.kv + ConfigMap(reply.body.list)));
      var applied := ApplyConfig(env, s.(kv := s.kv + ConfigMap(reply.body.list)));
      var hashed := UpdateHash(env, applied.db, HeaderHash(reply.header).value);
      WriteOther(env, hashed.store, TIME_KEY, env.clock(1), HASH_KEY);
      EndpointKeepsHash(env, applied.(version := s.firmware, db := UpdateHashAndTime(env, applied.db, reply.header)));
    } else {
      var db := UpdateHash(env, s.db, "CLEARED");
      WriteOther(env, db.store, TIME_KEY, "0", HASH_KEY);
      EndpointKeepsHash(env, s.(db := db.(store := WriteParam(env, db.store, TIME_KEY, "0"))));
    }
  }

  lemma ApplyKeepsKeys(env: Env, s: Session)
    ensures ApplyConfig(env, s).db.store.Keys == s.db.store.Keys
  {
    hide ApplyMap, CurrentAccount;
  }

  /*** A whole run ***/

  /** The last accepted reply after a run. */
  function LastAfter(last: Option<Body>, run: Run): Option<Body> {
    if run.outcome.Accepted? then Some(run.outcome.reply.body) else last
  }

  lemma {:induction false} CoherentLoop(env: Env, s: Session, attempt: nat, last: Option<Body>, hashOf: Body -> string)
    requires attempt <= RETRY_COUNT && XconfRun.Head(s)
    requires Honest(env, hashOf) && Separates(hashOf) && Coherent(s.db.store, last, hashOf)
    requires HASH_KEY in s.db.store && forall v :: env.accepts(HASH_KEY, v)
    ensures var run := RunLoop(env, s, attempt);
            && (run.outcome.Unchanged? ==> last == Some(run.outcome.reply.body))
            && HASH_KEY in run.s.db.store && Coherent(run.s.db.store, LastAfter(last, run), hashOf)
    decreases RETRY_COUNT - attempt
  {
    hide RunLoop, Digest, Process, RequestOf, HASH_KEY, Separates, Honest, Inert, XconfRun.AtMostOnce, HeaderHash, Carried;
    XconfRun.LoopUnfolds(env, s, attempt);
    if attempt < RETRY_COUNT && env.allocates(attempt) {
      var s1 := ChooseUrl(env, s, attempt);
      var r := RequestOf(s1);
      var reply := env.server(attempt, r);
      UnchangedMeansLast(env, s1, attempt, last, hashOf);
      var s2 := Exchange(env, s1, attempt);
      if reply.http != 304 && !IsOk(reply) {
        CoherentLoop(env, s2, attempt + 1, last, hashOf);
      } else if IsOk(reply) {
        OkCarriesHash(env, attempt, r, hashOf);
        SentinelIsInert("CLEARED", hashOf);
        XconfRun.HeadKept(env, s2, reply.body);
        XconfRun.DigestFrame(env, s2, reply.body);
        var s3 := Digest(env, s2, reply.body);
        if XconfRun.Repeats(s3) {
          CoherentLoop(env, XconfRun.Again(s3), attempt + 1, last, hashOf);
        } else {
          XconfRun.ProcessFrame(env, s3, reply);
          ProcessStoresHash(env, s3, reply);
        }
      }
    }
  }

  lemma OkCarriesHash(env: Env, k: nat, r: Request, hashOf: Body -> string)
    requires Honest(env, hashOf) && IsOk(env.server(k, r))
    ensures HeaderHash(env.server(k, r).header) == Some(hashOf(env.server(k, r).body))
    ensures Carried(hashOf(env.server(k, r).body))
  {
    hide HeaderHash;
  }

  lemma SentinelIsInert(h: string, hashOf: Body -> string)
    requires IsSentinel(h)
    ensures Inert(h, hashOf)
  {
    UnquoteSentinel(h);
  }

  lemma CoherentRun(v: Visit, last: Option<Body>, hashOf: Body -> string)
    requires Fresh(v.s) && HASH_KEY in v.s.db.store && forall x :: v.env.accepts(HASH_KEY, x)
    requires Honest(v.env, hashOf) && Separates(hashOf) && Coherent(v.s.db.store, last, hashOf)
    ensures Of(v).outcome.Unchanged? ==> last == Some(Of(v).outcome.reply.body)
    ensures HASH_KEY in Of(v).s.db.store && Coherent(Of(v).s.db.store, LastAfter(last, Of(v)), hashOf)
  {
    hide RunLoop, HASH_KEY, Separates, Honest, Inert, Carried;
    CoherentLoop(v.env, v.s.(selectOpt := if v.s.state == Local then "local" else "prod"), 0, last, hashOf);
  }

  /*** Sequences of runs ***/

  /** Each run finds the hash the one before it left; everything else may have been changed in between. */
  ghost predicate Chained(visits: seq<Visit>) {
    forall i :: 0 <= i < |visits| ==>
      && Fresh(visits[i].s) && HASH_KEY in visits[i].s.db.store
      && (i > 0 && HASH_KEY in Of(visits[i - 1]).s.db.store ==>
            visits[i].s.db.store[HASH_KEY] == Of(visits[i - 1]).s.db.store[HASH_KEY])
  }

  /** The last reply accepted in the first n runs. */
  function LastAccepted(visits: seq<Visit>, n: nat): Option<Body>
    requires n <= |visits|
  {
    if n == 0 then None else LastAfter(LastAccepted(visits, n - 1), Of(visits[n - 1]))
  }

  /** A sequence of runs with honest servers and a database that stores hashes, begun with an inert one. */
  ghost predicate Proper(visits: seq<Visit>, hashOf: Body -> string) {
    && visits != [] && Chained(visits) && Inert(visits[0].s.db.store[HASH_KEY], hashOf)
    && forall i :: 0 <= i < |visits| ==> Honest(visits[i].env, hashOf) && forall v :: visits[i].env.accepts(HASH_KEY, v)
  }

  lemma {:induction false} CoherentChain(visits: seq<Visit>, n: nat, hashOf: Body -> string)
    requires Proper(visits, hashOf) && n < |visits| && Separates(hashOf)
    ensures Coherent(visits[n].s.db.store, LastAccepted(visits, n), hashOf)
  {
    hide HASH_KEY, Honest, Separates, Inert, Of, Fresh, Carried;
    if n > 0 {
      CoherentChain(visits, n - 1, hashOf);
      CoherentRun(visits[n - 1], LastAccepted(visits, n - 1), hashOf);
    }
  }

  /**
   * Over every sequence of runs, whatever firmware, identities and servers come and go: a run that ends in a 304
   * has been told of the very reply that was last accepted.
   */
  lemma UnchangedIsLastAccepted(visits: seq<Visit>, n: nat, hashOf: Body -> string)
    requires Proper(visits, hashOf) && n < |visits| && Separates(hashOf)
    ensures Of(visits[n]).outcome.Unchanged? ==> LastAccepted(visits, n) == Some(Of(visits[n]).outcome.reply.body)
  {
    hide HASH_KEY, Honest, Separates, Inert, Of, Fresh, Carried;
    CoherentChain(visits, n, hashOf);
    CoherentRun(visits[n], LastAccepted(visits, n), hashOf);
  }

  /*** Separation of the hashes is needed ***/

  function Offline(body: Body): Reply {
    Reply(7, 0, body, "")
  }

  /** A world with one server and nothing out of the ordinary. */
  function PlainEnv(server: (nat, Request) -> Reply): Env {
    Env(server, false, k => false, k => true, "", false, false, k => "", (k, v) => true, (m, k) => false, (k, v) => v, k => false, v => true, m => [])
  }

  function PlainSession(store: Store): Session {
    Session(Local, "", "", false, "", Ids("account", "", "partner", ""), map[], Db(store, false, ""), "v", "v", "v", Log([], [], []))
  }

  /** In such a session the first 200 is processed at once. */
  lemma PlainAccepts(env: Env, s: Session, reply: Reply)
    requires s.state == Local && !s.isFirst && !env.blocked && env.allocates(0)
    requires IsOk(reply) && reply.body.Features? && forall r: Request :: env.server(0, r) == reply
    ensures ProcessRequest(env, s).outcome == Accepted(reply)
    ensures exists t: Session :: t.db.store == s.db.store && ProcessRequest(env, s) == Process(env, t, reply)
  {
    hide RunLoop, Process, ConfigMap, HashToSend, Remember;
    var s0 := s.(selectOpt := if s.state == Local then "local" else "prod");
    XconfRun.LoopUnfolds(env, s0, 0);
    var s1 := ChooseUrl(env, s0, 0);
    assert env.server(0, RequestOf(s1)) == reply;
    var s3 := Digest(env, Exchange(env, s1, 0), reply.body);
    assert s3.state == Local;
    RememberKeepsStore(ContextOf(s1), s1.db);
    XconfRun.ProcessFrame(env, s3, reply);
    assert ProcessRequest(env, s) == Process(env, s3, reply);
  }

  /** In such a session the stored hash is sent, and a 304 to it ends the run. */
  lemma PlainUnchanged(env: Env, s: Session, reply: Reply)
    requires s.state == Local && !env.blocked && env.allocates(0) && s.lastFirmware == s.firmware
    requires s.ids.account != UNKNOWN && s.ids.partner != UNKNOWN && HASH_KEY in s.db.store
    requires reply.http == 304 && forall r: Request :: r.hash == Unquote(s.db.store[HASH_KEY]) ==> env.server(0, r) == reply
    ensures ProcessRequest(env, s).outcome == Unchanged(reply)
  {
    hide RunLoop, Process, HASH_KEY, UNKNOWN, Unquote, XCONF_SELECTOR_KEY;
    var s0 := s.(selectOpt := if s.state == Local then "local" else "prod");
    XconfRun.LoopUnfolds(env, s0, 0);
    var s1 := ChooseUrl(env, s0, 0);
    assert RequestOf(s1).hash == Unquote(s.db.store[HASH_KEY]);
  }

  /**
   * If the hash of one body, its quotes dropped, is the hash of another, two honest runs can go wrong: the first accepts
   * `a`, and the second is told that `b` has not changed.
   */
  lemma SeparationIsNeeded(hashOf: Body -> string, a: Body, b: Body, header: string) returns (visits: seq<Visit>)
    requires a.Features? && a != b && Unquote(hashOf(a)) == hashOf(b) && !IsSentinel(hashOf(b))
    requires HeaderHash(header) == Some(hashOf(a))
    ensures |visits| == 2 && Proper(visits, hashOf)
    ensures LastAccepted(visits, 1) == Some(a)
    ensures Of(visits[1]).outcome.Unchanged? && Of(visits[1]).outcome.reply.body == b
  {
    hide ProcessRequest, HASH_KEY, Unquote, HeaderHash, IsSentinel, Inert, Process, UNKNOWN;
    var ok, same := Reply(0, 200, a, header), Reply(0, 304, b, "");
    var env1 := PlainEnv((k: nat, r: Request) => ok);
    var env2 := PlainEnv((k: nat, r: Request) => if r.hash == hashOf(b) then same else Offline(b));
    var s1 := PlainSession(map[HASH_KEY := "CLEARED"]);
    ClearedIsSentinel();
    SentinelIsInert("CLEARED", hashOf);
    PlainAccepts(env1, s1, ok);
    var t: Session :| t.db.store == s1.db.store && ProcessRequest(env1, s1) == Process(env1, t, ok);
    ProcessStoresHash(env1, t, ok);
    var store := ProcessRequest(env1, s1).s.db.store;
    var s2 := PlainSession(store);
    PlainIsKnown(store);
    PlainUnchanged(env2, s2, same);
    visits := [Visit(env1, s1), Visit(env2, s2)];
    assert LastAccepted(visits, 1) == LastAfter(LastAccepted(visits, 0), Of(visits[0]));
  }

  /** In every proper sequence of runs a 304 speaks of the last accepted reply. */
  ghost predicate AlwaysCoherent(hashOf: Body -> string) {
    forall visits: seq<Visit>, n: nat ::
      Proper(visits, hashOf) && n < |visits| && Of(visits[n]).outcome.Unchanged? ==>
        LastAccepted(visits, n) == Some(Of(visits[n]).outcome.reply.body)
  }

  /** The cache is coherent for a hash exactly when the hash separates bodies. */
  lemma CoherenceExactly(hashOf: Body -> string)
    ensures AlwaysCoherent(hashOf) <==> Separates(hashOf)
  {
    hide Of, HeaderHash, Unquote, IsSentinel, Proper;
    if Separates(hashOf) {
      forall visits: seq<Visit>, n: nat | Proper(visits, hashOf) && n < |visits| && Of(visits[n]).outcome.Unchanged?
        ensures LastAccepted(visits, n) == Some(Of(visits[n]).outcome.reply.body)
      {
        UnchangedIsLastAccepted(visits, n, hashOf);
      }
    } else {
      var a: Body, b: Body :|
        a.Features? && Carried(hashOf(a)) && Unquote(hashOf(a)) == hashOf(b) && !IsSentinel(hashOf(b)) && a != b;
      var header: string :| HeaderHash(header) == Some(hashOf(a));
      var visits := SeparationIsNeeded(hashOf, a, b, header);
      assert LastAccepted(visits, 1) != Some(Of(visits[1]).outcome.reply.body);
    }
  }

  lemma ClearedIsSentinel()
    ensures IsSentinel("CLEARED")
  {
  }

  lemma PlainIsKnown(store: Store)
    ensures PlainSession(store).ids.account != UNKNOWN && PlainSession(store).ids.partner != UNKNOWN
  {
    assert "account"[0] != UNKNOWN[0] && "partner"[0] != UNKNOWN[0];
  }
}
