/** What every run of the request protocol keeps: its budget, the identities it sends, where it sends them. */
module XconfRun {
  import opened Wrappers
  import opened IniFile
  import opened RfcText
  import opened XconfProtocol

  /*** Which parts of a session a step leaves alone ***/

  lemma AccountFacts(env: Env, s: Session)
    ensures var t := GetValidAccountId(env, s);
            && t == s.(state := t.state, ids := t.ids, kv := t.kv)
            && (t.state == s.state || t.state == RedoWithValidData)
            && t.ids == s.ids.(account := t.ids.account, validAccount := t.ids.validAccount)
            && (t.ids.account == s.ids.account
                || (GoodId(t.ids.account) && t.ids.account == ValueOf(s.kv, ACCOUNT_KEY)))
            && t.kv == Touch(s.kv, ACCOUNT_KEY)
  {
    hide ACCOUNT_KEY, UNKNOWN, CheckSpecialCharacters;
  }

  lemma PartnerFacts(env: Env, s: Session)
    ensures var t := GetValidPartnerId(env, s);
            && t == s.(state := t.state, ids := t.ids, kv := t.kv)
            && (t.state == s.state || t.state == RedoWithValidData)
            && t.ids == s.ids.(partner := t.ids.partner, validPartner := t.ids.validPartner)
            && (t.ids.partner == s.ids.partner
                || (GoodId(t.ids.partner) && t.ids.partner == ValueOf(s.kv, PARTNER_KEY)))
  {
    hide PARTNER_KEY, UNKNOWN, CheckSpecialCharacters, StringCaseCompare;
  }

  lemma SelectFacts(s: Session)
    requires s.state == Init
    ensures var t := GetXconfSelect(s);
            t == s.(state := t.state, slot := t.slot, url := t.url, kv := t.kv) && (t.state == Redo || t.state == Finish)
  {
    hide XCONF_URL_KEY, XCONF_SELECTOR_KEY;
  }

  /** A first reply with features; otherwise the reply settles at most the endpoint. */
  predicate Settles(s: Session, body: Body) {
    s.isFirst && body.Features?
  }

  lemma TouchKeeps(kv: Store)
    ensures ValueOf(Touch(kv, ACCOUNT_KEY), PARTNER_KEY) == ValueOf(kv, PARTNER_KEY)
  {
    hide ACCOUNT_KEY, PARTNER_KEY;
  }

  lemma PreProcessFacts(env: Env, s: Session, body: Body)
    requires s.kv == map[]
    ensures var t := PreProcess(env, s, body);
            && t == s.(state := t.state, slot := t.slot, isFirst := t.isFirst, url := t.url, ids := t.ids)
            && t.isFirst == (s.isFirst && !body.Features?)
            && (t.state == RedoWithValidData ==> Settles(s, body) || s.state == RedoWithValidData)
            && (t.state == Redo ==> (s.state == Redo && s.isFirst) || (s.state == Init && body.Features?))
            && (t.state == s.state || t.state == RedoWithValidData || t.state == Redo || t.state == Finish)
            && (!Settles(s, body) ==> t.ids == s.ids)
            && (s.selectOpt == "local" ==> t.url == s.url && (t.state == Redo ==> s.state == Redo))
            && (t.ids.account != s.ids.account ==>
                  GoodId(t.ids.account) && t.ids.account == ValueOf(ConfigMap(body.list), ACCOUNT_KEY))
            && (t.ids.partner != s.ids.partner ==>
                  GoodId(t.ids.partner) && t.ids.partner == ValueOf(ConfigMap(body.list), PARTNER_KEY))
  {
    hide GetValidAccountId, GetValidPartnerId, GetXconfSelect, GoodId, ValueOf, Touch, ConfigMap, ACCOUNT_KEY, PARTNER_KEY;
    if (s.state == Init || s.isFirst) && body.Features? {
      var s1 := s.(kv := s.kv + ConfigMap(body.list));
      assert s1.kv == ConfigMap(body.list);
      var s2 := s1;
      if s.isFirst {
        AccountFacts(env, s1);
        TouchKeeps(s1.kv);
        PartnerFacts(env, GetValidAccountId(env, s1));
        s2 := GetValidPartnerId(env, GetValidAccountId(env, s1)).(isFirst := false);
      }
      if s2.state == Init {
        SelectFacts(s2);
      }
    }
  }

  lemma ProcessFrame(env: Env, s: Session, reply: Reply)
    ensures Process(env, s, reply).s.log == s.log
    ensures Process(env, s, reply).outcome == if reply.body.Features? then Accepted(reply) else Rejected(reply)
  {
    hide WriteAll, UpdateHashAndTime, UpdateHash, WriteParam, ApplyMap, CurrentAccount, ConfigMap;
  }

  /** What looking at a reply cannot touch: above all the database, the map and what was sent and answered. */
  lemma DigestFrame(env: Env, s: Session, body: Body)
    requires s.kv == map[]
    ensures var t := Digest(env, s, body);
            t == s.(state := t.state, slot := t.slot, isFirst := t.isFirst, url := t.url, ids := t.ids,
                    log := s.log.(states := s.log.states + [t.state]))
  {
    hide PreProcess, ConfigMap, GoodId, ValueOf;
    PreProcessFacts(env, s, body);
  }

  /*** The retry budget ***/

  predicate AtMostOnce(states: seq<State>, st: State) {
    forall i, j :: 0 <= i < j < |states| ==> !(states[i] == st && states[j] == st)
  }

  /** At the head of the loop. */
  predicate Head(s: Session) {
    && (s.state == Init || s.state == Local || s.state == Redo)
    && s.kv == map[]
    && (s.isFirst ==> s.state != Redo && RedoWithValidData !in s.log.states)
    && (Redo in s.log.states ==> s.state == Redo)
    && AtMostOnce(s.log.states, Redo) && AtMostOnce(s.log.states, RedoWithValidData)
  }

  /** How many more attempts a session may need, all of them being answered. */
  function Need(s: Session): nat {
    if s.state == Redo then 1 else if s.isFirst then 3 else if s.state == Init then 2 else 1
  }

  predicate Repeats(s: Session) {
    s.state == Redo || s.state == RedoWithValidData
  }

  /** The session that goes round the loop again. */
  function Again(s: Session): Session {
    if s.state == RedoWithValidData then s.(state := Init) else s
  }

  lemma HeadKept(env: Env, s: Session, body: Body)
    requires Head(s)
    ensures var t := Digest(env, s, body);
            && (Repeats(t) ==> Head(Again(t)) && Need(Again(t)) < Need(s))
            && t.log.requests == s.log.requests && t.log.replies == s.log.replies
            && AtMostOnce(t.log.states, Redo) && AtMostOnce(t.log.states, RedoWithValidData)
  {
    hide PreProcess, GoodId, ConfigMap;
    PreProcessFacts(env, s, body);
  }

  /** The attempt loop once round. */
  lemma LoopUnfolds(env: Env, s: Session, attempt: nat)
    requires attempt <= RETRY_COUNT
    ensures attempt == RETRY_COUNT ==> RunLoop(env, s, attempt) == Run(s, Exhausted)
    ensures attempt < RETRY_COUNT ==>
              var s1 := ChooseUrl(env, s, attempt);
              var reply := env.server(attempt, RequestOf(s1));
              var s2 := Exchange(env, s1, attempt);
              var s3 := Digest(env, s2, reply.body);
              RunLoop(env, s, attempt) ==
                if !env.allocates(attempt) then Run(s1, NoMemory)
                else if reply.http == 304 then Run(s2, Unchanged(reply))
                else if !IsOk(reply) then RunLoop(env, s2, attempt + 1)
                else if Repeats(s3) then RunLoop(env, Again(s3), attempt + 1)
                else Process(env, s3, reply)
  {
    hide Digest, Process, Exchange, RequestOf, IsOk;
  }

  /** In every run, whatever is answered, each kind of repetition is asked for at most once. */
  lemma {:induction false} RepetitionsAtMostOnce(env: Env, s: Session, attempt: nat)
    requires attempt <= RETRY_COUNT && Head(s)
    ensures var states := RunLoop(env, s, attempt).s.log.states;
            AtMostOnce(states, Redo) && AtMostOnce(states, RedoWithValidData)
    decreases RETRY_COUNT - attempt
  {
    hide RunLoop, Digest, Process, RequestOf, Remember, AtMostOnce;
    LoopUnfolds(env, s, attempt);
    if attempt < RETRY_COUNT && env.allocates(attempt) {
      var s1 := ChooseUrl(env, s, attempt);
      var reply := env.server(attempt, RequestOf(s1));
      var s2 := Exchange(env, s1, attempt);
      if !IsOk(reply) {
        RepetitionsAtMostOnce(env, s2, attempt + 1);
      } else {
        HeadKept(env, s2, reply.body);
        var s3 := Digest(env, s2, reply.body);
        if Repeats(s3) {
          RepetitionsAtMostOnce(env, Again(s3), attempt + 1);
        } else {
          ProcessFrame(env, s3, reply);
        }
      }
    }
  }

  /** Every download is answered with 200, and no allocation fails. */
  ghost predicate AllAnswered(env: Env) {
    (forall k: nat :: env.allocates(k)) && (forall k: nat, r: Request :: IsOk(env.server(k, r)))
  }

  lemma {:induction false} LoopWithinNeed(env: Env, s: Session, attempt: nat)
    requires Head(s) && AllAnswered(env) && attempt + Need(s) <= RETRY_COUNT
    ensures var run := RunLoop(env, s, attempt);
            && (run.outcome.Accepted? || run.outcome.Rejected?)
            && |s.log.requests| < |run.s.log.requests| <= |s.log.requests| + Need(s)
    decreases RETRY_COUNT - attempt
  {
    hide RunLoop, Digest, Process, RequestOf, Remember;
    LoopUnfolds(env, s, attempt);
    var s1 := ChooseUrl(env, s, attempt);
    var reply := env.server(attempt, RequestOf(s1));
    assert IsOk(reply) && env.allocates(attempt);
    var s2 := Exchange(env, s1, attempt);
    HeadKept(env, s2, reply.body);
    var s3 := Digest(env, s2, reply.body);
    if Repeats(s3) {
      LoopWithinNeed(env, Again(s3), attempt + 1);
    } else {
      ProcessFrame(env, s3, reply);
    }
  }

  /** Three attempts are always enough: an unblocked run whose requests are all answered processes one of the answers. */
  lemma BudgetSuffices(env: Env, s: Session)
    requires Fresh(s) && !env.blocked && AllAnswered(env)
    ensures var run := ProcessRequest(env, s);
            (run.outcome.Accepted? || run.outcome.Rejected?) && 1 <= |run.s.log.requests| <= RETRY_COUNT
  {
    hide RunLoop;
    LoopWithinNeed(env, s.(selectOpt := if s.state == Local then "local" else "prod"), 0);
  }

  /*** Identity ***/

  /** An identity a request may carry: the starting one, or a good one out of an earlier reply of the run. */
  predicate Earned(id: string, start: string, key: string, replies: seq<Reply>) {
    id == start
    || (GoodId(id)
        && exists j :: 0 <= j < |replies| && replies[j].body.Features? && id == ValueOf(ConfigMap(replies[j].body.list), key))
  }

  /** All requests carry earned identities, and once one differs from the start it never changes again. */
  predicate Faithful(sent: seq<string>, start: string, key: string, replies: seq<Reply>)
    requires |sent| <= |replies|
  {
    && (forall i :: 0 <= i < |sent| ==> Earned(sent[i], start, key, replies[..i]))
    && (forall i, j :: 0 <= i < j < |sent| && sent[i] != start ==> sent[j] == sent[i])
  }

  function Accounts(requests: seq<Request>): seq<string> {
    seq(|requests|, i requires 0 <= i < |requests| => requests[i].account)
  }

  function Partners(requests: seq<Request>): seq<string> {
    seq(|requests|, i requires 0 <= i < |requests| => requests[i].partner)
  }

  /** The same with the identity the session holds now, which stays the starting one up to the first reply with features. */
  predicate Tracked(sent: seq<string>, now: string, start: string, key: string, replies: seq<Reply>, isFirst: bool) {
    && |sent| == |replies| && Faithful(sent, start, key, replies) && Earned(now, start, key, replies)
    && (forall i :: 0 <= i < |sent| && sent[i] != start ==> now == sent[i])
    && (isFirst ==> now == start)
  }

  lemma TrackedSend(sent: seq<string>, now: string, start: string, key: string, replies: seq<Reply>, isFirst: bool, r: Reply)
    requires Tracked(sent, now, start, key, replies, isFirst)
    ensures Tracked(sent + [now], now, start, key, replies + [r], isFirst)
  {
    hide GoodId, ValueOf, ConfigMap;
    var sent', replies' := sent + [now], replies + [r];
    forall i | 0 <= i < |sent'|
      ensures Earned(sent'[i], start, key, replies'[..i])
    {
      assert replies'[..i] == replies[..i];
      if i == |sent| {
        assert replies[..i] == replies;
      } else {
        assert Earned(sent[i], start, key, replies[..i]);
      }
    }
    if now != start {
      var j :| 0 <= j < |replies| && replies[j].body.Features? && now == ValueOf(ConfigMap(replies[j].body.list), key);
      assert replies'[j] == replies[j];
    }
  }

  lemma TrackedSettle(sent: seq<string>, now: string, next: string, start: string, key: string, replies: seq<Reply>)
    requires Tracked(sent, now, start, key, replies, true) && replies != []
    requires next != now ==>
               && GoodId(next) && replies[|replies| - 1].body.Features?
               && next == ValueOf(ConfigMap(replies[|replies| - 1].body.list), key)
    ensures Tracked(sent, next, start, key, replies, false)
  {
    hide GoodId, ValueOf, ConfigMap;
  }

  /** Both identities of a session against those the run started with. */
  predicate IdsTracked(s: Session, start: Ids) {
    && Tracked(Accounts(s.log.requests), s.ids.account, start.account, ACCOUNT_KEY, s.log.replies, s.isFirst)
    && Tracked(Partners(s.log.requests), s.ids.partner, start.partner, PARTNER_KEY, s.log.replies, s.isFirst)
  }

  predicate IdsFaithful(log: Log, start: Ids) {
    && |log.requests| == |log.replies|
    && Faithful(Accounts(log.requests), start.account, ACCOUNT_KEY, log.replies)
    && Faithful(Partners(log.requests), start.partner, PARTNER_KEY, log.replies)
  }

  lemma ExchangeTracked(env: Env, s: Session, attempt: nat, start: Ids)
    requires IdsTracked(s, start)
    ensures IdsTracked(Exchange(env, s, attempt), start)
  {
    hide Tracked, HashToSend, Remember, ACCOUNT_KEY, PARTNER_KEY;
    var request := RequestOf(s);
    var reply := env.server(attempt, request);
    var requests := s.log.requests + [request];
    TrackedSend(Accounts(s.log.requests), s.ids.account, start.account, ACCOUNT_KEY, s.log.replies, s.isFirst, reply);
    TrackedSend(Partners(s.log.requests), s.ids.partner, start.partner, PARTNER_KEY, s.log.replies, s.isFirst, reply);
    assert Accounts(requests) == Accounts(s.log.requests) + [s.ids.account];
    assert Partners(requests) == Partners(s.log.requests) + [s.ids.partner];
  }

  lemma DigestTracked(env: Env, s: Session, body: Body, start: Ids)
    requires IdsTracked(s, start) && s.kv == map[]
    requires s.log.replies != [] && s.log.replies[|s.log.replies| - 1].body == body
    ensures IdsTracked(Digest(env, s, body), start)
  {
    hide Tracked, PreProcess, ACCOUNT_KEY, PARTNER_KEY, GoodId, ConfigMap, ValueOf;
    PreProcessFacts(env, s, body);
    var t := PreProcess(env, s, body);
    if Settles(s, body) {
      TrackedSettle(Accounts(s.log.requests), s.ids.account, t.ids.account, start.account, ACCOUNT_KEY, s.log.replies);
      TrackedSettle(Partners(s.log.requests), s.ids.partner, t.ids.partner, start.partner, PARTNER_KEY, s.log.replies);
    }
  }

  lemma {:induction false} IdentityLoop(env: Env, s: Session, attempt: nat, start: Ids)
    requires attempt <= RETRY_COUNT && Head(s) && IdsTracked(s, start)
    ensures IdsFaithful(RunLoop(env, s, attempt).s.log, start)
    decreases RETRY_COUNT - attempt
  {
    hide RunLoop, Digest, Process, RequestOf, Remember, AtMostOnce, Faithful, Earned, ACCOUNT_KEY, PARTNER_KEY;
    LoopUnfolds(env, s, attempt);
    if attempt < RETRY_COUNT && env.allocates(attempt) {
      var s1 := ChooseUrl(env, s, attempt);
      var reply := env.server(attempt, RequestOf(s1));
      var s2 := Exchange(env, s1, attempt);
      ExchangeTracked(env, s1, attempt, start);
      if reply.http != 304 && !IsOk(reply) {
        IdentityLoop(env, s2, attempt + 1, start);
      } else if IsOk(reply) {
        HeadKept(env, s2, reply.body);
        DigestTracked(env, s2, reply.body, start);
        var s3 := Digest(env, s2, reply.body);
        if Repeats(s3) {
          IdentityLoop(env, Again(s3), attempt + 1, start);
        } else {
          ProcessFrame(env, s3, reply);
        }
      }
    }
  }

  /** In every run each request carries the starting identities or good ones out of an earlier reply, each changing at most once. */
  lemma IdentitySafe(env: Env, s: Session)
    requires Fresh(s)
    ensures IdsFaithful(ProcessRequest(env, s).s.log, s.ids)
  {
    hide ACCOUNT_KEY, PARTNER_KEY, RunLoop;
    IdentityLoop(env, s.(selectOpt := if s.state == Local then "local" else "prod"), 0, s.ids);
  }

  /*** Endpoint ***/

  lemma {:induction false} OverriddenLoop(env: Env, s: Session, attempt: nat, url: string)
    requires attempt <= RETRY_COUNT && Head(s) && s.state != Redo && s.selectOpt == "local" && s.url == url
    requires forall k: nat :: env.overridden(k)
    requires forall i :: 0 <= i < |s.log.requests| ==> s.log.requests[i].url == url
    ensures var requests := RunLoop(env, s, attempt).s.log.requests;
            forall i :: 0 <= i < |requests| ==> requests[i].url == url
    decreases RETRY_COUNT - attempt
  {
    hide RunLoop, Digest, Process, HashToSend, Remember, AtMostOnce, IsOk;
    LoopUnfolds(env, s, attempt);
    if attempt < RETRY_COUNT && env.allocates(attempt) {
      var reply := env.server(attempt, RequestOf(s));
      var s2 := Exchange(env, s, attempt);
      if reply.http != 304 && !IsOk(reply) {
        OverriddenLoop(env, s2, attempt + 1, url);
      } else if IsOk(reply) {
        HeadKept(env, s2, reply.body);
        DigestKeepsUrl(env, s2, reply.body);
        var s3 := Digest(env, s2, reply.body);
        if Repeats(s3) {
          OverriddenLoop(env, Again(s3), attempt + 1, url);
        } else {
          ProcessFrame(env, s3, reply);
        }
      }
    }
  }

  lemma DigestKeepsUrl(env: Env, s: Session, body: Body)
    requires Head(s) && s.state != Redo && s.selectOpt == "local"
    ensures var t := Digest(env, s, body); t.url == s.url && t.selectOpt == "local" && t.state != Redo
  {
    hide PreProcess, GoodId, ConfigMap, ValueOf;
    PreProcessFacts(env, s, body);
  }

  /** Under a local override that lasts, no reply moves the endpoint. */
  lemma OverrideHolds(env: Env, s: Session)
    requires Fresh(s) && s.state == Local && forall k: nat :: env.overridden(k)
    ensures var requests := ProcessRequest(env, s).s.log.requests;
            forall i :: 0 <= i < |requests| ==> requests[i].url == s.url
  {
    hide RunLoop;
    var s1 := s.(selectOpt := if s.state == Local then "local" else "prod");
    OverriddenLoop(env, s1, 0, s.url);
    if env.blocked {
      assert ProcessRequest(env, s).s.log.requests == [];
    } else {
      assert ProcessRequest(env, s) == RunLoop(env, s1, 0);
    }
  }

  /** Nor does one where a bootstrap endpoint is configured: it is put back before every attempt without an override. */
  lemma {:induction false} BootstrapLoop(env: Env, s: Session, attempt: nat, i: nat)
    requires attempt <= RETRY_COUNT && |s.log.requests| == attempt && env.bootstrapUrl != ""
    requires forall k :: 0 <= k < attempt && !env.overridden(k) ==> s.log.requests[k].url == env.bootstrapUrl + SETTINGS_PATH
    ensures var requests := RunLoop(env, s, attempt).s.log.requests;
            i < |requests| && !env.overridden(i) ==> requests[i].url == env.bootstrapUrl + SETTINGS_PATH
    decreases RETRY_COUNT - attempt
  {
    hide RunLoop, Digest, Process, HashToSend, Remember, IsOk, SETTINGS_PATH;
    LoopUnfolds(env, s, attempt);
    if attempt < RETRY_COUNT && env.allocates(attempt) {
      var s1 := ChooseUrl(env, s, attempt);
      var reply := env.server(attempt, RequestOf(s1));
      var s2 := Exchange(env, s1, attempt);
      if reply.http != 304 && !IsOk(reply) {
        BootstrapLoop(env, s2, attempt + 1, i);
      } else if IsOk(reply) {
        DigestKeepsLog(env, s2, reply.body);
        var s3 := Digest(env, s2, reply.body);
        if Repeats(s3) {
          BootstrapLoop(env, Again(s3), attempt + 1, i);
        } else {
          ProcessFrame(env, s3, reply);
        }
      }
    }
  }

  lemma DigestKeepsLog(env: Env, s: Session, body: Body)
    ensures Digest(env, s, body).log.requests == s.log.requests && Digest(env, s, body).log.replies == s.log.replies
  {
    hide GetValidAccountId, GetValidPartnerId, GetXconfSelect, ConfigMap;
    var s1 := if body.Features? then s.(kv := s.kv + ConfigMap(body.list)) else s;
    AccountFacts(env, s1);
    PartnerFacts(env, GetValidAccountId(env, s1));
    var s2 := if s1.isFirst then GetValidPartnerId(env, GetValidAccountId(env, s1)).(isFirst := false) else s1;
    if s2.state == Init {
      SelectFacts(s2);
    }
  }

  lemma DigestStates(env: Env, s: Session, body: Body)
    ensures Digest(env, s, body).log.states == s.log.states + [Digest(env, s, body).state]
  {
    hide GetValidAccountId, GetValidPartnerId, GetXconfSelect, ConfigMap;
    var s1 := if body.Features? then s.(kv := s.kv + ConfigMap(body.list)) else s;
    AccountFacts(env, s1);
    PartnerFacts(env, GetValidAccountId(env, s1));
    var s2 := if s1.isFirst then GetValidPartnerId(env, GetValidAccountId(env, s1)).(isFirst := false) else s1;
    if s2.state == Init {
      SelectFacts(s2);
    }
  }

  lemma BootstrapHolds(env: Env, s: Session, i: nat)
    requires Fresh(s) && env.bootstrapUrl != ""
    ensures var requests := ProcessRequest(env, s).s.log.requests;
            i < |requests| && !env.overridden(i) ==> requests[i].url == env.bootstrapUrl + "/featureControl/getSettings"
  {
    hide RunLoop;
    BootstrapLoop(env, s.(selectOpt := if s.state == Local then "local" else "prod"), 0, i);
  }

  /*** Nothing leaks from one reply into another ***/

  lemma {:induction false} LeakLoop(env: Env, s: Session, attempt: nat)
    requires attempt <= RETRY_COUNT && Head(s)
    ensures var run := RunLoop(env, s, attempt);
            run.outcome.Accepted? ==> run.outcome.reply.body.Features? && run.s.kv == ConfigMap(run.outcome.reply.body.list)
    ensures var run := RunLoop(env, s, attempt); !run.outcome.Accepted? ==> run.s.kv == map[]
    decreases RETRY_COUNT - attempt
  {
    hide RunLoop, Digest, Process, RequestOf, Remember, AtMostOnce, ConfigMap;
    LoopUnfolds(env, s, attempt);
    if attempt < RETRY_COUNT && env.allocates(attempt) {
      var s1 := ChooseUrl(env, s, attempt);
      var reply := env.server(attempt, RequestOf(s1));
      var s2 := Exchange(env, s1, attempt);
      if reply.http != 304 && !IsOk(reply) {
        LeakLoop(env, s2, attempt + 1);
      } else if IsOk(reply) {
        HeadKept(env, s2, reply.body);
        DigestFrame(env, s2, reply.body);
        var s3 := Digest(env, s2, reply.body);
        if Repeats(s3) {
          LeakLoop(env, Again(s3), attempt + 1);
        } else {
          ProcessLeavesMap(env, s3, reply);
        }
      }
    }
  }

  lemma ProcessLeavesMap(env: Env, s: Session, reply: Reply)
    requires s.kv == map[]
    ensures Process(env, s, reply).outcome == if reply.body.Features? then Accepted(reply) else Rejected(reply)
    ensures Process(env, s, reply).s.kv == if reply.body.Features? then ConfigMap(reply.body.list) else map[]
  {
    hide WriteAll, UpdateHashAndTime, UpdateHash, WriteParam, ApplyMap, CurrentAccount, ConfigMap;
    if reply.body.Features? {
      assert s.kv + ConfigMap(reply.body.list) == ConfigMap(reply.body.list);
    }
  }

  /** The map that is applied is made of the accepted reply alone, whatever replies the run discarded before it. */
  lemma AppliedMapIsExact(env: Env, s: Session)
    requires Fresh(s) && ProcessRequest(env, s).outcome.Accepted?
    ensures var run := ProcessRequest(env, s);
            run.outcome.reply.body.Features? && run.s.kv == ConfigMap(run.outcome.reply.body.list)
  {
    hide RunLoop, ConfigMap;
    LeakLoop(env, s.(selectOpt := if s.state == Local then "local" else "prod"), 0);
  }

  /**
   * And that map is the reply's: each value is that of the last entry of its key, a key being fully stripped, among
   * the entries in front of the first feature without configData.
   */
  lemma ConfigMapIsLastWriter(features: seq<Feature>, i: nat)
    requires i < |ConfigEntries(features)|
    requires forall j :: i < j < |ConfigEntries(features)| ==> ConfigEntries(features)[j].key != ConfigEntries(features)[i].key
    ensures var e := ConfigEntries(features)[i]; e.key in ConfigMap(features) && ConfigMap(features)[e.key] == e.value
  {
    FillLast(ConfigEntries(features), i);
  }

  lemma {:induction false} ConfigEntriesStripped(features: seq<Feature>)
    ensures forall i :: 0 <= i < |ConfigEntries(features)| ==> !Contains(ConfigEntries(features)[i].key, TR181_PREFIX)
  {
    if features != [] && features[0].configData.Some? {
      var es := features[0].configData.value;
      forall i | 0 <= i < |es|
        ensures !Contains(Stripped(es)[i].key, TR181_PREFIX)
      {
        StripRemovesAll(es[i].key, TR181_PREFIX);
      }
      ConfigEntriesStripped(features[1..]);
    }
  }

  lemma ConfigMapHasNoOther(features: seq<Feature>, key: string)
    requires key in ConfigMap(features)
    ensures exists i :: 0 <= i < |ConfigEntries(features)| && ConfigEntries(features)[i] == Entry(key, ConfigMap(features)[key])
    ensures !Contains(key, TR181_PREFIX)
  {
    var i := FillSource(ConfigEntries(features), key);
    ConfigEntriesStripped(features);
  }

  /*** Some runs need the whole budget ***/

  lemma NoEight(key: string)
    requires Free(key, '8')
    ensures !Contains(key, TR181_PREFIX) && Strip(key, TR181_PREFIX) == key
  {
    forall i | 0 <= i <= |key|
      ensures !OccursAt(key, TR181_PREFIX, i)
    {
      if i + 6 <= |key| {
        assert key[i..i + 6][3] == key[i + 3] && TR181_PREFIX[3] == '8';
      }
    }
    StripKeeps(key, TR181_PREFIX);
  }

  function OneEntry(key: string, value: string): Body {
    Features([Feature(None, None, None, None, Some([Entry(key, value)]))])
  }

  lemma OneEntryMap(key: string, value: string)
    requires Free(key, '8')
    ensures ConfigMap(OneEntry(key, value).list) == map[key := value]
  {
    NoEight(key);
    var f := Feature(None, None, None, None, Some([Entry(key, value)]));
    assert ConfigEntries([f][1..]) == [];
    assert ConfigEntries([f]) == [Entry(key, value)];
    assert Fill([Entry(key, value)][..0]) == map[];
  }

  lemma KeysHaveNoEight()
    ensures Free(ACCOUNT_KEY, '8') && Free(XCONF_SELECTOR_KEY, '8')
  {
    FreeConcat(DEVICE_INFO, "X_RDKCENTRAL-COM_RFC.", '8');
    FreeConcat(RFC, "Feature.AccountInfo.AccountID", '8');
    FreeConcat(RFC, "Control.XconfSelector", '8');
  }

  lemma FreeConcat(a: string, b: string, c: char)
    requires Free(a, c) && Free(b, c)
    ensures Free(a + b, c)
  {
  }

  /** A first reply with a good account ID is asked for again. */
  lemma DigestAgain(env: Env, s: Session, body: Body)
    requires s.kv == map[] && s.isFirst && s.state == Init && !env.whoami && body.Features?
    requires GoodId(ValueOf(ConfigMap(body.list), ACCOUNT_KEY))
    ensures var t := Digest(env, s, body);
            t.state == RedoWithValidData && !t.isFirst && t.kv == map[] && t.selectOpt == s.selectOpt && t.log.requests == s.log.requests
  {
    hide ACCOUNT_KEY, PARTNER_KEY, ConfigMap, CheckSpecialCharacters, StringCaseCompare, UNKNOWN, GetXconfSelect;
    PreProcessFacts(env, s, body);
    var s1 := s.(kv := s.kv + ConfigMap(body.list));
    assert s1.kv == ConfigMap(body.list);
    assert GetValidAccountId(env, s1).state == RedoWithValidData;
    PartnerFacts(env, GetValidAccountId(env, s1));
  }

  /** A reply that selects the "ci" slot is asked for again. */
  lemma DigestRedo(env: Env, s: Session, body: Body)
    requires s.kv == map[] && !s.isFirst && s.state == Init && s.selectOpt == "prod" && body.Features?
    requires ValueOf(ConfigMap(body.list), XCONF_SELECTOR_KEY) == "ci"
    ensures var t := Digest(env, s, body); t.state == Redo && !t.isFirst && t.kv == map[] && t.log.requests == s.log.requests
  {
    hide ACCOUNT_KEY, PARTNER_KEY, ConfigMap, XCONF_SELECTOR_KEY, XCONF_URL_KEY;
    var s1 := s.(kv := s.kv + ConfigMap(body.list));
    assert s1.kv == ConfigMap(body.list);
    assert GetXconfSelect(s1).state == Redo;
  }

  lemma ThreeAttempts(env: Env, s: Session, first: Body, second: Body)
    requires Fresh(s) && s.state == Init && s.isFirst && !env.whoami && !env.blocked && AllAnswered(env)
    requires first.Features? && GoodId(ValueOf(ConfigMap(first.list), ACCOUNT_KEY))
    requires second.Features? && ValueOf(ConfigMap(second.list), XCONF_SELECTOR_KEY) == "ci"
    requires forall r: Request :: env.server(0, r).body == first && env.server(1, r).body == second
    ensures |ProcessRequest(env, s).s.log.requests| == RETRY_COUNT
  {
    hide Digest, RunLoop, Process, GoodId, ValueOf, ConfigMap, ACCOUNT_KEY, XCONF_SELECTOR_KEY, HashToSend, Remember;
    var s0 := s.(selectOpt := if s.state == Local then "local" else "prod");
    assert s0.selectOpt == "prod";
    LoopUnfolds(env, s0, 0);
    var a := Exchange(env, ChooseUrl(env, s0, 0), 0);
    DigestAgain(env, a, first);
    var b := Again(Digest(env, a, first));
    LoopUnfolds(env, b, 1);
    var c := Exchange(env, ChooseUrl(env, b, 1), 1);
    DigestRedo(env, c, second);
    var d := Digest(env, c, second);
    LoopUnfolds(env, d, 2);
    var s2 := ChooseUrl(env, d, 2);
    var e := Exchange(env, s2, 2);
    var last := env.server(2, RequestOf(s2));
    FinishAfterRedo(env, e, last.body);
    ProcessFrame(env, Digest(env, e, last.body), last);
  }

  lemma FinishAfterRedo(env: Env, s: Session, body: Body)
    requires s.state == Redo && !s.isFirst
    ensures !Repeats(Digest(env, s, body)) && Digest(env, s, body).log.requests == s.log.requests
  {
  }

  lemma GoodWord()
    ensures GoodId("abc")
  {
  }

  /** And three attempts can be needed, so a smaller budget would not do. */
  lemma BudgetIsTight() returns (env: Env, s: Session)
    ensures Fresh(s) && !env.blocked && AllAnswered(env) && |ProcessRequest(env, s).s.log.requests| == RETRY_COUNT
  {
    hide ProcessRequest, RunLoop, ConfigMap, ACCOUNT_KEY, XCONF_SELECTOR_KEY;
    var first, second := OneEntry(ACCOUNT_KEY, "abc"), OneEntry(XCONF_SELECTOR_KEY, "ci");
    KeysHaveNoEight();
    OneEntryMap(ACCOUNT_KEY, "abc");
    OneEntryMap(XCONF_SELECTOR_KEY, "ci");
    env := Env((k, r) => Reply(0, 200, if k == 0 then first else second, ""), false, k => false, k => true, "", false, false,
               k => "", (k, v) => true, (m, k) => false, (k, v) => v, k => false, v => true, m => []);
    s := Session(Init, "", "", true, "", Ids(UNKNOWN, "", UNKNOWN, ""), map[], Db(map[], false, ""), "", "", "", Log([], [], []));
    GoodWord();
    ThreeAttempts(env, s, first, second);
  }
}
