/** What the requests of a run carry: identities, hash and endpoint, told from the start of the run and the replies so far. */
module XconfSends {
  import opened Wrappers
  import opened IniFile
  import opened RfcText
  import opened XconfProtocol
  import XconfRun
  import XconfLog
  import XconfDatabase
  import XconfCache

  /*** Identities ***/

  /** The first reply that was looked at and held features. */
  function FirstFeatures(replies: seq<Reply>): Option<seq<Feature>> {
    if replies == [] then None
    else
      var before, last := FirstFeatures(replies[..|replies| - 1]), replies[|replies| - 1];
      if before.Some? then before
      else if last.curl == 0 && last.http == 200 && last.body.Features? then Some(last.body.list)
      else None
  }

  /** An identity worth using: not empty, purely alphanumeric and no casing of "Unknown". */
  predicate GoodText(id: string) {
    id != "" && !CheckSpecialCharacters(id) && !StringCaseCompare(id, "Unknown")
  }

  function Taken(id: string, now: string): string {
    if GoodText(id) then id else now
  }

  /** An identity in force behind some replies: what the first features bring, if it is usable, in a run that asks for it. */
  function IdAfter(first: bool, start: string, key: string, replies: seq<Reply>): string {
    var fs := FirstFeatures(replies);
    if !first || fs.None? then start else Taken(ValueOf(ConfigMap(fs.value), key), start)
  }

  lemma AccountTaken(env: Env, s: Session)
    ensures GetValidAccountId(env, s).ids.account == Taken(ValueOf(s.kv, ACCOUNT_KEY), s.ids.account)
  {
    UnknownIsUnknown();
    hide ACCOUNT_KEY, CheckSpecialCharacters, StringCaseCompare, UNKNOWN;
  }

  lemma UnknownIsUnknown()
    ensures StringCaseCompare(UNKNOWN, UNKNOWN) && UNKNOWN == "Unknown"
  {
  }

  lemma PartnerTaken(env: Env, s: Session)
    ensures GetValidPartnerId(env, s).ids.partner == Taken(ValueOf(s.kv, PARTNER_KEY), s.ids.partner)
  {
    UnknownIsUnknown();
    hide PARTNER_KEY, CheckSpecialCharacters, StringCaseCompare, UNKNOWN;
  }

  /** Looking at a reply settles both identities, if it is the first with features, and touches neither otherwise. */
  lemma DigestTakes(env: Env, s: Session, body: Body)
    requires s.kv == map[]
    ensures var t := Digest(env, s, body);
            if s.isFirst && body.Features? then
              && t.ids.account == Taken(ValueOf(ConfigMap(body.list), ACCOUNT_KEY), s.ids.account)
              && t.ids.partner == Taken(ValueOf(ConfigMap(body.list), PARTNER_KEY), s.ids.partner)
              && !t.isFirst
            else t.ids.account == s.ids.account && t.ids.partner == s.ids.partner && t.isFirst == s.isFirst
  {
    hide GetValidAccountId, GetValidPartnerId, GetXconfSelect, GoodId, ConfigMap, ACCOUNT_KEY, PARTNER_KEY, ValueOf, Touch;
    hide CheckSpecialCharacters, StringCaseCompare;
    XconfRun.PreProcessFacts(env, s, body);
    if s.isFirst && body.Features? {
      var s1 := s.(kv := s.kv + ConfigMap(body.list));
      assert s1.kv == ConfigMap(body.list);
      var a := GetValidAccountId(env, s1);
      AccountTaken(env, s1);
      XconfRun.AccountFacts(env, s1);
      XconfRun.TouchKeeps(s1.kv);
      PartnerTaken(env, a);
      XconfRun.PartnerFacts(env, a);
      var b := GetValidPartnerId(env, a).(isFirst := false);
      if b.state == Init {
        XconfRun.SelectFacts(b);
      }
    }
  }

  /**
   * What is noted of the identities a first reply with features brings: the ID itself, or the device's own where both
   * are unknown. A missing account counts as "Unknown", and so does a missing partner, which is noted whatever the device knows;
   * an ID with special characters is not noted at all.
   */
  lemma IdsAreNoted(env: Env, s: Session, body: Body)
    requires s.kv == map[] && s.isFirst && body.Features?
    ensures var t, kv := Digest(env, s, body), ConfigMap(body.list);
            var account, partner := ValueOf(kv, ACCOUNT_KEY), ValueOf(kv, PARTNER_KEY);
            && t.ids.validAccount == Noted(if account == "" then "Unknown" else account, s.ids.account, s.ids.validAccount)
            && t.ids.validPartner == if partner == "" then "Unknown" else Noted(partner, s.ids.partner, s.ids.validPartner)
  {
    hide GetValidAccountId, GetValidPartnerId, GetXconfSelect, GoodId, ConfigMap, ACCOUNT_KEY, PARTNER_KEY, ValueOf, Touch, Noted;
    hide CheckSpecialCharacters, StringCaseCompare;
    XconfRun.PreProcessFacts(env, s, body);
    var s1 := s.(kv := s.kv + ConfigMap(body.list));
    assert s1.kv == ConfigMap(body.list);
    var a := GetValidAccountId(env, s1);
    AccountNoted(env, s1);
    XconfRun.AccountFacts(env, s1);
    XconfRun.TouchKeeps(s1.kv);
    PartnerNoted(env, a);
    XconfRun.PartnerFacts(env, a);
    var b := GetValidPartnerId(env, a).(isFirst := false);
    if b.state == Init {
      XconfRun.SelectFacts(b);
    }
  }

  function Noted(id: string, own: string, noted: string): string {
    if CheckSpecialCharacters(id) then noted
    else if StringCaseCompare(id, "Unknown") && StringCaseCompare(own, "Unknown") then own
    else id
  }

  lemma AccountNoted(env: Env, s: Session)
    ensures var id, ids := ValueOf(s.kv, ACCOUNT_KEY), GetValidAccountId(env, s).ids;
            && ids.validAccount == Noted(if id == "" then "Unknown" else id, s.ids.account, s.ids.validAccount)
            && ids.validPartner == s.ids.validPartner && ids.partner == s.ids.partner
  {
    UnknownIsUnknown();
    hide ACCOUNT_KEY, CheckSpecialCharacters, StringCaseCompare, UNKNOWN;
  }

  lemma PartnerNoted(env: Env, s: Session)
    ensures var id, ids := ValueOf(s.kv, PARTNER_KEY), GetValidPartnerId(env, s).ids;
            && ids.validPartner == (if id == "" then "Unknown" else Noted(id, s.ids.partner, s.ids.validPartner))
            && ids.validAccount == s.ids.validAccount
  {
    UnknownIsUnknown();
    hide PARTNER_KEY, CheckSpecialCharacters, StringCaseCompare, UNKNOWN;
  }

  /*** The hash ***/

  /** The stored hash as it reads, or the word for none. */
  function StoredHash(store: Store): string {
    if HASH_KEY in store then Unquote(store[HASH_KEY]) else "UPGRADE_HASH"
  }

  predicate ProdStored(store: Store) {
    XCONF_SELECTOR_KEY in store && Unquote(store[XCONF_SELECTOR_KEY]) == "prod"
  }

  /**
   * The hash a request carries: OVERRIDE_HASH with an unknown identity, else UPGRADE_HASH behind a firmware change, else
   * the stored one from a device in the prod slot. Elsewhere it is the stored one as long as the run is in state Local, and
   * OVERRIDE_HASH as long as it is in state Init; `moved` says that the run has left the state it started in.
   */
  predicate HashLaw(s: Session, r: Request, moved: bool) {
    if r.account == "Unknown" || r.partner == "Unknown" then r.hash == "OVERRIDE_HASH"
    else if s.lastFirmware != s.firmware then r.hash == "UPGRADE_HASH"
    else if ProdStored(s.db.store) then r.hash == StoredHash(s.db.store)
    else if !moved then r.hash == if s.state == Local then StoredHash(s.db.store) else "OVERRIDE_HASH"
    else r.hash == "OVERRIDE_HASH" || r.hash == StoredHash(s.db.store)
  }

  lemma RequestHash(s0: Session, s: Session)
    requires s.db.store == s0.db.store && s.lastFirmware == s0.lastFirmware && s.firmware == s0.firmware
    requires s0.state == Init || s0.state == Local
    requires s.state == s0.state || s.state == Redo || s.state == Init
    ensures HashLaw(s0, RequestOf(s), s.state != s0.state)
    ensures s.state == Redo && s.ids.account != "Unknown" && s.ids.partner != "Unknown" && s.lastFirmware == s.firmware ==>
              RequestOf(s).hash == StoredHash(s.db.store)
  {
    UnknownIsUnknown();
    hide HASH_KEY, XCONF_SELECTOR_KEY, Unquote, UNKNOWN;
  }

  /*** Over the run ***/

  /** A request of a run started in s, made behind these replies. */
  predicate Lawful(s: Session, r: Request, replies: seq<Reply>, moved: bool) {
    && r.account == IdAfter(s.isFirst, s.ids.account, ACCOUNT_KEY, replies)
    && r.partner == IdAfter(s.isFirst, s.ids.partner, PARTNER_KEY, replies)
    && HashLaw(s, r, moved)
  }

  /** The session at the head of the loop, against the one the run started in. */
  ghost predicate OnCourse(s0: Session, s: Session) {
    && XconfRun.Head(s)
    && s.db.store == s0.db.store && s.lastFirmware == s0.lastFirmware && s.firmware == s0.firmware
    && (s.state == s0.state || Moved(s.log)) && (s.state == s0.state || s.state == Redo || s.state == Init)
    && s.isFirst == (s0.isFirst && FirstFeatures(s.log.replies).None?)
    && s.ids.account == IdAfter(s0.isFirst, s0.ids.account, ACCOUNT_KEY, s.log.replies)
    && s.ids.partner == IdAfter(s0.isFirst, s0.ids.partner, PARTNER_KEY, s.log.replies)
  }

  /** Some reply of the run was asked for again. */
  predicate Moved(log: Log) {
    Redo in log.states || RedoWithValidData in log.states
  }

  ghost predicate AllLawful(s0: Session, log: Log) {
    && |log.requests| == |log.replies|
    && forall i :: 0 <= i < |log.requests| ==> Lawful(s0, log.requests[i], log.replies[..i], Moved(log))
  }

  lemma FirstFeaturesNext(replies: seq<Reply>, reply: Reply)
    ensures FirstFeatures(replies + [reply])
         == if FirstFeatures(replies).Some? then FirstFeatures(replies)
            else if IsOk(reply) && reply.body.Features? then Some(reply.body.list) else None
  {
    assert (replies + [reply])[..|replies|] == replies;
  }

  lemma LawfulMore(s0: Session, log: Log, more: Log)
    requires AllLawful(s0, log) && more.requests == log.requests && more.replies == log.replies
    requires Moved(log) ==> Moved(more)
    ensures AllLawful(s0, more)
  {
    hide IdAfter, ACCOUNT_KEY, PARTNER_KEY, StoredHash, ProdStored, Moved;
    forall i | 0 <= i < |more.requests|
      ensures Lawful(s0, more.requests[i], more.replies[..i], Moved(more))
    {
      assert Lawful(s0, log.requests[i], log.replies[..i], Moved(log));
    }
  }

  lemma ExchangeLawful(env: Env, s0: Session, s: Session, attempt: nat)
    requires OnCourse(s0, s) && AllLawful(s0, s.log) && (s0.state == Init || s0.state == Local)
    ensures AllLawful(s0, Exchange(env, s, attempt).log)
  {
    hide IdAfter, ACCOUNT_KEY, PARTNER_KEY, HashLaw, Remember, XconfRun.Head;
    var t := Exchange(env, s, attempt);
    var r := RequestOf(s);
    RequestHash(s0, s);
    HashLawWeakens(s0, r, s.state != s0.state, Moved(s.log));
    forall i | 0 <= i < |t.log.requests|
      ensures Lawful(s0, t.log.requests[i], t.log.replies[..i], Moved(t.log))
    {
      assert t.log.replies[..i] == s.log.replies[..i];
      if i < |s.log.requests| {
        assert Lawful(s0, s.log.requests[i], s.log.replies[..i], Moved(s.log));
      } else {
        assert s.log.replies[..i] == s.log.replies;
      }
    }
  }

  lemma HashLawWeakens(s: Session, r: Request, a: bool, b: bool)
    requires HashLaw(s, r, a) && (a ==> b)
    ensures HashLaw(s, r, b)
  {
    hide StoredHash, ProdStored;
  }

  /** A reply that is not looked at settles nothing. */
  lemma FailedOnCourse(env: Env, s0: Session, s: Session, attempt: nat)
    requires OnCourse(s0, s) && !IsOk(env.server(attempt, RequestOf(s)))
    ensures OnCourse(s0, Exchange(env, s, attempt))
  {
    hide ACCOUNT_KEY, PARTNER_KEY, HashToSend, XconfRun.AtMostOnce, ConfigMap, ValueOf, CheckSpecialCharacters, StringCaseCompare;
    FirstFeaturesNext(s.log.replies, env.server(attempt, RequestOf(s)));
    XconfDatabase.RememberKeepsStore(ContextOf(s), s.db);
    hide Remember, FirstFeatures;
  }

  lemma DigestOnCourse(env: Env, s0: Session, s: Session, attempt: nat)
    requires OnCourse(s0, s) && (s0.state == Init || s0.state == Local)
    ensures var reply := env.server(attempt, RequestOf(s));
            var t := Digest(env, Exchange(env, s, attempt), reply.body);
            IsOk(reply) && XconfRun.Repeats(t) ==> OnCourse(s0, XconfRun.Again(t))
  {
    hide ACCOUNT_KEY, PARTNER_KEY, HashToSend, ConfigMap, ValueOf, CheckSpecialCharacters, StringCaseCompare, Digest;
    var reply := env.server(attempt, RequestOf(s));
    var s2 := Exchange(env, s, attempt);
    XconfDatabase.RememberKeepsStore(ContextOf(s), s.db);
    hide Remember;
    FirstFeaturesNext(s.log.replies, reply);
    hide FirstFeatures;
    HeadExchanged(env, s, attempt);
    XconfRun.HeadKept(env, s2, reply.body);
    hide XconfRun.AtMostOnce;
    XconfRun.DigestFrame(env, s2, reply.body);
    DigestTakes(env, s2, reply.body);
  }

  lemma HeadExchanged(env: Env, s: Session, attempt: nat)
    requires XconfRun.Head(s)
    ensures XconfRun.Head(Exchange(env, s, attempt))
  {
    hide XconfRun.AtMostOnce, Remember, RequestOf;
  }

  lemma {:induction false} LoopLawful(env: Env, s0: Session, s: Session, attempt: nat)
    requires attempt <= RETRY_COUNT && OnCourse(s0, s) && AllLawful(s0, s.log) && (s0.state == Init || s0.state == Local)
    ensures AllLawful(s0, RunLoop(env, s, attempt).s.log)
    decreases RETRY_COUNT - attempt
  {
    hide RunLoop, Digest, Process, RequestOf, Exchange, OnCourse, AllLawful, IsOk;
    XconfRun.LoopUnfolds(env, s, attempt);
    if attempt < RETRY_COUNT && env.allocates(attempt) {
      var s1 := ChooseUrl(env, s, attempt);
      UrlIsFree(s0, s, s1);
      var reply := env.server(attempt, RequestOf(s1));
      var s2 := Exchange(env, s1, attempt);
      ExchangeLawful(env, s0, s1, attempt);
      if reply.http != 304 && !IsOk(reply) {
        FailedOnCourse(env, s0, s1, attempt);
        LoopLawful(env, s0, s2, attempt + 1);
      } else if reply.http != 304 {
        var s3 := Digest(env, s2, reply.body);
        DigestLog(env, s2, reply.body);
        LawfulMore(s0, s2.log, s3.log);
        if XconfRun.Repeats(s3) {
          DigestOnCourse(env, s0, s1, attempt);
          LoopLawful(env, s0, XconfRun.Again(s3), attempt + 1);
        } else {
          XconfRun.ProcessFrame(env, s3, reply);
        }
      }
    }
  }

  lemma UrlIsFree(s0: Session, s: Session, t: Session)
    requires OnCourse(s0, s) && t == s.(url := t.url)
    ensures OnCourse(s0, t)
  {
    hide IdAfter, ACCOUNT_KEY, PARTNER_KEY, FirstFeatures, XconfRun.AtMostOnce;
  }

  lemma DigestLog(env: Env, s: Session, body: Body)
    ensures var log := Digest(env, s, body).log;
            log.requests == s.log.requests && log.replies == s.log.replies && (Moved(s.log) ==> Moved(log))
  {
    XconfRun.DigestKeepsLog(env, s, body);
    XconfRun.DigestStates(env, s, body);
    hide Digest;
  }

  /**
   * In every run each request carries exactly the identities in force, those of the first reply with features if they are usable
   * and the run asks for them, else the starting ones, and the hash that follows from them.
   */
  lemma RequestsAreLawful(env: Env, s: Session)
    requires Fresh(s)
    ensures AllLawful(s, ProcessRequest(env, s).s.log)
  {
    hide RunLoop, ACCOUNT_KEY, PARTNER_KEY, StoredHash, ProdStored;
    var s1 := s.(selectOpt := if s.state == Local then "local" else "prod");
    assert OnCourse(s, s1);
    LoopLawful(env, s, s1, 0);
  }

  /** Behind a firmware change every request says so, or that an identity is unknown. */
  lemma UpgradeIsSaid(env: Env, s: Session, i: nat)
    requires Fresh(s) && s.lastFirmware != s.firmware && i < |ProcessRequest(env, s).s.log.requests|
    ensures var r := ProcessRequest(env, s).s.log.requests[i];
            r.hash == if r.account == "Unknown" || r.partner == "Unknown" then "OVERRIDE_HASH" else "UPGRADE_HASH"
  {
    hide ProcessRequest, IdAfter, ACCOUNT_KEY, PARTNER_KEY, StoredHash, ProdStored;
    RequestsAreLawful(env, s);
    var log := ProcessRequest(env, s).s.log;
    assert Lawful(s, log.requests[i], log.replies[..i], Moved(log));
  }

  /** So with an honest server no such run ends in a 304: the new image is configured, or the run fails. */
  lemma UpgradeIsConfigured(env: Env, s: Session, hashOf: Body -> string)
    requires Fresh(s) && s.lastFirmware != s.firmware && XconfCache.Honest(env, hashOf)
    ensures !ProcessRequest(env, s).outcome.Unchanged?
  {
    hide ProcessRequest, XconfCache.Honest;
    var log := ProcessRequest(env, s).s.log;
    XconfLog.RunLogs(env, s);
    forall i | 0 <= i < |log.requests|
      ensures log.replies[i].http != 304
    {
      UpgradeIsSaid(env, s, i);
      MadeUpWords();
      NoFalse304(env, hashOf, i, log.requests[i]);
    }
    if ProcessRequest(env, s).outcome.Unchanged? {
      LastIs304(env, s);
    }
  }

  lemma NoFalse304(env: Env, hashOf: Body -> string, k: nat, r: Request)
    requires XconfCache.Honest(env, hashOf) && XconfCache.IsSentinel(r.hash)
    ensures env.server(k, r).http != 304
  {
    hide HeaderHash;
  }

  lemma MadeUpWords()
    ensures XconfCache.IsSentinel("OVERRIDE_HASH") && XconfCache.IsSentinel("UPGRADE_HASH")
  {
  }

  lemma LastIs304(env: Env, s: Session)
    requires Fresh(s) && ProcessRequest(env, s).outcome.Unchanged?
    ensures var log := ProcessRequest(env, s).s.log;
            log.requests != [] && |log.requests| == |log.replies| && log.replies[|log.replies| - 1].http == 304
  {
    hide ProcessRequest;
    XconfLog.RunLogs(env, s);
    XconfLog.EndsIn304(env, s);
  }

  lemma {:induction false} FirstFeaturesStay(replies: seq<Reply>, k: nat, i: nat)
    requires k < i <= |replies| && FirstFeatures(replies[..k]).None?
    requires replies[k].curl == 0 && replies[k].http == 200 && replies[k].body.Features?
    ensures FirstFeatures(replies[..i]) == Some(replies[k].body.list)
    decreases i
  {
    assert replies[..i][..i - 1] == replies[..i - 1];
    if k < i - 1 {
      FirstFeaturesStay(replies, k, i - 1);
    }
  }

  /**
   * In a run that asks for identities, once the first reply with features brings a usable account ID, every later request
   * carries exactly that one; and the same for the partner.
   */
  lemma NewIdsAreCarried(env: Env, s: Session, k: nat, i: nat)
    requires Fresh(s) && s.isFirst && k < i < |ProcessRequest(env, s).s.log.requests|
    requires var replies := ProcessRequest(env, s).s.log.replies;
             && k < |replies| && i <= |replies| && FirstFeatures(replies[..k]).None?
             && replies[k].curl == 0 && replies[k].http == 200 && replies[k].body.Features?
    ensures var log := ProcessRequest(env, s).s.log;
            var kv := ConfigMap(log.replies[k].body.list);
            && log.requests[i].account == Taken(ValueOf(kv, ACCOUNT_KEY), s.ids.account)
            && log.requests[i].partner == Taken(ValueOf(kv, PARTNER_KEY), s.ids.partner)
  {
    hide ProcessRequest, ConfigMap, ValueOf, CheckSpecialCharacters, StringCaseCompare, ACCOUNT_KEY, PARTNER_KEY, HashLaw, FirstFeatures;
    RequestsAreLawful(env, s);
    var log := ProcessRequest(env, s).s.log;
    FirstFeaturesStay(log.replies, k, i);
    assert Lawful(s, log.requests[i], log.replies[..i], Moved(log));
  }

  /*** When a reply is asked for again ***/

  predicate UnknownText(id: string) {
    StringCaseCompare(id, "Unknown")
  }

  /** A usable ID is worth another request, and so is an unknown one while the device knows no better. */
  predicate AsksAgain(id: string, now: string, emptyIsUnknown: bool) {
    GoodText(id) || ((UnknownText(id) || (emptyIsUnknown && id == "")) && UnknownText(now))
  }

  lemma UnknownIsPlain(id: string)
    requires UnknownText(id)
    ensures id != "" && !CheckSpecialCharacters(id)
  {
    assert |id| == 7;
    forall i | 0 <= i < |id|
      ensures IsAlnum(id[i])
    {
      assert Lower(id[i]) == Lower("Unknown"[i]);
    }
  }

  lemma AccountAsks(env: Env, s: Session)
    requires s.state != RedoWithValidData
    ensures GetValidAccountId(env, s).state == RedoWithValidData
        <==> !env.whoami && AsksAgain(ValueOf(s.kv, ACCOUNT_KEY), s.ids.account, true)
  {
    UnknownIsUnknown();
    UnknownIsPlain(UNKNOWN);
    var id := ValueOf(s.kv, ACCOUNT_KEY);
    if UnknownText(id) {
      UnknownIsPlain(id);
    }
    hide ACCOUNT_KEY, CheckSpecialCharacters, StringCaseCompare, UNKNOWN;
  }

  lemma PartnerAsks(env: Env, s: Session)
    requires s.state != RedoWithValidData
    ensures GetValidPartnerId(env, s).state == RedoWithValidData
        <==> !env.whoami && AsksAgain(ValueOf(s.kv, PARTNER_KEY), s.ids.partner, false)
  {
    UnknownIsUnknown();
    var id := ValueOf(s.kv, PARTNER_KEY);
    if UnknownText(id) {
      UnknownIsPlain(id);
    }
    hide PARTNER_KEY, CheckSpecialCharacters, StringCaseCompare, UNKNOWN;
  }

  /** Exactly when the first reply with features is asked for again. */
  lemma AskedAgainExactly(env: Env, s: Session, body: Body)
    requires s.kv == map[] && s.isFirst && body.Features? && (s.state == Init || s.state == Local)
    ensures var kv := ConfigMap(body.list);
            Digest(env, s, body).state == RedoWithValidData
            <==> !env.whoami && (AsksAgain(ValueOf(kv, ACCOUNT_KEY), s.ids.account, true)
                                 || AsksAgain(ValueOf(kv, PARTNER_KEY), s.ids.partner, false))
  {
    hide GetValidAccountId, GetValidPartnerId, GetXconfSelect, ConfigMap, ACCOUNT_KEY, PARTNER_KEY, ValueOf, Touch, AsksAgain, GoodId;
    var s1 := s.(kv := s.kv + ConfigMap(body.list));
    assert s1.kv == ConfigMap(body.list);
    var a := GetValidAccountId(env, s1);
    AccountAsks(env, s1);
    XconfRun.AccountFacts(env, s1);
    XconfRun.TouchKeeps(s1.kv);
    XconfRun.PartnerFacts(env, a);
    if a.state != RedoWithValidData {
      PartnerAsks(env, a);
    }
    var b := GetValidPartnerId(env, a).(isFirst := false);
    if b.state == Init {
      XconfRun.SelectFacts(b);
    }
  }

  /** The number of a slot. */
  function SlotOf(selector: string): string {
    if selector == "ci" then "16" else if selector == "automation" then "19" else "8"
  }

  /** What the endpoint of a reply comes to, in a run that looks for one. */
  lemma SelectedExactly(env: Env, s: Session, body: Body)
    requires s.kv == map[] && s.state == Init && body.Features? && Digest(env, s, body).state != RedoWithValidData
    ensures var kv, t := ConfigMap(body.list), Digest(env, s, body);
            var url, selector := ValueOf(kv, XCONF_URL_KEY), ValueOf(kv, XCONF_SELECTOR_KEY);
            && t.state == (if s.selectOpt != "local" && (selector == "ci" || selector == "automation") then Redo else Finish)
            && t.url == (if s.selectOpt != "local" && url != "" then url else s.url)
            && t.slot == (if s.selectOpt == "local" || selector == "" then s.slot else SlotOf(selector))
  {
    hide GetValidAccountId, GetValidPartnerId, GetXconfSelect, ConfigMap, ACCOUNT_KEY, PARTNER_KEY, XCONF_URL_KEY, XCONF_SELECTOR_KEY, GoodId;
    var s1 := s.(kv := s.kv + ConfigMap(body.list));
    assert s1.kv == ConfigMap(body.list);
    var s2 := s1;
    if s.isFirst {
      var a := GetValidAccountId(env, s1);
      XconfRun.AccountFacts(env, s1);
      XconfRun.PartnerFacts(env, a);
      PartnerTouches(env, a);
      s2 := GetValidPartnerId(env, a).(isFirst := false);
      TouchedReads(s1.kv);
    }
    SelectReads(s2);
  }

  lemma PartnerTouches(env: Env, s: Session)
    ensures GetValidPartnerId(env, s).kv == Touch(s.kv, PARTNER_KEY)
  {
    hide PARTNER_KEY, CheckSpecialCharacters, StringCaseCompare, UNKNOWN;
  }

  lemma TouchedReads(kv: Store)
    ensures var t := Touch(Touch(kv, ACCOUNT_KEY), PARTNER_KEY);
            ValueOf(t, XCONF_URL_KEY) == ValueOf(kv, XCONF_URL_KEY) && ValueOf(t, XCONF_SELECTOR_KEY) == ValueOf(kv, XCONF_SELECTOR_KEY)
  {
    hide ACCOUNT_KEY, PARTNER_KEY, XCONF_URL_KEY, XCONF_SELECTOR_KEY;
  }

  lemma SelectReads(s: Session)
    requires s.state == Init
    ensures var t := GetXconfSelect(s);
            var url, selector := ValueOf(s.kv, XCONF_URL_KEY), ValueOf(s.kv, XCONF_SELECTOR_KEY);
            && t.state == (if selector == "ci" || selector == "automation" then Redo else Finish)
            && t.url == (if url != "" then url else s.url)
            && t.slot == (if selector == "" then s.slot else SlotOf(selector))
  {
    hide XCONF_URL_KEY, XCONF_SELECTOR_KEY;
  }

  /*** Where the next request goes ***/

  lemma FirstSent(env: Env, s: Session, attempt: nat)
    requires attempt < RETRY_COUNT && env.allocates(attempt) && XconfLog.Logged(s.log, attempt)
    ensures var requests := RunLoop(env, s, attempt).s.log.requests;
            |requests| > attempt && requests[attempt] == RequestOf(ChooseUrl(env, s, attempt))
  {
    hide RunLoop, Digest, Process, RequestOf, Exchange, IsOk, XconfLog.Extends;
    XconfRun.LoopUnfolds(env, s, attempt);
    XconfLog.LoopLogs(env, s, attempt);
    var s1 := ChooseUrl(env, s, attempt);
    var reply := env.server(attempt, RequestOf(s1));
    var s2 := Exchange(env, s1, attempt);
    var s3 := Digest(env, s2, reply.body);
    XconfLog.ExchangeLogs(env, s1, attempt);
    XconfRun.DigestKeepsLog(env, s2, reply.body);
    if reply.http != 304 && !IsOk(reply) {
      XconfLog.LoopLogs(env, s2, attempt + 1);
      KeptByExtension(env, s2.log, RunLoop(env, s2, attempt + 1).s.log, attempt);
    } else if reply.http != 304 && XconfRun.Repeats(s3) {
      XconfLog.LoopLogs(env, XconfRun.Again(s3), attempt + 1);
      KeptByExtension(env, XconfRun.Again(s3).log, RunLoop(env, XconfRun.Again(s3), attempt + 1).s.log, attempt);
    } else if reply.http != 304 {
      XconfRun.ProcessFrame(env, s3, reply);
    }
  }

  lemma KeptByExtension(env: Env, before: Log, after: Log, k: nat)
    requires XconfLog.Extends(env, before, after) && k < |before.requests|
    ensures k < |after.requests| && after.requests[k] == before.requests[k]
  {
  }

  /**
   * A device outside a local override and without a bootstrap endpoint, sent to another slot by the first reply: the
   * first request goes where the device was, the second to the endpoint the reply names, or there again if it names none.
   */
  lemma RedirectIsFollowed(env: Env, s: Session, first: Reply)
    requires Fresh(s) && s.state == Init && !s.isFirst && !env.blocked && env.allocates(0) && env.allocates(1) && env.bootstrapUrl == ""
    requires IsOk(first) && first.body.Features? && forall r: Request :: env.server(0, r) == first
    requires var selector := ValueOf(ConfigMap(first.body.list), XCONF_SELECTOR_KEY); selector == "ci" || selector == "automation"
    ensures var requests := ProcessRequest(env, s).s.log.requests;
            var url := ValueOf(ConfigMap(first.body.list), XCONF_URL_KEY);
            |requests| >= 2 && requests[0].url == s.url && requests[1].url == if url != "" then url else s.url
  {
    hide RunLoop, Digest, Process, HashToSend, ConfigMap, ValueOf, XCONF_SELECTOR_KEY, XCONF_URL_KEY, Remember, XconfLog.Extends;
    var s0 := s.(selectOpt := if s.state == Local then "local" else "prod");
    assert s0.selectOpt == "prod";
    assert ProcessRequest(env, s) == RunLoop(env, s0, 0);
    XconfRun.LoopUnfolds(env, s0, 0);
    FirstSent(env, s0, 0);
    var s2 := Exchange(env, s0, 0);
    XconfRun.PreProcessFacts(env, s2, first.body);
    XconfRun.DigestFrame(env, s2, first.body);
    XconfRun.DigestKeepsLog(env, s2, first.body);
    NotFirstNotAgain(env, s2, first.body);
    SelectedExactly(env, s2, first.body);
    FirstSent(env, Digest(env, s2, first.body), 1);
  }

  lemma NotFirstNotAgain(env: Env, s: Session, body: Body)
    requires s.kv == map[] && !s.isFirst && s.state == Init
    ensures Digest(env, s, body).state != RedoWithValidData
  {
    hide PreProcess, ConfigMap, GoodId, ValueOf;
    XconfRun.PreProcessFacts(env, s, body);
  }

  /** A blocked run sends nothing and fails. */
  lemma BlockedSendsNothing(env: Env, s: Session)
    requires Fresh(s)
    ensures env.blocked ==> ProcessRequest(env, s).s.log.requests == [] && ProcessRequest(env, s).outcome.Blocked?
    ensures !env.blocked && env.allocates(0) ==> ProcessRequest(env, s).s.log.requests != []
  {
    hide RunLoop;
    if !env.blocked && env.allocates(0) {
      FirstSent(env, s.(selectOpt := if s.state == Local then "local" else "prod"), 0);
    }
  }
}
