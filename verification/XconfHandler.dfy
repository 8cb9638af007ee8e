/** The request handler itself: an object whose methods update its fields, step for step the functions of XconfProtocol. */
module XconfHandler {
  import opened Wrappers
  import opened IniFile
  import opened RfcText
  import opened XconfProtocol
  import opened XconfDatabase
  import XconfRun

  lemma FillMore(kv: Store, es: seq<Entry>, e: Entry)
    ensures (kv + Fill(es))[e.key := e.value] == kv + Fill(es + [e])
  {
    assert (es + [e])[..|es|] == es;
  }

  lemma FillNothing(kv: Store)
    ensures kv == kv + Fill([])
  {
  }

  class Handler {
    const env: Env
    const lastFirmware: string
    const firmware: string
    var state: State
    var selectOpt: string
    var slot: string
    var isFirst: bool
    var url: string
    var ids: Ids
    var kv: Store
    var db: Db
    var version: string
    var log: Log

    /** The fields as one value. */
    ghost function View(): Session
      reads this
    {
      Session(state, selectOpt, slot, isFirst, url, ids, kv, db, lastFirmware, firmware, version, log)
    }

    constructor (env: Env, s: Session)
      ensures this.env == env && View() == s
    {
      this.env, lastFirmware, firmware, version := env, s.lastFirmware, s.firmware, s.version;
      state, selectOpt, slot, isFirst, url := s.state, s.selectOpt, s.slot, s.isFirst, s.url;
      ids, kv, db, log := s.ids, s.kv, s.db, s.log;
    }

    /** The children of one configData object. */
    method AddChildren(children: seq<Entry>, ghost kv0: Store, ghost done: seq<Entry>)
      requires kv == kv0 + Fill(done)
      modifies this`kv
      ensures kv == kv0 + Fill(done + Stripped(children))
    {
      hide Strip, Contains;
      var child := 0;
      assert done + Stripped(children)[..0] == done;
      while child < |children|
        invariant 0 <= child <= |children|
        invariant kv == kv0 + Fill(done + Stripped(children)[..child])
      {
        var key, _ := RemoveSubstring(children[child].key, TR181_PREFIX);
        ghost var es, e := done + Stripped(children)[..child], Entry(key, children[child].value);
        FillMore(kv0, es, e);
        assert es + [e] == done + Stripped(children)[..child + 1];
        kv := kv[key := children[child].value];
        child := child + 1;
      }
      assert Stripped(children)[..child] == Stripped(children);
    }

    /** Feature by feature; one without configData ends the walk. */
    method CreateConfigDataValueMap(features: seq<Feature>)
      modifies this`kv
      ensures kv == old(kv) + ConfigMap(features)
    {
      hide Fill, Stripped;
      ghost var done: seq<Entry> := [];
      FillNothing(old(kv));
      var index := 0;
      while index < |features|
        invariant 0 <= index <= |features|
        invariant kv == old(kv) + Fill(done)
        invariant done + ConfigEntries(features[index..]) == ConfigEntries(features)
      {
        var feature := features[index];
        if feature.configData.None? {
          break;
        }
        AddChildren(feature.configData.value, old(kv), done);
        done := done + Stripped(feature.configData.value);
        assert features[index..][1..] == features[index + 1..];
        index := index + 1;
      }
      assert done == ConfigEntries(features);
    }

    method Retry()
      modifies this`state
      ensures View() == Again(env, old(View()))
    {
      if !env.whoami {
        state := RedoWithValidData;
      }
    }

    /** operator[] on the map. */
    method Fetch(key: string) returns (value: string)
      modifies this`kv
      ensures value == ValueOf(old(kv), key) && kv == Touch(old(kv), key)
    {
      if key !in kv {
        kv := kv[key := ""];
      }
      value := kv[key];
    }

    method GetValidAccountId()
      modifies this`state, this`ids, this`kv
      ensures View() == XconfProtocol.GetValidAccountId(env, old(View()))
    {
      hide ACCOUNT_KEY, UNKNOWN, CheckSpecialCharacters, StringCaseCompare;
      var value := Fetch(ACCOUNT_KEY);
      if value == "" {
        value := UNKNOWN;
      }
      if !CheckSpecialCharacters(value) {
        ids := ids.(validAccount := value);
        if !StringCaseCompare(ids.validAccount, UNKNOWN) {
          Retry();
          ids := ids.(account := ids.validAccount);
        } else if StringCaseCompare(ids.account, UNKNOWN) {
          ids := ids.(validAccount := ids.account);
          Retry();
        }
      }
    }

    method GetValidPartnerId()
      modifies this`state, this`ids, this`kv
      ensures View() == XconfProtocol.GetValidPartnerId(env, old(View()))
    {
      hide PARTNER_KEY, UNKNOWN, CheckSpecialCharacters, StringCaseCompare;
      var value := Fetch(PARTNER_KEY);
      if value == "" {
        ids := ids.(validPartner := UNKNOWN);
      } else if !CheckSpecialCharacters(value) {
        ids := ids.(validPartner := value);
        if !StringCaseCompare(ids.validPartner, UNKNOWN) {
          Retry();
          ids := ids.(partner := ids.validPartner);
        } else if StringCaseCompare(ids.partner, UNKNOWN) {
          ids := ids.(validPartner := ids.partner);
          Retry();
        }
      }
    }

    method GetXconfSelect()
      modifies this`state, this`slot, this`url, this`kv
      ensures View() == XconfProtocol.GetXconfSelect(old(View()))
    {
      KeysApart(old(kv));
      hide XCONF_URL_KEY, XCONF_SELECTOR_KEY;
      var newUrl := Fetch(XCONF_URL_KEY);
      if newUrl != "" {
        url := newUrl;
      }
      var selector := Fetch(XCONF_SELECTOR_KEY);
      if selector != "" {
        if selector == "ci" {
          slot, state := "16", Redo;
        } else if selector == "automation" {
          slot, state := "19", Redo;
        } else {
          slot, state := "8", Finish;
        }
      }
      if state == Init {
        state := Finish;
      }
    }

    method PreProcessJsonResponse(body: Body)
      modifies this`state, this`slot, this`isFirst, this`url, this`ids, this`kv
      ensures View() == PreProcess(env, old(View()), body)
    {
      hide ConfigMap, XconfProtocol.GetValidAccountId, XconfProtocol.GetValidPartnerId, XconfProtocol.GetXconfSelect;
      if state == Init || isFirst {
        if body.Features? {
          CreateConfigDataValueMap(body.list);
          if isFirst {
            GetValidAccountId();
            GetValidPartnerId();
            isFirst := false;
          }
          if state == Init {
            if selectOpt == "local" {
              state := Finish;
            } else {
              GetXconfSelect();
            }
          }
          kv := map[];
        }
      } else if state == Redo {
        state := Finish;
      }
    }

    /*** The database ***/

    method SetRfcProperty(key: string, value: string) returns (ok: bool)
      modifies this`db
      ensures db == old(db).(store := WriteParam(env, old(db).store, key, value)) && ok == ReadsAsSet(env, old(db).store, key)
    {
      ok := key in db.store && !env.defaulted(db.store, key);
      if key in db.store && env.accepts(key, value) {
        if IsClearTrigger(key) {
          db := db.(store := Reset(env, db.store));
        }
        db := db.(store := db.store[key := value]);
      }
    }

    method GetStoredHash() returns (hash: string)
      modifies this`db
      ensures hash == HashToSend(old(View())) && db == Remember(ContextOf(old(View())), old(db))
    {
      hide HASH_KEY, XCONF_SELECTOR_KEY, UNKNOWN, Unquote;
      if lastFirmware == firmware {
        if state == Init && !SelectorIsProd(db.store) {
          hash := "OVERRIDE_HASH";
        } else {
          hash := PreviousHash(db.store);
          db := db.(bkupHash := hash);
        }
      } else {
        hash := "UPGRADE_HASH";
      }
      if ids.partner == UNKNOWN || ids.account == UNKNOWN {
        hash := "OVERRIDE_HASH";
      }
    }

    /** GetAccountID, which leaves the field alone when the read fails. */
    method GetAccountID()
      modifies this`ids
      ensures ids == old(ids).(account := CurrentAccount(old(View())))
    {
      hide ACCOUNT_KEY, UNKNOWN, Unquote;
      if ACCOUNT_KEY in db.store {
        ids := ids.(account := Unquote(db.store[ACCOUNT_KEY]));
        if ids.account == "" || lastFirmware != firmware {
          ids := ids.(account := UNKNOWN);
        }
      }
    }

    method ClearDB()
      modifies this`db, this`ids
      ensures ids == old(ids).(account := CurrentAccount(old(View())))
      ensures db == old(db).(store := XconfProtocol.ClearDB(env, old(db).store, ids.account))
    {
      hide ACCOUNT_KEY, UNKNOWN, CLEAR_DB_KEY, BOOTSTRAP_CLEAR_DB_KEY, CHANGE_TIME_KEY, WriteParam, CurrentAccount;
      GetAccountID();
      var stash := ids.account;
      WriteThree(env, db.store, Entry(CLEAR_DB_KEY, "true"), Entry(BOOTSTRAP_CLEAR_DB_KEY, "true"), Entry(CHANGE_TIME_KEY, env.clock(0)));
      var _ := SetRfcProperty(CLEAR_DB_KEY, "true");
      var _ := SetRfcProperty(BOOTSTRAP_CLEAR_DB_KEY, "true");
      var _ := SetRfcProperty(CHANGE_TIME_KEY, env.clock(0));
      if stash != "" && stash != UNKNOWN {
        var _ := SetRfcProperty(ACCOUNT_KEY, stash);
      }
    }

    method ClearDBEnd()
      modifies this`db
      ensures db == old(db).(store := WriteAll(env, old(db).store, [
                Entry(CLEAR_DB_END_KEY, "true"), Entry(BOOTSTRAP_CLEAR_DB_END_KEY, "true"), Entry(RELOAD_CACHE_KEY, "true")]))
    {
      hide CLEAR_DB_END_KEY, BOOTSTRAP_CLEAR_DB_END_KEY, RELOAD_CACHE_KEY, WriteParam;
      WriteThree(env, db.store, Entry(CLEAR_DB_END_KEY, "true"), Entry(BOOTSTRAP_CLEAR_DB_END_KEY, "true"), Entry(RELOAD_CACHE_KEY, "true"));
      var _ := SetRfcProperty(CLEAR_DB_END_KEY, "true");
      var _ := SetRfcProperty(BOOTSTRAP_CLEAR_DB_END_KEY, "true");
      var _ := SetRfcProperty(RELOAD_CACHE_KEY, "true");
    }

    /** isConfigValueChange, with its two reference parameters as results. */
    method IsConfigValueChange(key: string, value: string, current: string)
      returns (changed: bool, value': string, current': string)
      ensures Change(changed, value', current') == ConfigValueChange(env, db.store, key, value, current)
    {
      hide RFC_NAMESPACE, ACCOUNT_KEY, UNKNOWN;
      if key !in db.store {
        return true, value, current;
      }
      current' := Unquote(db.store[key]);
      if !env.bootstrap(key) && Find(key, RFC_NAMESPACE, 0) == NPOS {
        return value != current', value, current';
      }
      if Find(key, ACCOUNT_KEY, 0) != NPOS && StringCaseCompare(value, UNKNOWN) {
        return false, current', current';
      }
      return true, value, current';
    }

    /** One round of the loop over the map. */
    method ApplyOne(key: string, newValue: string, current: string) returns (current': string)
      modifies this`db
      ensures Cursor(db, current') == ApplyKey(env, ContextOf(old(View())), Cursor(old(db), current), key, newValue)
    {
      hide BOOTSTRAP_URL_KEY, RFC_NAMESPACE, ACCOUNT_KEY, UNKNOWN, Contains, StringCaseCompare, WriteParam, Unquote, Remember;
      var changed, value;
      changed, value, current' := IsConfigValueChange(key, newValue, current);
      if !changed || value == "" {
        return;
      }
      if key == BOOTSTRAP_URL_KEY {
        RememberKeepsStore(ContextOf(View()), db);
        var _ := GetStoredHash();
        if !env.validates(newValue) {
          return;
        }
      }
      var ok := SetRfcProperty(key, value);
      if ok && value != current' && env.maintenance {
        db := db.(reboot := true);
      }
    }

    /** The loop over the map, in the map's order. */
    method ApplyMapEntries() returns (ghost last: string)
      modifies this`db
      ensures Cursor(db, last) == ApplyKeys(env, ContextOf(old(View())), Cursor(old(db), ""), kv, env.order(kv))
    {
      hide ApplyKey;
      var current, keys, n := "", env.order(kv), 0;
      ghost var ctx := ContextOf(View());
      while n < |keys|
        invariant 0 <= n <= |keys|
        invariant ContextOf(View()) == ctx
        invariant Cursor(db, current) == ApplyKeys(env, ctx, Cursor(old(db), ""), kv, keys[..n])
      {
        assert keys[..n + 1][..n] == keys[..n];
        current := ApplyOne(keys[n], ValueOf(kv, keys[n]), current);
        n := n + 1;
      }
      assert keys[..n] == keys;
      last := current;
    }

    method ProcessConfigData(features: seq<Feature>)
      modifies this`kv, this`ids, this`db
      ensures View() == ApplyConfig(env, old(View()).(kv := old(kv) + ConfigMap(features)))
    {
      hide ConfigMap, ApplyKeys, XconfProtocol.ClearDB, WriteAll, CurrentAccount;
      CreateConfigDataValueMap(features);
      if kv != map[] {
        ClearDB();
        var _ := ApplyMapEntries();
        ClearDBEnd();
      }
    }

    method UpdateHashInDB(hash: string)
      modifies this`db
      ensures db == UpdateHash(env, old(db), hash)
    {
      hide HASH_KEY, StringCaseCompare, WriteParam;
      var _ := SetRfcProperty(HASH_KEY, hash);
      if StringCaseCompare(db.bkupHash, hash) {
        db := db.(reboot := false);
      }
    }

    method StoreXconfEndpointMetadata()
      modifies this`db
      ensures View() == StoreEndpoint(env, old(View()))
    {
      hide XCONF_SELECTOR_KEY, XCONF_URL_KEY, WriteParam;
      WriteTwo(env, db.store, Entry(XCONF_SELECTOR_KEY, selectOpt), Entry(XCONF_URL_KEY, url));
      var _ := SetRfcProperty(XCONF_SELECTOR_KEY, selectOpt);
      var _ := SetRfcProperty(XCONF_URL_KEY, url);
    }

    /** ProcessJsonResponse, and the bookkeeping of its success or failure. */
    method ProcessReply(reply: Reply) returns (ok: bool)
      modifies this`kv, this`ids, this`db, this`version
      ensures View() == Process(env, old(View()), reply).s
      ensures ok == Process(env, old(View()), reply).outcome.Accepted?
    {
      hide ConfigMap, ApplyConfig, TIME_KEY, WriteParam, HeaderHash, UpdateHash, StoreEndpoint;
      ok := reply.body.Features?;
      if ok {
        ApplyKeepsFirmware(env, View().(kv := kv + ConfigMap(reply.body.list)));
        ProcessConfigData(reply.body.list);
        version := firmware;
        var h := HeaderHash(reply.header);
        if h.Some? {
          UpdateHashInDB(h.value);
        }
        var _ := SetRfcProperty(TIME_KEY, env.clock(1));
      } else {
        UpdateHashInDB("CLEARED");
        var _ := SetRfcProperty(TIME_KEY, "0");
      }
      StoreXconfEndpointMetadata();
    }

    /** The request of one attempt, from the choice of the endpoint to the logged reply. */
    method Attempt(retries: nat) returns (reply: Reply)
      modifies this`url, this`db, this`log
      ensures var s1 := ChooseUrl(env, old(View()), retries);
              reply == env.server(retries, RequestOf(s1)) && View() == Exchange(env, s1, retries)
    {
      hide HashToSend, Remember, SETTINGS_PATH;
      if !env.overridden(retries) && env.bootstrapUrl != "" {
        url := env.bootstrapUrl + SETTINGS_PATH;
      }
      var hash := GetStoredHash();
      var request := Request(url, ids.account, ids.partner, hash);
      reply := env.server(retries, request);
      log := log.(requests := log.requests + [request], replies := log.replies + [reply]);
    }

    /** A 200: go round again, or process it. */
    method HandleReply(reply: Reply) returns (again: bool, ok: bool)
      modifies this
      ensures var s3 := Digest(env, old(View()), reply.body);
              && again == XconfRun.Repeats(s3)
              && (again ==> View() == XconfRun.Again(s3))
              && (!again ==> View() == Process(env, s3, reply).s
                             && Process(env, s3, reply).outcome == if ok then Accepted(reply) else Rejected(reply))
    {
      hide PreProcess, Process;
      PreProcessJsonResponse(reply.body);
      log := log.(states := log.states + [state]);
      again, ok := false, false;
      if state == Redo {
        again := true;
      } else if state == RedoWithValidData {
        again, state := true, Init;
      } else {
        XconfRun.ProcessFrame(env, View(), reply);
        ok := ProcessReply(reply);
      }
    }

    /** The retry loop. */
    method ProcessRuntimeFeatureControlReq() returns (result: bool, ghost outcome: Outcome)
      modifies this
      ensures Run(View(), outcome) == ProcessRequest(env, old(View()))
      ensures result == Succeeds(outcome)
    {
      hide RunLoop, Digest, Process, Exchange, RequestOf, SETTINGS_PATH;
      selectOpt := if state == Local then "local" else "prod";
      if env.blocked {
        return false, Blocked;
      }
      ghost var goal := RunLoop(env, View(), 0);
      var retries := 0;
      while retries < RETRY_COUNT
        invariant 0 <= retries <= RETRY_COUNT
        invariant RunLoop(env, View(), retries) == goal
      {
        XconfRun.LoopUnfolds(env, View(), retries);
        if !env.allocates(retries) {
          if !env.overridden(retries) && env.bootstrapUrl != "" {
            url := env.bootstrapUrl + SETTINGS_PATH;
          }
          return false, NoMemory;
        }
        var reply := Attempt(retries);
        if reply.http == 304 {
          return true, Unchanged(reply);
        }
        if IsOk(reply) {
          var again, ok := HandleReply(reply);
          if !again {
            result, outcome := ok, if ok then Accepted(reply) else Rejected(reply);
            return;
          }
        }
        retries := retries + 1;
      }
      XconfRun.LoopUnfolds(env, View(), retries);
      return false, Exhausted;
    }
  }

  lemma KeysApart(kv: Store)
    ensures ValueOf(Touch(kv, XCONF_URL_KEY), XCONF_SELECTOR_KEY) == ValueOf(kv, XCONF_SELECTOR_KEY)
  {
    hide XCONF_URL_KEY, XCONF_SELECTOR_KEY;
  }

  lemma ApplyKeepsFirmware(env: Env, s: Session)
    ensures ApplyConfig(env, s).firmware == s.firmware
  {
    hide ApplyMap, CurrentAccount;
  }
}
