/** One run of the Xconf request protocol, as functions on the handler's fields (default STB build). */
module XconfProtocol {
  import opened Wrappers
  import opened IniFile
  import opened RfcText

  /*** Constants ***/

  const RETRY_COUNT := 3
  const DEVICE_INFO := "Device.DeviceInfo."
  const RFC := DEVICE_INFO + "X_RDKCENTRAL-COM_RFC."
  const BOOTSTRAP := "Bootstrap."
  const XCONF_SELECTOR_KEY := RFC + "Control.XconfSelector"
  const XCONF_URL_KEY := RFC + "Control.XconfUrl"
  const BOOTSTRAP_URL_KEY := RFC + BOOTSTRAP + "XconfUrl"
  const ACCOUNT_KEY := RFC + "Feature.AccountInfo.AccountID"
  const PARTNER_KEY := DEVICE_INFO + "X_RDKCENTRAL-COM_Syndication.PartnerId"
  const HASH_KEY := RFC + "Control.ConfigSetHash"
  const TIME_KEY := RFC + "Control.ConfigSetTime"
  const CLEAR_DB_KEY := RFC + "Control.ClearDB"
  const BOOTSTRAP_CLEAR_DB_KEY := RFC + BOOTSTRAP + "Control.ClearDB"
  const CHANGE_TIME_KEY := RFC + "Control.ConfigChangeTime"
  const CLEAR_DB_END_KEY := RFC + "Control.ClearDBEnd"
  const BOOTSTRAP_CLEAR_DB_END_KEY := RFC + BOOTSTRAP + "Control.ClearDBEnd"
  const RELOAD_CACHE_KEY := "RFC_CONTROL_RELOADCACHE"
  const RFC_NAMESPACE := ".X_RDKCENTRAL-COM_RFC."
  const TR181_PREFIX := "tr181."
  const SETTINGS_PATH := "/featureControl/getSettings"
  const UNKNOWN := "Unknown"

  /*** The server's side ***/

  /** A feature of a parsed reply; a missing member is None. configData holds string values only. */
  datatype Feature = Feature(
    name: Option<string>, enable: Option<bool>, effectiveImmediate: Option<bool>,
    instance: Option<string>, configData: Option<seq<Entry>>)

  datatype Body = NotJson | NoFeatures | Features(list: seq<Feature>)
  datatype Reply = Reply(curl: int, http: int, body: Body, header: string)

  /** What a request carries that the properties below speak of. */
  datatype Request = Request(url: string, account: string, partner: string, hash: string)

  /*** The device's side ***/

  type Store = map<string, string>

  /**
   * The outside of a run: the server, the clock, memory, files and properties that are looked at, and the
   * parameter database, of which only this is fixed: writing a known parameter stores the value where the
   * database accepts it, and a clear resets values without removing parameters. A read may be answered from the
   * defaults, which gives the value and a status of its own.
   */
  datatype Env = Env(
    server: (nat, Request) -> Reply,
    blocked: bool,
    overridden: nat -> bool,
    allocates: nat -> bool,
    bootstrapUrl: string,
    whoami: bool,
    maintenance: bool,
    clock: nat -> string,
    accepts: (string, string) -> bool,
    defaulted: (Store, string) -> bool,
    reset: (string, string) -> string,
    bootstrap: string -> bool,
    validates: string -> bool,
    order: Store -> seq<string>)

  datatype State = Init | Local | Redo | RedoWithValidData | Finish

  /** What applying a configuration works on: the database, the reboot flag and the remembered hash. */
  datatype Db = Db(store: Store, reboot: bool, bkupHash: string)

  datatype Ids = Ids(account: string, validAccount: string, partner: string, validPartner: string)

  /** What was sent and answered so far in the run, and the states the answers led to. */
  datatype Log = Log(requests: seq<Request>, replies: seq<Reply>, states: seq<State>)

  /** The fields of the handler, the last processed version, and a log of the run. */
  datatype Session = Session(
    state: State, selectOpt: string, slot: string, isFirst: bool, url: string,
    ids: Ids, kv: Store, db: Db, lastFirmware: string, firmware: string, version: string, log: Log)

  datatype Outcome =
    | Exhausted                       // all attempts used up
    | Blocked                         // direct requests are blocked
    | NoMemory                        // a buffer could not be allocated
    | Unchanged(reply: Reply)         // 304
    | Rejected(reply: Reply)          // a reply that could not be processed
    | Accepted(reply: Reply)          // a reply that was applied

  datatype Run = Run(s: Session, outcome: Outcome)

  predicate Succeeds(outcome: Outcome) {
    outcome.Unchanged? || outcome.Accepted?
  }

  /*** Reading and writing parameters ***/

  function Unquote(v: string): string {
    if |v| >= 2 && v[0] == '"' && v[|v| - 1] == '"' then v[1..|v| - 1] else v
  }

  function ReadParam(store: Store, key: string): Option<string> {
    if key in store then Some(Unquote(store[key])) else None
  }

  predicate IsClearTrigger(key: string) {
    key == CLEAR_DB_KEY || key == BOOTSTRAP_CLEAR_DB_KEY
  }

  function Reset(env: Env, store: Store): (r: Store)
    ensures r.Keys == store.Keys
  {
    map k | k in store :: env.reset(k, store[k])
  }

  /** set_RFCProperty, apart from its status, which is that of the read before the write. */
  function WriteParam(env: Env, store: Store, key: string, value: string): (r: Store)
    ensures r.Keys == store.Keys
  {
    if key !in store || !env.accepts(key, value) then store
    else if IsClearTrigger(key) then Reset(env, store)[key := value]
    else store[key := value]
  }

  /** That status: a success on known keys that are not at their defaults. */
  predicate ReadsAsSet(env: Env, store: Store, key: string) {
    key in store && !env.defaulted(store, key)
  }

  /*** The key-value map of a reply ***/

  /** The entries of a configData object with their keys stripped. */
  function Stripped(es: seq<Entry>): seq<Entry> {
    seq(|es|, i requires 0 <= i < |es| => Entry(Strip(es[i].key, TR181_PREFIX), es[i].value))
  }

  /** All entries, in order, up to the first feature that has no configData. */
  function ConfigEntries(features: seq<Feature>): seq<Entry> {
    if features == [] || features[0].configData.None? then []
    else Stripped(features[0].configData.value) + ConfigEntries(features[1..])
  }

  /** The map those entries make, the last one of a key winning. */
  function ConfigMap(features: seq<Feature>): Store {
    Fill(ConfigEntries(features))
  }

  /** What operator[] leaves behind and what it returns. */
  function Touch(kv: Store, key: string): Store {
    if key in kv then kv else kv[key := ""]
  }

  function ValueOf(kv: Store, key: string): string {
    if key in kv then kv[key] else ""
  }

  /*** Identity and endpoint from a first reply ***/

  predicate GoodId(v: string) {
    v != "" && !CheckSpecialCharacters(v) && !StringCaseCompare(v, UNKNOWN)
  }

  function Again(env: Env, s: Session): Session {
    if env.whoami then s else s.(state := RedoWithValidData)
  }

  function GetValidAccountId(env: Env, s: Session): Session {
    var value := if ValueOf(s.kv, ACCOUNT_KEY) == "" then UNKNOWN else ValueOf(s.kv, ACCOUNT_KEY);
    var t := s.(kv := Touch(s.kv, ACCOUNT_KEY));
    if CheckSpecialCharacters(value) then t
    else if !StringCaseCompare(value, UNKNOWN) then
      Again(env, t.(ids := t.ids.(validAccount := value, account := value)))
    else if !StringCaseCompare(t.ids.account, UNKNOWN) then t.(ids := t.ids.(validAccount := value))
    else Again(env, t.(ids := t.ids.(validAccount := t.ids.account)))
  }

  function GetValidPartnerId(env: Env, s: Session): Session {
    var value := ValueOf(s.kv, PARTNER_KEY);
    var t := s.(kv := Touch(s.kv, PARTNER_KEY));
    if value == "" then t.(ids := t.ids.(validPartner := UNKNOWN))
    else if CheckSpecialCharacters(value) then t
    else if !StringCaseCompare(value, UNKNOWN) then
      Again(env, t.(ids := t.ids.(validPartner := value, partner := value)))
    else if !StringCaseCompare(t.ids.partner, UNKNOWN) then t.(ids := t.ids.(validPartner := value))
    else Again(env, t.(ids := t.ids.(validPartner := t.ids.partner)))
  }

  function GetXconfSelect(s: Session): Session {
    var newUrl, selector := ValueOf(s.kv, XCONF_URL_KEY), ValueOf(s.kv, XCONF_SELECTOR_KEY);
    var t := s.(kv := Touch(Touch(s.kv, XCONF_URL_KEY), XCONF_SELECTOR_KEY), url := if newUrl != "" then newUrl else s.url);
    if selector == "" then (if t.state == Init then t.(state := Finish) else t)
    else if selector == "ci" then t.(slot := "16", state := Redo)
    else if selector == "automation" then t.(slot := "19", state := Redo)
    else t.(slot := "8", state := Finish)
  }

  /** The first reply of a run settles the identity, a reply in state Init the endpoint; the map is emptied again. */
  function PreProcess(env: Env, s: Session, body: Body): Session {
    if s.state == Init || s.isFirst then
      if !body.Features? then s
      else
        var s1 := s.(kv := s.kv + ConfigMap(body.list));
        var s2 := if s1.isFirst then GetValidPartnerId(env, GetValidAccountId(env, s1)).(isFirst := false) else s1;
        var s3 :=
          if s2.state != Init then s2
          else if s2.selectOpt == "local" then s2.(state := Finish)
          else GetXconfSelect(s2);
        s3.(kv := map[])
    else if s.state == Redo then s.(state := Finish)
    else s
  }

  /*** Which hash to send ***/

  predicate SelectorIsProd(store: Store) {
    ReadParam(store, XCONF_SELECTOR_KEY) == Some("prod")
  }

  /** The hash of the previous data set. */
  function PreviousHash(store: Store): string {
    var h := ReadParam(store, HASH_KEY);
    if h.Some? then h.value else "UPGRADE_HASH"
  }

  /** What decides whether the stored hash is looked up, besides the database. */
  datatype Context = Context(sameFirmware: bool, initial: bool)

  function ContextOf(s: Session): Context {
    Context(s.lastFirmware == s.firmware, s.state == Init)
  }

  predicate AsksStore(ctx: Context, store: Store) {
    ctx.sameFirmware && (ctx.initial ==> SelectorIsProd(store))
  }

  function HashToSend(s: Session): string {
    if s.ids.partner == UNKNOWN || s.ids.account == UNKNOWN then "OVERRIDE_HASH"
    else if s.lastFirmware != s.firmware then "UPGRADE_HASH"
    else if AsksStore(ContextOf(s), s.db.store) then PreviousHash(s.db.store)
    else "OVERRIDE_HASH"
  }

  /** Looking the stored hash up also remembers it. */
  function Remember(ctx: Context, db: Db): Db {
    if AsksStore(ctx, db.store) then db.(bkupHash := PreviousHash(db.store)) else db
  }

  /*** Applying a configuration ***/

  function WriteAll(env: Env, store: Store, es: seq<Entry>): (r: Store)
    ensures r.Keys == store.Keys
  {
    if es == [] then store else WriteAll(env, WriteParam(env, store, es[0].key, es[0].value), es[1..])
  }

  /** GetAccountID: a failed read leaves the field as it is. */
  function CurrentAccount(s: Session): string {
    var v := ReadParam(s.db.store, ACCOUNT_KEY);
    if v.None? then s.ids.account
    else if v.value == "" || s.lastFirmware != s.firmware then UNKNOWN
    else v.value
  }

  /** The database cleared, and the stashed account put back into it. */
  function ClearDB(env: Env, store: Store, stash: string): (r: Store)
    ensures r.Keys == store.Keys
  {
    var cleared := WriteAll(env, store, [
      Entry(CLEAR_DB_KEY, "true"), Entry(BOOTSTRAP_CLEAR_DB_KEY, "true"), Entry(CHANGE_TIME_KEY, env.clock(0))]);
    if stash == "" || stash == UNKNOWN then cleared else WriteParam(env, cleared, ACCOUNT_KEY, stash)
  }

  /** What isConfigValueChange finds: whether to write, the value to write, and the current value it read. */
  datatype Change = Change(write: bool, value: string, current: string)

  function ConfigValueChange(env: Env, store: Store, key: string, value: string, current: string): Change {
    var read := ReadParam(store, key);
    if read.None? then Change(true, value, current)
    else if !env.bootstrap(key) && !Contains(key, RFC_NAMESPACE) then Change(value != read.value, value, read.value)
    else if Contains(key, ACCOUNT_KEY) && StringCaseCompare(value, UNKNOWN) then Change(false, read.value, read.value)
    else Change(true, value, read.value)
  }

  /** The loop's variables: the database and currentValue, which a failed read leaves at the previous key's value. */
  datatype Cursor = Cursor(db: Db, current: string)

  function ApplyKey(env: Env, ctx: Context, c: Cursor, key: string, value: string): (r: Cursor)
    ensures r.db.store.Keys == c.db.store.Keys
  {
    var change := ConfigValueChange(env, c.db.store, key, value, c.current);
    if !change.write || change.value == "" then c.(current := change.current)
    else
      var probed := if key == BOOTSTRAP_URL_KEY then Remember(ctx, c.db) else c.db;
      if key == BOOTSTRAP_URL_KEY && !env.validates(value) then Cursor(probed, change.current)
      else
        var written := probed.(store := WriteParam(env, probed.store, key, change.value));
        var changed := ReadsAsSet(env, probed.store, key) && change.value != change.current && env.maintenance;
        Cursor(written.(reboot := written.reboot || changed), change.current)
  }

  function ApplyKeys(env: Env, ctx: Context, c: Cursor, kv: Store, keys: seq<string>): (r: Cursor)
    ensures r.db.store.Keys == c.db.store.Keys
  {
    if keys == [] then c
    else
      var last := keys[|keys| - 1];
      ApplyKey(env, ctx, ApplyKeys(env, ctx, c, kv, keys[..|keys| - 1]), last, ValueOf(kv, last))
  }

  /** processXconfResponseConfigDataPart on a map that is not empty. */
  function ApplyMap(env: Env, ctx: Context, db: Db, stash: string, kv: Store): (r: Db)
    ensures r.store.Keys == db.store.Keys
  {
    var applied := ApplyKeys(env, ctx, Cursor(db.(store := ClearDB(env, db.store, stash)), ""), kv, env.order(kv)).db;
    applied.(store := WriteAll(env, applied.store, [
      Entry(CLEAR_DB_END_KEY, "true"), Entry(BOOTSTRAP_CLEAR_DB_END_KEY, "true"), Entry(RELOAD_CACHE_KEY, "true")]))
  }

  function ApplyConfig(env: Env, s: Session): Session {
    if s.kv == map[] then s
    else
      var stash := CurrentAccount(s);
      s.(ids := s.ids.(account := stash), db := ApplyMap(env, ContextOf(s), s.db, stash, s.kv))
  }

  /*** Storing the hash of a reply ***/

  predicate IsBlank(c: char) {
    c == ' ' || c == '\t' || c == '\r'
  }

  function DropBlanks(s: string): string {
    if s != "" && IsBlank(s[0]) then DropBlanks(s[1..]) else s
  }

  function DropBlanksBack(s: string): string {
    if s != "" && IsBlank(s[|s| - 1]) then DropBlanksBack(s[..|s| - 1]) else s
  }

  /** The configSetHash field of a header block: up to the end of its line, blanks trimmed. */
  function HeaderHash(header: string): Option<string> {
    var mixed := Find(header, "configSetHash:", 0);
    var at := if mixed != NPOS then mixed else Find(header, "configsethash:", 0);
    if at == NPOS then None
    else
      var start := at + 14;
      var crlf := Find(header, "\r\n", start);
      var end := if crlf != NPOS then crlf else Find(header, "\n", start);
      Some(DropBlanksBack(DropBlanks(if end == NPOS then header[start..] else header[start..end])))
  }

  function UpdateHash(env: Env, db: Db, hash: string): Db {
    Db(WriteParam(env, db.store, HASH_KEY, hash), db.reboot && !StringCaseCompare(db.bkupHash, hash), db.bkupHash)
  }

  function UpdateHashAndTime(env: Env, db: Db, header: string): Db {
    var h := HeaderHash(header);
    var db1 := if h.Some? then UpdateHash(env, db, h.value) else db;
    db1.(store := WriteParam(env, db1.store, TIME_KEY, env.clock(1)))
  }

  function StoreEndpoint(env: Env, s: Session): Session {
    s.(db := s.db.(store := WriteAll(env, s.db.store, [Entry(XCONF_SELECTOR_KEY, s.selectOpt), Entry(XCONF_URL_KEY, s.url)])))
  }

  /** ProcessJsonResponse and what follows it: apply and remember the hash, or forget it. */
  function Process(env: Env, s: Session, reply: Reply): Run {
    if reply.body.Features? then
      var applied := ApplyConfig(env, s.(kv := s.kv + ConfigMap(reply.body.list)));
      Run(StoreEndpoint(env, applied.(version := s.firmware, db := UpdateHashAndTime(env, applied.db, reply.header))),
          Accepted(reply))
    else
      var db := UpdateHash(env, s.db, "CLEARED");
      Run(StoreEndpoint(env, s.(db := db.(store := WriteParam(env, db.store, TIME_KEY, "0")))), Rejected(reply))
  }

  /*** The retry loop ***/

  function ChooseUrl(env: Env, s: Session, attempt: nat): Session {
    if env.overridden(attempt) || env.bootstrapUrl == "" then s
    else s.(url := env.bootstrapUrl + SETTINGS_PATH)
  }

  function RequestOf(s: Session): Request {
    Request(s.url, s.ids.account, s.ids.partner, HashToSend(s))
  }

  predicate IsOk(reply: Reply) {
    reply.curl == 0 && reply.http == 200
  }

  /** A request sent and answered. */
  function Exchange(env: Env, s: Session, attempt: nat): Session {
    var request := RequestOf(s);
    var reply := env.server(attempt, request);
    s.(db := Remember(ContextOf(s), s.db),
       log := s.log.(requests := s.log.requests + [request], replies := s.log.replies + [reply]))
  }

  /** A reply looked at, and the state it led to noted. */
  function Digest(env: Env, s: Session, body: Body): Session {
    var t := PreProcess(env, s, body);
    t.(log := t.log.(states := t.log.states + [t.state]))
  }

  function RunLoop(env: Env, s: Session, attempt: nat): Run
    requires attempt <= RETRY_COUNT
    decreases RETRY_COUNT - attempt
  {
    if attempt == RETRY_COUNT then Run(s, Exhausted)
    else
      var s1 := ChooseUrl(env, s, attempt);
      if !env.allocates(attempt) then Run(s1, NoMemory)
      else
        var reply := env.server(attempt, RequestOf(s1));
        var s2 := Exchange(env, s1, attempt);
        if reply.http == 304 then Run(s2, Unchanged(reply))
        else if !IsOk(reply) then RunLoop(env, s2, attempt + 1)
        else
          var s3 := Digest(env, s2, reply.body);
          if s3.state == Redo then RunLoop(env, s3, attempt + 1)
          else if s3.state == RedoWithValidData then RunLoop(env, s3.(state := Init), attempt + 1)
          else Process(env, s3, reply)
  }

  function ProcessRequest(env: Env, s: Session): Run {
    var s1 := s.(selectOpt := if s.state == Local then "local" else "prod");
    if env.blocked then Run(s1, Blocked) else RunLoop(env, s1, 0)
  }

  /** A session as the initialisation leaves it. */
  predicate Fresh(s: Session) {
    && (s.state == Init || s.state == Local)
    && s.kv == map[] && !s.db.reboot && s.db.bkupHash == "" && s.log == Log([], [], [])
  }
}
