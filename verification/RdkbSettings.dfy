/** The gateway build: applying the settings of a reply to a typed parameter bus, and when that asks for a reboot. */
module RdkbSettings {
  import opened Wrappers
  import opened IniFile
  import opened Decimal
  import XconfProtocol
  import FeatureFiles
  import RfcText

  type Feature = XconfProtocol.Feature

  const FAIL_OVER := "Device.DeviceInfo.X_RDKCENTRAL-COM_RFC.Feature.WanFailOverSupport.Enable"
  const UNIFICATION := "Device.DeviceInfo.X_RDKCENTRAL-COM_RFC.Feature.WanUnification.Enable"
  const UPNP := "Device.DeviceInfo.X_RDKCENTRAL-COM_RFC.Feature.UPnP.Refactor.Enable"
  const XUPNP := "Device.DeviceInfo.X_RDKCENTRAL-COM_RFC.Feature.Xupnp"
  const MODE := "Device.X_RDKCENTRAL-COM_EthernetWAN.SelectedOperationalMode"
  const DOCSIS := "Device.X_RDK_WanManager.Interface.[DOCSIS].Selection.Enable"
  const ETHERNET := "Device.X_RDK_WanManager.Interface.[WANOE].Selection.Enable"
  const CODEBIG := "Device.DeviceInfo.X_RDKCENTRAL-COM_RFC.Feature.CodebigSupport"
  const CONTAINER := "Device.DeviceInfo.X_RDKCENTRAL-COM_RFC.Feature.ContainerSupport"
  const PARTNER := "Device.DeviceInfo.X_RDKCENTRAL-COM_Syndication.PartnerId"
  const XCONF_URL := "Device.DeviceInfo.X_RDKCENTRAL-COM_Syndication.XconfURL"
  const NAMESPACE := ".X_RDKCENTRAL-COM_RFC."
  const PREFIX := "tr181."

  /** A value on the bus. Floating stands for the two floating types; Other for every type the program never handles. */
  datatype Value =
    | Str(text: string) | Bool(on: bool) | Int32(number: int32) | UInt32(count: uint32) | Floating(token: nat)
    | Int64(long: int64) | UInt64(ulong: uint64) | Other

  type Params = map<string, Value>

  /** The parameters that can be read, and how many sets were tried so far. */
  datatype Bus = Bus(params: Params, calls: nat)

  /**
   * How floating values are printed and read, which of the set calls succeed, which keys the bootstrap file names, which
   * server URLs answer, and the order of a map.
   */
  datatype Oracle = Oracle(
    show: nat -> string, read: string -> Option<nat>, accepts: nat -> bool,
    bootstrap: string -> bool, validates: string -> bool, order: XconfProtocol.Store -> seq<string>)

  datatype Setting = Setting(key: string, value: string, immediate: bool)

  datatype Outcome = Outcome(bus: Bus, reboot: bool)

  function Show(o: Oracle, v: Value): string {
    match v
    case Str(text) => text
    case Bool(on) => if on then "true" else "false"
    case Int32(n) => ToString(n)
    case UInt32(n) => ToString(n)
    case Floating(token) => o.show(token)
    case _ => ""
  }

  /** A text as a value of the type the parameter has now; None where the conversion throws. */
  function Convert(o: Oracle, now: Value, text: string): Option<Value> {
    match now
    case Str(_) => Some(Str(text))
    case Bool(_) => Some(Bool(text == "true" || text == "1"))
    case Int32(_) =>
      var n := Stoi(text);
      if n.Some? then Some(Int32(n.value)) else None
    case UInt32(_) =>
      var n := Stoul(text);
      if n.Some? then Some(UInt32(n.value % UINT_RANGE)) else None
    case Floating(_) =>
      var token := o.read(text);
      if token.Some? then Some(Floating(token.value)) else None
    case Int64(_) =>
      var n := Stoll(text);
      if n.Some? then Some(Int64(n.value)) else None
    case UInt64(_) =>
      var n := Stoul(text);
      if n.Some? then Some(UInt64(n.value)) else None
    case Other => None
  }

  /** The prefix is dropped once, and only at the front. */
  function Param(key: string): string {
    if |key| >= |PREFIX| && key[..|PREFIX|] == PREFIX then key[|PREFIX|..] else key
  }

  predicate Switch(params: Params, name: string) {
    name in params && (params[name] == Bool(true) || params[name] == Str("true"))
  }

  predicate Skipped(params: Params, name: string) {
    Switch(params, FAIL_OVER) && (name == UPNP || name == XUPNP)
  }

  predicate Redirected(params: Params, name: string) {
    Switch(params, UNIFICATION) && name == MODE
  }

  /** The types a setting is compared with; the others it leaves alone. */
  predicate Handled(v: Value) {
    v.Str? || v.Bool? || v.Int32? || v.UInt32? || v.Floating?
  }

  predicate Readable(params: Params, name: string) {
    name in params && Handled(params[name])
  }

  function Set(o: Oracle, bus: Bus, name: string, v: Value): Bus {
    Bus(if o.accepts(bus.calls) then bus.params[name := v] else bus.params, bus.calls + 1)
  }

  predicate UnknownPartner(name: string, text: string) {
    name == PARTNER && (text == "unknown" || text == "Unknown")
  }

  /** ParseConfigValue. */
  function Step(o: Oracle, bus: Bus, s: Setting): Outcome {
    var name := Param(s.key);
    if Skipped(bus.params, name) then Outcome(bus, false)
    else if Redirected(bus.params, name) then
      var docsis := Set(o, bus, DOCSIS, Bool(s.value != "Ethernet"));
      Outcome(Set(o, docsis, ETHERNET, Bool(s.value != "DOCSIS")), false)
    else if !Readable(bus.params, name) then Outcome(bus, false)
    else
      var text := Show(o, bus.params[name]);
      var wanted := Convert(o, bus.params[name], s.value);
      if wanted.None? || (text == s.value && !RfcText.Contains(name, NAMESPACE)) then Outcome(bus, false)
      else
        Outcome(Set(o, bus, name, wanted.value),
                o.accepts(bus.calls) && text != s.value && (s.immediate || UnknownPartner(name, text)))
  }

  function Run(o: Oracle, bus: Bus, ss: seq<Setting>): Outcome {
    if ss == [] then Outcome(bus, false)
    else
      var before := Run(o, bus, ss[..|ss| - 1]);
      var last := Step(o, before.bus, ss[|ss| - 1]);
      Outcome(last.bus, before.reboot || last.reboot)
  }

  function SettingsOf(fs: seq<Feature>): seq<Setting> {
    if fs == [] then [] else SettingsOf(fs[..|fs| - 1]) + FeatureSettings(fs[|fs| - 1])
  }

  function FeatureSettings(f: Feature): seq<Setting> {
    if !FeatureFiles.Complete(f) || f.configData.None? then []
    else ToSettings(f.configData.value, f.effectiveImmediate.value)
  }

  function ToSettings(es: seq<Entry>, immediate: bool): seq<Setting> {
    seq(|es|, i requires 0 <= i < |es| => Setting(es[i].key, es[i].value, immediate))
  }

  /** The two support flags are switched off before any setting is looked at. */
  function Reset(o: Oracle, bus: Bus): Bus {
    Set(o, Set(o, bus, CODEBIG, Bool(false)), CONTAINER, Bool(false))
  }

  /*** The second pass: the whole configuration map once more ***/

  /** What read_RFCProperty makes of a value: enclosing quotes dropped, and a failure on most numeric types. */
  function ReadText(v: Value): Option<string> {
    match v
    case Str(text) => Some(XconfProtocol.Unquote(text))
    case Bool(on) => Some(if on then "true" else "false")
    case Int32(n) => Some(ToString(n))
    case _ => None
  }

  /** Whether set_RFCProperty is called on a known parameter and gets as far as converting the text. */
  predicate Tried(o: Oracle, v: Value, key: string, text: string) {
    && !v.Other?
    && (ReadText(v) != Some(text) || o.bootstrap(key) || RfcText.Contains(key, NAMESPACE))
    && (key == XCONF_URL ==> o.validates(text))
  }

  /** Where the pass got to. Nothing catches a conversion that throws here, so it ends the program. */
  datatype Pass = Pass(bus: Bus, crashed: bool)

  function MapStep(o: Oracle, bus: Bus, key: string, text: string): Pass {
    if key !in bus.params || !Tried(o, bus.params[key], key, text) then Pass(bus, false)
    else
      var v := Convert(o, bus.params[key], text);
      if v.None? then Pass(bus, true) else Pass(Set(o, bus, key, v.value), false)
  }

  function MapPass(o: Oracle, bus: Bus, kv: XconfProtocol.Store, keys: seq<string>): Pass {
    if keys == [] then Pass(bus, false)
    else
      var before := MapPass(o, bus, kv, keys[..|keys| - 1]);
      var last := keys[|keys| - 1];
      if before.crashed then before else MapStep(o, before.bus, last, XconfProtocol.ValueOf(kv, last))
  }

  /** A run: whether it ended in a crash, and whether it got to scheduling a reboot. */
  datatype Result = Result(bus: Bus, reboot: bool, crashed: bool)

  function Settings(o: Oracle, bus: Bus, fs: seq<Feature>): Outcome {
    Run(o, Reset(o, bus), SettingsOf(fs))
  }

  /** ProcessJsonResponseB. */
  function Process(o: Oracle, bus: Bus, fs: seq<Feature>): Result {
    var first := Settings(o, bus, fs);
    var kv := XconfProtocol.ConfigMap(fs);
    var second := MapPass(o, first.bus, kv, o.order(kv));
    Result(second.bus, first.reboot && !second.crashed, second.crashed)
  }

  class Processor {
    const oracle: Oracle
    var bus: Bus

    method RbusSet(name: string, v: Value) returns (ok: bool)
      modifies this
      ensures bus == Set(oracle, old(bus), name, v)
      ensures ok == oracle.accepts(old(bus).calls)
    {
      ok := oracle.accepts(bus.calls);
      bus := Bus(if ok then bus.params[name := v] else bus.params, bus.calls + 1);
    }

    method ParseConfigValue(key: string, value: string, rebootValue: bool, needed: bool) returns (needed': bool)
      modifies this
      ensures bus == Step(oracle, old(bus), Setting(key, value, rebootValue)).bus
      ensures needed' == (needed || Step(oracle, old(bus), Setting(key, value, rebootValue)).reboot)
    {
      hide FAIL_OVER, UNIFICATION, UPNP, XUPNP, MODE, DOCSIS, ETHERNET, PARTNER, NAMESPACE;
      hide Convert, Show, Param, RfcText.Contains;
      needed' := needed;
      var name := Param(key);
      if Switch(bus.params, FAIL_OVER) && (name == UPNP || name == XUPNP) {
        return;
      }
      if Switch(bus.params, UNIFICATION) && name == MODE {
        var enableDocsis, enableEth := true, true;
        if value == "DOCSIS" {
          enableEth := false;
        } else if value == "Ethernet" {
          enableDocsis := false;
        }
        var _ := RbusSet(DOCSIS, Bool(enableDocsis));
        var _ := RbusSet(ETHERNET, Bool(enableEth));
        return;
      }
      if name !in bus.params || !Handled(bus.params[name]) {
        return;
      }
      var text := Show(oracle, bus.params[name]);
      var wanted := Convert(oracle, bus.params[name], value);
      if text != value {
        if wanted.Some? {
          var ok := RbusSet(name, wanted.value);
          var reboot := rebootValue;
          if ok && name == PARTNER && (text == "unknown" || text == "Unknown") {
            reboot := true;
          }
          if ok && reboot {
            needed' := true;
          }
        }
      } else if RfcText.Contains(name, NAMESPACE) {
        if wanted.Some? {
          var _ := RbusSet(name, wanted.value);
        }
      }
    }

    /** The children of one configData, in order. */
    method ProcessChildren(es: seq<Entry>, immediate: bool, needed: bool, ghost start: Bus, ghost done: seq<Setting>)
      returns (needed': bool)
      requires Outcome(bus, needed) == Run(oracle, start, done)
      modifies this
      ensures Outcome(bus, needed') == Run(oracle, start, done + ToSettings(es, immediate))
    {
      hide Step, Run;
      needed' := needed;
      assert done + ToSettings(es[..0], immediate) == done;
      for i := 0 to |es|
        invariant Outcome(bus, needed') == Run(oracle, start, done + ToSettings(es[..i], immediate))
      {
        ghost var before := done + ToSettings(es[..i], immediate);
        assert done + ToSettings(es[..i + 1], immediate) == before + [Setting(es[i].key, es[i].value, immediate)];
        RunNext(oracle, start, before, Setting(es[i].key, es[i].value, immediate));
        needed' := ParseConfigValue(es[i].key, es[i].value, immediate, needed');
      }
      assert es[..|es|] == es;
    }

    /** The feature loop of ProcessJsonResponseB, after the support flags were switched off. */
    method ProcessFeatures(fs: seq<Feature>) returns (needed: bool)
      modifies this
      ensures Outcome(bus, needed) == Settings(oracle, old(bus), fs)
    {
      hide Run, CODEBIG, CONTAINER;
      var _ := RbusSet(CODEBIG, Bool(false));
      var _ := RbusSet(CONTAINER, Bool(false));
      needed := false;
      ghost var start := bus;
      NothingToRun(oracle, start);
      for i := 0 to |fs|
        invariant Outcome(bus, needed) == Run(oracle, start, SettingsOf(fs[..i]))
      {
        assert fs[..i + 1][..i] == fs[..i];
        ghost var done := SettingsOf(fs[..i]);
        assert done + [] == done;
        if FeatureFiles.Complete(fs[i]) && fs[i].configData.Some? {
          needed := ProcessChildren(fs[i].configData.value, fs[i].effectiveImmediate.value, needed, start, done);
        }
      }
      assert fs[..|fs|] == fs;
    }

    /** isConfigValueChange and set_RFCProperty on one entry of the map; a crash stands for the exception nobody catches. */
    method ApplyEntry(key: string, text: string) returns (crashed: bool)
      modifies this
      ensures Pass(bus, crashed) == MapStep(oracle, old(bus), key, text)
    {
      hide NAMESPACE, XCONF_URL, Convert, RfcText.Contains, ReadText;
      crashed := false;
      if key !in bus.params {
        return;
      }
      var now := bus.params[key];
      var current := ReadText(now);
      if current.Some? && !oracle.bootstrap(key) && !RfcText.Contains(key, NAMESPACE) && text == current.value {
        return;
      }
      if key == XCONF_URL && !oracle.validates(text) {
        return;
      }
      if now.Other? {
        return;
      }
      var v := Convert(oracle, now, text);
      if v.None? {
        return true;
      }
      var _ := RbusSet(key, v.value);
    }

    /** The loop over the configuration map. */
    method ApplyMap(kv: XconfProtocol.Store) returns (crashed: bool)
      modifies this
      ensures Pass(bus, crashed) == MapPass(oracle, old(bus), kv, oracle.order(kv))
    {
      hide MapStep;
      crashed := false;
      var keys := oracle.order(kv);
      for i := 0 to |keys|
        invariant !crashed && Pass(bus, crashed) == MapPass(oracle, old(bus), kv, keys[..i])
      {
        assert keys[..i + 1][..i] == keys[..i];
        crashed := ApplyEntry(keys[i], XconfProtocol.ValueOf(kv, keys[i]));
        if crashed {
          MapPassStops(oracle, old(bus), kv, keys, i + 1);
          return;
        }
      }
      assert keys[..|keys|] == keys;
    }

    /** The whole run, on a map that was empty before. */
    method ProcessJsonResponseB(fs: seq<Feature>) returns (needed: bool, crashed: bool)
      modifies this
      ensures Result(bus, needed, crashed) == Process(oracle, old(bus), fs)
    {
      hide Run, MapPass, XconfProtocol.ConfigMap;
      needed := ProcessFeatures(fs);
      crashed := ApplyMap(XconfProtocol.ConfigMap(fs));
      needed := needed && !crashed;
    }
  }

  lemma RunNext(o: Oracle, bus: Bus, ss: seq<Setting>, s: Setting)
    ensures var before, last := Run(o, bus, ss), Step(o, Run(o, bus, ss).bus, s);
            Run(o, bus, ss + [s]) == Outcome(last.bus, before.reboot || last.reboot)
  {
    hide Step;
    assert (ss + [s])[..|ss|] == ss;
  }

  /** A pass that crashed went no further. */
  lemma {:induction false} MapPassStops(o: Oracle, bus: Bus, kv: XconfProtocol.Store, keys: seq<string>, n: nat)
    requires n <= |keys| && MapPass(o, bus, kv, keys[..n]).crashed
    ensures MapPass(o, bus, kv, keys) == MapPass(o, bus, kv, keys[..n])
    decreases |keys|
  {
    hide MapStep;
    if n < |keys| {
      var m := |keys| - 1;
      assert keys[..m][..n] == keys[..n];
      MapPassStops(o, bus, kv, keys[..m], n);
    } else {
      assert keys[..n] == keys;
    }
  }

  lemma NothingToRun(o: Oracle, bus: Bus)
    ensures Run(o, bus, []) == Outcome(bus, false)
  {
  }

  /*** When a reboot is asked for ***/

  /** A successful set that changes what is read, made at once or for a partner that was unknown. */
  predicate Earns(o: Oracle, bus: Bus, s: Setting) {
    var name := Param(s.key);
    && !Skipped(bus.params, name) && !Redirected(bus.params, name)
    && Readable(bus.params, name)
    && Convert(o, bus.params[name], s.value).Some?
    && o.accepts(bus.calls)
    && Show(o, bus.params[name]) != s.value
    && (s.immediate || UnknownPartner(name, Show(o, bus.params[name])))
  }

  lemma StepReboots(o: Oracle, bus: Bus, s: Setting)
    ensures Step(o, bus, s).reboot <==> Earns(o, bus, s)
  {
    hide Convert, Show, Param, RfcText.Contains;
    hide FAIL_OVER, UNIFICATION, UPNP, XUPNP, MODE, DOCSIS, ETHERNET, PARTNER, NAMESPACE;
  }

  /** The i-th setting earns a reboot on the bus its predecessors left. */
  predicate EarnsAt(o: Oracle, bus: Bus, ss: seq<Setting>, i: nat)
    requires i < |ss|
  {
    Earns(o, Run(o, bus, ss[..i]).bus, ss[i])
  }

  lemma EarnsInPrefix(o: Oracle, bus: Bus, ss: seq<Setting>, n: nat, i: nat)
    requires i < n <= |ss|
    ensures EarnsAt(o, bus, ss[..n], i) == EarnsAt(o, bus, ss, i)
  {
    hide Run, Earns;
    assert ss[..n][..i] == ss[..i];
  }

  lemma RunReboots(o: Oracle, bus: Bus, ss: seq<Setting>)
    requires ss != []
    ensures Run(o, bus, ss).reboot == (Run(o, bus, ss[..|ss| - 1]).reboot || EarnsAt(o, bus, ss, |ss| - 1))
  {
    hide Step, Earns;
    StepReboots(o, Run(o, bus, ss[..|ss| - 1]).bus, ss[|ss| - 1]);
  }

  /** A reboot is asked for exactly when some setting earned it on the bus as it then was. */
  lemma {:induction false} RebootExactly(o: Oracle, bus: Bus, ss: seq<Setting>)
    ensures Run(o, bus, ss).reboot <==> exists i :: 0 <= i < |ss| && EarnsAt(o, bus, ss, i)
    decreases |ss|
  {
    hide Run, EarnsAt;
    if ss == [] {
      NothingToRun(o, bus);
    } else {
      var n := |ss| - 1;
      RebootExactly(o, bus, ss[..n]);
      RunReboots(o, bus, ss);
      if Run(o, bus, ss[..n]).reboot {
        var i :| 0 <= i < n && EarnsAt(o, bus, ss[..n], i);
        EarnsInPrefix(o, bus, ss, n, i);
      } else {
        forall i | 0 <= i < n
          ensures !EarnsAt(o, bus, ss, i)
        {
          EarnsInPrefix(o, bus, ss, n, i);
        }
      }
    }
  }

  /*** Canonical texts ***/

  /** The text is the way the parameter would print the value it makes of it. */
  predicate Canonical(o: Oracle, params: Params, s: Setting) {
    var name := Param(s.key);
    Readable(params, name) ==>
      var v := Convert(o, params[name], s.value);
      v.Some? && Show(o, v.value) == s.value
  }

  /** Texts, the words true and false, and integers of the parameter's range as they are printed are canonical. */
  lemma CanonicalTexts(o: Oracle, params: Params, s: Setting)
    requires Param(s.key) in params
    ensures var now := params[Param(s.key)];
            && (now.Str? ==> Canonical(o, params, s))
            && (now.Bool? ==> (Canonical(o, params, s) <==> s.value == "true" || s.value == "false"))
            && (now.Int32? ==> (Canonical(o, params, s) <==> exists n :: INT_MIN <= n <= INT_MAX && s.value == ToString(n)))
            && (now.UInt32? ==> (Canonical(o, params, s) <==> exists n :: 0 <= n < UINT_RANGE && s.value == ToString(n)))
  {
    hide ToString, Param, Stoi, Stoul;
    var now := params[Param(s.key)];
    if now.Int32? {
      forall n | INT_MIN <= n <= INT_MAX && s.value == ToString(n)
        ensures Stoi(s.value) == Some(n)
      {
        StoiOfToString(n);
      }
    }
    if now.UInt32? {
      forall n | 0 <= n < UINT_RANGE && s.value == ToString(n)
        ensures Stoul(s.value) == Some(n)
      {
        StoulOfToString(n);
      }
    }
  }

  /** With a canonical text a reboot means that the value of the parameter really changed, to the one asked for. */
  lemma RebootMeansChange(o: Oracle, bus: Bus, s: Setting)
    requires Earns(o, bus, s) && Canonical(o, bus.params, s)
    ensures var name := Param(s.key);
            var after := Step(o, bus, s).bus.params;
            name in after && after[name] != bus.params[name] && Show(o, after[name]) == s.value
  {
    hide Convert, Show, Param, RfcText.Contains;
    hide FAIL_OVER, UNIFICATION, UPNP, XUPNP, MODE, DOCSIS, ETHERNET, PARTNER, NAMESPACE;
  }

  /*** What a step leaves alone ***/

  lemma SwitchesAreApart()
    ensures DOCSIS != FAIL_OVER && DOCSIS != UNIFICATION && ETHERNET != FAIL_OVER && ETHERNET != UNIFICATION
    ensures CODEBIG != FAIL_OVER && CODEBIG != UNIFICATION && CONTAINER != FAIL_OVER && CONTAINER != UNIFICATION
  {
    assert |DOCSIS| < 62 && |ETHERNET| < 62 && |CODEBIG| < 62 && |CONTAINER| == 63;
    assert |FAIL_OVER| > 63 && |UNIFICATION| > 63;
  }

  function Look(params: Params, name: string): Option<Value> {
    if name in params then Some(params[name]) else None
  }

  predicate Same(a: Params, b: Params, name: string) {
    Look(a, name) == Look(b, name)
  }

  lemma SameSwitch(a: Params, b: Params, name: string)
    requires Same(a, b, FAIL_OVER) && Same(a, b, UNIFICATION)
    ensures Skipped(a, name) == Skipped(b, name) && Redirected(a, name) == Redirected(b, name)
  {
    hide FAIL_OVER, UNIFICATION, UPNP, XUPNP, MODE;
  }

  /** A step leaves every parameter alone but its own and the two WAN interfaces. */
  lemma StepFrame(o: Oracle, bus: Bus, t: Setting, name: string)
    requires name != Param(t.key) && name != DOCSIS && name != ETHERNET
    ensures Same(bus.params, Step(o, bus, t).bus.params, name)
  {
    hide Convert, Show, Param, RfcText.Contains;
    hide FAIL_OVER, UNIFICATION, UPNP, XUPNP, MODE, DOCSIS, ETHERNET, PARTNER, NAMESPACE;
  }

  predicate SameKind(a: Value, b: Value) {
    && (a.Str? <==> b.Str?) && (a.Bool? <==> b.Bool?) && (a.Int32? <==> b.Int32?)
    && (a.UInt32? <==> b.UInt32?) && (a.Floating? <==> b.Floating?) && (a.Int64? <==> b.Int64?)
    && (a.UInt64? <==> b.UInt64?) && (a.Other? <==> b.Other?)
  }

  lemma ConvertByKind(o: Oracle, a: Value, b: Value, text: string)
    requires SameKind(a, b)
    ensures Convert(o, a, text) == Convert(o, b, text)
    ensures Convert(o, a, text).Some? ==> SameKind(a, Convert(o, a, text).value)
  {
    hide Stoi, Stoul, Stoll;
  }

  lemma StepCalls(o: Oracle, bus: Bus, s: Setting)
    ensures bus.calls <= Step(o, bus, s).bus.calls
  {
    hide Convert, Show, Param, RfcText.Contains;
    hide FAIL_OVER, UNIFICATION, UPNP, XUPNP, MODE, DOCSIS, ETHERNET, PARTNER, NAMESPACE;
  }

  lemma CallsGrow(o: Oracle, bus: Bus, ss: seq<Setting>)
    ensures bus.calls <= Run(o, bus, ss).bus.calls
  {
    hide Convert, Show, Param, RfcText.Contains;
    hide FAIL_OVER, UNIFICATION, UPNP, XUPNP, MODE, DOCSIS, ETHERNET, PARTNER, NAMESPACE;
  }

  /**
   * With WAN unification on, the operational mode goes to the two interfaces instead of its own parameter: DOCSIS is off
   * exactly for Ethernet and Ethernet exactly for DOCSIS, so never both; nothing else changes and no reboot is asked for.
   */
  lemma ModeRedirected(o: Oracle, bus: Bus, s: Setting)
    requires Param(s.key) == "Device.X_RDKCENTRAL-COM_EthernetWAN.SelectedOperationalMode" && o.accepts(bus.calls) && o.accepts(bus.calls + 1)
    requires var switch := Look(bus.params, "Device.DeviceInfo.X_RDKCENTRAL-COM_RFC.Feature.WanUnification.Enable");
             switch == Some(Bool(true)) || switch == Some(Str("true"))
    ensures var after := Step(o, bus, s);
            && !after.reboot
            && DOCSIS in after.bus.params && ETHERNET in after.bus.params
            && (after.bus.params[DOCSIS] == Bool(false) <==> s.value == "Ethernet")
            && (after.bus.params[ETHERNET] == Bool(false) <==> s.value == "DOCSIS")
            && (after.bus.params[DOCSIS] == Bool(true) || after.bus.params[ETHERNET] == Bool(true))
            && forall name :: name != DOCSIS && name != ETHERNET ==> Same(bus.params, after.bus.params, name)
  {
    assert Param(s.key) == MODE && Switch(bus.params, UNIFICATION);
    assert |DOCSIS| == |ETHERNET| + 1;
    assert |MODE| < 61 && |UPNP| > 61 && |XUPNP| < |MODE|;
    hide FAIL_OVER, UNIFICATION, UPNP, XUPNP, MODE, DOCSIS, ETHERNET, PARTNER, NAMESPACE, Param, Convert, Show;
    assert "Ethernet" != "DOCSIS";
  }

  /*** Single settings, in plain words ***/

  /** The prefix goes once from the front and nowhere else. */
  lemma PrefixGoesOnce(key: string)
    ensures Param("tr181." + key) == key
    ensures (forall rest: string :: key != "tr181." + rest) ==> Param(key) == key
  {
    assert ("tr181." + key)[..6] == PREFIX && ("tr181." + key)[6..] == key;
    if |key| >= 6 && key[..6] == PREFIX {
      assert key == "tr181." + key[6..];
    }
  }

  /** A setting of a parameter that is not special, with its set accepted: what the texts make of each type. */
  lemma SettingMakes(o: Oracle, bus: Bus, s: Setting)
    requires !Switch(bus.params, FAIL_OVER) && !Switch(bus.params, UNIFICATION) && o.accepts(bus.calls)
    requires Param(s.key) in bus.params && Show(o, bus.params[Param(s.key)]) != s.value
    ensures var before, after := bus.params[Param(s.key)], Look(Step(o, bus, s).bus.params, Param(s.key));
            && (before.Str? ==> after == Some(Str(s.value)))
            && (before.Bool? ==> after == Some(Bool(s.value == "true" || s.value == "1")))
            && (before.Int32? ==> after == Some(if Stoi(s.value).Some? then Int32(Stoi(s.value).value) else before))
            && (before.Int64? || before.UInt64? || before.Other? ==> after == Some(before))
  {
    hide FAIL_OVER, UNIFICATION, UPNP, XUPNP, MODE, DOCSIS, ETHERNET, PARTNER, NAMESPACE, Param, Stoi, Stoul, Stoll, Show, RfcText.Contains;
  }

  /** With fail-over on, the two UPnP parameters are not touched by a setting, nor is anything else. */
  lemma FailOverSkips(o: Oracle, bus: Bus, s: Setting)
    requires var switch := Look(bus.params, "Device.DeviceInfo.X_RDKCENTRAL-COM_RFC.Feature.WanFailOverSupport.Enable");
             switch == Some(Bool(true)) || switch == Some(Str("true"))
    requires || Param(s.key) == "Device.DeviceInfo.X_RDKCENTRAL-COM_RFC.Feature.UPnP.Refactor.Enable"
             || Param(s.key) == "Device.DeviceInfo.X_RDKCENTRAL-COM_RFC.Feature.Xupnp"
    ensures Step(o, bus, s) == Outcome(bus, false)
  {
    assert Switch(bus.params, FAIL_OVER) && (Param(s.key) == UPNP || Param(s.key) == XUPNP);
    hide Param, Convert, Show;
  }

  /** A partner ID that was unknown, in one of the two spellings, is worth a reboot without immediate effect; no other is. */
  lemma PartnerReboots(o: Oracle, bus: Bus, s: Setting, before: string)
    requires !Switch(bus.params, FAIL_OVER) && !Switch(bus.params, UNIFICATION) && o.accepts(bus.calls)
    requires Param(s.key) == "Device.DeviceInfo.X_RDKCENTRAL-COM_Syndication.PartnerId" && !s.immediate
    requires Look(bus.params, Param(s.key)) == Some(Str(before)) && before != s.value
    ensures Step(o, bus, s).reboot <==> before == "unknown" || before == "Unknown"
  {
    assert Param(s.key) == PARTNER;
    hide FAIL_OVER, UNIFICATION, UPNP, XUPNP, MODE, DOCSIS, ETHERNET, NAMESPACE, PARTNER, Param, RfcText.Contains;
  }

  /** Any other setting reboots exactly with immediate effect. */
  lemma OthersReboot(o: Oracle, bus: Bus, s: Setting, before: string)
    requires !Switch(bus.params, FAIL_OVER) && !Switch(bus.params, UNIFICATION) && o.accepts(bus.calls)
    requires Param(s.key) != "Device.DeviceInfo.X_RDKCENTRAL-COM_Syndication.PartnerId"
    requires Look(bus.params, Param(s.key)) == Some(Str(before)) && before != s.value
    ensures Step(o, bus, s).reboot <==> s.immediate
  {
    assert Param(s.key) != PARTNER;
    hide FAIL_OVER, UNIFICATION, UPNP, XUPNP, MODE, DOCSIS, ETHERNET, NAMESPACE, PARTNER, Param, RfcText.Contains;
  }

  /** The second pass on a string: written unless it reads as the text already, always in the namespace and the bootstrap file. */
  lemma EntryMakes(o: Oracle, bus: Bus, key: string, text: string, before: string)
    requires Look(bus.params, key) == Some(Str(before)) && o.accepts(bus.calls)
    requires key != "Device.DeviceInfo.X_RDKCENTRAL-COM_Syndication.XconfURL"
    ensures var step := MapStep(o, bus, key, text);
            && !step.crashed
            && Look(step.bus.params, key)
                 == Some(Str(if XconfProtocol.Unquote(before) == text && !o.bootstrap(key) && !RfcText.Contains(key, ".X_RDKCENTRAL-COM_RFC.")
                             then before else text))
  {
    assert key != XCONF_URL && NAMESPACE == ".X_RDKCENTRAL-COM_RFC.";
    hide XCONF_URL, NAMESPACE, RfcText.Contains, XconfProtocol.Unquote;
  }

  /** On a boolean and an integer: nothing is set outside both if the text is the one printed. */
  lemma PrintedIsLeft(o: Oracle, bus: Bus, key: string, on: bool, n: int32)
    requires !o.bootstrap(key) && !RfcText.Contains(key, ".X_RDKCENTRAL-COM_RFC.")
    ensures Look(bus.params, key) == Some(Bool(on)) ==> MapStep(o, bus, key, if on then "true" else "false") == Pass(bus, false)
    ensures Look(bus.params, key) == Some(Int32(n)) ==> MapStep(o, bus, key, ToString(n)) == Pass(bus, false)
  {
    assert NAMESPACE == ".X_RDKCENTRAL-COM_RFC.";
    hide XCONF_URL, NAMESPACE, RfcText.Contains, ToString;
  }

  /** A parameter of a type the program never handles is left alone by it, whatever the text. */
  lemma OtherIsLeft(o: Oracle, bus: Bus, key: string, text: string)
    requires Look(bus.params, key) == Some(Other)
    ensures MapStep(o, bus, key, text) == Pass(bus, false)
  {
    hide XCONF_URL, NAMESPACE, RfcText.Contains;
  }

  /** A setting of the first pass is an entry of a feature that has a name and both flags, with its own immediate effect. */
  predicate IsSettingOf(f: Feature, s: Setting) {
    && f.name.Some? && f.enable.Some? && f.effectiveImmediate == Some(s.immediate)
    && f.configData.Some? && Entry(s.key, s.value) in f.configData.value
  }

  lemma FeatureMakes(f: Feature, s: Setting)
    ensures s in FeatureSettings(f) <==> IsSettingOf(f, s)
  {
    if IsSettingOf(f, s) {
      var es := f.configData.value;
      var i :| 0 <= i < |es| && es[i] == Entry(s.key, s.value);
      assert FeatureSettings(f)[i] == s;
    }
  }

  lemma {:induction false} SettingsExactly(fs: seq<Feature>, s: Setting)
    ensures s in SettingsOf(fs) <==> exists i :: 0 <= i < |fs| && IsSettingOf(fs[i], s)
    decreases |fs|
  {
    hide FeatureSettings, IsSettingOf;
    if fs != [] {
      var n := |fs| - 1;
      SettingsExactly(fs[..n], s);
      FeatureMakes(fs[n], s);
      assert forall i :: 0 <= i < n ==> fs[..n][i] == fs[i];
    }
  }

  /** So features without immediate effect ask for no reboot, if they do not name the partner ID. */
  lemma LaterAsksNothing(o: Oracle, bus: Bus, fs: seq<Feature>)
    requires forall i :: 0 <= i < |fs| ==> fs[i].effectiveImmediate != Some(true)
    requires forall i, e :: 0 <= i < |fs| && fs[i].configData.Some? && e in fs[i].configData.value ==> Param(e.key) != PARTNER
    ensures !Process(o, bus, fs).reboot
  {
    hide Run, PARTNER, Param, MapPass, Reset, EarnsAt;
    var ss := SettingsOf(fs);
    RebootExactly(o, Reset(o, bus), ss);
    forall i | 0 <= i < |ss|
      ensures !EarnsAt(o, Reset(o, bus), ss, i)
    {
      SettingsExactly(fs, ss[i]);
      var k :| 0 <= k < |fs| && IsSettingOf(fs[k], ss[i]);
      EarnsNothing(o, Reset(o, bus), ss, i);
    }
  }

  lemma EarnsNothing(o: Oracle, bus: Bus, ss: seq<Setting>, i: nat)
    requires i < |ss| && !ss[i].immediate && Param(ss[i].key) != PARTNER
    ensures !EarnsAt(o, bus, ss, i)
  {
    hide Run, PARTNER, Param, Convert, Show;
  }

  /** And a server URL that does not answer is not written by it. */
  lemma UnansweredUrl(o: Oracle, bus: Bus, text: string)
    requires !o.validates(text)
    ensures MapStep(o, bus, "Device.DeviceInfo.X_RDKCENTRAL-COM_Syndication.XconfURL", text) == Pass(bus, false)
  {
    hide NAMESPACE, RfcText.Contains, Convert, ReadText;
  }
}
