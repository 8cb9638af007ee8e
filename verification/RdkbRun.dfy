/** One run of the gateway build, parameter by parameter: what it leaves, when it asks for a reboot, and when it crashes. */
module RdkbRun {
  import opened Wrappers
  import opened IniFile
  import opened Decimal
  import opened RdkbSettings
  import XconfProtocol
  import XconfDatabase
  import RfcText

  type Store = XconfProtocol.Store

  /** The WAN switches, and the interfaces the program drives itself. */
  predicate WanKey(name: string) {
    name == FAIL_OVER || name == UNIFICATION || name == DOCSIS || name == ETHERNET
  }

  /** The flags every run switches off before it looks at the reply. */
  predicate SupportFlag(name: string) {
    name == CODEBIG || name == CONTAINER
  }

  lemma FlagsAreApart(name: string)
    requires SupportFlag(name)
    ensures !WanKey(name) && name != UPNP && name != XUPNP && name != MODE && name != PARTNER && name != XCONF_URL
  {
    assert |CODEBIG| == 61 && |CONTAINER| == 63;
    assert |FAIL_OVER| > 63 && |UNIFICATION| > 63 && |UPNP| > 63 && |DOCSIS| < 61 && |ETHERNET| < 61;
    assert |XUPNP| < 61 && |MODE| < 61 && |PARTNER| < 61 && |XCONF_URL| < 61;
  }

  predicate Undriven(ss: seq<Setting>) {
    forall i :: 0 <= i < |ss| ==> !WanKey(Param(ss[i].key))
  }

  predicate SetOnce(ss: seq<Setting>) {
    forall i, j :: 0 <= i < j < |ss| ==> Param(ss[i].key) != Param(ss[j].key)
  }

  /** A reply that touches no WAN key and sets no parameter twice, with its map in the map's order. */
  ghost predicate Configuration(o: Oracle, fs: seq<Feature>) {
    var kv := XconfProtocol.ConfigMap(fs);
    && Undriven(SettingsOf(fs)) && SetOnce(SettingsOf(fs))
    && (forall key <- kv :: !WanKey(key)) && XconfDatabase.InMapOrder(o.order(kv), kv)
  }

  predicate Accepted(o: Oracle, from: nat, to: nat) {
    forall c :: from <= c < to ==> o.accepts(c)
  }

  /*** A parameter through the first pass ***/

  /** Settings reach a parameter unless it is skipped or redirected. */
  predicate Direct(params: Params, name: string) {
    !Skipped(params, name) && !Redirected(params, name)
  }

  /** The value of a parameter after its setting, if the set is accepted. */
  function Stepped(o: Oracle, s: Setting, direct: bool, v: Option<Value>): Option<Value> {
    if direct && v.Some? && Handled(v.value) && Convert(o, v.value, s.value).Some?
      && (Show(o, v.value) != s.value || RfcText.Contains(Param(s.key), NAMESPACE))
    then Convert(o, v.value, s.value)
    else v
  }

  /** Whether a setting, met with this value, makes a set that earns a reboot if it is accepted. */
  predicate Stirs(o: Oracle, s: Setting, direct: bool, v: Option<Value>) {
    && direct && v.Some? && Handled(v.value) && Convert(o, v.value, s.value).Some?
    && Show(o, v.value) != s.value
    && (s.immediate || UnknownPartner(Param(s.key), Show(o, v.value)))
  }

  lemma OwnStep(o: Oracle, bus: Bus, s: Setting)
    requires !WanKey(Param(s.key))
    ensures var name := Param(s.key);
            var before, after := Look(bus.params, name), Look(Step(o, bus, s).bus.params, name);
            && (after == before || after == Stepped(o, s, Direct(bus.params, name), before))
            && (Accepted(o, bus.calls, Step(o, bus, s).bus.calls) ==> after == Stepped(o, s, Direct(bus.params, name), before))
    ensures Earns(o, bus, s)
        <==> o.accepts(bus.calls) && Stirs(o, s, Direct(bus.params, Param(s.key)), Look(bus.params, Param(s.key)))
    ensures Stirs(o, s, Direct(bus.params, Param(s.key)), Look(bus.params, Param(s.key))) ==>
              Step(o, bus, s).bus.calls == bus.calls + 1
  {
    hide Convert, Show, Param, RfcText.Contains, Skipped, Redirected, UnknownPartner;
    hide FAIL_OVER, UNIFICATION, UPNP, XUPNP, MODE, DOCSIS, ETHERNET, PARTNER, NAMESPACE;
  }

  /** A run leaves every parameter alone that it does not name, but for the two WAN interfaces. */
  lemma {:induction false} RunKeeps(o: Oracle, bus: Bus, ss: seq<Setting>, name: string)
    requires name != DOCSIS && name != ETHERNET && forall j :: 0 <= j < |ss| ==> Param(ss[j].key) != name
    ensures Same(bus.params, Run(o, bus, ss).bus.params, name)
    decreases |ss|
  {
    hide Step, Param, DOCSIS, ETHERNET;
    if ss != [] {
      var n := |ss| - 1;
      RunKeeps(o, bus, ss[..n], name);
      StepFrame(o, Run(o, bus, ss[..n]).bus, ss[n], name);
    }
  }

  lemma RunKeepsSwitches(o: Oracle, bus: Bus, ss: seq<Setting>, name: string)
    requires Undriven(ss)
    ensures Same(bus.params, Run(o, bus, ss).bus.params, FAIL_OVER)
    ensures Same(bus.params, Run(o, bus, ss).bus.params, UNIFICATION)
    ensures Direct(Run(o, bus, ss).bus.params, name) == Direct(bus.params, name)
  {
    SwitchesAreApart();
    hide Run, Param, FAIL_OVER, UNIFICATION, DOCSIS, ETHERNET, CODEBIG, CONTAINER, Skipped, Redirected;
    RunKeeps(o, bus, ss, FAIL_OVER);
    RunKeeps(o, bus, ss, UNIFICATION);
    SameSwitch(bus.params, Run(o, bus, ss).bus.params, name);
  }

  /** When its turn comes, a setting finds its parameter as it was when the run began. */
  lemma FoundUntouched(o: Oracle, bus: Bus, ss: seq<Setting>, i: nat)
    requires i < |ss| && Undriven(ss) && SetOnce(ss)
    ensures var prior, name := Run(o, bus, ss[..i]).bus, Param(ss[i].key);
            Same(bus.params, prior.params, name) && Direct(prior.params, name) == Direct(bus.params, name)
  {
    hide Run, Direct, Param;
    var name := Param(ss[i].key);
    assert !WanKey(name);
    RunKeeps(o, bus, ss[..i], name);
    RunKeepsSwitches(o, bus, ss[..i], name);
  }

  lemma EarnsFromStart(o: Oracle, bus: Bus, ss: seq<Setting>, i: nat)
    requires i < |ss| && Undriven(ss) && SetOnce(ss)
    ensures var name := Param(ss[i].key);
            EarnsAt(o, bus, ss, i)
            <==> o.accepts(Run(o, bus, ss[..i]).bus.calls) && Stirs(o, ss[i], Direct(bus.params, name), Look(bus.params, name))
  {
    hide Run, Direct, Param, Stirs, Earns, WanKey;
    assert !WanKey(Param(ss[i].key));
    FoundUntouched(o, bus, ss, i);
    OwnStep(o, Run(o, bus, ss[..i]).bus, ss[i]);
  }

  /** The calls of a prefix and its next step are calls of the whole run. */
  lemma {:induction false} CallsWithin(o: Oracle, bus: Bus, ss: seq<Setting>, i: nat)
    requires i < |ss|
    ensures bus.calls <= Run(o, bus, ss[..i]).bus.calls <= Step(o, Run(o, bus, ss[..i]).bus, ss[i]).bus.calls
    ensures Step(o, Run(o, bus, ss[..i]).bus, ss[i]).bus.calls <= Run(o, bus, ss).bus.calls
    decreases |ss|
  {
    hide Step;
    CallsGrow(o, bus, ss[..i]);
    StepCalls(o, Run(o, bus, ss[..i]).bus, ss[i]);
    if i < |ss| - 1 {
      var n := |ss| - 1;
      assert ss[..n][..i] == ss[..i];
      CallsWithin(o, bus, ss[..n], i);
      StepCalls(o, Run(o, bus, ss[..n]).bus, ss[n]);
    }
  }

  /** The i-th setting is the last to touch its parameter. */
  lemma {:induction false} LeftAlone(o: Oracle, bus: Bus, ss: seq<Setting>, i: nat)
    requires i < |ss| && Undriven(ss) && SetOnce(ss)
    ensures Same(Step(o, Run(o, bus, ss[..i]).bus, ss[i]).bus.params, Run(o, bus, ss).bus.params, Param(ss[i].key))
    decreases |ss|
  {
    hide Step, Param;
    var n := |ss| - 1;
    if i < n {
      assert ss[..n][..i] == ss[..i];
      LeftAlone(o, bus, ss[..n], i);
      assert !WanKey(Param(ss[i].key)) && Param(ss[i].key) != Param(ss[n].key);
      StepFrame(o, Run(o, bus, ss[..n]).bus, ss[n], Param(ss[i].key));
    }
  }

  /** The first pass as a whole: a parameter with a setting ends stepped, or, where its set is refused, as it was. */
  lemma SettingLeaves(o: Oracle, bus: Bus, ss: seq<Setting>, i: nat)
    requires i < |ss| && Undriven(ss) && SetOnce(ss)
    ensures var name := Param(ss[i].key);
            var before, after := Look(bus.params, name), Look(Run(o, bus, ss).bus.params, name);
            && (after == before || after == Stepped(o, ss[i], Direct(bus.params, name), before))
            && (Accepted(o, bus.calls, Run(o, bus, ss).bus.calls) ==>
                  after == Stepped(o, ss[i], Direct(bus.params, name), before))
  {
    hide Run, Step, Direct, Param, Stepped, Stirs, WanKey, Earns;
    assert !WanKey(Param(ss[i].key));
    FoundUntouched(o, bus, ss, i);
    OwnStep(o, Run(o, bus, ss[..i]).bus, ss[i]);
    LeftAlone(o, bus, ss, i);
    CallsWithin(o, bus, ss, i);
  }

  /*** Through the second pass ***/

  function Mapped(o: Oracle, kv: Store, name: string, v: Option<Value>): Option<Value> {
    if name in kv && v.Some? && Tried(o, v.value, name, kv[name]) && Convert(o, v.value, kv[name]).Some?
    then Convert(o, v.value, kv[name])
    else v
  }

  /** An entry whose text is no value of its parameter's type, met with this value. */
  predicate Breaks(o: Oracle, kv: Store, name: string, v: Option<Value>) {
    name in kv && v.Some? && Tried(o, v.value, name, kv[name]) && Convert(o, v.value, kv[name]).None?
  }

  lemma MapOther(o: Oracle, bus: Bus, key: string, text: string, name: string)
    requires name != key
    ensures Same(bus.params, MapStep(o, bus, key, text).bus.params, name)
  {
    hide Convert, Tried;
  }

  lemma MapOwn(o: Oracle, bus: Bus, kv: Store, key: string)
    requires key in kv
    ensures var before, step := Look(bus.params, key), MapStep(o, bus, key, kv[key]);
            var after := Look(step.bus.params, key);
            && (step.crashed <==> Breaks(o, kv, key, before))
            && (after == before || after == Mapped(o, kv, key, before))
            && (Accepted(o, bus.calls, step.bus.calls) ==> after == Mapped(o, kv, key, before))
            && bus.calls <= step.bus.calls
  {
    hide Convert, Tried;
  }

  /** The map's keys so far: listed in the map, none twice. */
  predicate Listed(kv: Store, keys: seq<string>) {
    (forall i :: 0 <= i < |keys| ==> keys[i] in kv) && forall i, j :: 0 <= i < j < |keys| ==> keys[i] != keys[j]
  }

  lemma OrderIsListed(o: Oracle, kv: Store)
    requires XconfDatabase.InMapOrder(o.order(kv), kv)
    ensures Listed(kv, o.order(kv)) && forall key :: key in o.order(kv) <==> key in kv
  {
    hide XconfDatabase.Before;
    var keys := o.order(kv);
    forall i, j | 0 <= i < j < |keys|
      ensures keys[i] != keys[j]
    {
      XconfDatabase.SortedAreDistinct(keys, i, j);
    }
  }

  /**
   * The second pass as a whole: it crashes exactly if some entry breaks on the value its parameter began with; a key
   * it does not list stays; and one it lists ends mapped, or, where its set is refused or a crash came first, as it was.
   */
  lemma {:induction false} MapLeaves(o: Oracle, bus: Bus, kv: Store, keys: seq<string>, name: string)
    requires Listed(kv, keys)
    ensures var pass := MapPass(o, bus, kv, keys);
            var before, after := Look(bus.params, name), Look(pass.bus.params, name);
            && bus.calls <= pass.bus.calls
            && (name !in keys ==> after == before)
            && (after == before || after == Mapped(o, kv, name, before))
            && (name in keys && !pass.crashed && Accepted(o, bus.calls, pass.bus.calls) ==> after == Mapped(o, kv, name, before))
    decreases |keys|
  {
    hide MapStep, Mapped, Breaks;
    if keys != [] {
      var n := |keys| - 1;
      var init, last := keys[..n], keys[n];
      MapLeaves(o, bus, kv, init, name);
      MapLeaves(o, bus, kv, init, last);
      var prior := MapPass(o, bus, kv, init);
      MapOwn(o, prior.bus, kv, last);
      if name != last {
        MapOther(o, prior.bus, last, kv[last], name);
      }
    }
  }

  ghost predicate SomeBreak(o: Oracle, kv: Store, keys: seq<string>, params: Params) {
    exists i :: 0 <= i < |keys| && Breaks(o, kv, keys[i], Look(params, keys[i]))
  }

  lemma {:induction false} MapCrashes(o: Oracle, bus: Bus, kv: Store, keys: seq<string>)
    requires Listed(kv, keys)
    ensures MapPass(o, bus, kv, keys).crashed <==> SomeBreak(o, kv, keys, bus.params)
    decreases |keys|
  {
    hide MapStep, Breaks;
    if keys != [] {
      var n := |keys| - 1;
      var init, last := keys[..n], keys[n];
      MapCrashes(o, bus, kv, init);
      MapLeaves(o, bus, kv, init, last);
      assert last !in init;
      MapOwn(o, MapPass(o, bus, kv, init).bus, kv, last);
      assert forall i :: 0 <= i < n ==> init[i] == keys[i];
    }
  }

  /*** Types stay what they are ***/

  predicate KindKept(a: Option<Value>, b: Option<Value>) {
    (a.Some? <==> b.Some?) && (a.Some? ==> SameKind(a.value, b.value))
  }

  lemma ConvertKeepsKind(o: Oracle, v: Value, text: string)
    ensures Convert(o, v, text).Some? ==> SameKind(v, Convert(o, v, text).value)
  {
    ConvertByKind(o, v, v, text);
  }

  lemma SteppedKind(o: Oracle, s: Setting, direct: bool, v: Option<Value>)
    ensures KindKept(v, Stepped(o, s, direct, v))
  {
    hide Convert, Show, RfcText.Contains, Param;
    if v.Some? {
      ConvertKeepsKind(o, v.value, s.value);
    }
  }

  lemma MappedKind(o: Oracle, kv: Store, name: string, v: Option<Value>)
    ensures KindKept(v, Mapped(o, kv, name, v))
  {
    hide Convert, Tried;
    if v.Some? && name in kv {
      ConvertKeepsKind(o, v.value, kv[name]);
    }
  }

  /** A text that does not convert is never the one read. */
  lemma NoConversionIsTried(o: Oracle, v: Value, text: string)
    requires Convert(o, v, text).None?
    ensures ReadText(v) != Some(text)
  {
    hide Stoi, Stoul, Stoll, ToString;
    if v.Int32? {
      StoiOfToString(v.number);
    }
  }

  /** So whether an entry breaks is a matter of its parameter's type. */
  lemma BreaksByKind(o: Oracle, kv: Store, name: string, v: Option<Value>, w: Option<Value>)
    requires KindKept(v, w)
    ensures Breaks(o, kv, name, v) == Breaks(o, kv, name, w)
  {
    hide Convert, ReadText, RfcText.Contains, NAMESPACE, XCONF_URL;
    if name in kv && v.Some? {
      ConvertByKind(o, v.value, w.value, kv[name]);
      if Convert(o, v.value, kv[name]).None? {
        NoConversionIsTried(o, v.value, kv[name]);
        NoConversionIsTried(o, w.value, kv[name]);
      }
    }
  }

  /** The first pass keeps the type of every parameter but the WAN interfaces. */
  lemma {:induction false} RunKind(o: Oracle, bus: Bus, ss: seq<Setting>, name: string)
    requires Undriven(ss) && !WanKey(name)
    ensures KindKept(Look(bus.params, name), Look(Run(o, bus, ss).bus.params, name))
    decreases |ss|
  {
    hide Step, Param, WanKey, Stepped, Stirs, Direct, Earns;
    if ss != [] {
      var n := |ss| - 1;
      RunKind(o, bus, ss[..n], name);
      var prior := Run(o, bus, ss[..n]).bus;
      if Param(ss[n].key) == name {
        OwnStep(o, prior, ss[n]);
        SteppedKind(o, ss[n], Direct(prior.params, name), Look(prior.params, name));
      } else {
        NoInterface(name);
        StepFrame(o, prior, ss[n], name);
      }
    }
  }

  lemma NoInterface(name: string)
    requires !WanKey(name)
    ensures name != DOCSIS && name != ETHERNET
  {
  }

  /*** The whole run ***/

  lemma ResetFrame(o: Oracle, bus: Bus, name: string)
    ensures !SupportFlag(name) ==> Same(bus.params, Reset(o, bus).params, name)
    ensures SupportFlag(name) && Accepted(o, bus.calls, bus.calls + 2) ==> Look(Reset(o, bus).params, name) == Some(Bool(false))
    ensures SupportFlag(name) && Look(bus.params, name) == Some(Bool(false)) ==>
              Look(Reset(o, bus).params, name) == Some(Bool(false))
    ensures Reset(o, bus).calls == bus.calls + 2
  {
    hide CODEBIG, CONTAINER;
  }

  lemma ResetKeepsSwitches(o: Oracle, bus: Bus, name: string)
    ensures Same(bus.params, Reset(o, bus).params, FAIL_OVER) && Same(bus.params, Reset(o, bus).params, UNIFICATION)
    ensures Direct(Reset(o, bus).params, name) == Direct(bus.params, name)
  {
    SwitchesAreApart();
    hide FAIL_OVER, UNIFICATION, CODEBIG, CONTAINER, Skipped, Redirected, Reset;
    ResetFrame(o, bus, FAIL_OVER);
    ResetFrame(o, bus, UNIFICATION);
    SameSwitch(bus.params, Reset(o, bus).params, name);
  }

  /** What one run with every set accepted makes of a parameter that has a setting. */
  function Final(o: Oracle, kv: Store, params: Params, s: Setting): Option<Value> {
    var name := Param(s.key);
    Mapped(o, kv, name, Stepped(o, s, Direct(params, name), Look(params, name)))
  }

  lemma ProcessCalls(o: Oracle, bus: Bus, fs: seq<Feature>)
    requires Configuration(o, fs)
    ensures bus.calls + 2 == Reset(o, bus).calls <= Settings(o, bus, fs).bus.calls <= Process(o, bus, fs).bus.calls
  {
    hide Run, SettingsOf, Reset, MapPass, XconfProtocol.ConfigMap, Undriven, SetOnce, WanKey;
    var kv := XconfProtocol.ConfigMap(fs);
    ResetFrame(o, bus, CODEBIG);
    CallsGrow(o, Reset(o, bus), SettingsOf(fs));
    OrderIsListed(o, kv);
    MapLeaves(o, Settings(o, bus, fs).bus, kv, o.order(kv), CODEBIG);
  }

  /** A parameter without a setting sees the second pass only. */
  lemma UnsetLeaves(o: Oracle, bus: Bus, fs: seq<Feature>, name: string)
    requires Configuration(o, fs) && !WanKey(name) && forall j :: 0 <= j < |SettingsOf(fs)| ==> Param(SettingsOf(fs)[j].key) != name
    ensures var kv, r := XconfProtocol.ConfigMap(fs), Process(o, bus, fs);
            var before, after := Look(Reset(o, bus).params, name), Look(r.bus.params, name);
            && (after == before || after == Mapped(o, kv, name, before))
            && (!r.crashed && Accepted(o, bus.calls, r.bus.calls) ==> after == Mapped(o, kv, name, before))
  {
    hide Run, SettingsOf, Reset, MapPass, XconfProtocol.ConfigMap, Param, Tried, Convert;
    var kv, ss := XconfProtocol.ConfigMap(fs), SettingsOf(fs);
    ProcessCalls(o, bus, fs);
    OrderIsListed(o, kv);
    RunKeeps(o, Reset(o, bus), ss, name);
    MapLeaves(o, Settings(o, bus, fs).bus, kv, o.order(kv), name);
  }

  /** A parameter with a setting, by that setting and the second pass; a support flag from the value it was reset to. */
  lemma SettingApplied(o: Oracle, bus: Bus, fs: seq<Feature>, i: nat)
    requires Configuration(o, fs) && i < |SettingsOf(fs)|
    ensures var kv, s, r := XconfProtocol.ConfigMap(fs), SettingsOf(fs)[i], Process(o, bus, fs);
            !r.crashed && Accepted(o, bus.calls, r.bus.calls) ==>
              Look(r.bus.params, Param(s.key)) == Final(o, kv, Reset(o, bus).params, s)
  {
    hide Run, SettingsOf, Reset, MapPass, XconfProtocol.ConfigMap, Param, Tried, Convert, WanKey, Stepped, Direct;
    var kv, ss := XconfProtocol.ConfigMap(fs), SettingsOf(fs);
    ProcessCalls(o, bus, fs);
    OrderIsListed(o, kv);
    SettingLeaves(o, Reset(o, bus), ss, i);
    MapLeaves(o, Settings(o, bus, fs).bus, kv, o.order(kv), Param(ss[i].key));
  }

  /**
   * A run crashes exactly if the map names a known parameter whose type cannot take its text, the server URL apart when it
   * does not answer: told from the bus before the run.
   */
  lemma CrashExactly(o: Oracle, bus: Bus, fs: seq<Feature>)
    requires Configuration(o, fs)
    ensures var kv := XconfProtocol.ConfigMap(fs);
            Process(o, bus, fs).crashed <==> SomeBreak(o, kv, o.order(kv), Reset(o, bus).params)
  {
    hide Run, SettingsOf, Reset, MapPass, XconfProtocol.ConfigMap, Breaks, WanKey;
    var kv, ss := XconfProtocol.ConfigMap(fs), SettingsOf(fs);
    var keys, start, mid := o.order(kv), Reset(o, bus), Settings(o, bus, fs).bus;
    OrderIsListed(o, kv);
    MapCrashes(o, mid, kv, keys);
    forall i | 0 <= i < |keys|
      ensures Breaks(o, kv, keys[i], Look(start.params, keys[i])) == Breaks(o, kv, keys[i], Look(mid.params, keys[i]))
    {
      assert keys[i] in kv;
      RunKind(o, start, ss, keys[i]);
      BreaksByKind(o, kv, keys[i], Look(start.params, keys[i]), Look(mid.params, keys[i]));
    }
  }

  /** A setting of the reply that stirs on the bus as the reset left it. */
  ghost predicate SomeStirs(o: Oracle, params: Params, ss: seq<Setting>) {
    exists i :: 0 <= i < |ss| && Stirs(o, ss[i], Direct(params, Param(ss[i].key)), Look(params, Param(ss[i].key)))
  }

  /** With every set accepted, a run asks for a reboot exactly if it does not crash and some setting stirs. */
  lemma ProcessReboots(o: Oracle, bus: Bus, fs: seq<Feature>)
    requires Configuration(o, fs)
    ensures Process(o, bus, fs).reboot ==> !Process(o, bus, fs).crashed && SomeStirs(o, Reset(o, bus).params, SettingsOf(fs))
    ensures Accepted(o, bus.calls, Process(o, bus, fs).bus.calls) ==>
              (Process(o, bus, fs).reboot <==> !Process(o, bus, fs).crashed && SomeStirs(o, Reset(o, bus).params, SettingsOf(fs)))
  {
    hide Run, SettingsOf, Reset, MapPass, XconfProtocol.ConfigMap, Stirs, Direct, Param, EarnsAt, WanKey;
    var ss, start := SettingsOf(fs), Reset(o, bus);
    ProcessCalls(o, bus, fs);
    RebootExactly(o, start, ss);
    forall i | 0 <= i < |ss|
      ensures EarnsAt(o, start, ss, i) ==> Stirs(o, ss[i], Direct(start.params, Param(ss[i].key)), Look(start.params, Param(ss[i].key)))
      ensures Accepted(o, bus.calls, Process(o, bus, fs).bus.calls) ==>
        (EarnsAt(o, start, ss, i) <==> Stirs(o, ss[i], Direct(start.params, Param(ss[i].key)), Look(start.params, Param(ss[i].key))))
    {
      EarnsFromStart(o, start, ss, i);
      CallsWithin(o, start, ss, i);
      StirsCalls(o, start, ss, i);
    }
  }

  /** A setting that stirs makes a call, so that call is one of the run's. */
  lemma StirsCalls(o: Oracle, bus: Bus, ss: seq<Setting>, i: nat)
    requires i < |ss| && Undriven(ss) && SetOnce(ss)
    ensures Stirs(o, ss[i], Direct(bus.params, Param(ss[i].key)), Look(bus.params, Param(ss[i].key))) ==>
              Run(o, bus, ss[..i]).bus.calls < Run(o, bus, ss).bus.calls
  {
    hide Run, Direct, Param, Stirs, Earns, WanKey;
    assert !WanKey(Param(ss[i].key));
    FoundUntouched(o, bus, ss, i);
    OwnStep(o, Run(o, bus, ss[..i]).bus, ss[i]);
    CallsWithin(o, bus, ss, i);
  }
}
