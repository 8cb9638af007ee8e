/** Processing the same reply again: exactly which configurations ask for a reboot once more. */
module RdkbReplay {
  import opened Wrappers
  import opened IniFile
  import opened Decimal
  import opened RdkbSettings
  import opened RdkbRun
  import XconfProtocol
  import XconfDatabase
  import RfcText

  /*** One parameter from run to run ***/

  function OneRun(o: Oracle, kv: Store, s: Setting, direct: bool, v: Option<Value>): Option<Value> {
    Mapped(o, kv, Param(s.key), Stepped(o, s, direct, v))
  }

  lemma ConvertAgain(o: Oracle, v: Value, text: string)
    requires Convert(o, v, text).Some?
    ensures Convert(o, Convert(o, v, text).value, text) == Convert(o, v, text)
  {
    ConvertByKind(o, v, v, text);
    ConvertByKind(o, v, Convert(o, v, text).value, text);
  }

  /** A value the second pass can read, met with the text it prints, is made of that text again. */
  lemma PrintedIsMadeAgain(o: Oracle, v: Value)
    requires ReadText(v).Some? && Convert(o, v, Show(o, v)).Some?
    ensures Convert(o, v, Show(o, v)) == Some(v)
  {
    hide Stoi, Stoul, Stoll, ToString;
    if v.Int32? {
      StoiOfToString(v.number);
    }
  }

  /** Mapping twice is mapping once. */
  lemma MappedAgain(o: Oracle, kv: Store, name: string, v: Option<Value>)
    ensures Mapped(o, kv, name, Mapped(o, kv, name, v)) == Mapped(o, kv, name, v)
  {
    hide Convert, Tried;
    if v.Some? && name in kv && Convert(o, v.value, kv[name]).Some? {
      ConvertAgain(o, v.value, kv[name]);
    }
  }

  /** Whether an entry is tried on a value that cannot be read back depends on the entry alone. */
  lemma TriedUnread(o: Oracle, v: Value, w: Value, key: string, text: string)
    requires ReadText(v).None? && ReadText(w).None? && (v.Other? <==> w.Other?)
    ensures Tried(o, v, key, text) == Tried(o, w, key, text)
  {
    hide RfcText.Contains, NAMESPACE, XCONF_URL;
  }

  /**
   * What a setting makes of its parameter's type, if it reaches it: a second value the parameter can have, next to
   * the one a run leaves.
   */
  function Made(o: Oracle, s: Setting, direct: bool, v: Option<Value>): Option<Value> {
    if direct && v.Some? && Handled(v.value) then Convert(o, v.value, s.value) else None
  }

  /** The two values are one, or the second pass makes the same of both. */
  lemma MadeIsMapped(o: Oracle, kv: Store, s: Setting, direct: bool, v: Option<Value>)
    requires Made(o, s, direct, v).Some? && !Breaks(o, kv, Param(s.key), v)
    ensures var made, name := Made(o, s, direct, v), Param(s.key);
            || Mapped(o, kv, name, made) == OneRun(o, kv, s, direct, v)
            || (&& Mapped(o, kv, name, made) == made && Stepped(o, s, direct, v) == v == OneRun(o, kv, s, direct, v)
                && Show(o, v.value) == s.value && !RfcText.Contains(name, NAMESPACE))
  {
    hide Convert, Show, ReadText, RfcText.Contains, NAMESPACE, XCONF_URL, Param;
    var made, name := Made(o, s, direct, v), Param(s.key);
    if Stepped(o, s, direct, v) != made {
      if ReadText(v.value).Some? {
        PrintedIsMadeAgain(o, v.value);
      } else {
        ConvertKeepsKind(o, v.value, s.value);
        KindReads(v.value, made.value);
        if name in kv {
          TriedUnread(o, v.value, made.value, name, kv[name]);
          ConvertByKind(o, v.value, made.value, kv[name]);
        }
      }
    }
  }

  lemma KindReads(v: Value, w: Value)
    requires SameKind(v, w)
    ensures ReadText(v).Some? <==> ReadText(w).Some?
  {
  }

  /** A second run leaves a parameter as the first did. */
  lemma RunTwice(o: Oracle, kv: Store, s: Setting, direct: bool, v: Option<Value>)
    requires !Breaks(o, kv, Param(s.key), v)
    ensures OneRun(o, kv, s, direct, OneRun(o, kv, s, direct, v)) == OneRun(o, kv, s, direct, v)
  {
    hide Convert, Show, RfcText.Contains, NAMESPACE, Param, Tried;
    var name := Param(s.key);
    var w := OneRun(o, kv, s, direct, v);
    MappedAgain(o, kv, name, Stepped(o, s, direct, v));
    MadeOfKind(o, kv, s, direct, v);
    if Stepped(o, s, direct, w) != w {
      MadeIsMapped(o, kv, s, direct, v);
    }
  }

  lemma MadeOfKind(o: Oracle, kv: Store, s: Setting, direct: bool, v: Option<Value>)
    ensures var w := OneRun(o, kv, s, direct, v);
            KindKept(v, w) && Made(o, s, direct, w) == Made(o, s, direct, v)
  {
    hide Convert, Mapped, Stepped, Param;
    var a := Stepped(o, s, direct, v);
    SteppedKind(o, s, direct, v);
    MappedKind(o, kv, Param(s.key), a);
    var w := OneRun(o, kv, s, direct, v);
    if v.Some? {
      ConvertByKind(o, v.value, w.value, s.value);
    }
  }

  /*** Which settings ask again ***/

  /**
   * A setting that asks for a reboot every time, told from the bus before the first run: a support flag with a text
   * other than "false" and immediate effect, or a setting that stirs on the value a whole run leaves its parameter
   * with, be it that its own text is not read back as itself or that the map holds another one.
   */
  predicate Noisy(o: Oracle, kv: Store, params: Params, s: Setting) {
    var name := Param(s.key);
    if SupportFlag(name) then s.immediate && s.value != "false"
    else Stirs(o, s, Direct(params, name), Final(o, kv, params, s))
  }

  ghost predicate SomeNoisy(o: Oracle, kv: Store, params: Params, ss: seq<Setting>) {
    exists i :: 0 <= i < |ss| && Noisy(o, kv, params, ss[i])
  }

  /**
   * A setting that asks for none, whichever sets fail: it stirs neither on that value nor on the one it makes itself, and
   * a flag it switches off is not switched on by the map.
   */
  predicate Calm(o: Oracle, kv: Store, params: Params, s: Setting) {
    var name := Param(s.key);
    var direct := Direct(params, name);
    if SupportFlag(name) then !s.immediate || (s.value == "false" && (name in kv ==> kv[name] != "true" && kv[name] != "1"))
    else !Stirs(o, s, direct, Final(o, kv, params, s)) && !Stirs(o, s, direct, Made(o, s, direct, Look(params, name)))
  }

  lemma UnsignedIsMadeAgain(o: Oracle, n: uint32)
    ensures Convert(o, UInt32(n), ToString(n)) == Some(UInt32(n))
  {
    StoulOfToString(n);
    hide Stoul, ToString;
  }

  /** Numbers and flags are never printed as unknown. */
  lemma NeverUnknown(o: Oracle, v: Value)
    requires v.Bool? || v.Int32? || v.UInt32?
    ensures Show(o, v) != "unknown" && Show(o, v) != "Unknown"
  {
    if !v.Bool? {
      var n := if v.Int32? then v.number else v.count;
      var digits := NatToString(if n < 0 then -n else n);
      assert IsDigit(digits[0]);
      assert Show(o, v)[0] == if n < 0 then '-' else digits[0];
    }
  }

  /** Floating parameters apart, being calm is no more than not being noisy. */
  lemma CalmUnlessFloating(o: Oracle, kv: Store, params: Params, s: Setting)
    requires !SupportFlag(Param(s.key)) && !Noisy(o, kv, params, s)
    requires Param(s.key) in params ==> !params[Param(s.key)].Floating?
    ensures Calm(o, kv, params, s)
  {
    hide Convert, Mapped, Stepped, Param, SupportFlag, Skipped, Redirected, PARTNER, ReadText, Show;
    var name := Param(s.key);
    var direct, v := Direct(params, name), Look(params, name);
    var made, w := Made(o, s, direct, v), Final(o, kv, params, s);
    MadeOfKind(o, kv, s, direct, v);
    if made.Some? {
      ConvertKeepsKind(o, v.value, s.value);
      ShowsMade(o, v.value, s.value);
      if Show(o, w.value) == s.value {
        ShowsAgain(o, w.value);
      }
    }
  }

  /** A text made into a value prints as itself, or not as unknown. */
  lemma ShowsMade(o: Oracle, v: Value, text: string)
    requires Handled(v) && !v.Floating? && Convert(o, v, text).Some?
    ensures Show(o, Convert(o, v, text).value) == text
         || (Show(o, Convert(o, v, text).value) != "unknown" && Show(o, Convert(o, v, text).value) != "Unknown")
  {
    hide Stoi, Stoul, Stoll, ToString;
    if !v.Str? {
      NeverUnknown(o, Convert(o, v, text).value);
    }
  }

  lemma ShowsAgain(o: Oracle, v: Value)
    requires Handled(v) && !v.Floating? && Convert(o, v, Show(o, v)).Some?
    ensures Convert(o, v, Show(o, v)) == Some(v)
  {
    hide Convert, ToString;
    if v.UInt32? {
      UnsignedIsMadeAgain(o, v.count);
    } else {
      PrintedIsMadeAgain(o, v);
    }
  }

  /** A canonical text that the map holds too, if it names the parameter, is calm, for every type. */
  lemma CanonicalIsCalm(o: Oracle, kv: Store, params: Params, s: Setting)
    requires !SupportFlag(Param(s.key)) && Canonical(o, params, s) && (Param(s.key) in kv ==> kv[Param(s.key)] == s.value)
    ensures Calm(o, kv, params, s)
  {
    hide Param, Convert, Show, Tried, SupportFlag, Skipped, Redirected, RfcText.Contains, NAMESPACE, UnknownPartner;
    var v := Look(params, Param(s.key));
    if v.Some? && Handled(v.value) && Convert(o, v.value, s.value).Some? {
      ConvertAgain(o, v.value, s.value);
    }
    if v.Some? {
      HandledByKind(o, v.value, s.value);
    }
  }

  lemma HandledByKind(o: Oracle, v: Value, text: string)
    ensures Convert(o, v, text).Some? ==> Handled(Convert(o, v, text).value) == Handled(v)
  {
    hide Convert;
    ConvertKeepsKind(o, v, text);
  }

  /** The bus after the same reply was processed n times. */
  function Replays(o: Oracle, bus: Bus, fs: seq<Feature>, n: nat): Bus {
    if n == 0 then bus else Process(o, Replays(o, bus, fs, n - 1), fs).bus
  }

  /** The bus after a first run and n replays. */
  function Later(o: Oracle, bus: Bus, fs: seq<Feature>, n: nat): Bus {
    Replays(o, Process(o, bus, fs).bus, fs, n)
  }

  lemma LaterUnfolds(o: Oracle, bus: Bus, fs: seq<Feature>, n: nat)
    ensures Later(o, bus, fs, 0) == Process(o, bus, fs).bus
    ensures Later(o, bus, fs, n + 1) == Process(o, Later(o, bus, fs, n), fs).bus
  {
    hide Process;
  }

  lemma {:induction false} LaterCalls(o: Oracle, bus: Bus, fs: seq<Feature>, n: nat)
    requires Configuration(o, fs)
    ensures bus.calls <= Process(o, bus, fs).bus.calls <= Later(o, bus, fs, n).calls
  {
    hide Process, Later, Configuration;
    LaterUnfolds(o, bus, fs, 0);
    ProcessCalls(o, bus, fs);
    if n > 0 {
      LaterCalls(o, bus, fs, n - 1);
      LaterUnfolds(o, bus, fs, n - 1);
      ProcessCalls(o, Later(o, bus, fs, n - 1), fs);
    }
  }

  /*** Crashes come again ***/

  lemma ProcessKind(o: Oracle, bus: Bus, fs: seq<Feature>, name: string)
    requires Configuration(o, fs) && !WanKey(name)
    ensures KindKept(Look(Reset(o, bus).params, name), Look(Process(o, bus, fs).bus.params, name))
  {
    hide Run, SettingsOf, Reset, MapPass, XconfProtocol.ConfigMap, Mapped, SetOnce, WanKey;
    var kv, mid := XconfProtocol.ConfigMap(fs), Settings(o, bus, fs).bus;
    OrderIsListed(o, kv);
    RunKind(o, Reset(o, bus), SettingsOf(fs), name);
    MapLeaves(o, mid, kv, o.order(kv), name);
    MappedKind(o, kv, name, Look(mid.params, name));
  }

  lemma ResetOr(o: Oracle, bus: Bus, name: string)
    ensures Same(bus.params, Reset(o, bus).params, name) || (SupportFlag(name) && Look(Reset(o, bus).params, name) == Some(Bool(false)))
  {
    hide CODEBIG, CONTAINER;
  }

  /** The types a later run finds are those the first found, once the flags have been switched off. */
  lemma {:induction false} LaterKind(o: Oracle, bus: Bus, fs: seq<Feature>, n: nat, name: string)
    requires Configuration(o, fs) && !WanKey(name) && Accepted(o, bus.calls, bus.calls + 2)
    ensures KindKept(Look(Reset(o, bus).params, name), Look(Reset(o, Later(o, bus, fs, n)).params, name))
  {
    hide Process, Later, Configuration, Reset, WanKey, SupportFlag;
    LaterUnfolds(o, bus, fs, 0);
    ResetFrame(o, bus, name);
    ResetOr(o, Later(o, bus, fs, n), name);
    if n == 0 {
      ProcessKind(o, bus, fs, name);
    } else {
      LaterKind(o, bus, fs, n - 1, name);
      LaterUnfolds(o, bus, fs, n - 1);
      ProcessKind(o, Later(o, bus, fs, n - 1), fs, name);
    }
  }

  ghost predicate Crashing(o: Oracle, bus: Bus, fs: seq<Feature>) {
    var kv := XconfProtocol.ConfigMap(fs);
    SomeBreak(o, kv, o.order(kv), Reset(o, bus).params)
  }

  /** A reply that crashes one run crashes every later one, and none of them gets to scheduling a reboot. */
  lemma CrashesEveryTime(o: Oracle, bus: Bus, fs: seq<Feature>, n: nat)
    requires Configuration(o, fs) && Accepted(o, bus.calls, bus.calls + 2)
    ensures Process(o, bus, fs).crashed <==> Crashing(o, bus, fs)
    ensures Process(o, Later(o, bus, fs, n), fs).crashed <==> Crashing(o, bus, fs)
  {
    hide Process, Later, Reset, XconfProtocol.ConfigMap, Breaks, Undriven, SetOnce, WanKey;
    var kv, later := XconfProtocol.ConfigMap(fs), Later(o, bus, fs, n);
    var keys := o.order(kv);
    CrashExactly(o, bus, fs);
    CrashExactly(o, later, fs);
    OrderIsListed(o, kv);
    forall i | 0 <= i < |keys|
      ensures Breaks(o, kv, keys[i], Look(Reset(o, bus).params, keys[i])) == Breaks(o, kv, keys[i], Look(Reset(o, later).params, keys[i]))
    {
      assert keys[i] in kv;
      LaterKind(o, bus, fs, n, keys[i]);
      BreaksByKind(o, kv, keys[i], Look(Reset(o, bus).params, keys[i]), Look(Reset(o, later).params, keys[i]));
    }
  }

  lemma NoBreak(o: Oracle, bus: Bus, fs: seq<Feature>, name: string)
    requires Configuration(o, fs) && !Crashing(o, bus, fs) && !SupportFlag(name)
    ensures !Breaks(o, XconfProtocol.ConfigMap(fs), name, Look(bus.params, name))
  {
    hide Reset, XconfProtocol.ConfigMap, SupportFlag, WanKey, Undriven, SetOnce, Tried, Convert;
    var kv := XconfProtocol.ConfigMap(fs);
    ResetFrame(o, bus, name);
    OrderIsListed(o, kv);
    if name in kv {
      var i :| 0 <= i < |o.order(kv)| && o.order(kv)[i] == name;
    }
  }

  /*** What later runs find ***/

  lemma ProcessKeepsSwitches(o: Oracle, bus: Bus, fs: seq<Feature>, name: string)
    requires Configuration(o, fs)
    ensures Direct(Process(o, bus, fs).bus.params, name) == Direct(bus.params, name)
  {
    hide Run, SettingsOf, Reset, MapPass, XconfProtocol.ConfigMap, Mapped, SetOnce, FAIL_OVER, UNIFICATION, Skipped, Redirected;
    var kv, mid := XconfProtocol.ConfigMap(fs), Settings(o, bus, fs).bus;
    ResetKeepsSwitches(o, bus, name);
    RunKeepsSwitches(o, Reset(o, bus), SettingsOf(fs), name);
    OrderIsListed(o, kv);
    assert WanKey(FAIL_OVER) && WanKey(UNIFICATION);
    MapLeaves(o, mid, kv, o.order(kv), FAIL_OVER);
    MapLeaves(o, mid, kv, o.order(kv), UNIFICATION);
    SameSwitch(mid.params, Process(o, bus, fs).bus.params, name);
  }

  lemma {:induction false} LaterDirect(o: Oracle, bus: Bus, fs: seq<Feature>, n: nat, name: string)
    requires Configuration(o, fs)
    ensures Direct(Reset(o, Later(o, bus, fs, n)).params, name) == Direct(bus.params, name)
  {
    hide Process, Later, Configuration, Reset, Direct;
    LaterUnfolds(o, bus, fs, 0);
    ResetKeepsSwitches(o, Later(o, bus, fs, n), name);
    if n == 0 {
      ProcessKeepsSwitches(o, bus, fs, name);
    } else {
      LaterDirect(o, bus, fs, n - 1, name);
      ResetKeepsSwitches(o, Later(o, bus, fs, n - 1), name);
      LaterUnfolds(o, bus, fs, n - 1);
      ProcessKeepsSwitches(o, Later(o, bus, fs, n - 1), fs, name);
    }
  }

  /** With every set accepted, the first run and every later one leave the same value. */
  lemma {:induction false} LaterValue(o: Oracle, bus: Bus, fs: seq<Feature>, n: nat, i: nat)
    requires Configuration(o, fs) && !Crashing(o, bus, fs) && forall c: nat :: bus.calls <= c ==> o.accepts(c)
    requires i < |SettingsOf(fs)| && !SupportFlag(Param(SettingsOf(fs)[i].key))
    ensures var s := SettingsOf(fs)[i];
            Look(Later(o, bus, fs, n).params, Param(s.key)) == Final(o, XconfProtocol.ConfigMap(fs), bus.params, s)
  {
    hide Process, Later, Configuration, Reset, Direct, SettingsOf, XconfProtocol.ConfigMap, Param, SupportFlag, Mapped, Stepped, Crashing;
    var s, kv := SettingsOf(fs)[i], XconfProtocol.ConfigMap(fs);
    var name := Param(s.key);
    LaterUnfolds(o, bus, fs, 0);
    ResetFrame(o, bus, name);
    ResetKeepsSwitches(o, bus, name);
    if n == 0 {
      CrashesEveryTime(o, bus, fs, 0);
      SettingApplied(o, bus, fs, i);
    } else {
      var prior := Later(o, bus, fs, n - 1);
      LaterValue(o, bus, fs, n - 1, i);
      LaterUnfolds(o, bus, fs, n - 1);
      LaterCalls(o, bus, fs, n - 1);
      LaterDirect(o, bus, fs, n - 1, name);
      CrashesEveryTime(o, bus, fs, n - 1);
      SettingApplied(o, prior, fs, i);
      ResetFrame(o, prior, name);
      NoBreak(o, bus, fs, name);
      RunTwice(o, kv, s, Direct(bus.params, name), Look(bus.params, name));
    }
  }

  /** A support flag that was switched off stirs exactly for a text other than "false" with immediate effect. */
  lemma FlagStirs(o: Oracle, s: Setting, params: Params)
    requires SupportFlag(Param(s.key))
    ensures Direct(params, Param(s.key))
    ensures Stirs(o, s, true, Some(Bool(false))) <==> s.immediate && s.value != "false"
  {
    FlagsAreApart(Param(s.key));
    hide Param, SupportFlag, FAIL_OVER, UNIFICATION, UPNP, XUPNP, MODE, DOCSIS, ETHERNET, PARTNER, XCONF_URL;
  }

  /**
   * Replaying a configuration whose sets are all accepted asks for a reboot, every time, exactly if no entry of it
   * crashes the run and one of its settings is noisy: a condition on the reply and the bus before the first run.
   */
  lemma ReplayExactly(o: Oracle, bus: Bus, fs: seq<Feature>, n: nat)
    requires Configuration(o, fs) && forall c: nat :: bus.calls <= c ==> o.accepts(c)
    ensures Process(o, Later(o, bus, fs, n), fs).reboot
        <==> !Crashing(o, bus, fs) && SomeNoisy(o, XconfProtocol.ConfigMap(fs), bus.params, SettingsOf(fs))
  {
    hide Process, Later, Configuration, Reset, Direct, SettingsOf, XconfProtocol.ConfigMap, Param, SupportFlag, Final, Stirs, Crashing;
    var later, ss, kv := Later(o, bus, fs, n), SettingsOf(fs), XconfProtocol.ConfigMap(fs);
    LaterCalls(o, bus, fs, n);
    CrashesEveryTime(o, bus, fs, n);
    ProcessReboots(o, later, fs);
    ProcessCalls(o, later, fs);
    if !Crashing(o, bus, fs) {
      var params := Reset(o, later).params;
      forall i | 0 <= i < |ss|
        ensures Stirs(o, ss[i], Direct(params, Param(ss[i].key)), Look(params, Param(ss[i].key))) == Noisy(o, kv, bus.params, ss[i])
      {
        var name := Param(ss[i].key);
        ResetFrame(o, later, name);
        if SupportFlag(name) {
          FlagStirs(o, ss[i], params);
        } else {
          LaterDirect(o, bus, fs, n, name);
          LaterValue(o, bus, fs, n, i);
        }
      }
    }
  }

  /*** Quiet whichever sets fail ***/

  /** One of the two values a parameter can have once a first run went through. */
  predicate Near(o: Oracle, kv: Store, s: Setting, direct: bool, v: Option<Value>, w: Option<Value>) {
    w == OneRun(o, kv, s, direct, v) || (w.Some? && w == Made(o, s, direct, v))
  }

  /** Neither pass leads away from them, whether its set is accepted or not. */
  lemma NearKept(o: Oracle, kv: Store, s: Setting, direct: bool, v: Option<Value>, w: Option<Value>)
    requires !Breaks(o, kv, Param(s.key), v) && Near(o, kv, s, direct, v, w)
    ensures Near(o, kv, s, direct, v, Stepped(o, s, direct, w))
    ensures Near(o, kv, s, direct, v, Mapped(o, kv, Param(s.key), w))
  {
    hide Convert, Show, Param, Mapped, RfcText.Contains, NAMESPACE, Breaks;
    MadeOfKind(o, kv, s, direct, v);
    MappedAgain(o, kv, Param(s.key), Stepped(o, s, direct, v));
    if Made(o, s, direct, v).Some? {
      MadeIsMapped(o, kv, s, direct, v);
      ConvertKeepsKind(o, v.value, s.value);
      ConvertByKind(o, v.value, Made(o, s, direct, v).value, s.value);
    }
  }

  lemma ProcessNear(o: Oracle, bus: Bus, fs: seq<Feature>, i: nat, v: Option<Value>)
    requires Configuration(o, fs) && i < |SettingsOf(fs)| && !SupportFlag(Param(SettingsOf(fs)[i].key))
    requires var s, kv := SettingsOf(fs)[i], XconfProtocol.ConfigMap(fs);
             var direct := Direct(bus.params, Param(s.key));
             !Breaks(o, kv, Param(s.key), v) && Near(o, kv, s, direct, v, Look(bus.params, Param(s.key)))
    ensures var s, kv := SettingsOf(fs)[i], XconfProtocol.ConfigMap(fs);
            Near(o, kv, s, Direct(bus.params, Param(s.key)), v, Look(Process(o, bus, fs).bus.params, Param(s.key)))
  {
    hide Run, SettingsOf, Reset, MapPass, XconfProtocol.ConfigMap, Param, Direct, Near, Breaks, Stepped, Mapped, SupportFlag, WanKey;
    var s, kv := SettingsOf(fs)[i], XconfProtocol.ConfigMap(fs);
    var name := Param(s.key);
    var direct, mid := Direct(bus.params, name), Settings(o, bus, fs).bus;
    ResetFrame(o, bus, name);
    ResetKeepsSwitches(o, bus, name);
    OrderIsListed(o, kv);
    SettingLeaves(o, Reset(o, bus), SettingsOf(fs), i);
    NearKept(o, kv, s, direct, v, Look(bus.params, name));
    MapLeaves(o, mid, kv, o.order(kv), name);
    NearKept(o, kv, s, direct, v, Look(mid.params, name));
  }

  lemma {:induction false} LaterNear(o: Oracle, bus: Bus, fs: seq<Feature>, n: nat, i: nat)
    requires Configuration(o, fs) && !Crashing(o, bus, fs) && Accepted(o, bus.calls, Process(o, bus, fs).bus.calls)
    requires i < |SettingsOf(fs)| && !SupportFlag(Param(SettingsOf(fs)[i].key))
    ensures var s, kv := SettingsOf(fs)[i], XconfProtocol.ConfigMap(fs);
            var name := Param(s.key);
            Near(o, kv, s, Direct(bus.params, name), Look(bus.params, name), Look(Later(o, bus, fs, n).params, name))
  {
    hide Process, Later, Configuration, Reset, Direct, SettingsOf, XconfProtocol.ConfigMap, Param, SupportFlag, Crashing, Breaks, Stepped, Mapped, Made;
    var s, kv := SettingsOf(fs)[i], XconfProtocol.ConfigMap(fs);
    var name := Param(s.key);
    LaterUnfolds(o, bus, fs, 0);
    ProcessCalls(o, bus, fs);
    if n == 0 {
      ResetFrame(o, bus, name);
      ResetKeepsSwitches(o, bus, name);
      CrashesEveryTime(o, bus, fs, 0);
      SettingApplied(o, bus, fs, i);
    } else {
      var prior := Later(o, bus, fs, n - 1);
      LaterNear(o, bus, fs, n - 1, i);
      LaterUnfolds(o, bus, fs, n - 1);
      LaterDirect(o, bus, fs, n - 1, name);
      ResetKeepsSwitches(o, prior, name);
      NoBreak(o, bus, fs, name);
      ProcessNear(o, prior, fs, i, Look(bus.params, name));
    }
  }

  /** A flag that is off, set to "false" and not switched on by the map, stays off. */
  lemma FlagStays(o: Oracle, kv: Store, s: Setting, direct: bool)
    requires s.value == "false" && (Param(s.key) in kv ==> kv[Param(s.key)] != "true" && kv[Param(s.key)] != "1")
    ensures Stepped(o, s, direct, Some(Bool(false))) == Some(Bool(false))
    ensures Mapped(o, kv, Param(s.key), Some(Bool(false))) == Some(Bool(false))
  {
    hide Param, Tried, RfcText.Contains, NAMESPACE;
  }

  lemma ProcessFlag(o: Oracle, bus: Bus, fs: seq<Feature>, i: nat)
    requires Configuration(o, fs) && i < |SettingsOf(fs)| && SupportFlag(Param(SettingsOf(fs)[i].key))
    requires var s, kv := SettingsOf(fs)[i], XconfProtocol.ConfigMap(fs);
             s.value == "false" && (Param(s.key) in kv ==> kv[Param(s.key)] != "true" && kv[Param(s.key)] != "1")
    requires Look(Reset(o, bus).params, Param(SettingsOf(fs)[i].key)) == Some(Bool(false))
    ensures Look(Process(o, bus, fs).bus.params, Param(SettingsOf(fs)[i].key)) == Some(Bool(false))
  {
    hide Run, SettingsOf, Reset, MapPass, XconfProtocol.ConfigMap, Param, Direct, Stepped, Mapped, SupportFlag, WanKey;
    var s, kv := SettingsOf(fs)[i], XconfProtocol.ConfigMap(fs);
    var name := Param(s.key);
    OrderIsListed(o, kv);
    SettingLeaves(o, Reset(o, bus), SettingsOf(fs), i);
    FlagStays(o, kv, s, Direct(Reset(o, bus).params, name));
    MapLeaves(o, Settings(o, bus, fs).bus, kv, o.order(kv), name);
  }

  lemma {:induction false} LaterFlag(o: Oracle, bus: Bus, fs: seq<Feature>, n: nat, i: nat)
    requires Configuration(o, fs) && Accepted(o, bus.calls, Process(o, bus, fs).bus.calls)
    requires i < |SettingsOf(fs)| && SupportFlag(Param(SettingsOf(fs)[i].key))
    requires var s, kv := SettingsOf(fs)[i], XconfProtocol.ConfigMap(fs);
             s.value == "false" && (Param(s.key) in kv ==> kv[Param(s.key)] != "true" && kv[Param(s.key)] != "1")
    ensures Look(Reset(o, Later(o, bus, fs, n)).params, Param(SettingsOf(fs)[i].key)) == Some(Bool(false))
  {
    hide Process, Later, Configuration, Reset, SettingsOf, XconfProtocol.ConfigMap, Param, SupportFlag;
    var name := Param(SettingsOf(fs)[i].key);
    LaterUnfolds(o, bus, fs, 0);
    ProcessCalls(o, bus, fs);
    ResetFrame(o, Later(o, bus, fs, n), name);
    if n == 0 {
      ResetFrame(o, bus, name);
      ProcessFlag(o, bus, fs, i);
    } else {
      LaterFlag(o, bus, fs, n - 1, i);
      LaterUnfolds(o, bus, fs, n - 1);
      ProcessFlag(o, Later(o, bus, fs, n - 1), fs, i);
    }
  }

  ghost predicate AllCalm(o: Oracle, kv: Store, params: Params, ss: seq<Setting>) {
    forall i :: 0 <= i < |ss| ==> Calm(o, kv, params, ss[i])
  }

  /**
   * Once a calm configuration went through with every set accepted, processing it again, any number of times and whichever
   * sets fail then, never asks for a reboot.
   */
  lemma ReplayIsQuiet(o: Oracle, bus: Bus, fs: seq<Feature>, n: nat)
    requires Configuration(o, fs) && Accepted(o, bus.calls, Process(o, bus, fs).bus.calls)
    requires AllCalm(o, XconfProtocol.ConfigMap(fs), bus.params, SettingsOf(fs))
    ensures !Process(o, Later(o, bus, fs, n), fs).reboot
  {
    hide Process, Later, Configuration, Reset, Direct, SettingsOf, XconfProtocol.ConfigMap, Param, SupportFlag, Stirs, Crashing, Stepped, Mapped, Made;
    var later, ss, kv := Later(o, bus, fs, n), SettingsOf(fs), XconfProtocol.ConfigMap(fs);
    ProcessCalls(o, bus, fs);
    CrashesEveryTime(o, bus, fs, n);
    ProcessReboots(o, later, fs);
    if !Crashing(o, bus, fs) {
      var params := Reset(o, later).params;
      forall i | 0 <= i < |ss|
        ensures !Stirs(o, ss[i], Direct(params, Param(ss[i].key)), Look(params, Param(ss[i].key)))
      {
        var name := Param(ss[i].key);
        assert Calm(o, kv, bus.params, ss[i]);
        if SupportFlag(name) {
          FlagIsCalm(o, kv, bus, fs, n, i);
        } else {
          ResetFrame(o, later, name);
          LaterDirect(o, bus, fs, n, name);
          LaterNear(o, bus, fs, n, i);
        }
      }
    }
  }

  lemma FlagIsCalm(o: Oracle, kv: Store, bus: Bus, fs: seq<Feature>, n: nat, i: nat)
    requires Configuration(o, fs) && Accepted(o, bus.calls, Process(o, bus, fs).bus.calls) && kv == XconfProtocol.ConfigMap(fs)
    requires i < |SettingsOf(fs)| && SupportFlag(Param(SettingsOf(fs)[i].key)) && Calm(o, kv, bus.params, SettingsOf(fs)[i])
    ensures var s, params := SettingsOf(fs)[i], Reset(o, Later(o, bus, fs, n)).params;
            !Stirs(o, s, Direct(params, Param(s.key)), Look(params, Param(s.key)))
  {
    hide Process, Later, Configuration, Reset, Direct, SettingsOf, XconfProtocol.ConfigMap, Param, SupportFlag;
    var s, params := SettingsOf(fs)[i], Reset(o, Later(o, bus, fs, n)).params;
    if s.immediate {
      LaterFlag(o, bus, fs, n, i);
      FlagStirs(o, s, params);
    } else {
      FlagIsNoPartner(s);
    }
  }

  lemma FlagIsNoPartner(s: Setting)
    requires SupportFlag(Param(s.key))
    ensures Param(s.key) != PARTNER
  {
    FlagsAreApart(Param(s.key));
  }

  /*** Inputs that are not quiet ***/

  /**
   * A reply that sets a support flag to anything but "false" with immediate effect, at any place and among any other
   * settings, asks for a reboot on every run that does not crash, from any bus: the flag has been switched off just before.
   */
  lemma SupportFlagReboots(o: Oracle, bus: Bus, fs: seq<Feature>, i: nat)
    requires i < |SettingsOf(fs)| && SupportFlag(Param(SettingsOf(fs)[i].key))
    requires SettingsOf(fs)[i].value != "false" && SettingsOf(fs)[i].immediate
    requires forall j :: 0 <= j < i ==> Param(SettingsOf(fs)[j].key) != Param(SettingsOf(fs)[i].key)
    requires Accepted(o, bus.calls, Settings(o, bus, fs).bus.calls)
    ensures Process(o, bus, fs).reboot <==> !Process(o, bus, fs).crashed
  {
    hide SettingsOf, Run, Reset, Param, SupportFlag, MapPass, XconfProtocol.ConfigMap, Earns, Stirs, Direct;
    var ss, start := SettingsOf(fs), Reset(o, bus);
    var name := Param(ss[i].key);
    FlagsAreApart(name);
    ResetFrame(o, bus, name);
    CallsGrow(o, start, ss);
    hide DOCSIS, ETHERNET, FAIL_OVER, UNIFICATION, UPNP, XUPNP, MODE, PARTNER, XCONF_URL, CODEBIG, CONTAINER;
    RunKeeps(o, start, ss[..i], name);
    var prior := Run(o, start, ss[..i]).bus;
    FlagStirs(o, ss[i], prior.params);
    OwnStep(o, prior, ss[i]);
    CallsWithin(o, start, ss, i);
    assert EarnsAt(o, start, ss, i);
    RebootExactly(o, start, ss);
  }

  /**
   * The first pass leaves a skipped or redirected parameter alone; the second does not. It stays as it was exactly if the
   * map does not name it, or not with a text that makes another value of it.
   */
  lemma SkipHoldsExactly(o: Oracle, bus: Bus, fs: seq<Feature>, name: string)
    requires Configuration(o, fs) && !Direct(bus.params, name) && !WanKey(name) && !SupportFlag(name)
    requires !Process(o, bus, fs).crashed && Accepted(o, bus.calls, Process(o, bus, fs).bus.calls)
    ensures var kv, v := XconfProtocol.ConfigMap(fs), Look(bus.params, name);
            Look(Process(o, bus, fs).bus.params, name) == v
            <==> (name in kv && v.Some? && Tried(o, v.value, name, kv[name]) ==> Convert(o, v.value, kv[name]) == v)
  {
    hide Process, Reset, SettingsOf, XconfProtocol.ConfigMap, Param, Tried, Convert, Direct, WanKey, SupportFlag;
    var ss := SettingsOf(fs);
    ResetFrame(o, bus, name);
    ResetKeepsSwitches(o, bus, name);
    if i: nat :| i < |ss| && Param(ss[i].key) == name {
      SettingApplied(o, bus, fs, i);
    } else {
      UnsetLeaves(o, bus, fs, name);
    }
    MapDoesNotBreak(o, bus, fs, name);
  }

  lemma MapDoesNotBreak(o: Oracle, bus: Bus, fs: seq<Feature>, name: string)
    requires Configuration(o, fs) && !Process(o, bus, fs).crashed && !SupportFlag(name)
    ensures !Breaks(o, XconfProtocol.ConfigMap(fs), name, Look(bus.params, name))
  {
    hide Process, Reset, XconfProtocol.ConfigMap, Breaks, Configuration;
    CrashExactly(o, bus, fs);
    NoBreak(o, bus, fs, name);
  }

  /** So with fail-over on, a reply that switches UPnP on does switch it on. */
  lemma SkipIsDefeated(o: Oracle, bus: Bus, fs: seq<Feature>)
    requires Configuration(o, fs) && Switch(bus.params, FAIL_OVER) && Look(bus.params, UPNP) == Some(Bool(false))
    requires var kv := XconfProtocol.ConfigMap(fs); UPNP in kv && kv[UPNP] == "true"
    requires !Process(o, bus, fs).crashed && Accepted(o, bus.calls, Process(o, bus, fs).bus.calls)
    ensures Look(Process(o, bus, fs).bus.params, UPNP) == Some(Bool(true))
  {
    UpnpIsPlain();
    hide Process, XconfProtocol.ConfigMap, FAIL_OVER, UNIFICATION, XUPNP, MODE, DOCSIS, ETHERNET, CODEBIG, CONTAINER, XCONF_URL, UPNP;
    hide Reset, SettingsOf, Param;
    ResetFrame(o, bus, UPNP);
    ResetKeepsSwitches(o, bus, UPNP);
    var ss := SettingsOf(fs);
    if i: nat :| i < |ss| && Param(ss[i].key) == UPNP {
      SettingApplied(o, bus, fs, i);
    } else {
      UnsetLeaves(o, bus, fs, UPNP);
    }
  }

  lemma UpnpIsPlain()
    ensures !WanKey(UPNP) && !SupportFlag(UPNP) && UPNP != XCONF_URL
  {
    assert |UPNP| > 63 && |UPNP| < 68 && |FAIL_OVER| > 68 && |UNIFICATION| >= 68 && |DOCSIS| < 61 && |ETHERNET| < 61;
    assert |CODEBIG| == 61 && |CONTAINER| == 63 && |XCONF_URL| < 61;
  }

  /** A text that is no number for a 32-bit integer ends the program, on this run and on every later one. */
  lemma BadNumberCrashes(o: Oracle, bus: Bus, fs: seq<Feature>, key: string, n: nat)
    requires Configuration(o, fs) && Accepted(o, bus.calls, bus.calls + 2) && !SupportFlag(key) && key != XCONF_URL
    requires var kv := XconfProtocol.ConfigMap(fs); key in kv && Stoi(kv[key]).None?
    requires key in bus.params && bus.params[key].Int32?
    ensures Process(o, bus, fs).crashed && Process(o, Later(o, bus, fs, n), fs).crashed
  {
    hide Process, Later, Reset, XconfProtocol.ConfigMap, SupportFlag, XCONF_URL, Undriven, SetOnce, WanKey, Stoi;
    var kv := XconfProtocol.ConfigMap(fs);
    ResetFrame(o, bus, key);
    OrderIsListed(o, kv);
    NoConversionIsTried(o, bus.params[key], kv[key]);
    var i :| 0 <= i < |o.order(kv)| && o.order(kv)[i] == key;
    assert Breaks(o, kv, o.order(kv)[i], Look(Reset(o, bus).params, key));
    CrashesEveryTime(o, bus, fs, n);
  }

  /*** A reply whose incomplete feature repeats a parameter ***/

  function CompleteFeature(key: string, value: string): Feature {
    XconfProtocol.Feature(Some("a"), Some(true), Some(true), None, Some([Entry(key, value)]))
  }

  function IncompleteFeature(key: string, value: string): Feature {
    XconfProtocol.Feature(Some("b"), Some(true), None, None, Some([Entry(key, value)]))
  }

  lemma RepeatedReply(key: string, v: string, w: string)
    requires !RfcText.Contains(key, XconfProtocol.TR181_PREFIX)
    ensures var fs := [CompleteFeature(key, v), IncompleteFeature(key, w)];
            SettingsOf(fs) == [Setting(key, v, true)] && XconfProtocol.ConfigMap(fs) == map[key := w] && Param(key) == key
  {
    hide RfcText.Strip;
    var a, b := CompleteFeature(key, v), IncompleteFeature(key, w);
    RfcText.StripKeeps(key, XconfProtocol.TR181_PREFIX);
    KeyIsParam(key);
    assert [a, b][..1] == [a] && [a][..0] == [] && [a, b][1..] == [b] && [b][1..] == [];
    assert SettingsOf([a]) == [Setting(key, v, true)];
    assert XconfProtocol.ConfigEntries([b]) == [Entry(key, w)];
    assert XconfProtocol.ConfigEntries([a, b]) == [Entry(key, v), Entry(key, w)];
    assert [Entry(key, v), Entry(key, w)][..1] == [Entry(key, v)] && [Entry(key, v)][..0] == [];
    assert Fill([Entry(key, v)]) == map[key := v];
  }

  lemma KeyIsParam(key: string)
    requires !RfcText.Contains(key, XconfProtocol.TR181_PREFIX)
    ensures Param(key) == key
  {
    assert !RfcText.OccursAt(key, PREFIX, 0);
  }

  /**
   * A string parameter set at once to v by a complete feature and to w by one that is passed over: the first pass sets v and
   * the second w, and every replay asks for a reboot.
   */
  lemma RepeatedIsNoisy(o: Oracle, bus: Bus, key: string, v: string, w: string, n: nat)
    requires !RfcText.Contains(key, XconfProtocol.TR181_PREFIX) && !WanKey(key) && !SupportFlag(key) && key != XCONF_URL
    requires key in bus.params && bus.params[key].Str? && Direct(bus.params, key) && v != w && XconfProtocol.Unquote(v) != w
    requires o.order(map[key := w]) == [key] && forall c: nat :: bus.calls <= c ==> o.accepts(c)
    ensures Process(o, Later(o, bus, [CompleteFeature(key, v), IncompleteFeature(key, w)], n), [CompleteFeature(key, v), IncompleteFeature(key, w)]).reboot
  {
    hide SettingsOf, XconfProtocol.ConfigMap, Process, Later, Reset, Param, WanKey, SupportFlag, Direct, XCONF_URL, NAMESPACE, RfcText.Contains, Show;
    var fs, kv := [CompleteFeature(key, v), IncompleteFeature(key, w)], map[key := w];
    RepeatedReply(key, v, w);
    var s := Setting(key, v, true);
    assert Configuration(o, fs);
    RepeatedFinal(o, bus.params, s, key, w);
    assert Noisy(o, kv, bus.params, SettingsOf(fs)[0]);
    ResetFrame(o, bus, key);
    assert !Crashing(o, bus, fs);
    ReplayExactly(o, bus, fs, n);
  }

  lemma RepeatedFinal(o: Oracle, params: Params, s: Setting, key: string, w: string)
    requires Param(s.key) == key && key in params && params[key].Str? && Direct(params, key) && key != XCONF_URL
    requires s.value != w && XconfProtocol.Unquote(s.value) != w && s.immediate
    ensures Final(o, map[key := w], params, s) == Some(Str(w))
    ensures Stirs(o, s, true, Some(Str(w)))
  {
    hide Param, Direct, XCONF_URL, NAMESPACE, RfcText.Contains;
  }
}
