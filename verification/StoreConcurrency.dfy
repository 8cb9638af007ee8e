/** Any number of clients of the local store, interleaved step by step around one named semaphore. */
module StoreConcurrency {
  import opened Wrappers
  import opened IniFile
  import opened LocalStore

  /** A clear is a Put of CLEAR_PARAM. */
  datatype Op = Put(name: string, value: string) | Get(caller: Option<string>, name: string)

  /** Where a client is. Between Inside and Finished it is between sem_wait and sem_post. */
  datatype Pc =
    | Idle
    | Waiting(op: Op)
    | Inside(op: Op)
    | Loaded(op: Op, dict: map<string, string>)
    | Writing(op: Op, dict: map<string, string>, written: seq<Entry>)
    | Finished(op: Op, answer: Answer)

  datatype Call = Call(client: nat, op: Op)
  datatype Done = Done(call: Call, answer: Answer)

  /**
   * The file, the semaphore and the clients; `acquired` and `done` record the operations in the order of their
   * sem_wait and of their sem_post, `holder` who is between the two, `history` the file at every sem_post.
   */
  datatype System = System(
    file: File, sem: nat, pcs: map<nat, Pc>,
    holder: Option<nat>, acquired: seq<Call>, done: seq<Done>, history: seq<File>)

  function PcOf(s: System, c: nat): Pc {
    if c in s.pcs then s.pcs[c] else Idle
  }

  function Go(s: System, c: nat, pc: Pc): System {
    s.(pcs := s.pcs[c := pc])
  }

  predicate Legal(op: Op) {
    op.Put? && op.name == CLEAR_PARAM ==> op.value != ""
  }

  /** A clear that selects no key returns before the file is opened for writing. */
  predicate Untouched(op: Op, dict: map<string, string>)
    requires op.Put? && Legal(op)
  {
    op.name == CLEAR_PARAM && Nothing(dict, op.value)
  }

  datatype Step =
    | Begin(op: Op) | Wait | Load | Skip | OpenFails | Truncate | WriteLine(key: string) | Close | Search | Post

  ghost predicate Does(fs: FileSystem, c: nat, step: Step, s: System, s': System) {
    var pc := PcOf(s, c);
    match step
    case Begin(op) => pc.Idle? && Legal(op) && s' == Go(s, c, Waiting(op))
    case Wait =>
      && pc.Waiting? && s.sem > 0
      && s' == Go(s, c, Inside(pc.op)).(sem := s.sem - 1, holder := Some(c), acquired := s.acquired + [Call(c, pc.op)])
    case Load => pc.Inside? && pc.op.Put? && s' == Go(s, c, Loaded(pc.op, Dict(s.file)))
    case Skip =>
      && pc.Loaded? && pc.op.Put? && Legal(pc.op) && Untouched(pc.op, pc.dict)
      && s' == Go(s, c, Finished(pc.op, Answer(Success, "")))
    case OpenFails =>
      && pc.Loaded? && pc.op.Put? && Legal(pc.op) && !Untouched(pc.op, pc.dict)
      && s' == Go(s, c, Finished(pc.op, Answer(Failure, "")))
    case Truncate =>
      && pc.Loaded? && pc.op.Put? && Legal(pc.op) && !Untouched(pc.op, pc.dict)
      && s' == Go(s, c, Writing(pc.op, Updated(pc.dict, pc.op.name, pc.op.value), [])).(file := Some(""))
    case WriteLine(k) =>
      && pc.Writing? && s.file.Some? && k in pc.dict && (forall i :: 0 <= i < |pc.written| ==> pc.written[i].key != k)
      && s' == Go(s, c, pc.(written := pc.written + [Entry(k, pc.dict[k])]))
               .(file := Some(s.file.value + PrintEntry(Entry(k, pc.dict[k]))))
    case Close =>
      && pc.Writing? && Lists(pc.written, pc.dict)
      && s' == Go(s, c, Finished(pc.op, Answer(Success, "")))
    case Search =>
      && pc.Inside? && pc.op.Get?
      && s' == Go(s, c, Finished(pc.op, ReadLocal(fs, s.file, pc.op.caller, pc.op.name)))
    case Post =>
      && pc.Finished?
      && s' == Go(s, c, Idle).(sem := s.sem + 1, holder := None,
                               done := s.done + [Done(Call(c, pc.op), pc.answer)], history := s.history + [s.file])
  }

  ghost predicate Init(s: System) {
    s == System(s.file, 1, map[], None, [], [], [s.file])
  }

  ghost predicate Next(fs: FileSystem, s: System, s': System) {
    exists c: nat, step: Step :: Does(fs, c, step, s, s')
  }

  ghost predicate IsRun(fs: FileSystem, run: seq<System>) {
    run != [] && Init(run[0]) && forall i :: 0 <= i < |run| - 1 ==> Next(fs, run[i], run[i + 1])
  }

  /*** One operation run on its own ***/

  ghost predicate Atomic(fs: FileSystem, op: Op, before: File, after: File, answer: Answer) {
    match op
    case Put(name, value) => Legal(op) && exists writable :: Outcome(before, name, value, writable, after, answer.code)
    case Get(caller, name) => after == before && answer == ReadLocal(fs, before, caller, name)
  }

  /*** The invariant ***/

  predicate InCritical(pc: Pc) {
    !pc.Idle? && !pc.Waiting?
  }

  function Calls(done: seq<Done>): seq<Call> {
    seq(|done|, i requires 0 <= i < |done| => done[i].call)
  }

  function Keys(es: seq<Entry>): set<string> {
    set i | 0 <= i < |es| :: es[i].key
  }

  function Restrict(m: map<string, string>, ks: set<string>): map<string, string> {
    map k | k in m && k in ks :: m[k]
  }

  /** What the holder knows, relative to the file it found when it acquired the semaphore. */
  ghost predicate HolderInv(fs: FileSystem, pc: Pc, base: File, file: File) {
    match pc
    case Idle => file == base
    case Waiting(_) => file == base
    case Inside(op) => file == base && Legal(op)
    case Loaded(op, dict) => file == base && Legal(op) && op.Put? && dict == Dict(base)
    case Writing(op, dict, written) =>
      && Legal(op) && op.Put? && !Untouched(op, Dict(base))
      && dict == Updated(Dict(base), op.name, op.value)
      && file == Some(Print(written)) && Lists(written, Restrict(dict, Keys(written)))
    case Finished(op, answer) => Atomic(fs, op, base, file, answer)
  }

  ghost predicate Sequential(fs: FileSystem, history: seq<File>, done: seq<Done>) {
    && |history| == |done| + 1
    && forall i :: 0 <= i < |done| ==> Atomic(fs, done[i].call.op, history[i], history[i + 1], done[i].answer)
  }

  ghost predicate Inv(fs: FileSystem, init: File, s: System) {
    && s.sem == (if s.holder.None? then 1 else 0)
    && (forall c: nat :: InCritical(PcOf(s, c)) <==> s.holder == Some(c))
    && (forall c: nat :: PcOf(s, c).Waiting? ==> Legal(PcOf(s, c).op))
    && Sequential(fs, s.history, s.done) && s.history[0] == init
    && s.acquired == Calls(s.done) + (if s.holder.Some? then [Call(s.holder.value, PcOf(s, s.holder.value).op)] else [])
    && (s.holder.None? ==> s.file == s.history[|s.done|])
    && (s.holder.Some? ==> HolderInv(fs, PcOf(s, s.holder.value), s.history[|s.done|], s.file))
  }

  lemma KeysSnoc(es: seq<Entry>, e: Entry)
    ensures Keys(es + [e]) == Keys(es) + {e.key}
  {
    var more := es + [e];
    assert more[|es|].key == e.key;
    assert forall i :: 0 <= i < |es| ==> more[i] == es[i];
  }

  lemma WriteLineKeeps(fs: FileSystem, pc: Pc, base: File, file: File, k: string)
    requires pc.Writing? && HolderInv(fs, pc, base, file) && k in pc.dict
    requires forall i :: 0 <= i < |pc.written| ==> pc.written[i].key != k
    ensures HolderInv(fs, pc.(written := pc.written + [Entry(k, pc.dict[k])]), base,
                      Some(file.value + PrintEntry(Entry(k, pc.dict[k]))))
  {
    hide Outcome, Updated, Dict, Print, Untouched, Legal;
    var w, w' := pc.written, pc.written + [Entry(k, pc.dict[k])];
    PrintConcat(w, Entry(k, pc.dict[k]));
    KeysSnoc(w, Entry(k, pc.dict[k]));
    var m, m' := Restrict(pc.dict, Keys(w)), Restrict(pc.dict, Keys(w'));
    assert m' == m[k := pc.dict[k]];
    ListsMore(w, m, m', k);
  }

  lemma CloseKeeps(fs: FileSystem, pc: Pc, base: File, file: File)
    requires pc.Writing? && HolderInv(fs, pc, base, file) && Lists(pc.written, pc.dict)
    ensures Atomic(fs, pc.op, base, file, Answer(Success, ""))
  {
    assert Outcome(base, pc.op.name, pc.op.value, true, file, Success);
  }

  lemma FinishKeeps(fs: FileSystem, pc: Pc, base: File, code: Code)
    requires pc.Loaded? && HolderInv(fs, pc, base, base)
    requires code == if Untouched(pc.op, pc.dict) then Success else Failure
    ensures Atomic(fs, pc.op, base, base, Answer(code, ""))
  {
    assert Outcome(base, pc.op.name, pc.op.value, false, base, code);
  }

  lemma PostKeeps(fs: FileSystem, s: System, c: nat)
    requires s.holder == Some(c) && PcOf(s, c).Finished? && Sequential(fs, s.history, s.done)
    requires Atomic(fs, PcOf(s, c).op, s.history[|s.done|], s.file, PcOf(s, c).answer)
    requires s.acquired == Calls(s.done) + [Call(c, PcOf(s, c).op)]
    ensures var done := s.done + [Done(Call(c, PcOf(s, c).op), PcOf(s, c).answer)];
            Sequential(fs, s.history + [s.file], done) && s.acquired == Calls(done)
  {
  }

  lemma StepKeeps(fs: FileSystem, init: File, c: nat, step: Step, s: System, s': System)
    requires Inv(fs, init, s) && Does(fs, c, step, s, s')
    ensures Inv(fs, init, s')
  {
    hide Outcome, Lists, Print, Updated, ReadLocal, Dict, Restrict;
    var pc, base := PcOf(s, c), s.history[|s.done|];
    assert forall d: nat :: d != c ==> PcOf(s', d) == PcOf(s, d);
    match step
    case Begin(op) =>
    case Wait =>
    case Load =>
    case Skip => FinishKeeps(fs, pc, base, Success);
    case OpenFails => FinishKeeps(fs, pc, base, Failure);
    case Truncate => TruncateKeeps(fs, pc, base);
    case WriteLine(k) => WriteLineKeeps(fs, pc, base, s.file, k);
    case Close => CloseKeeps(fs, pc, base, s.file);
    case Search =>
    case Post => PostKeeps(fs, s, c);
  }

  lemma TruncateKeeps(fs: FileSystem, pc: Pc, base: File)
    requires pc.Loaded? && HolderInv(fs, pc, base, base) && !Untouched(pc.op, pc.dict)
    ensures HolderInv(fs, Writing(pc.op, Updated(pc.dict, pc.op.name, pc.op.value), []), base, Some(""))
  {
  }

  lemma {:induction false} InvOnRun(fs: FileSystem, run: seq<System>, k: nat)
    requires IsRun(fs, run) && k < |run|
    ensures Inv(fs, run[0].file, run[k])
  {
    if k > 0 {
      InvOnRun(fs, run, k - 1);
      assert Next(fs, run[k - 1], run[k - 1 + 1]);
      var c: nat, step: Step :| Does(fs, c, step, run[k - 1], run[k]);
      StepKeeps(fs, run[0].file, c, step, run[k - 1], run[k]);
    }
  }

  /*** What every run keeps ***/

  /** At most one client is between sem_wait and sem_post, and operations complete in the order they acquired. */
  lemma MutualExclusion(fs: FileSystem, run: seq<System>, k: nat, c: nat, d: nat)
    requires IsRun(fs, run) && k < |run|
    requires InCritical(PcOf(run[k], c)) && InCritical(PcOf(run[k], d))
    ensures c == d && run[k].sem == 0
    ensures run[k].acquired == Calls(run[k].done) + [Call(c, PcOf(run[k], c).op)]
  {
    InvOnRun(fs, run, k);
  }

  /** The completed operations, each as if run alone, lead from the first file to the present one. */
  lemma Linearizable(fs: FileSystem, run: seq<System>, k: nat)
    requires IsRun(fs, run) && k < |run|
    ensures exists files: seq<File> ::
              && Sequential(fs, files, run[k].done) && files[0] == run[0].file
              && (run[k].sem == 1 ==> run[k].acquired == Calls(run[k].done) && files[|run[k].done|] == run[k].file)
  {
    InvOnRun(fs, run, k);
    var s := run[k];
    assert Calls(s.done) + [] == Calls(s.done);
    assert Sequential(fs, s.history, s.done);
  }

  /*** The same, on dictionaries ***/

  predicate Printable(op: Op) {
    op.Put? ==> PrintableRequest(op.name, op.value)
  }

  /** The dictionary after the completed operations, applied one after the other. */
  function ApplyAll(m: map<string, string>, done: seq<Done>): map<string, string> {
    if done == [] then m
    else
      var m' := ApplyAll(m, done[..|done| - 1]);
      var last := done[|done| - 1];
      if last.call.op.Put? && Legal(last.call.op) && last.answer.code == Success
      then Updated(m', last.call.op.name, last.call.op.value) else m'
  }

  /** A completed update that rewrote the file, found with dictionary m. */
  predicate Rewrote(m: map<string, string>, d: Done) {
    d.call.op.Put? && Legal(d.call.op) && d.answer.code == Success && Rewrites(m, d.call.op.name, d.call.op.value)
  }

  /** Some operation in front of the n-th rewrote the file. */
  predicate RewrittenBefore(m: map<string, string>, done: seq<Done>, n: nat)
    requires n <= |done|
  {
    exists j :: 0 <= j < n && Rewrote(ApplyAll(m, done[..j]), done[j])
  }

  /** The answer a dictionary gives, with the fallback to the caller's defaults. */
  function AnswerFrom(fs: FileSystem, m: map<string, string>, caller: Option<string>, name: string): Answer {
    var local := Found(Lookup(m, name));
    if local.code == Success then local else ReadDefault(fs, caller, name)
  }

  lemma AtomicApplies(fs: FileSystem, op: Op, before: File, after: File, answer: Answer)
    requires Atomic(fs, op, before, after, answer) && Printable(op)
    ensures Legal(op)
    ensures Dict(after) ==
              if op.Put? && answer.code == Success then Updated(Dict(before), op.name, op.value) else Dict(before)
    ensures if Rewrote(Dict(before), Done(Call(0, op), answer)) then Canonical(after) else after == before
  {
    hide Print, Lines, Entries, First, Fill, Canonical, Writable;
    if op.Put? {
      var writable :| Outcome(before, op.name, op.value, writable, after, answer.code);
      UpdateRefines(before, op.name, op.value, writable, after, answer.code);
    }
  }

  /** The files of a sequential history: their dictionaries, and whether the n-th is still the first file or was rewritten. */
  lemma {:induction false} SequentialApplies(fs: FileSystem, files: seq<File>, done: seq<Done>, n: nat)
    requires Sequential(fs, files, done) && n <= |done|
    requires forall i :: 0 <= i < |done| ==> Printable(done[i].call.op)
    ensures Dict(files[n]) == ApplyAll(Dict(files[0]), done[..n])
    ensures if RewrittenBefore(Dict(files[0]), done, n) then Canonical(files[n]) else files[n] == files[0]
  {
    hide Outcome, Updated, Dict, Canonical, Writable, Rewrites;
    if n > 0 {
      SequentialApplies(fs, files, done, n - 1);
      var d := done[n - 1];
      assert done[..n][..n - 1] == done[..n - 1];
      assert Atomic(fs, d.call.op, files[n - 1], files[n - 1 + 1], d.answer);
      AtomicApplies(fs, d.call.op, files[n - 1], files[n], d.answer);
    }
  }

  /**
   * No update is lost, whatever file the run began with: between operations the file holds the initial dictionary with
   * every completed update applied in acquisition order.
   */
  lemma NothingLost(fs: FileSystem, run: seq<System>, k: nat)
    requires IsRun(fs, run) && k < |run|
    requires forall i :: 0 <= i < |run[k].done| ==> Printable(run[k].done[i].call.op)
    ensures run[k].sem == 1 ==> Dict(run[k].file) == ApplyAll(Dict(run[0].file), run[k].done)
  {
    hide Outcome, Updated, Dict, Canonical, Writable, Read;
    InvOnRun(fs, run, k);
    var s := run[k];
    SequentialApplies(fs, s.history, s.done, |s.done|);
    assert s.done[..|s.done|] == s.done;
  }

  /**
   * A completed get answers from the dictionary as it was at its acquisition if some update before it rewrote the file.
   * A get in front of the first rewrite answers from the initial file, so from the dictionary too exactly when the
   * dictionary gives that answer; on a file without duplicate keys it always does.
   */
  lemma GetsAnswer(fs: FileSystem, run: seq<System>, k: nat, i: nat)
    requires IsRun(fs, run) && k < |run| && i < |run[k].done|
    requires forall j :: 0 <= j < |run[k].done| ==> Printable(run[k].done[j].call.op)
    requires run[k].done[i].call.op.Get?
    ensures var m, op, answer := Dict(run[0].file), run[k].done[i].call.op, run[k].done[i].answer;
            && (RewrittenBefore(m, run[k].done, i) || Agrees(run[0].file, op.name) ==>
                  answer == AnswerFrom(fs, ApplyAll(m, run[k].done[..i]), op.caller, op.name))
            && (!RewrittenBefore(m, run[k].done, i) ==>
                  ApplyAll(m, run[k].done[..i]) == m && answer == ReadLocal(fs, run[0].file, op.caller, op.name))
  {
    hide Outcome, Updated, Dict, Canonical, Writable, Read, RewrittenBefore;
    InvOnRun(fs, run, k);
    var s := run[k];
    SequentialApplies(fs, s.history, s.done, i);
    assert Atomic(fs, s.done[i].call.op, s.history[i], s.history[i + 1], s.done[i].answer);
    if RewrittenBefore(Dict(run[0].file), s.done, i) {
      ReadRefines(s.history[i], s.done[i].call.op.name);
    }
  }

  /*** No client gets stuck ***/

  function Rank(pc: Pc): nat {
    match pc
    case Inside(_) => 4
    case Loaded(_, _) => 3
    case Writing(_, _, _) => 2
    case Finished(_, _) => 1
    case _ => 0
  }

  /** The keys the holder has still to write. */
  function Unwritten(pc: Pc): nat {
    if pc.Writing? then |pc.dict.Keys - Keys(pc.written)| else 0
  }

  lemma AllWritten(m: map<string, string>, ks: set<string>)
    requires m.Keys - ks == {}
    ensures Restrict(m, ks) == m
  {
    assert forall k :: k in m ==> k in m.Keys - ks || k in ks;
  }

  lemma OneFewer(keys: set<string>, written: set<string>, k: string)
    requires k in keys - written
    ensures |keys - (written + {k})| < |keys - written|
  {
    assert keys - (written + {k}) == (keys - written) - {k};
  }

  lemma NotWritten(es: seq<Entry>, k: string)
    requires k !in Keys(es)
    ensures forall i :: 0 <= i < |es| ==> es[i].key != k
  {
  }

  /** A line that can be written next, or all are. */
  lemma WritesOn(fs: FileSystem, pc: Pc, base: File, file: File) returns (k: Option<string>)
    requires pc.Writing? && HolderInv(fs, pc, base, file)
    ensures k.None? ==> Lists(pc.written, pc.dict)
    ensures k.Some? ==> k.value in pc.dict && forall i :: 0 <= i < |pc.written| ==> pc.written[i].key != k.value
    ensures k.Some? ==> Unwritten(pc.(written := pc.written + [Entry(k.value, pc.dict[k.value])])) < Unwritten(pc)
  {
    hide Updated, Dict, Print, Untouched, Legal, Keys, Restrict, Lists;
    var left := pc.dict.Keys - Keys(pc.written);
    if left == {} {
      AllWritten(pc.dict, Keys(pc.written));
      return None;
    }
    var key :| key in left;
    KeysSnoc(pc.written, Entry(key, pc.dict[key]));
    OneFewer(pc.dict.Keys, Keys(pc.written), key);
    NotWritten(pc.written, key);
    return Some(key);
  }

  lemma HolderFacts(fs: FileSystem, init: File, s: System)
    requires Inv(fs, init, s) && s.holder.Some?
    ensures var c := s.holder.value;
            && InCritical(PcOf(s, c)) && s.sem == 0 && |s.history| == |s.done| + 1
            && HolderInv(fs, PcOf(s, c), s.history[|s.done|], s.file)
            && s.acquired == Calls(s.done) + [Call(c, PcOf(s, c).op)]
  {
    hide HolderInv;
  }

  lemma CallsSnoc(done: seq<Done>, d: Done)
    ensures Calls(done + [d]) == Calls(done) + [d.call]
  {
  }

  /** A step of the holder, other than failing to open the file, that takes it closer to its sem_post, or is it. */
  ghost predicate Advances(fs: FileSystem, c: nat, step: Step, s: System, s': System) {
    && Does(fs, c, step, s, s') && !step.OpenFails? && s'.acquired == s.acquired
    && if s'.holder.None? then s'.sem == 1 && Calls(s'.done) == s.acquired
       else
         && s'.holder == s.holder
         && (Rank(PcOf(s', c)) < Rank(PcOf(s, c))
             || (Rank(PcOf(s', c)) == Rank(PcOf(s, c)) && Unwritten(PcOf(s', c)) < Unwritten(PcOf(s, c))))
  }

  lemma FromInside(fs: FileSystem, c: nat, s: System) returns (step: Step, s': System)
    requires s.holder == Some(c) && PcOf(s, c).Inside?
    ensures Advances(fs, c, step, s, s')
  {
    hide ReadLocal, Dict, Unwritten, Calls;
    var op := PcOf(s, c).op;
    step := if op.Put? then Load else Search;
    s' := Go(s, c, if op.Put? then Loaded(op, Dict(s.file)) else Finished(op, ReadLocal(fs, s.file, op.caller, op.name)));
  }

  lemma FromLoaded(fs: FileSystem, c: nat, s: System) returns (step: Step, s': System)
    requires s.holder == Some(c) && PcOf(s, c).Loaded? && PcOf(s, c).op.Put? && Legal(PcOf(s, c).op)
    ensures Advances(fs, c, step, s, s')
  {
    hide Updated, Nothing, Unwritten, Calls;
    var pc := PcOf(s, c);
    if Untouched(pc.op, pc.dict) {
      step, s' := Skip, Go(s, c, Finished(pc.op, Answer(Success, "")));
    } else {
      step, s' := Truncate, Go(s, c, Writing(pc.op, Updated(pc.dict, pc.op.name, pc.op.value), [])).(file := Some(""));
    }
  }

  lemma FromWriting(fs: FileSystem, c: nat, s: System, base: File) returns (step: Step, s': System)
    requires s.holder == Some(c) && PcOf(s, c).Writing? && HolderInv(fs, PcOf(s, c), base, s.file)
    ensures Advances(fs, c, step, s, s')
  {
    hide Updated, Dict, Print, Restrict, Lists, Untouched, Legal, Unwritten, Calls, PrintEntry;
    var pc := PcOf(s, c);
    var k := WritesOn(fs, pc, base, s.file);
    if k.None? {
      step, s' := Close, Go(s, c, Finished(pc.op, Answer(Success, "")));
    } else {
      var e := Entry(k.value, pc.dict[k.value]);
      step, s' := WriteLine(k.value), Go(s, c, pc.(written := pc.written + [e])).(file := Some(s.file.value + PrintEntry(e)));
    }
  }

  lemma FromFinished(fs: FileSystem, c: nat, s: System) returns (step: Step, s': System)
    requires s.holder == Some(c) && s.sem == 0 && PcOf(s, c).Finished?
    requires s.acquired == Calls(s.done) + [Call(c, PcOf(s, c).op)]
    ensures Advances(fs, c, step, s, s')
  {
    hide Calls, Unwritten;
    var pc := PcOf(s, c);
    var d := Done(Call(c, pc.op), pc.answer);
    CallsSnoc(s.done, d);
    step, s' := Post, Go(s, c, Idle).(sem := s.sem + 1, holder := None, done := s.done + [d], history := s.history + [s.file]);
  }

  lemma NextStep(fs: FileSystem, init: File, s: System) returns (step: Step, s': System)
    requires Inv(fs, init, s) && s.holder.Some?
    ensures Advances(fs, s.holder.value, step, s, s')
  {
    var c := s.holder.value;
    HolderFacts(fs, init, s);
    hide Inv, Advances, Print, Updated, ReadLocal, Dict, Restrict, Lists, Untouched, Atomic, Calls;
    match PcOf(s, c)
    case Inside(_) => step, s' := FromInside(fs, c, s);
    case Loaded(_, _) => step, s' := FromLoaded(fs, c, s);
    case Writing(_, _, _) => step, s' := FromWriting(fs, c, s, s.history[|s.done|]);
    case Finished(_, _) => step, s' := FromFinished(fs, c, s);
  }

  lemma RunOn(fs: FileSystem, run: seq<System>, c: nat, step: Step, s': System)
    requires IsRun(fs, run) && Does(fs, c, step, run[|run| - 1], s')
    ensures IsRun(fs, run + [s'])
  {
    hide Does;
    var longer := run + [s'];
    forall i | 0 <= i < |longer| - 1
      ensures Next(fs, longer[i], longer[i + 1])
    {
      if i < |run| - 1 {
        assert Next(fs, run[i], run[i + 1]);
      }
    }
  }

  /**
   * No deadlock: every run in which a client is between sem_wait and sem_post can be continued, by that client alone, until it has
   * posted, all acquired operations then completed in order; and then any waiting client can acquire.
   */
  lemma {:induction false} HolderFinishes(fs: FileSystem, run: seq<System>) returns (longer: seq<System>)
    requires IsRun(fs, run) && run[|run| - 1].holder.Some?
    ensures IsRun(fs, longer) && |longer| > |run| && longer[..|run|] == run
    ensures var s, t := run[|run| - 1], longer[|longer| - 1];
            t.sem == 1 && Calls(t.done) == s.acquired
    decreases Rank(PcOf(run[|run| - 1], run[|run| - 1].holder.value)), Unwritten(PcOf(run[|run| - 1], run[|run| - 1].holder.value))
  {
    hide Does, Inv, Init, Next, Rank, Unwritten;
    var s := run[|run| - 1];
    InvOnRun(fs, run, |run| - 1);
    var step, s' := NextStep(fs, run[0].file, s);
    RunOn(fs, run, s.holder.value, step, s');
    longer := run + [s'];
    if s'.holder.Some? {
      longer := HolderFinishes(fs, longer);
      assert longer[..|run|] == longer[..|run| + 1][..|run|];
    }
  }

  lemma WaiterEnters(fs: FileSystem, run: seq<System>, c: nat) returns (s': System)
    requires IsRun(fs, run) && run[|run| - 1].sem == 1 && PcOf(run[|run| - 1], c).Waiting?
    ensures IsRun(fs, run + [s']) && s'.holder == Some(c)
  {
    var s := run[|run| - 1];
    var op := PcOf(s, c).op;
    s' := Go(s, c, Inside(op)).(sem := s.sem - 1, holder := Some(c), acquired := s.acquired + [Call(c, op)]);
    assert Does(fs, c, Wait, s, s');
    RunOn(fs, run, c, Wait, s');
  }
}
