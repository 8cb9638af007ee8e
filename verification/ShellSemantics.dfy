/** What a task list means: structured recursion over the shell grammar, and the flat skip-counter loop. */
module ShellSemantics {
  import opened ShellSyntax

  /** What a descriptor refers to. Pipes are numbered in the order they are created. */
  datatype File = Inherited(id: nat) | ReadEnd(pipe: nat) | WriteEnd(pipe: nat)
  type Fds = map<nat, File>

  /** A program started with exactly these descriptors, a subshell entered with them, or a fork that failed. */
  datatype Event = Started(argv: seq<string>, fds: Fds) | Entered(fds: Fds) | ForkFailed
  datatype World = World(trace: seq<Event>, pipes: nat)

  /** The outside: whether a fork succeeds, and the status a program that was waited for exits with. */
  datatype Oracle = Oracle(forks: World -> bool, exits: World -> int)

  predicate Standard(fds: Fds) {
    0 in fds && 1 in fds
  }

  predicate Waits(token: Token) {
    token != Background && token != Pipe
  }

  function Log(w: World, e: Event): World {
    w.(trace := w.trace + [e])
  }

  /** The descriptors of a task: its input on 0 and, when its token is a pipe, the new pipe on 1; the rest as they are. */
  function View(base: Fds, token: Token, pipe: nat, input: File): (fds: Fds)
    ensures Standard(base) ==> Standard(fds)
  {
    if token == Pipe then base[0 := input][1 := WriteEnd(pipe)] else base[0 := input]
  }

  function Piped(w: World, token: Token): World {
    if token == Pipe then w.(pipes := w.pipes + 1) else w
  }

  /*** Structured semantics ***/

  /** A program that is not waited for counts as status 0; a subshell is always waited for and exits modulo 256. */
  function RunNode(n: Node, wait: bool, o: Oracle, fds: Fds, w: World): (int, World)
    requires Standard(fds)
    decreases n, 0
  {
    if !o.forks(w) then (-1, Log(w, ForkFailed))
    else match n
      case Program(argv) =>
        var w' := Log(w, Started(argv, fds));
        (if wait then o.exits(w') else 0, w')
      case Group(body) =>
        var (status, w') := RunScript(body, -1, o, fds, Log(w, Entered(fds)));
        (status % 256, w')
  }

  /** One stage: its output goes to a new pipe exactly when `token` is a pipe. */
  function RunStage(n: Node, token: Token, input: File, o: Oracle, fds: Fds, w: World): (int, World)
    requires Standard(fds)
    decreases n, 1
  {
    RunNode(n, Waits(token), o, View(fds, token, w.pipes, input), Piped(w, token))
  }

  /** Every stage runs; each reads what the one before it writes; the status is that of the last. */
  function RunPipeline(p: Pipeline, end: Token, input: File, o: Oracle, fds: Fds, w: World): (int, World)
    requires Standard(fds)
    decreases p
  {
    match p
    case Last(n) => RunStage(n, end, input, o, fds, w)
    case Stage(n, rest) =>
      var (_, w') := RunStage(n, Pipe, input, o, fds, w);
      RunPipeline(rest, end, ReadEnd(w.pipes), o, fds, w')
  }

  /** `&&` and `||` have equal precedence and associate to the left. */
  function RunAndOr(a: AndOr, end: Token, o: Oracle, fds: Fds, w: World): (int, World)
    requires Standard(fds)
    decreases a
  {
    match a
    case One(p) => RunPipeline(p, end, fds[0], o, fds, w)
    case AndThen(l, p) =>
      var (status, w') := RunAndOr(l, And, o, fds, w);
      if status == 0 then RunPipeline(p, end, fds[0], o, fds, w') else (status, w')
    case OrElse(l, p) =>
      var (status, w') := RunAndOr(l, Or, o, fds, w);
      if status != 0 then RunPipeline(p, end, fds[0], o, fds, w') else (status, w')
  }

  function RunScript(s: Script, status: int, o: Oracle, fds: Fds, w: World): (int, World)
    requires Standard(fds)
    decreases s
  {
    match s
    case Nothing => (status, w)
    case Then(a, bg, rest) =>
      var (status', w') := RunAndOr(a, if bg then Background else Semicolon, o, fds, w);
      RunScript(rest, status', o, fds, w')
    case Dangling(a, op) => RunAndOr(a, OperatorToken(op), o, fds, w)
  }

  /*** The flat loop ***/

  datatype Feed = NoFeed | Feed(pipe: nat)

  /** The loop's variables: last status, skip counter, and the pipe left by the previous task. */
  datatype Loop = Loop(ret: int, skip: int, feed: Feed, w: World)

  function Input(st: Loop, fds: Fds): File
    requires Standard(fds)
  {
    if st.feed.Feed? then ReadEnd(st.feed.pipe) else fds[0]
  }

  /** The counter as the three ifs at the foot of the loop leave it. */
  function SkipAfter(ret: int, skip: int, token: Token): int {
    var s := if skip > 0 then skip - 1 else skip;
    s + (if (ret == 0 && token == Or) || (ret != 0 && token == And) then 1 else 0)
  }

  /** One task as the loop runs it: a subshell runs the same loop on its own list. */
  function RunTask(t: Task, input: File, o: Oracle, fds: Fds, w: World): (int, World)
    requires Standard(fds)
    decreases t, 0
  {
    var fds', w' := View(fds, t.token, w.pipes, input), Piped(w, t.token);
    if !o.forks(w') then (-1, Log(w', ForkFailed))
    else match t
      case Simple(argv, token) =>
        var started := Log(w', Started(argv, fds'));
        (if Waits(token) then o.exits(started) else 0, started)
      case Subshell(tasks, _) =>
        var after := RunLoop(tasks, Loop(-1, 0, NoFeed, Log(w', Entered(fds'))), o, fds');
        (after.ret % 256, after.w)
  }

  function LoopStep(t: Task, st: Loop, o: Oracle, fds: Fds): Loop
    requires Standard(fds)
    decreases t, 1
  {
    if st.skip != 0 then
      st.(skip := SkipAfter(st.ret, if t.token == Pipe then st.skip + 1 else st.skip, t.token))
    else
      var (ret, w) := RunTask(t, Input(st, fds), o, fds, st.w);
      Loop(ret, SkipAfter(ret, 0, t.token), if t.token == Pipe then Feed(st.w.pipes) else NoFeed, w)
  }

  function RunLoop(tasks: seq<Task>, st: Loop, o: Oracle, fds: Fds): Loop
    requires Standard(fds)
    decreases tasks, 2
  {
    if tasks == [] then st else RunLoop(tasks[1..], LoopStep(tasks[0], st, o, fds), o, fds)
  }

  /*** The flat loop computes the structured semantics ***/

  lemma {:induction false} RunLoopConcat(a: seq<Task>, b: seq<Task>, st: Loop, o: Oracle, fds: Fds)
    requires Standard(fds)
    ensures RunLoop(a + b, st, o, fds) == RunLoop(b, RunLoop(a, st, o, fds), o, fds)
    decreases |a|
  {
    if a == [] {
      assert a + b == b;
    } else {
      assert (a + b)[1..] == a[1..] + b;
      RunLoopConcat(a[1..], b, LoopStep(a[0], st, o, fds), o, fds);
    }
  }

  /** A loop state at the head of a command that is about to run. */
  predicate Fresh(st: Loop) {
    st.skip == 0 && st.feed == NoFeed
  }

  lemma {:induction false} TaskRunsStage(n: Node, token: Token, input: File, o: Oracle, fds: Fds, w: World)
    requires Standard(fds)
    ensures RunTask(FlattenNode(n, token), input, o, fds, w) == RunStage(n, token, input, o, fds, w)
    decreases n
  {
    var fds', w' := View(fds, token, w.pipes, input), Piped(w, token);
    match n
    case Program(_) =>
    case Group(body) =>
      var start := Log(w', Entered(fds'));
      LoopRunsScript(body, Loop(-1, 0, NoFeed, start), o, fds');
  }

  /** A pipeline reached with the counter at 0 runs; its feed is used up unless the pipeline itself breaks off. */
  lemma {:induction false} LoopRunsPipeline(p: Pipeline, end: Token, st: Loop, o: Oracle, fds: Fds)
    requires Standard(fds) && st.skip == 0
    ensures
      var (ret, w) := RunPipeline(p, end, Input(st, fds), o, fds, st.w);
      var after := RunLoop(FlattenPipeline(p, end), st, o, fds);
      && after.ret == ret && after.w == w && after.skip == SkipAfter(ret, 0, end)
      && (after.feed == NoFeed <==> end != Pipe)
    decreases p
  {
    match p
    case Last(n) =>
      TaskRunsStage(n, end, Input(st, fds), o, fds, st.w);
      var t := FlattenNode(n, end);
      assert RunLoop([t], st, o, fds) == LoopStep(t, st, o, fds);
    case Stage(n, rest) =>
      TaskRunsStage(n, Pipe, Input(st, fds), o, fds, st.w);
      var t := FlattenNode(n, Pipe);
      LoopRunsPipeline(rest, end, LoopStep(t, st, o, fds), o, fds);
  }

  /** A pipeline reached with the counter at 1 is skipped to its last stage, whose token decides again. */
  lemma {:induction false} LoopSkipsPipeline(p: Pipeline, end: Token, st: Loop, o: Oracle, fds: Fds)
    requires Standard(fds) && st.skip == 1
    ensures RunLoop(FlattenPipeline(p, end), st, o, fds)
         == st.(skip := if end == Pipe then 1 else SkipAfter(st.ret, 0, end))
    decreases p
  {
    match p
    case Last(n) =>
      var t := FlattenNode(n, end);
      assert RunLoop([t], st, o, fds) == LoopStep(t, st, o, fds);
    case Stage(n, rest) =>
      LoopSkipsPipeline(rest, end, st, o, fds);
  }

  lemma {:induction false} LoopRunsAndOr(a: AndOr, end: Token, st: Loop, o: Oracle, fds: Fds)
    requires Standard(fds) && Fresh(st)
    ensures
      var (ret, w) := RunAndOr(a, end, o, fds, st.w);
      var after := RunLoop(FlattenAndOr(a, end), st, o, fds);
      && after.ret == ret && after.w == w
      && (end != Pipe ==> after.skip == SkipAfter(ret, 0, end) && after.feed == NoFeed)
    decreases a
  {
    if a.One? {
      LoopRunsPipeline(a.only, end, st, o, fds);
    } else {
      var op := if a.AndThen? then And else Or;
      LoopRunsAndOr(a.left, op, st, o, fds);
      var mid := RunLoop(FlattenAndOr(a.left, op), st, o, fds);
      RunLoopConcat(FlattenAndOr(a.left, op), FlattenPipeline(a.right, end), st, o, fds);
      if mid.skip == 0 {
        LoopRunsPipeline(a.right, end, mid, o, fds);
      } else {
        LoopSkipsPipeline(a.right, end, mid, o, fds);
      }
    }
  }

  /** The loop, from its initial variables, returns the status and the history of the structured run. */
  lemma {:induction false} LoopRunsScript(s: Script, st: Loop, o: Oracle, fds: Fds)
    requires Standard(fds) && Fresh(st)
    ensures
      var (ret, w) := RunScript(s, st.ret, o, fds, st.w);
      var after := RunLoop(FlattenScript(s), st, o, fds);
      after.ret == ret && after.w == w
    decreases s
  {
    match s
    case Nothing =>
    case Then(a, bg, rest) =>
      var end := if bg then Background else Semicolon;
      LoopRunsAndOr(a, end, st, o, fds);
      RunLoopConcat(FlattenAndOr(a, end), FlattenScript(rest), st, o, fds);
      LoopRunsScript(rest, RunLoop(FlattenAndOr(a, end), st, o, fds), o, fds);
    case Dangling(a, op) =>
      LoopRunsAndOr(a, OperatorToken(op), st, o, fds);
  }

  /** For every task list: the flat loop and the structured semantics of its grammar tree agree. */
  lemma LoopRefinesShell(tasks: seq<Task>, o: Oracle, fds: Fds, w: World)
    requires Standard(fds)
    ensures
      var after := RunLoop(tasks, Loop(-1, 0, NoFeed, w), o, fds);
      (after.ret, after.w) == RunScript(Structure(tasks), -1, o, fds, w)
  {
    FlattenStructure(tasks);
    LoopRunsScript(Structure(tasks), Loop(-1, 0, NoFeed, w), o, fds);
  }

  /*** What holds at every loop head ***/

  predicate LoopHead(st: Loop) {
    st.skip == 0 || (st.skip == 1 && st.feed == NoFeed)
  }

  lemma {:induction false} LoopHeadHolds(tasks: seq<Task>, st: Loop, o: Oracle, fds: Fds)
    requires Standard(fds) && LoopHead(st)
    ensures LoopHead(RunLoop(tasks, st, o, fds))
    decreases |tasks|
  {
    if tasks != [] {
      LoopHeadHolds(tasks[1..], LoopStep(tasks[0], st, o, fds), o, fds);
    }
  }

  /** A pipe waits to be read exactly when the task just passed ran, rather than being skipped, and its token was a pipe. */
  lemma FeedAtLoopHead(tasks: seq<Task>, st: Loop, o: Oracle, fds: Fds)
    requires Standard(fds) && LoopHead(st) && tasks != []
    ensures
      var last := tasks[|tasks| - 1];
      var before := RunLoop(tasks[..|tasks| - 1], st, o, fds);
      RunLoop(tasks, st, o, fds).feed.Feed? <==> before.skip == 0 && last.token == Pipe
  {
    var init, last := tasks[..|tasks| - 1], tasks[|tasks| - 1];
    assert tasks == init + [last];
    RunLoopConcat(init, [last], st, o, fds);
    LoopHeadHolds(init, st, o, fds);
    var before := RunLoop(init, st, o, fds);
    assert RunLoop([last], before, o, fds) == LoopStep(last, before, o, fds);
  }
}
