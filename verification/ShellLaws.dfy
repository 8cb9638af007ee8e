/** What short command lists do, in plain words: which programs start, with which descriptors, and the status returned. */
module ShellLaws {
  import opened Wrappers
  import opened ShellSyntax
  import opened ShellSemantics
  import ShellParser

  /** The evaluator on a whole list: its status and what happened. */
  function Evaluate(tasks: seq<Task>, o: Oracle, fds: Fds, w: World): (int, World)
    requires Standard(fds)
  {
    var after := RunLoop(tasks, Loop(-1, 0, NoFeed, w), o, fds);
    (after.ret, after.w)
  }

  /** The world in which a program has just been started on top of another. */
  function Starting(w: World, argv: seq<string>, fds: Fds): World {
    World(w.trace + [Started(argv, fds)], w.pipes)
  }

  ghost predicate ForksSucceed(o: Oracle) {
    forall w: World :: o.forks(w)
  }

  lemma OwnInput(fds: Fds)
    requires Standard(fds)
    ensures fds[0 := fds[0]] == fds
  {
  }

  lemma LoopOfOne(t: Task, st: Loop, o: Oracle, fds: Fds)
    requires Standard(fds)
    ensures RunLoop([t], st, o, fds) == LoopStep(t, st, o, fds)
  {
    hide LoopStep;
    var after := LoopStep(t, st, o, fds);
    assert [t][1..] == [];
    assert RunLoop([], after, o, fds) == after;
  }

  lemma LoopOfTwo(a: Task, b: Task, st: Loop, o: Oracle, fds: Fds)
    requires Standard(fds)
    ensures RunLoop([a, b], st, o, fds) == LoopStep(b, LoopStep(a, st, o, fds), o, fds)
  {
    hide LoopStep;
    assert [a, b] == [a] + [b];
    RunLoopConcat([a], [b], st, o, fds);
    LoopOfOne(a, st, o, fds);
    LoopOfOne(b, LoopStep(a, st, o, fds), o, fds);
  }

  /** No task at all: nothing happens and the status is -1. */
  lemma EmptyList(o: Oracle, fds: Fds, w: World)
    requires Standard(fds)
    ensures Evaluate([], o, fds, w) == (-1, w)
  {
  }

  /**
   * One program ended by `;`, `&&` or `||` is started with the caller's descriptors and waited for: the status is the one it exits
   * with. Ended by `&` it is started and counts as 0 at once.
   */
  lemma OneProgram(argv: seq<string>, token: Token, o: Oracle, fds: Fds, w: World)
    requires Standard(fds) && o.forks(w) && token != Pipe
    ensures var started := Starting(w, argv, fds);
            Evaluate([Simple(argv, token)], o, fds, w)
              == (if token == Semicolon || token == And || token == Or then o.exits(started) else 0, started)
  {
    LoopOfOne(Simple(argv, token), Loop(-1, 0, NoFeed, w), o, fds);
    OwnInput(fds);
  }

  /** Ended by `|` it is started with a new pipe on 1 and counts as 0 at once. */
  lemma OnePiped(argv: seq<string>, o: Oracle, fds: Fds, w: World)
    requires Standard(fds) && ForksSucceed(o)
    ensures Evaluate([Simple(argv, Pipe)], o, fds, w)
         == (0, Starting(World(w.trace, w.pipes + 1), argv, fds[1 := WriteEnd(w.pipes)]))
  {
    LoopOfOne(Simple(argv, Pipe), Loop(-1, 0, NoFeed, w), o, fds);
    OwnInput(fds);
  }

  /** A program whose fork fails is not started, and the status is -1. */
  lemma ForkFails(argv: seq<string>, token: Token, o: Oracle, fds: Fds, w: World)
    requires Standard(fds) && !o.forks(w) && token != Pipe
    ensures Evaluate([Simple(argv, token)], o, fds, w) == (-1, World(w.trace + [ForkFailed], w.pipes))
  {
    LoopOfOne(Simple(argv, token), Loop(-1, 0, NoFeed, w), o, fds);
  }

  /** `a && b`: b is started exactly if a exits with 0, and then its status counts; otherwise that of a. */
  lemma AndList(a: seq<string>, b: seq<string>, o: Oracle, fds: Fds, w: World)
    requires Standard(fds) && ForksSucceed(o)
    ensures var first := Starting(w, a, fds);
            var second := Starting(first, b, fds);
            Evaluate([Simple(a, And), Simple(b, Semicolon)], o, fds, w)
              == if o.exits(first) == 0 then (o.exits(second), second) else (o.exits(first), first)
  {
    LoopOfTwo(Simple(a, And), Simple(b, Semicolon), Loop(-1, 0, NoFeed, w), o, fds);
    OwnInput(fds);
  }

  /** `a || b`: b is started exactly if a does not exit with 0. */
  lemma OrList(a: seq<string>, b: seq<string>, o: Oracle, fds: Fds, w: World)
    requires Standard(fds) && ForksSucceed(o)
    ensures var first := Starting(w, a, fds);
            var second := Starting(first, b, fds);
            Evaluate([Simple(a, Or), Simple(b, Semicolon)], o, fds, w)
              == if o.exits(first) != 0 then (o.exits(second), second) else (o.exits(first), first)
  {
    LoopOfTwo(Simple(a, Or), Simple(b, Semicolon), Loop(-1, 0, NoFeed, w), o, fds);
    OwnInput(fds);
  }

  /** `a ; b` and `a & b`: both are started, in this order, and b gives the status, whatever becomes of a. */
  lemma PlainList(a: seq<string>, token: Token, b: seq<string>, o: Oracle, fds: Fds, w: World)
    requires Standard(fds) && ForksSucceed(o) && (token == Semicolon || token == Background)
    ensures var second := Starting(Starting(w, a, fds), b, fds);
            Evaluate([Simple(a, token), Simple(b, Semicolon)], o, fds, w) == (o.exits(second), second)
  {
    LoopOfTwo(Simple(a, token), Simple(b, Semicolon), Loop(-1, 0, NoFeed, w), o, fds);
    OwnInput(fds);
  }

  /** `a | b`: both are started, a writing to a new pipe on 1 and b reading it on 0, and b gives the status. */
  lemma PipeList(a: seq<string>, b: seq<string>, o: Oracle, fds: Fds, w: World)
    requires Standard(fds) && ForksSucceed(o)
    ensures var first := Starting(World(w.trace, w.pipes + 1), a, fds[1 := WriteEnd(w.pipes)]);
            var second := Starting(first, b, fds[0 := ReadEnd(w.pipes)]);
            Evaluate([Simple(a, Pipe), Simple(b, Semicolon)], o, fds, w) == (o.exits(second), second)
  {
    LoopOfTwo(Simple(a, Pipe), Simple(b, Semicolon), Loop(-1, 0, NoFeed, w), o, fds);
    OwnInput(fds);
  }

  /** `(list)`: the list runs in a child of its own, is waited for whatever the token, and its status counts modulo 256. */
  lemma SubshellList(tasks: seq<Task>, token: Token, o: Oracle, fds: Fds, w: World)
    requires Standard(fds) && o.forks(w) && token != Pipe
    ensures var (status, after) := Evaluate(tasks, o, fds, World(w.trace + [Entered(fds)], w.pipes));
            Evaluate([Subshell(tasks, token)], o, fds, w) == (status % 256, after)
  {
    LoopOfOne(Subshell(tasks, token), Loop(-1, 0, NoFeed, w), o, fds);
    OwnInput(fds);
  }

  /** The whole wrapper on the text of `a && b`, single words: from characters to started programs. */
  lemma AndText(a: string, b: string)
    requires ShellParser.IsWord(a) && ShellParser.IsWord(b)
    ensures ShellParser.Parse(a + ("&&" + b), ShellParser.Start([]))
         == ShellParser.Parsed([Simple([a], And), Simple([b], Semicolon)], "")
  {
    hide ShellParser.Parse;
    var tasks := [Simple([a], And), Simple([b], Semicolon)];
    assert tasks[1..] == [tasks[1]] && [tasks[1]][1..] == [];
    assert ShellParser.Print([tasks[1]]) == b + "" + "";
    assert ShellParser.Print(tasks) == a + "&&" + b;
    assert ShellParser.Printable(tasks);
    ShellParser.ParseUndoesPrint(tasks);
    assert a + "&&" + b == a + ("&&" + b);
  }
}
