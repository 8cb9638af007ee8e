/** The evaluator itself: a loop over the task list that rewires the process's own descriptors. */
module ShellExec {
  import opened ShellSyntax
  import opened ShellSemantics
  import ShellParser

  /** The descriptor dup and pipe hand out: the lowest number not in use. */
  function LowestFree(used: set<nat>, from: nat): (fd: nat)
    ensures fd !in used && from <= fd
    ensures forall k :: from <= k < fd ==> k in used
    decreases used
  {
    if from !in used then from else LowestFree(used - {from}, from + 1)
  }

  const NO_FD := -1

  /** The descriptors a close list names. */
  function Named(closeList: seq<int>): set<nat> {
    if closeList == [] then {}
    else Named(closeList[..|closeList| - 1]) + (if closeList[|closeList| - 1] >= 0 then {closeList[|closeList| - 1]} else {})
  }

  lemma NamedThree(a: int, b: int, c: int)
    ensures Named([a, b, c]) == (if a >= 0 then {a} else {}) + (if b >= 0 then {b} else {}) + (if c >= 0 then {c} else {})
  {
    assert [a, b, c][..2] == [a, b] && [a, b][..1] == [a] && [a][..0] == [];
    assert Named([a]) == if a >= 0 then {a} else {};
  }

  /** The table between the wiring of stdin and that of stdout. */
  predicate StdinWired(base: Fds, input: File, fds: Fds, oldStdin: int)
    requires 0 in base
  {
    if oldStdin == NO_FD then fds == base == base[0 := input]
    else oldStdin >= 0 && oldStdin !in base && fds == base[0 := input][oldStdin := base[0]]
  }

  predicate StdoutWired(before: Fds, token: Token, pipe: nat, fds: Fds, oldStdout: int, r: int)
    requires 1 in before
  {
    if token != Pipe then oldStdout == NO_FD && r == NO_FD && fds == before
    else
      && oldStdout >= 0 && r >= 0 && oldStdout != r && oldStdout !in before && r !in before
      && fds == before[1 := WriteEnd(pipe)][oldStdout := before[1]][r := ReadEnd(pipe)]
  }

  lemma ChildSees(base: Fds, token: Token, pipe: nat, input: File,
                  before: Fds, fds: Fds, oldStdin: int, oldStdout: int, r: int)
    requires Standard(base) && StdinWired(base, input, before, oldStdin)
    requires StdoutWired(before, token, pipe, fds, oldStdout, r)
    ensures fds - Named([oldStdin, oldStdout, r]) == View(base, token, pipe, input)
  {
    NamedThree(oldStdin, oldStdout, r);
  }

  function Restored(fds: Fds, saved: int, std: nat): Fds
    requires saved >= 0 ==> saved in fds
  {
    if saved >= 0 then (fds - {saved})[std := fds[saved]] else fds
  }

  lemma ParentKeeps(base: Fds, token: Token, pipe: nat, input: File,
                    before: Fds, fds: Fds, oldStdin: int, oldStdout: int, r: int)
    requires Standard(base) && StdinWired(base, input, before, oldStdin)
    requires StdoutWired(before, token, pipe, fds, oldStdout, r)
    ensures oldStdin >= 0 ==> oldStdin in fds && oldStdin != 0
    ensures oldStdout >= 0 ==> oldStdout in Restored(fds, oldStdin, 0) && oldStdout != 1
    ensures Restored(Restored(fds, oldStdin, 0), oldStdout, 1) == if token == Pipe then base[r := ReadEnd(pipe)] else base
  {
  }

  class Process {
    var fds: Fds
    var world: World
    const oracle: Oracle

    constructor (fds: Fds, world: World, oracle: Oracle)
      ensures this.fds == fds && this.world == world && this.oracle == oracle
    {
      this.fds, this.world, this.oracle := fds, world, oracle;
    }

    /*** System calls ***/

    method Dup(fd: nat) returns (r: nat)
      requires fd in fds
      modifies this`fds
      ensures r !in old(fds) && fds == old(fds)[r := old(fds)[fd]]
    {
      r := LowestFree(fds.Keys, 0);
      fds := fds[r := fds[fd]];
    }

    method Close(fd: int)
      modifies this`fds
      ensures fds == if fd >= 0 then old(fds) - {fd} else old(fds)
    {
      if fd >= 0 {
        fds := fds - {fd};
      }
    }

    method Dup2(src: nat, dst: nat)
      requires src in fds
      modifies this`fds
      ensures fds == old(fds)[dst := old(fds)[src]]
    {
      fds := fds[dst := fds[src]];
    }

    method OpenPipe() returns (r: nat, w: nat)
      modifies this
      ensures r != w && r !in old(fds) && w !in old(fds)
      ensures fds == old(fds)[r := ReadEnd(old(world).pipes)][w := WriteEnd(old(world).pipes)]
      ensures world == old(world).(pipes := old(world).pipes + 1)
    {
      r := LowestFree(fds.Keys, 0);
      fds := fds[r := ReadEnd(world.pipes)];
      w := LowestFree(fds.Keys, 0);
      fds := fds[w := WriteEnd(world.pipes)];
      world := world.(pipes := world.pipes + 1);
    }

    /*** The three descriptor exchanges of the loop body ***/

    /** Puts `fd` on `std`, closes `fd`, and returns the saved copy of what `std` was. */
    method Redirect(fd: nat, std: nat) returns (saved: nat)
      requires fd in fds && std in fds && fd != std
      modifies this`fds
      ensures saved !in old(fds)
      ensures fds == (old(fds) - {fd})[std := old(fds)[fd]][saved := old(fds)[std]]
    {
      saved := Dup(std);
      Close(std);
      Dup2(fd, std);
      Close(fd);
      assert fds == (old(fds) - {fd})[std := old(fds)[fd]][saved := old(fds)[std]];
    }

    /** Undoes Redirect. */
    method Restore(saved: int, std: nat)
      requires saved >= 0 ==> saved in fds && saved != std
      modifies this`fds
      ensures fds == Restored(old(fds), saved, std)
    {
      if saved != NO_FD && saved >= 0 {
        Close(std);
        Dup2(saved, std);
        Close(saved);
        assert fds == (old(fds) - {saved})[std := old(fds)[saved]];
      }
    }

    /** Runs one task in a child that has closed the descriptors of `closeList`. */
    method ExecuteTask(t: Task, closeList: seq<int>, ghost input: File, ghost base: Fds, ghost w0: World) returns (ret: int)
      requires Fits([t]) && Standard(base)
      requires |closeList| == 3
      requires world == Piped(w0, t.token)
      requires fds - Named(closeList) == View(base, t.token, w0.pipes, input)
      modifies this`world
      ensures (ret, world) == RunTask(t, input, oracle, base, w0)
      decreases t, 0
    {
      if !oracle.forks(world) {
        world := Log(world, ForkFailed);
        return -1;
      }
      var child := new Process(fds, world, oracle);
      for i := 0 to 3
        invariant child.world == world == old(world)
        invariant child.fds == fds - Named(closeList[..i])
      {
        assert closeList[..i + 1][..i] == closeList[..i];
        child.Close(closeList[i]);
      }
      assert closeList[..3] == closeList;
      if t.Subshell? {
        assert t in [t];
        child.world := Log(child.world, Entered(child.fds));
        ret := child.ExecuteTaskList(t.tasks);
        ret := ret % 256;
      } else {
        child.world := Log(child.world, Started(t.argv, child.fds));
        ret := if Waits(t.token) then oracle.exits(child.world) else 0;
      }
      world := child.world;
    }

    /**
     * The status and the whole history are those of the structured run, and the descriptor table is given
     * back untouched, except that a final task that ran with a pipe token leaves the read end open.
     */
    method ExecuteTaskList(tasks: seq<Task>) returns (ret: int)
      requires Fits(tasks) && Standard(fds)
      modifies this
      ensures (ret, world) == RunScript(Structure(tasks), -1, oracle, old(fds), old(world))
      ensures tasks == [] || tasks[|tasks| - 1].token != Pipe ==> fds == old(fds)
      ensures var after := RunLoop(tasks, Loop(-1, 0, NoFeed, old(world)), oracle, old(fds));
              && (ret, world) == (after.ret, after.w)
              && (after.feed.NoFeed? <==> fds == old(fds))
              && (after.feed.Feed? ==>
                    exists fd: nat :: fd !in old(fds) && fds == old(fds)[fd := ReadEnd(after.feed.pipe)])
      decreases tasks, 1
    {
      ret := -1;
      var skip, pipefd := 0, NO_FD;
      var n := 0;
      ghost var base, start := fds, Loop(-1, 0, NoFeed, world);
      ghost var feed := NoFeed;
      while n < MAX_NUM_CMDS && n < |tasks|
        invariant 0 <= n <= |tasks|
        invariant skip == 0 || (skip == 1 && pipefd == NO_FD)
        invariant pipefd == NO_FD <==> feed == NoFeed
        invariant pipefd == NO_FD ==> fds == base
        invariant pipefd != NO_FD ==> pipefd >= 0 && pipefd !in base && fds == base[pipefd := ReadEnd(feed.pipe)]
        invariant RunLoop(tasks[n..], Loop(ret, skip, feed, world), oracle, base) == RunLoop(tasks, start, oracle, base)
      {
        var t := tasks[n];
        ghost var st := Loop(ret, skip, feed, world);
        if skip == 0 {
          ret, pipefd := Wire(t, pipefd, base, feed);
          feed := if t.token == Pipe then Feed(st.w.pipes) else NoFeed;
        } else if t.token == Pipe {
          skip := skip + 1;
        }
        if skip > 0 {
          skip := skip - 1;
        }
        if ret == 0 && t.token == Or {
          skip := skip + 1;
        }
        if ret != 0 && t.token == And {
          skip := skip + 1;
        }
        assert Loop(ret, skip, feed, world) == LoopStep(t, st, oracle, base);
        assert tasks[n..][1..] == tasks[n + 1..];
        n := n + 1;
      }
      assert tasks[n..] == [];
      LoopRefinesShell(tasks, oracle, base, start.w);
      if tasks != [] {
        FeedAtLoopHead(tasks, start, oracle, base);
      }
      assert pipefd != NO_FD ==> fds != base by {
        if pipefd != NO_FD {
          assert pipefd in fds;
        }
      }
    }

    /**
     * The whole wrapper: parse, then run the list in a child. A text that does not parse runs nothing;
     * any other runs as the group of its script, and the caller's descriptors never change.
     */
    method SecureSystem(format: string) returns (ret: int)
      requires ShellParser.Plain(format) && Standard(fds)
      modifies this`world
      ensures match ShellParser.Parse(format, ShellParser.Start([]))
              case Failed => ret == -1 && world == old(world)
              case Parsed(tasks, _) => (ret, world) == RunNode(Group(Structure(tasks)), true, oracle, fds, old(world))
    {
      var r, _ := ShellParser.CommandParser(format);
      if r.Failed? {
        return -1;
      }
      if !oracle.forks(world) {
        world := Log(world, ForkFailed);
        return -1;
      }
      ShellParser.ParseFits(format, ShellParser.Start([]));
      var child := new Process(fds, Log(world, Entered(fds)), oracle);
      ret := child.ExecuteTaskList(r.tasks);
      ret, world := ret % 256, child.world;
    }

    /** The loop body of a task that is not skipped: wire stdin and stdout, run, put both back. */
    method Wire(t: Task, feedFd: int, ghost base: Fds, ghost feed: Feed) returns (ret: int, pipefd: int)
      requires Fits([t]) && Standard(base)
      requires feedFd == NO_FD <==> feed == NoFeed
      requires feedFd == NO_FD ==> fds == base
      requires feedFd != NO_FD ==> feedFd >= 0 && feedFd !in base && fds == base[feedFd := ReadEnd(feed.pipe)]
      modifies this
      ensures (ret, world) == RunTask(t, if feed.Feed? then ReadEnd(feed.pipe) else base[0], oracle, base, old(world))
      ensures pipefd == NO_FD <==> t.token != Pipe
      ensures pipefd == NO_FD ==> fds == base
      ensures pipefd != NO_FD ==>
                pipefd >= 0 && pipefd !in base && fds == base[pipefd := ReadEnd(old(world).pipes)]
      decreases t, 1
    {
      ghost var input := if feed.Feed? then ReadEnd(feed.pipe) else base[0];
      ghost var k := world.pipes;
      var oldStdin := WireStdin(feedFd, base, input);
      ghost var before := fds;
      var oldStdout, r := WireStdout(t.token);
      pipefd := r;
      ChildSees(base, t.token, k, input, before, fds, oldStdin, oldStdout, r);
      ParentKeeps(base, t.token, k, input, before, fds, oldStdin, oldStdout, r);
      ret := ExecuteTask(t, [oldStdin, oldStdout, r], input, base, old(world));
      Restore(oldStdin, 0);
      Restore(oldStdout, 1);
    }

    method WireStdin(pipefd: int, ghost base: Fds, ghost input: File) returns (oldStdin: int)
      requires Standard(base)
      requires pipefd == NO_FD ==> fds == base && input == base[0]
      requires pipefd != NO_FD ==> pipefd >= 0 && pipefd !in base && fds == base[pipefd := input]
      modifies this`fds
      ensures oldStdin == NO_FD <==> pipefd == NO_FD
      ensures StdinWired(base, input, fds, oldStdin)
    {
      oldStdin := NO_FD;
      if pipefd != NO_FD {
        oldStdin := Redirect(pipefd, 0);
        assert fds == base[0 := input][oldStdin := base[0]];
      }
    }

    method WireStdout(token: Token) returns (oldStdout: int, r: int)
      requires Standard(fds)
      modifies this
      ensures world == Piped(old(world), token)
      ensures StdoutWired(old(fds), token, old(world).pipes, fds, oldStdout, r)
    {
      oldStdout, r := NO_FD, NO_FD;
      if token == Pipe {
        var w;
        r, w := OpenPipe();
        oldStdout := Redirect(w, 1);
        if w == oldStdout {
          assert false;
        }
        assert fds == old(fds)[1 := WriteEnd(old(world).pipes)][oldStdout := old(fds)[1]][r := ReadEnd(old(world).pipes)];
      }
    }
  }
}
