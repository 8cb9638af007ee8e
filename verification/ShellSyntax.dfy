/** Task trees of the command wrapper, and the shell grammar they flatten. */
module ShellSyntax {

  const MAX_NUM_CMDS := 32
  const MAX_NUM_ARGS := 512
  const MAX_ARG_LEN := 1024

  /** The token that ends a task. */
  datatype Token = Semicolon | Background | Pipe | And | Or

  /** What the parser builds: a flat list of tasks; only a subshell nests. */
  datatype Task = Simple(argv: seq<string>, token: Token) | Subshell(tasks: seq<Task>, token: Token)

  /** Every list of the tree fits the array the parser allocates for it. */
  predicate Fits(tasks: seq<Task>)
    decreases tasks
  {
    && |tasks| <= MAX_NUM_CMDS
    && forall t <- tasks | t.Subshell? :: Fits(t.tasks)
  }

  /** The grammar of sections 2.9.2 and 2.9.3 of the POSIX.1-2017 Shell Command Language. */
  datatype Node = Program(argv: seq<string>) | Group(body: Script)
  datatype Pipeline = Last(node: Node) | Stage(node: Node, rest: Pipeline)
  datatype AndOr = One(only: Pipeline) | AndThen(left: AndOr, right: Pipeline) | OrElse(left: AndOr, right: Pipeline)
  datatype Operator = OpPipe | OpAnd | OpOr

  /**
   * A list of and-or lists. The wrapper also accepts a list that breaks off after
   * `|`, `&&` or `||`; Dangling is that list, with the operator left over.
   */
  datatype Script =
    | Nothing
    | Then(first: AndOr, background: bool, rest: Script)
    | Dangling(last: AndOr, op: Operator)

  function OperatorToken(op: Operator): Token {
    match op
    case OpPipe => Pipe
    case OpAnd => And
    case OpOr => Or
  }

  /*** From the grammar to task lists ***/

  function FlattenNode(n: Node, token: Token): Task {
    match n
    case Program(argv) => Simple(argv, token)
    case Group(body) => Subshell(FlattenScript(body), token)
  }

  function FlattenPipeline(p: Pipeline, end: Token): seq<Task> {
    match p
    case Last(n) => [FlattenNode(n, end)]
    case Stage(n, rest) => [FlattenNode(n, Pipe)] + FlattenPipeline(rest, end)
  }

  function FlattenAndOr(a: AndOr, end: Token): seq<Task> {
    match a
    case One(p) => FlattenPipeline(p, end)
    case AndThen(l, p) => FlattenAndOr(l, And) + FlattenPipeline(p, end)
    case OrElse(l, p) => FlattenAndOr(l, Or) + FlattenPipeline(p, end)
  }

  function FlattenScript(s: Script): seq<Task> {
    match s
    case Nothing => []
    case Then(a, bg, rest) => FlattenAndOr(a, if bg then Background else Semicolon) + FlattenScript(rest)
    case Dangling(a, op) => FlattenAndOr(a, OperatorToken(op))
  }

  /*** From task lists to the grammar ***/

  function StructureNode(t: Task): Node
    decreases t, 0
  {
    match t
    case Simple(argv, _) => Program(argv)
    case Subshell(tasks, _) => Group(Structure(tasks))
  }

  /** The pipeline at the head of a list, the token that ended it, and how many tasks it took. */
  function HeadPipeline(tasks: seq<Task>): (r: (Pipeline, Token, nat))
    requires tasks != []
    ensures 0 < r.2 <= |tasks|
    ensures r.1 == Pipe ==> r.2 == |tasks|
    decreases tasks, 1
  {
    var n := StructureNode(tasks[0]);
    if tasks[0].token == Pipe && |tasks| > 1 then
      var (p, end, k) := HeadPipeline(tasks[1..]);
      (Stage(n, p), end, k + 1)
    else
      (Last(n), tasks[0].token, 1)
  }

  /** Extends an and-or list that was ended by `end` with the pipelines that follow it. */
  function Continue(a: AndOr, end: Token, tasks: seq<Task>): Script
    requires end == Pipe ==> tasks == []
    decreases tasks, 3
  {
    if end == Semicolon || end == Background then
      Then(a, end == Background, Structure(tasks))
    else if tasks == [] then
      Dangling(a, if end == Pipe then OpPipe else if end == And then OpAnd else OpOr)
    else
      var (p, end', k) := HeadPipeline(tasks);
      Continue(if end == And then AndThen(a, p) else OrElse(a, p), end', tasks[k..])
  }

  function Structure(tasks: seq<Task>): Script
    decreases tasks, 2
  {
    if tasks == [] then Nothing
    else
      var (p, end, k) := HeadPipeline(tasks);
      Continue(One(p), end, tasks[k..])
  }

  /*** Structure loses nothing: flattening gives the very same task list back ***/

  lemma {:induction false} FlattenStructureNode(t: Task)
    ensures FlattenNode(StructureNode(t), t.token) == t
    decreases t, 0
  {
    if t.Subshell? {
      FlattenStructure(t.tasks);
    }
  }

  lemma {:induction false} FlattenHeadPipeline(tasks: seq<Task>)
    requires tasks != []
    ensures var (p, end, k) := HeadPipeline(tasks); FlattenPipeline(p, end) == tasks[..k]
    decreases tasks, 1
  {
    FlattenStructureNode(tasks[0]);
    if tasks[0].token == Pipe && |tasks| > 1 {
      FlattenHeadPipeline(tasks[1..]);
    }
  }

  lemma {:induction false} FlattenContinue(a: AndOr, end: Token, tasks: seq<Task>)
    requires end == Pipe ==> tasks == []
    ensures FlattenScript(Continue(a, end, tasks)) == FlattenAndOr(a, end) + tasks
    decreases tasks, 3
  {
    if end == Semicolon || end == Background {
      FlattenStructure(tasks);
    } else if tasks != [] {
      var (p, end', k) := HeadPipeline(tasks);
      FlattenHeadPipeline(tasks);
      var a' := if end == And then AndThen(a, p) else OrElse(a, p);
      FlattenContinue(a', end', tasks[k..]);
      assert tasks == tasks[..k] + tasks[k..];
    }
  }

  lemma {:induction false} FlattenStructure(tasks: seq<Task>)
    ensures FlattenScript(Structure(tasks)) == tasks
    decreases tasks, 2
  {
    if tasks != [] {
      var (p, end, k) := HeadPipeline(tasks);
      FlattenHeadPipeline(tasks);
      FlattenContinue(One(p), end, tasks[k..]);
      assert tasks == tasks[..k] + tasks[k..];
    }
  }

  /*** And every script is the structure of its own flattening ***/

  lemma {:induction false} StructureFlattenNode(n: Node, token: Token)
    ensures StructureNode(FlattenNode(n, token)) == n
    decreases n
  {
    if n.Group? {
      StructureFlatten(n.body);
    }
  }

  lemma {:induction false} HeadPipelineFlatten(p: Pipeline, end: Token, tail: seq<Task>)
    requires end == Pipe ==> tail == []
    ensures FlattenPipeline(p, end) != []
    ensures HeadPipeline(FlattenPipeline(p, end) + tail) == (p, end, |FlattenPipeline(p, end)|)
    decreases p
  {
    var tasks := FlattenPipeline(p, end) + tail;
    match p
    case Last(n) =>
      StructureFlattenNode(n, end);
    case Stage(n, rest) =>
      StructureFlattenNode(n, Pipe);
      HeadPipelineFlatten(rest, end, tail);
      assert tasks[1..] == FlattenPipeline(rest, end) + tail;
  }

  lemma {:induction false} StructureFlattenAndOr(a: AndOr, end: Token, tail: seq<Task>)
    requires end == Pipe ==> tail == []
    ensures Structure(FlattenAndOr(a, end) + tail) == Continue(a, end, tail)
    decreases a
  {
    var p := if a.One? then a.only else a.right;
    var head := FlattenPipeline(p, end);
    HeadPipelineFlatten(p, end, tail);
    assert (head + tail)[|head|..] == tail;
    if !a.One? {
      var op := if a.AndThen? then And else Or;
      StructureFlattenAndOr(a.left, op, head + tail);
      assert FlattenAndOr(a, end) + tail == FlattenAndOr(a.left, op) + (head + tail);
    }
  }

  lemma {:induction false} StructureFlatten(s: Script)
    ensures Structure(FlattenScript(s)) == s
    decreases s
  {
    match s
    case Nothing =>
    case Then(a, bg, rest) =>
      StructureFlattenAndOr(a, if bg then Background else Semicolon, FlattenScript(rest));
      StructureFlatten(rest);
    case Dangling(a, op) =>
      StructureFlattenAndOr(a, OperatorToken(op), []);
      assert FlattenAndOr(a, OperatorToken(op)) + [] == FlattenScript(s);
  }
}
