/** The command parser on texts without quotes, backticks, redirects and formats, and the printer it undoes. */
module ShellParser {
  import opened Wrappers
  import opened ShellSyntax

  /** What the parser holds between characters: finished tasks, and the parts of the current one. */
  datatype State = State(done: seq<Task>, args: seq<string>, sub: Option<seq<Task>>, token: Option<Token>, word: string)

  datatype Outcome = Failed | Parsed(tasks: seq<Task>, rest: string)

  predicate IsOperator(c: char) {
    c == ';' || c == '&' || c == '|'
  }

  predicate IsSpecial(c: char) {
    c == ' ' || c == '\t' || c == '(' || c == ')' || IsOperator(c)
  }

  predicate IsPlain(c: char) {
    c != '`' && c != '\'' && c != '"' && c != '<' && c != '>' && c != '%' && c != '\0'
  }

  predicate Plain(text: string) {
    forall i :: 0 <= i < |text| ==> IsPlain(text[i])
  }

  function Start(done: seq<Task>): State {
    State(done, [], None, None, "")
  }

  predicate OverLimit(st: State) {
    |st.word| > MAX_ARG_LEN || |st.args| >= MAX_NUM_ARGS || |st.done| >= MAX_NUM_CMDS
  }

  /** A pending word may not follow a subshell. */
  predicate Misplaced(st: State) {
    st.word != "" && st.sub.Some?
  }

  /** The code after the switch: a pending word becomes an argument, and a command that has its token is stored. */
  function Settle(st: State): State {
    var st := if st.word != "" then st.(args := st.args + [st.word], word := "") else st;
    if (st.args != [] || st.sub.Some?) && st.token.Some? then
      Start(st.done + [if st.sub.Some? then Subshell(st.sub.value, st.token.value) else Simple(st.args, st.token.value)])
    else st
  }

  /** The token spelled at the head of a text that begins with `;`, `&` or `|`, and its length. */
  function ReadToken(text: string): (r: (Token, nat))
    requires text != "" && IsOperator(text[0])
    ensures 1 <= r.1 <= |text|
  {
    if text[0] == ';' then (Semicolon, 1)
    else if |text| > 1 && text[1] == text[0] then (if text[0] == '&' then And else Or, 2)
    else (if text[0] == '&' then Background else Pipe, 1)
  }

  /** What the switch makes of the next characters: fail, end the list, open a subshell, or read on. */
  datatype Look = Reject | End | Open | Go(n: nat, st: State)

  function LookAt(text: string, st: State): (r: Look)
    ensures r.Go? ==> 1 <= r.n <= |text|
    ensures r.Open? ==> text != ""
  {
    if OverLimit(st) then Reject
    else if text == "" || text[0] == ')' then
      if Misplaced(st) then Reject else End
    else if text[0] == '(' then
      if st.args != [] then Reject else Open
    else if text[0] == ' ' || text[0] == '\t' then
      if Misplaced(st) then Reject else Go(1, Settle(st))
    else if IsOperator(text[0]) then
      if (text[0] != ';' && st.token.Some?) || Misplaced(st) then Reject
      else
        var (token, n) := ReadToken(text);
        Go(n, Settle(st.(token := Some(token))))
    else
      Go(1, st.(word := st.word + [text[0]]))
  }

  /** The parser, as a function of the text still to be read. It follows the source on plain texts. */
  function Parse(text: string, st: State): (r: Outcome)
    ensures r.Parsed? ==> |r.rest| <= |text|
    decreases |text|
  {
    match LookAt(text, st)
    case Reject => Failed
    case End => Parsed(Settle(st.(token := Some(Semicolon))).done, if text == "" then "" else text[1..])
    case Open =>
      var inner := Parse(text[1..], Start([]));
      if inner.Failed? || |inner.rest| == |text| - 1 then Failed
      else
        var st' := st.(sub := Some(inner.tasks));
        if Misplaced(st') then Failed else Parse(inner.rest, Settle(st'))
    case Go(n, st') => Parse(text[n..], st')
  }

  /** The switch on anything but an opening parenthesis; `ok` is false where the source fails at once. */
  method Switch(format: string, start: nat, st0: State) returns (ok: bool, i: nat, st: State, last: bool, whole: bool)
    requires start <= |format| && !OverLimit(st0)
    requires start < |format| ==> format[start] != '('
    ensures start <= i <= |format| && (start < i || last)
    ensures LookAt(format[start..], st0) ==
              if !ok then Reject
              else if !whole then Go(1, st)
              else if Misplaced(st) then Reject
              else if last then End
              else Go(i - start, Settle(st))
    ensures !whole ==> i == start + 1 && !last
    ensures ok && last ==> st == st0.(token := Some(Semicolon))
    ensures last ==> format[i..] == if start == |format| then "" else format[start..][1..]
  {
    ok, i, st, last, whole := true, start, st0, false, true;
    ghost var tail := format[start..];
    if i == |format| {
      st, last := st.(token := Some(Semicolon)), true;
      return;
    }
    var c := format[i];
    assert tail[0] == c;
    i := i + 1;
    assert tail[1..] == format[i..];
    if c == ')' {
      st, last := st.(token := Some(Semicolon)), true;
    } else if c == ' ' || c == '\t' {
    } else if c == ';' {
      st := st.(token := Some(Semicolon));
    } else if c == '&' || c == '|' {
      ok := st.token.None?;
      if i < |format| && format[i] == c {
        st := st.(token := Some(if c == '&' then And else Or));
        i := i + 1;
      } else {
        st := st.(token := Some(if c == '&' then Background else Pipe));
      }
    } else {
      st, whole := st.(word := st.word + [c]), false;
    }
  }

  /** The switch and the code behind it, for anything but an opening parenthesis. */
  method ReadItem(format: string, i: nat, st: State) returns (ok: bool, j: nat, st': State, last: bool)
    requires i <= |format| && !OverLimit(st)
    requires i < |format| ==> format[i] != '('
    ensures i <= j <= |format| && (i < j || last)
    ensures Parse(format[i..], st) ==
              if !ok then Failed else if last then Parsed(st'.done, format[j..]) else Parse(format[j..], st')
  {
    var whole;
    ok, j, st', last, whole := Switch(format, i, st);
    if whole {
      ok := ok && !Misplaced(st');
      st' := Settle(st');
    }
    assert format[i..][j - i..] == format[j..];
  }

  lemma ParseOpen(text: string, st: State, inner: Outcome)
    requires text != "" && text[0] == '(' && !OverLimit(st) && st.args == []
    requires inner == Parse(text[1..], Start([]))
    ensures Parse(text, st) ==
              if inner.Failed? || |inner.rest| == |text| - 1 || st.word != "" then Failed
              else Parse(inner.rest, Settle(st.(sub := Some(inner.tasks))))
  {
  }

  lemma ParseSubshell(format: string, i: nat, st: State, inner: Outcome, n: int)
    requires i < |format| && format[i] == '(' && !OverLimit(st) && st.args == []
    requires inner == Parse(format[i + 1..], Start([]))
    requires if inner.Failed? then n == -1 else 0 <= n <= |format| - i - 1 && inner.rest == format[i + 1..][n..]
    ensures Parse(format[i..], st) ==
              if n < 1 || st.word != "" then Failed
              else Parse(format[i + 1 + n..], Settle(st.(sub := Some(inner.tasks))))
  {
    assert format[i..][1..] == format[i + 1..];
    ParseOpen(format[i..], st, inner);
    assert n >= 0 ==> format[i + 1..][n..] == format[i + 1 + n..];
  }

  lemma ParseMisplaced(format: string, i: nat, st: State)
    requires i < |format| && format[i] == '(' && st.args != []
    ensures Parse(format[i..], st) == Failed
  {
    assert format[i..][0] == '(';
  }

  /** A subshell: a recursive call on the text behind its parenthesis. */
  method ReadSubshell(format: string, i: nat, st: State) returns (ok: bool, j: nat, st': State)
    requires Plain(format) && i < |format| && format[i] == '(' && !OverLimit(st)
    ensures ok ==> i < j <= |format|
    ensures Parse(format[i..], st) == if ok then Parse(format[j..], st') else Failed
    decreases |format|, 0
  {
    hide Parse;
    ok, j, st' := false, i, st;
    if st.args != [] {
      ParseMisplaced(format, i, st);
    } else {
      var inner, n := CommandParser(format[i + 1..]);
      ParseSubshell(format, i, st, inner, n);
      if n >= 1 {
        ok, j := st.word == "", i + 1 + n;
        st' := Settle(st.(sub := Some(inner.tasks)));
      }
    }
  }

  /** The loop over the input position. */
  method CommandParser(format: string) returns (r: Outcome, bytesConsumed: int)
    requires Plain(format)
    ensures r == Parse(format, Start([]))
    ensures r.Parsed? ==> 0 <= bytesConsumed <= |format| && r.rest == format[bytesConsumed..]
    ensures r.Failed? ==> bytesConsumed == -1
    decreases |format|, 1
  {
    var i := 0;
    var st := Start([]);
    ghost var goal := Parse(format, st);
    assert format[i..] == format;
    while true
      invariant 0 <= i <= |format|
      invariant Parse(format[i..], st) == goal
      decreases |format| - i
    {
      if OverLimit(st) {
        return Failed, -1;
      }
      var ok, last := true, false;
      if i < |format| && format[i] == '(' {
        ok, i, st := ReadSubshell(format, i, st);
      } else {
        ok, i, st, last := ReadItem(format, i, st);
      }
      if !ok {
        return Failed, -1;
      }
      if last {
        return Parsed(st.done, format[i..]), i;
      }
    }
  }

  /*** The printer ***/

  function TokenText(token: Token): string {
    match token
    case Semicolon => ";"
    case Background => "&"
    case Pipe => "|"
    case And => "&&"
    case Or => "||"
  }

  function Join(words: seq<string>): string {
    if words == [] then "" else if |words| == 1 then words[0] else words[0] + " " + Join(words[1..])
  }

  function PrintTask(t: Task): string
    decreases t, 0
  {
    match t
    case Simple(argv, _) => Join(argv)
    case Subshell(tasks, _) => "(" + Print(tasks) + ")"
  }

  /** Every task with its token, except that a final semicolon is left to the end of the text or the parenthesis. */
  function Print(tasks: seq<Task>): string
    decreases tasks, 1
  {
    if tasks == [] then ""
    else PrintTask(tasks[0]) + Ending(tasks) + Print(tasks[1..])
  }

  function Ending(tasks: seq<Task>): string
    requires tasks != []
  {
    if |tasks| == 1 && tasks[0].token == Semicolon then "" else TokenText(tasks[0].token)
  }

  predicate IsWord(w: string) {
    0 < |w| <= MAX_ARG_LEN && forall i :: 0 <= i < |w| ==> IsPlain(w[i]) && !IsSpecial(w[i])
  }

  /** The list limit as the loop applies it: a 32nd task must be ended by the end of the list. */
  predicate Room(done: nat, tasks: seq<Task>) {
    && done + |tasks| <= MAX_NUM_CMDS
    && (done + |tasks| == MAX_NUM_CMDS ==> tasks != [] && tasks[|tasks| - 1].token == Semicolon)
  }

  /** Non-empty commands of plain words, and every list, within the limits of the wrapper. */
  predicate PrintableTask(t: Task)
    decreases t, 0
  {
    match t
    case Simple(argv, _) => 0 < |argv| <= MAX_NUM_ARGS && forall i :: 0 <= i < |argv| ==> IsWord(argv[i])
    case Subshell(inner, _) => Printable(inner)
  }

  predicate Printable(tasks: seq<Task>)
    decreases tasks, 1
  {
    Room(0, tasks) && forall i :: 0 <= i < |tasks| ==> PrintableTask(tasks[i])
  }

  predicate AllPrintable(tasks: seq<Task>) {
    forall i :: 0 <= i < |tasks| ==> PrintableTask(tasks[i])
  }

  lemma {:induction false} PlainJoin(words: seq<string>)
    requires forall i :: 0 <= i < |words| ==> IsWord(words[i])
    ensures Plain(Join(words))
    ensures words != [] ==> Join(words) != "" && !IsSpecial(Join(words)[0])
  {
    if |words| > 1 {
      PlainJoin(words[1..]);
    }
  }

  lemma {:induction false} PlainTask(t: Task)
    requires PrintableTask(t)
    ensures Plain(PrintTask(t)) && PrintTask(t) != "" && !IsOperator(PrintTask(t)[0])
    decreases t, 0
  {
    match t
    case Simple(argv, _) => PlainJoin(argv);
    case Subshell(inner, _) =>
      PlainPrint(inner);
      PlainConcat("(" + Print(inner), ")");
  }

  lemma PlainConcat(a: string, b: string)
    requires Plain(a) && Plain(b)
    ensures Plain(a + b)
  {
  }

  lemma {:induction false} PlainPrint(tasks: seq<Task>)
    requires AllPrintable(tasks)
    ensures Plain(Print(tasks))
    ensures Print(tasks) != "" ==> !IsOperator(Print(tasks)[0])
    decreases tasks, 1
  {
    if tasks != [] {
      var body, ending := PrintTask(tasks[0]), Ending(tasks);
      PlainTask(tasks[0]);
      PlainPrint(tasks[1..]);
      assert Plain(ending);
      PlainConcat(body, ending);
      PlainConcat(body + ending, Print(tasks[1..]));
      assert (body + ending + Print(tasks[1..]))[0] == body[0];
    }
  }

  /*** Parsing undoes printing ***/

  /** What is left of a text behind the end of a list. */
  function Behind(tail: string): string {
    if tail == "" then "" else tail[1..]
  }

  lemma ParseBlank(more: string, st: State)
    requires !OverLimit(st) && !Misplaced(st)
    ensures Parse(" " + more, st) == Parse(more, Settle(st))
  {
    assert (" " + more)[1..] == more;
  }

  lemma ParseToken(token: Token, more: string, st: State)
    requires !OverLimit(st) && !Misplaced(st) && st.token.None?
    requires more != "" ==> !IsOperator(more[0])
    ensures Parse(TokenText(token) + more, st) == Parse(more, Settle(st.(token := Some(token))))
  {
    var text := TokenText(token) + more;
    assert ReadToken(text) == (token, |TokenText(token)|);
    assert text[|TokenText(token)|..] == more;
  }

  lemma ParseClose(tail: string, st: State)
    requires !OverLimit(st) && !Misplaced(st)
    requires tail == "" || tail[0] == ')'
    ensures Parse(tail, st)
         == Parsed(Settle(st.(token := Some(Semicolon))).done, Behind(tail))
  {
  }

  lemma {:induction false} ParseWord(w: string, more: string, st: State)
    requires |st.word| + |w| <= MAX_ARG_LEN && |st.args| < MAX_NUM_ARGS && |st.done| < MAX_NUM_CMDS
    requires forall i :: 0 <= i < |w| ==> !IsSpecial(w[i])
    ensures Parse(w + more, st) == Parse(more, st.(word := st.word + w))
    decreases |w|
  {
    if w == "" {
      assert w + more == more && st.word + w == st.word;
    } else {
      assert (w + more)[1..] == w[1..] + more;
      assert st.word + w == (st.word + [w[0]]) + w[1..];
      ParseWord(w[1..], more, st.(word := st.word + [w[0]]));
    }
  }

  /** The state after the words of a command: all but the last are arguments, the last is pending. */
  function Pending(st: State, words: seq<string>): State
    requires words != []
  {
    st.(args := st.args + words[..|words| - 1], word := words[|words| - 1])
  }

  lemma PendingTail(st: State, words: seq<string>)
    requires |words| > 1
    ensures Pending(st.(args := st.args + [words[0]]), words[1..]) == Pending(st, words)
  {
    assert st.args + words[..|words| - 1] == st.args + [words[0]] + words[1..][..|words| - 2];
  }

  lemma JoinSplit(words: seq<string>, more: string)
    requires |words| > 1
    ensures Join(words) + more == words[0] + (" " + (Join(words[1..]) + more))
  {
  }

  lemma ParseHeadWord(words: seq<string>, more: string, st: State, r: Outcome)
    requires |words| > 1 && IsWord(words[0]) && st.word == "" && st.sub.None? && st.token.None?
    requires |st.args| < MAX_NUM_ARGS && |st.done| < MAX_NUM_CMDS
    requires Parse(Join(words[1..]) + more, st.(args := st.args + [words[0]])) == r
    ensures Parse(Join(words) + more, st) == r
  {
    hide Parse;
    var w, rest := words[0], Join(words[1..]) + more;
    JoinSplit(words, more);
    ParseWord(w, " " + rest, st);
    assert st.word + w == w;
    ParseBlank(rest, st.(word := w));
  }

  lemma {:induction false} ParseWords(words: seq<string>, more: string, st: State)
    requires words != [] && forall i :: 0 <= i < |words| ==> IsWord(words[i])
    requires st.word == "" && st.sub.None? && st.token.None?
    requires |st.args| + |words| <= MAX_NUM_ARGS && |st.done| < MAX_NUM_CMDS
    ensures Parse(Join(words) + more, st) == Parse(more, Pending(st, words))
    decreases |words|
  {
    hide Parse;
    var w := words[0];
    if |words| == 1 {
      ParseWord(w, more, st);
      assert st.args + words[..0] == st.args && st.word + w == w;
    } else {
      ParseWords(words[1..], more, st.(args := st.args + [w]));
      PendingTail(st, words);
      ParseHeadWord(words, more, st, Parse(more, Pending(st, words)));
    }
  }

  /** What the parser holds when a printed task has been read up to its token. */
  function Holding(done: seq<Task>, t: Task): State
    requires t.Simple? ==> t.argv != []
  {
    match t
    case Simple(argv, _) => State(done, argv[..|argv| - 1], None, None, argv[|argv| - 1])
    case Subshell(tasks, _) => State(done, [], Some(tasks), None, "")
  }

  lemma {:induction false} ParseTask(t: Task, more: string, done: seq<Task>)
    requires PrintableTask(t) && |done| < MAX_NUM_CMDS
    ensures t.Simple? ==> t.argv != []
    ensures Parse(PrintTask(t) + more, Start(done)) == Parse(more, Holding(done, t))
    decreases t, 0
  {
    hide Parse;
    match t
    case Simple(argv, _) =>
      ParseWords(argv, more, Start(done));
      assert [] + argv[..|argv| - 1] == argv[..|argv| - 1];
    case Subshell(tasks, _) =>
      var tail := ")" + more;
      var text := PrintTask(t) + more;
      assert text[1..] == Print(tasks) + tail;
      ParsePrinted(tasks, tail, []);
      assert [] + tasks == tasks && tail[1..] == more;
      ParseOpen(text, Start(done), Parsed(tasks, more));
  }

  lemma SettleHolding(done: seq<Task>, t: Task)
    requires t.Simple? ==> t.argv != [] && t.argv[|t.argv| - 1] != ""
    ensures Settle(Holding(done, t).(token := Some(t.token))) == Start(done + [t])
  {
    assert t.Simple? ==> t.argv[..|t.argv| - 1] + [t.argv[|t.argv| - 1]] == t.argv;
  }

  lemma PrintSplit(tasks: seq<Task>, tail: string)
    requires tasks != []
    ensures Print(tasks) + tail == PrintTask(tasks[0]) + (Ending(tasks) + (Print(tasks[1..]) + tail))
  {
  }

  /** A task whose token is printed: the rest of the list is read on top of it. */
  lemma {:induction false} ParseInnerTask(t: Task, rest: string, done: seq<Task>)
    requires PrintableTask(t) && |done| < MAX_NUM_CMDS
    requires rest != "" ==> !IsOperator(rest[0])
    ensures Parse(PrintTask(t) + (TokenText(t.token) + rest), Start(done)) == Parse(rest, Start(done + [t]))
    decreases t, 1
  {
    hide Parse;
    ParseTask(t, TokenText(t.token) + rest, done);
    SettleHolding(done, t);
    ParseToken(t.token, rest, Holding(done, t));
  }

  /** A last task whose semicolon is not printed. */
  lemma {:induction false} ParseLastTask(t: Task, tail: string, done: seq<Task>)
    requires PrintableTask(t) && |done| < MAX_NUM_CMDS && t.token == Semicolon
    requires tail == "" || tail[0] == ')'
    ensures Parse(PrintTask(t) + tail, Start(done)) == Parsed(done + [t], Behind(tail))
    decreases t, 1
  {
    hide Parse;
    ParseTask(t, tail, done);
    SettleHolding(done, t);
    ParseClose(tail, Holding(done, t));
  }

  lemma PrintedStart(tasks: seq<Task>, tail: string)
    requires AllPrintable(tasks)
    requires tail == "" || tail[0] == ')'
    ensures Print(tasks) + tail != "" ==> !IsOperator((Print(tasks) + tail)[0])
  {
    PlainPrint(tasks);
  }

  lemma TailPrintable(tasks: seq<Task>, done: seq<Task>)
    requires tasks != [] && AllPrintable(tasks) && Room(|done|, tasks)
    requires |tasks| > 1 || tasks[0].token != Semicolon
    ensures PrintableTask(tasks[0]) && AllPrintable(tasks[1..]) && Room(|done + [tasks[0]]|, tasks[1..])
  {
    assert |tasks| > 1 ==> tasks[|tasks| - 1] == tasks[1..][|tasks| - 2];
  }

  /** The outcome for a list is the outcome for its rest on top of its first task. */
  lemma ParseHeadTask(tasks: seq<Task>, tail: string, done: seq<Task>, r: Outcome)
    requires tasks != [] && PrintableTask(tasks[0]) && AllPrintable(tasks[1..]) && |done| < MAX_NUM_CMDS
    requires |tasks| > 1 || tasks[0].token != Semicolon
    requires tail == "" || tail[0] == ')'
    requires Parse(Print(tasks[1..]) + tail, Start(done + [tasks[0]])) == r
    ensures Parse(Print(tasks) + tail, Start(done)) == r
    decreases tasks, 2
  {
    hide Parse;
    PrintSplit(tasks, tail);
    PrintedStart(tasks[1..], tail);
    ParseInnerTask(tasks[0], Print(tasks[1..]) + tail, done);
  }

  lemma ParseListEnd(tasks: seq<Task>, tail: string, done: seq<Task>)
    requires Room(|done|, tasks) && AllPrintable(tasks)
    requires |tasks| == 0 || (|tasks| == 1 && tasks[0].token == Semicolon)
    requires tail == "" || tail[0] == ')'
    ensures Parse(Print(tasks) + tail, Start(done)) == Parsed(done + tasks, Behind(tail))
    decreases tasks, 2
  {
    hide Parse;
    if tasks == [] {
      assert Print(tasks) + tail == tail && done + tasks == done;
      ParseClose(tail, Start(done));
    } else {
      assert tasks == [tasks[0]];
      assert Print(tasks) + tail == PrintTask(tasks[0]) + tail;
      ParseLastTask(tasks[0], tail, done);
    }
  }

  /** A printed list, read on top of `done` finished tasks, up to the end of the text or a closing parenthesis. */
  lemma {:induction false} ParsePrinted(tasks: seq<Task>, tail: string, done: seq<Task>)
    requires Room(|done|, tasks) && AllPrintable(tasks)
    requires tail == "" || tail[0] == ')'
    ensures Parse(Print(tasks) + tail, Start(done)) == Parsed(done + tasks, Behind(tail))
    decreases tasks, 3
  {
    hide Parse;
    if |tasks| == 0 || (|tasks| == 1 && tasks[0].token == Semicolon) {
      ParseListEnd(tasks, tail, done);
    } else {
      TailPrintable(tasks, done);
      ParsePrinted(tasks[1..], tail, done + [tasks[0]]);
      ParseHeadTask(tasks, tail, done, Parsed(done + [tasks[0]] + tasks[1..], Behind(tail)));
      assert done + [tasks[0]] + tasks[1..] == done + tasks;
    }
  }

  /** Printing any printable tree and parsing the text gives the same tree back and reads all of it. */
  lemma ParseUndoesPrint(tasks: seq<Task>)
    requires Printable(tasks)
    ensures Plain(Print(tasks))
    ensures Parse(Print(tasks), Start([])) == Parsed(tasks, "")
  {
    hide Parse;
    PlainPrint(tasks);
    ParsePrinted(tasks, "", []);
    assert Print(tasks) + "" == Print(tasks) && [] + tasks == tasks;
  }

  /** Any script of the grammar whose tasks are printable can be written down and read back as itself. */
  lemma ScriptThroughText(s: Script)
    requires Printable(FlattenScript(s))
    ensures var r := Parse(Print(FlattenScript(s)), Start([]));
            r.Parsed? && r.rest == "" && Structure(r.tasks) == s
  {
    ParseUndoesPrint(FlattenScript(s));
    StructureFlatten(s);
  }

  /*** What the parser hands over fits the evaluator ***/

  predicate Sound(st: State) {
    && (forall i :: 0 <= i < |st.done| && st.done[i].Subshell? ==> Fits(st.done[i].tasks))
    && (st.sub.Some? ==> Fits(st.sub.value))
  }

  lemma SettleSound(st: State)
    requires Sound(st)
    ensures Sound(Settle(st)) && |Settle(st).done| <= |st.done| + 1
  {
  }

  lemma {:induction false} ParseFits(text: string, st: State)
    requires Sound(st)
    ensures Parse(text, st).Parsed? ==> Fits(Parse(text, st).tasks)
    decreases |text|
  {
    match LookAt(text, st)
    case Reject =>
    case End => SettleSound(st.(token := Some(Semicolon)));
    case Open =>
      ParseFits(text[1..], Start([]));
      var inner := Parse(text[1..], Start([]));
      if inner.Parsed? && |inner.rest| < |text| - 1 {
        SettleSound(st.(sub := Some(inner.tasks)));
        ParseFits(inner.rest, Settle(st.(sub := Some(inner.tasks))));
      }
    case Go(n, st') =>
      LookSound(text, st);
      ParseFits(text[n..], st');
  }

  lemma LookSound(text: string, st: State)
    requires Sound(st) && LookAt(text, st).Go?
    ensures Sound(LookAt(text, st).st)
  {
    SettleSound(st);
    if IsOperator(text[0]) {
      SettleSound(st.(token := Some(ReadToken(text).0)));
    }
  }

  /*** What is refused ***/

  /** A word of more than 1024 characters. */
  lemma {:induction false} LongWordFails(w: string, more: string, st: State)
    requires |st.word| + |w| > 1024 && forall i :: 0 <= i < |w| ==> !IsSpecial(w[i])
    ensures Parse(w + more, st) == Failed
    decreases |w|
  {
    if |st.word| <= 1024 && !OverLimit(st) {
      assert (w + more)[1..] == w[1..] + more;
      LongWordFails(w[1..], more, st.(word := st.word + [w[0]]));
    }
  }

  /** 512 arguments with anything behind them, and a 33rd command. */
  lemma TooManyFail(text: string, st: State)
    requires |st.args| >= 512 || |st.done| >= 32
    ensures Parse(text, st) == Failed
  {
  }

  /** So 512 words and a blank. */
  lemma ManyWordsFail(words: seq<string>, more: string, done: seq<Task>)
    requires |words| == 512 && |done| < 32 && forall i :: 0 <= i < |words| ==> IsWord(words[i])
    ensures Parse(Join(words) + (" " + more), Start(done)) == Failed
  {
    hide Parse, Join;
    ParseWords(words, " " + more, Start(done));
    var st := Pending(Start(done), words);
    ParseBlank(more, st);
    TooManyFail(more, Settle(st));
  }

  /** A tab is a blank. */
  lemma TabIsBlank(more: string, st: State)
    ensures Parse("\t" + more, st) == Parse(" " + more, st)
  {
    assert ("\t" + more)[1..] == more && (" " + more)[1..] == more;
  }

  /** An operator with no command in front of it: a semicolon may follow, and replaces it, but no other operator. */
  lemma TwoOperators(c: char, more: string, st: State)
    requires st.token.Some? && IsOperator(c) && !OverLimit(st) && !Misplaced(st)
    ensures c != ';' ==> Parse([c] + more, st) == Failed
    ensures c == ';' ==> Parse([c] + more, st) == Parse(more, Settle(st.(token := Some(Semicolon))))
  {
    assert ([c] + more)[1..] == more;
  }

  /** So a list may begin with semicolons, but not with two other operators. */
  lemma LeadingOperators(c: char, more: string, done: seq<Task>)
    requires (c == '&' || c == '|') && |done| < 32
    ensures Parse(";" + ([c] + more), Start(done)) == Failed
    ensures Parse(";" + (";" + more), Start(done)) == Parse(";" + more, Start(done))
  {
    hide Parse;
    var st := Start(done).(token := Some(Semicolon));
    SemicolonFirst([c] + more, done);
    SemicolonFirst(";" + more, done);
    SemicolonFirst(more, done);
    TwoOperators(c, more, st);
    TwoOperators(';', more, st);
    assert [';'] + more == ";" + more;
  }

  lemma SemicolonFirst(more: string, done: seq<Task>)
    requires |done| < 32
    ensures Parse(";" + more, Start(done)) == Parse(more, Start(done).(token := Some(Semicolon)))
  {
    assert (";" + more)[1..] == more;
  }

  /** A parenthesis behind a word, and a word behind a subshell. */
  lemma MisplacedFail(w: string, more: string, done: seq<Task>, inner: seq<Task>)
    requires IsWord(w) && |done| < 32
    ensures Parse(w + (" (" + more), Start(done)) == Failed
    ensures Parse(w + (" " + more), State(done, [], Some(inner), None, "")) == Failed
  {
    hide Parse;
    var text := "(" + more;
    assert " (" + more == " " + text;
    ParseWord(w, " " + text, Start(done));
    assert Start(done).word + w == w;
    ParseBlank(text, Start(done).(word := w));
    assert text[0..] == text;
    assert Settle(Start(done).(word := w)) == Start(done).(args := [w]);
    ParseMisplaced(text, 0, Start(done).(args := [w]));
    var st := State(done, [], Some(inner), None, "");
    ParseWord(w, " " + more, st);
    assert st.word + w == w;
    BlankBehindMisplaced(more, st.(word := w));
  }

  lemma BlankBehindMisplaced(more: string, st: State)
    requires Misplaced(st)
    ensures Parse(" " + more, st) == Failed
  {
  }
}
