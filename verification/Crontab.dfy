/** Replacing the daemon's entry in the crontab. */
module Crontab {
  import opened Wrappers
  import opened IniFile
  import opened Decimal
  import opened Cron
  import RfcText

  const DAEMON := "rfcMgr"
  const SCRIPT := "RFCbase.sh"
  const LOG := " >> /rdklogs/logs/" + "dcmrfc.log.0 2>&1"
  const PATH := " /usr/bin/"
  const COMMAND := PATH + (DAEMON + LOG)

  predicate Unrelated(line: string) {
    !RfcText.Contains(line, DAEMON) && !RfcText.Contains(line, SCRIPT)
  }

  /** sed with its two delete commands, on the text: a last line without newline stays without. */
  function Sed(text: string): string
    decreases |text|
  {
    if text == "" then ""
    else
      var k := Position(text, '\n');
      if k == |text| then (if Unrelated(text) then text else "")
      else (if Unrelated(text[..k]) then text[..k + 1] else "") + Sed(text[k + 1..])
  }

  /** The new table: what sed leaves, with the entry written behind it. */
  function Rewrite(table: string, entry: string): string {
    Sed(table) + entry + "\n"
  }

  function Keep(lines: seq<string>): seq<string> {
    if lines == [] then []
    else (if Unrelated(lines[0]) then [lines[0]] else []) + Keep(lines[1..])
  }

  predicate Terminated(text: string) {
    text == "" || text[|text| - 1] == '\n'
  }

  /** The last line has no newline, and sed keeps it. */
  predicate Dangling(text: string) {
    !Terminated(text) && Unrelated(Lines(text)[|Lines(text)| - 1])
  }

  lemma {:induction false} LinesNonempty(text: string)
    ensures text != "" ==> Lines(text) != []
  {
  }

  /*** Lines and text ***/

  lemma LinesUnfold(text: string)
    requires Position(text, '\n') < |text|
    ensures var k := Position(text, '\n'); Lines(text) == [text[..k]] + Lines(text[k + 1..])
  {
    hide Position;
  }

  lemma PositionOfPrefix(a: string, b: string)
    requires Position(a, '\n') < |a|
    ensures Position(a + b, '\n') == Position(a, '\n')
  {
    var k := Position(a, '\n');
    var s := a + b;
    assert s[k] == '\n';
    assert forall i :: 0 <= i < k ==> s[i] == a[i];
  }

  /** The first line of a terminated text, with and without something behind the text. */
  lemma FirstLine(a: string, b: string)
    requires a != "" && Terminated(a)
    ensures var k := Position(a, '\n');
            && k < |a| && k == Position(a + b, '\n') && Terminated(a[k + 1..])
            && (a + b)[..k] == a[..k] && (a + b)[..k + 1] == a[..k + 1] && (a + b)[k + 1..] == a[k + 1..] + b
  {
    var k := Position(a, '\n');
    assert a[|a| - 1] == '\n';
    PositionOfPrefix(a, b);
    TerminatedTail(a, k);
    hide Position, Terminated;
    assert (a + b)[..k] == a[..k];
    assert (a + b)[..k + 1] == a[..k + 1];
    assert (a + b)[k + 1..] == a[k + 1..] + b;
  }

  lemma {:induction false} LinesAppend(a: string, b: string)
    requires Terminated(a)
    ensures Lines(a + b) == Lines(a) + Lines(b)
    decreases |a|
  {
    hide Lines, Position, Terminated;
    if a == "" {
      NoLines();
      assert a + b == b && [] + Lines(b) == Lines(b);
    } else {
      FirstLine(a, b);
      LinesUnfold(a);
      LinesUnfold(a + b);
      LinesAppend(a[Position(a, '\n') + 1..], b);
    }
  }

  lemma LineAlone(s: string)
    requires Free(s, '\n')
    ensures Lines(s + "\n") == [s]
  {
    PositionInConcat(s, '\n', "");
    assert s + ['\n'] + "" == s + "\n";
    assert (s + "\n")[..|s|] == s && (s + "\n")[|s| + 1..] == "";
  }

  /** What is written behind a line without newline goes to the end of that line. */
  function Glued(lines: seq<string>, e: string): seq<string>
    requires lines != []
  {
    lines[..|lines| - 1] + [lines[|lines| - 1] + e]
  }

  lemma GluedTail(line: string, rest: seq<string>, e: string)
    requires rest != []
    ensures Glued([line] + rest, e) == [line] + Glued(rest, e)
  {
  }

  lemma {:induction false} LinesGlued(a: string, e: string)
    requires !Terminated(a) && Free(e, '\n')
    ensures Lines(a) != [] && Lines(a + e + "\n") == Glued(Lines(a), e)
    decreases |a|
  {
    hide Lines;
    var s := a + e + "\n";
    var k := Position(a, '\n');
    if k == |a| {
      SedLast(a);
      assert Free(a + e, '\n');
      LineAlone(a + e);
    } else {
      var rest := a[k + 1..];
      PositionOfPrefix(a, e + "\n");
      assert s == a + (e + "\n");
      LinesUnfold(a);
      LinesUnfold(s);
      assert s[..k] == a[..k] && s[k + 1..] == rest + e + "\n";
      TerminatedTail(a, k);
      LinesGlued(rest, e);
      GluedTail(a[..k], Lines(rest), e);
    }
  }

  /*** sed on lines ***/

  lemma LinesOfPiece(text: string, k: nat, rest: string)
    requires k < |text| && k == Position(text, '\n')
    ensures Lines(text[..k + 1] + rest) == [text[..k]] + Lines(rest)
  {
    var line := text[..k];
    assert text[..k + 1] == line + ['\n'];
    var s := line + ['\n'] + rest;
    PositionInConcat(line, '\n', rest);
    assert s[..k] == line && s[k + 1..] == rest;
  }

  lemma KeepUnfold(line: string, rest: seq<string>)
    ensures Keep([line] + rest) == (if Unrelated(line) then [line] else []) + Keep(rest)
  {
    assert ([line] + rest)[1..] == rest;
  }

  lemma SedUnfold(text: string)
    requires Position(text, '\n') < |text|
    ensures var k := Position(text, '\n');
            Sed(text) == (if Unrelated(text[..k]) then text[..k + 1] else "") + Sed(text[k + 1..])
  {
    hide Position, Unrelated;
  }

  lemma SedLast(text: string)
    requires text != "" && Position(text, '\n') == |text|
    ensures Lines(text) == [text] && Sed(text) == if Unrelated(text) then text else ""
  {
  }

  lemma {:induction false} SedKeeps(text: string)
    ensures Lines(Sed(text)) == Keep(Lines(text))
    decreases |text|
  {
    hide Sed, Lines, Unrelated;
    if text == "" {
      SedOfNothing();
      NoLines();
      NoneKept();
    } else {
      var k := Position(text, '\n');
      if k == |text| {
        SedLast(text);
        NoLines();
        KeepUnfold(text, []);
        NoneKept();
        assert [text] + [] == [text];
      } else {
        var rest := text[k + 1..];
        SedKeeps(rest);
        SedUnfold(text);
        LinesUnfold(text);
        KeepUnfold(text[..k], Lines(rest));
        LinesOfPiece(text, k, Sed(rest));
        assert "" + Sed(rest) == Sed(rest) && [] + Keep(Lines(rest)) == Keep(Lines(rest));
      }
    }
  }

  lemma NoLines()
    ensures Lines("") == []
  {
  }

  lemma SedOfNothing()
    ensures Sed("") == ""
  {
  }

  lemma NoneKept()
    ensures Keep([]) == []
  {
  }

  lemma TerminatedTail(text: string, k: nat)
    requires k < |text| && text[k] == '\n'
    ensures Terminated(text) == Terminated(text[k + 1..])
  {
  }

  lemma DanglingTail(text: string)
    requires Position(text, '\n') < |text|
    ensures Dangling(text) == Dangling(text[Position(text, '\n') + 1..])
  {
    hide Lines, Unrelated, Position;
    var rest := text[Position(text, '\n') + 1..];
    TerminatedTail(text, Position(text, '\n'));
    LinesUnfold(text);
    LinesNonempty(rest);
    if !Terminated(rest) {
      assert Lines(text)[|Lines(text)| - 1] == Lines(rest)[|Lines(rest)| - 1];
    }
  }

  lemma {:induction false} SedTerminated(text: string)
    ensures Terminated(Sed(text)) <==> !Dangling(text)
    decreases |text|
  {
    hide Sed, Lines, Unrelated;
    SedOfNothing();
    if text != "" {
      var k := Position(text, '\n');
      if k == |text| {
        SedLast(text);
      } else {
        var rest := text[k + 1..];
        SedTerminated(rest);
        SedUnfold(text);
        DanglingTail(text);
        assert Unrelated(text[..k]) ==> (text[..k + 1] + Sed(rest))[k + 1..] == Sed(rest);
        assert "" + Sed(rest) == Sed(rest);
      }
    }
  }

  /** The lines of the new table, in both cases: the unrelated ones in order, with the entry behind or glued to the last. */
  lemma RewrittenLines(table: string, entry: string)
    requires Free(entry, '\n')
    ensures Dangling(table) ==> Keep(Lines(table)) != []
    ensures Lines(Rewrite(table, entry))
         == if Dangling(table) then Glued(Keep(Lines(table)), entry) else Keep(Lines(table)) + [entry]
  {
    hide Sed, Lines, Dangling;
    SedKeeps(table);
    SedTerminated(table);
    assert Rewrite(table, entry) == Sed(table) + (entry + "\n") == Sed(table) + entry + "\n";
    if Dangling(table) {
      LinesGlued(Sed(table), entry);
    } else {
      LinesAppend(Sed(table), entry + "\n");
      LineAlone(entry);
    }
  }

  /** Every unrelated line stays, in order, and the entry follows them, exactly unless the table ends in a kept line without newline. */
  lemma RewriteKeepsExactly(table: string, entry: string)
    requires Free(entry, '\n')
    ensures Lines(Rewrite(table, entry)) == Keep(Lines(table)) + [entry] <==> !Dangling(table)
  {
    hide Lines, Dangling, Rewrite;
    RewrittenLines(table, entry);
  }

  /*** One entry, whatever was there before ***/

  lemma {:induction false} KeptAreUnrelated(lines: seq<string>)
    ensures forall i :: 0 <= i < |Keep(lines)| ==> Unrelated(Keep(lines)[i])
  {
    hide Unrelated;
    if lines != [] {
      KeptAreUnrelated(lines[1..]);
    }
  }

  function Count(lines: seq<string>): nat {
    if lines == [] then 0 else (if RfcText.Contains(lines[0], DAEMON) then 1 else 0) + Count(lines[1..])
  }

  lemma {:induction false} CountOfUnrelated(lines: seq<string>, entry: string)
    requires forall i :: 0 <= i < |lines| ==> Unrelated(lines[i])
    requires RfcText.Contains(entry, DAEMON)
    ensures Count(lines + [entry]) == 1
  {
    hide RfcText.Contains;
    if lines == [] {
      assert lines + [entry] == [entry];
      assert Count([entry][1..]) == 0;
    } else {
      assert (lines + [entry])[1..] == lines[1..] + [entry];
      assert (lines + [entry])[0] == lines[0] && Unrelated(lines[0]);
      CountOfUnrelated(lines[1..], entry);
    }
  }

  lemma ContainsBehind(s: string, t: string, p: string)
    requires RfcText.Contains(t, p)
    ensures RfcText.Contains(s + t, p)
  {
    var i :| 0 <= i <= |t| && RfcText.OccursAt(t, p, i);
    assert (s + t)[|s| + i..|s| + i + |p|] == t[i..i + |p|];
    assert RfcText.OccursAt(s + t, p, |s| + i);
  }

  /** On every table: exactly one line names the daemon afterwards, be it the entry or the line it was glued to. */
  lemma ExactlyOneEntry(table: string, entry: string)
    requires Free(entry, '\n') && RfcText.Contains(entry, DAEMON)
    ensures Count(Lines(Rewrite(table, entry))) == 1
  {
    hide Lines, Dangling, RfcText.Contains, Rewrite;
    RewrittenLines(table, entry);
    var kept := Keep(Lines(table));
    KeptAreUnrelated(Lines(table));
    if Dangling(table) {
      var last := kept[|kept| - 1];
      ContainsBehind(last, entry, DAEMON);
      CountOfUnrelated(kept[..|kept| - 1], last + entry);
    } else {
      CountOfUnrelated(kept, entry);
    }
  }

  lemma {:induction false} SedAppend(a: string, b: string)
    requires Terminated(a)
    ensures Sed(a + b) == Sed(a) + Sed(b)
    decreases |a|
  {
    hide Sed, Unrelated, Position, Terminated;
    if a == "" {
      SedOfNothing();
      assert a + b == b && "" + Sed(b) == Sed(b);
    } else {
      FirstLine(a, b);
      SedUnfold(a);
      SedUnfold(a + b);
      SedAppend(a[Position(a, '\n') + 1..], b);
    }
  }

  lemma {:induction false} SedIdempotent(text: string)
    ensures Sed(Sed(text)) == Sed(text)
    decreases |text|
  {
    hide Sed, Unrelated;
    SedOfNothing();
    if text != "" {
      var k := Position(text, '\n');
      if k == |text| {
        SedLast(text);
      } else {
        var rest := text[k + 1..];
        SedIdempotent(rest);
        SedUnfold(text);
        if Unrelated(text[..k]) {
          SedLine(text[..k]);
          assert text[..k + 1] == text[..k] + "\n";
          SedAppend(text[..k + 1], Sed(rest));
        } else {
          assert "" + Sed(rest) == Sed(rest);
        }
      }
    }
  }

  lemma SedLine(line: string)
    requires Free(line, '\n')
    ensures Sed(line + "\n") == if Unrelated(line) then line + "\n" else ""
  {
    hide Unrelated;
    var s := line + "\n";
    assert line + ['\n'] + "" == s;
    PositionInConcat(line, '\n', "");
    assert s[..|line|] == line && s[..|line| + 1] == s && s[|line| + 1..] == "";
  }

  /** An entry glued to a line takes that line with it when it is deleted. */
  lemma {:induction false} SedOfGlued(a: string, e: string)
    requires !Terminated(a) && Free(e, '\n') && RfcText.Contains(e, DAEMON)
    ensures |Sed(a + e + "\n")| < |a|
    decreases |a|
  {
    hide Sed, RfcText.Contains;
    var s := a + e + "\n";
    var k := Position(a, '\n');
    if k == |a| {
      assert Free(a + e, '\n');
      ContainsBehind(a, e, DAEMON);
      SedLine(a + e);
    } else {
      PositionOfPrefix(a, e + "\n");
      assert s == a + (e + "\n");
      SedUnfold(s);
      assert s[k + 1..] == a[k + 1..] + e + "\n";
      TerminatedTail(a, k);
      SedOfGlued(a[k + 1..], e);
    }
  }

  lemma SedOfRewrite(table: string, entry: string)
    requires Free(entry, '\n') && RfcText.Contains(entry, DAEMON)
    ensures if Dangling(table) then |Sed(Rewrite(table, entry))| < |Sed(table)| else Sed(Rewrite(table, entry)) == Sed(table)
  {
    hide Sed, Dangling, RfcText.Contains;
    SedTerminated(table);
    if Dangling(table) {
      SedOfGlued(Sed(table), entry);
    } else {
      SedLine(entry);
      assert Rewrite(table, entry) == Sed(table) + (entry + "\n");
      SedAppend(Sed(table), entry + "\n");
      SedIdempotent(table);
      assert Sed(table) + "" == Sed(table);
    }
  }

  /** A later rewrite replaces the entry of an earlier one and changes nothing else, exactly unless the table ended in a kept line without newline. */
  lemma LastEntryWins(table: string, first: string, second: string)
    requires Free(first, '\n') && RfcText.Contains(first, DAEMON)
    ensures Rewrite(Rewrite(table, first), second) == Rewrite(table, second) <==> !Dangling(table)
  {
    hide Sed, Dangling, RfcText.Contains;
    SedOfRewrite(table, first);
    var twice, once := Rewrite(Rewrite(table, first), second), Rewrite(table, second);
    assert |twice| == |Sed(Rewrite(table, first))| + |second| + 1 && |once| == |Sed(table)| + |second| + 1;
  }

  /** The unrelated lines after a rewrite: all of them, or, glued to the entry, all but the last. */
  lemma KeepOfRewrite(table: string, entry: string)
    requires Free(entry, '\n') && RfcText.Contains(entry, DAEMON)
    ensures Dangling(table) ==> Keep(Lines(table)) != []
    ensures var kept := Keep(Lines(table));
            Keep(Lines(Rewrite(table, entry))) == if Dangling(table) then kept[..|kept| - 1] else kept
  {
    hide Lines, Dangling, RfcText.Contains, Rewrite, Keep;
    RewrittenLines(table, entry);
    var kept := Keep(Lines(table));
    KeptAreUnrelated(Lines(table));
    var init, last := kept, entry;
    if Dangling(table) {
      init, last := kept[..|kept| - 1], kept[|kept| - 1] + entry;
      ContainsBehind(kept[|kept| - 1], entry, DAEMON);
    }
    KeepAppend(init, [last]);
    KeepOfKept(init);
    KeepNone(last);
    assert init + [] == init;
  }

  /** In that case the second rewrite deletes the job on that line: all unrelated lines but the last are left. */
  lemma DanglingJobIsLost(table: string, first: string, second: string)
    requires Free(first, '\n') && RfcText.Contains(first, DAEMON) && Free(second, '\n') && Dangling(table)
    ensures Keep(Lines(table)) != []
    ensures var kept := Keep(Lines(table));
            Lines(Rewrite(Rewrite(table, first), second)) == kept[..|kept| - 1] + [second]
  {
    hide Lines, Dangling, RfcText.Contains, Rewrite, Keep;
    KeepOfRewrite(table, first);
    RewriteEndsLine(table, first);
    RewrittenLines(Rewrite(table, first), second);
  }

  lemma RewriteEndsLine(table: string, entry: string)
    ensures !Dangling(Rewrite(table, entry))
  {
    hide Sed, Lines, Unrelated;
    var s := Rewrite(table, entry);
    assert s[|s| - 1] == '\n';
  }

  lemma KeepNone(line: string)
    requires !Unrelated(line)
    ensures Keep([line]) == []
  {
    KeepUnfold(line, []);
    NoneKept();
    assert [line] + [] == [line];
  }

  /*** The entry the daemon writes ***/

  function EntryOf(parts: seq<string>): string
    requires |parts| == 5
  {
    Joined(Adjusted(parts)) + COMMAND
  }

  lemma ContainsWithin(s: string, p: string, t: string)
    ensures RfcText.Contains(s + (p + t), p)
  {
    var whole := s + (p + t);
    assert whole[|s|..|s| + |p|] == p;
    assert RfcText.OccursAt(whole, p, |s|);
  }

  lemma CommandIsLine()
    ensures Free(COMMAND, '\n')
  {
    assert Free(PATH, '\n') && Free(DAEMON, '\n');
    assert Free(" >> /rdklogs/logs/", '\n') && Free("dcmrfc.log.0 2>&1", '\n');
    assert Free(LOG, '\n');
    hide LOG, DAEMON, PATH;
  }

  lemma {:induction false} JoinedIsFree(parts: seq<string>)
    requires forall i :: 0 <= i < |parts| ==> Free(parts[i], '\n')
    ensures Free(Joined(parts), '\n')
    decreases |parts|
  {
    if |parts| > 1 {
      JoinedIsFree(parts[..|parts| - 1]);
    }
  }

  lemma PrintedIsFree(n: int)
    ensures Free(ToString(n), '\n')
  {
    var digits := NatToString(if n < 0 then -n else n);
    hide NatToString;
    assert forall i :: 0 <= i < |digits| ==> IsDigit(digits[i]);
  }

  lemma AdjustedIsFree(parts: seq<string>, i: nat)
    requires |parts| == 5 && i < 5
    ensures Free(Adjusted(parts)[i], '\n')
  {
    hide Values, Shifted, ToString;
    PrintedIsFree(Shifted(Values(parts))[i]);
  }

  lemma FreeConcat(a: string, b: string, c: char)
    requires Free(a, c) && Free(b, c)
    ensures Free(a + b, c)
  {
  }

  lemma EntryNamesDaemon(schedule: string)
    ensures RfcText.Contains(schedule + COMMAND, DAEMON)
  {
    hide DAEMON, LOG, RfcText.Contains;
    ContainsWithin(schedule + PATH, DAEMON, LOG);
    assert schedule + COMMAND == schedule + PATH + (DAEMON + LOG);
  }

  /** Whatever schedule it was given, the entry is one line and names the daemon. */
  lemma EntryIsOneLine(parts: seq<string>)
    requires |parts| == 5
    ensures Free(EntryOf(parts), '\n') && RfcText.Contains(EntryOf(parts), DAEMON)
  {
    hide Adjusted, DAEMON, COMMAND, RfcText.Contains, Joined, Free;
    forall i | 0 <= i < 5
      ensures Free(Adjusted(parts)[i], '\n')
    {
      AdjustedIsFree(parts, i);
    }
    JoinedIsFree(Adjusted(parts));
    CommandIsLine();
    FreeConcat(Joined(Adjusted(parts)), COMMAND, '\n');
    EntryNamesDaemon(Joined(Adjusted(parts)));
  }

  /** manageCronJob, on the table crontab -l prints. A schedule of fewer than five parts changes nothing. */
  method ManageCronJob(cron: string, table: string) returns (after: string)
    ensures after == if |Words(cron)| < 5 then table else Rewrite(table, EntryOf(Words(cron)[..5]))
    ensures |Words(cron)| >= 5 ==> Count(Lines(after)) == 1
    ensures |Words(cron)| >= 5 ==> (Keep(Lines(after)) == Keep(Lines(table)) <==> !Dangling(table))
  {
    hide Words, Adjusted, Joined, COMMAND, Sed, Dangling, Lines, Count, Keep;
    var parts := ReadParts(cron);
    if |parts| < 5 {
      return table;
    }
    var adjusted := AdjustSchedule(parts);
    var entry := adjusted + COMMAND;
    after := Rewrite(table, entry);
    EntryIsOneLine(parts);
    ExactlyOneEntry(table, entry);
    KeepOfRewrite(table, entry);
  }

  lemma {:induction false} KeepOfKept(lines: seq<string>)
    requires forall i :: 0 <= i < |lines| ==> Unrelated(lines[i])
    ensures Keep(lines) == lines
  {
    hide Unrelated;
    if lines != [] {
      KeepOfKept(lines[1..]);
    }
  }

  lemma {:induction false} KeepAppend(a: seq<string>, b: seq<string>)
    ensures Keep(a + b) == Keep(a) + Keep(b)
  {
    hide Unrelated;
    if a == [] {
      assert a + b == b;
    } else {
      assert (a + b)[1..] == a[1..] + b;
      KeepAppend(a[1..], b);
    }
  }

  /** What is kept: the lines in which neither the daemon nor the old script is named. */
  lemma UnrelatedExactly(line: string)
    ensures Unrelated(line)
        <==> (forall u: string, v: string :: line != u + "rfcMgr" + v) && (forall u: string, v: string :: line != u + "RFCbase.sh" + v)
  {
    RfcText.ContainsIsConcat(line, "rfcMgr");
    RfcText.ContainsIsConcat(line, "RFCbase.sh");
    hide RfcText.Contains;
  }

  lemma CommandText()
    ensures COMMAND == " /usr/bin/" + "rfcMgr" + " >> /rdklogs/logs/" + "dcmrfc.log.0 2>&1"
  {
    hide DAEMON, LOG, PATH;
    assert DAEMON == "rfcMgr" by { DaemonText(); }
    assert PATH == " /usr/bin/" by { PathText(); }
    assert LOG == " >> /rdklogs/logs/" + "dcmrfc.log.0 2>&1" by { LogText(); }
  }

  lemma DaemonText()
    ensures DAEMON == "rfcMgr"
  {
  }

  lemma PathText()
    ensures PATH == " /usr/bin/"
  {
  }

  lemma LogText()
    ensures LOG == " >> /rdklogs/logs/" + "dcmrfc.log.0 2>&1"
  {
  }

  /** The entry written for a schedule, as text; its first five words are the adjusted parts. */
  lemma EntryText(parts: seq<string>)
    requires |parts| == 5
    ensures EntryOf(parts) == Joined(Adjusted(parts)) + (" /usr/bin/" + "rfcMgr" + " >> /rdklogs/logs/" + "dcmrfc.log.0 2>&1")
    ensures Words(Joined(Adjusted(parts))) == Adjusted(parts)
  {
    hide Joined, Adjusted, Words, COMMAND;
    CommandText();
    AdjustedReads(parts);
  }
}
