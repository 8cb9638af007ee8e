/** Text files of `key=value` lines: how they are read, and the printer that the readers undo. */
module IniFile {
  import opened Wrappers

  /** The first position of a character, or the length of the text. */
  function Position(s: string, c: char): (k: nat)
    ensures k <= |s|
    ensures k < |s| ==> s[k] == c
    ensures forall i :: 0 <= i < k ==> s[i] != c
  {
    if s == "" || s[0] == c then 0 else 1 + Position(s[1..], c)
  }

  predicate Free(s: string, c: char) {
    forall i :: 0 <= i < |s| ==> s[i] != c
  }

  lemma PositionInConcat(a: string, c: char, b: string)
    requires Free(a, c)
    ensures Position(a + [c] + b, c) == |a|
  {
    var s := a + [c] + b;
    assert s[|a|] == c;
    assert forall i :: 0 <= i < |a| ==> s[i] == a[i];
  }

  /** The lines getline delivers: a last line without its newline counts, an empty one does not. */
  function Lines(s: string): seq<string>
    decreases |s|
  {
    if s == "" then []
    else
      var k := Position(s, '\n');
      if k == |s| then [s] else [s[..k]] + Lines(s[k + 1..])
  }

  datatype Entry = Entry(key: string, value: string)

  function ReadLine(line: string): Option<Entry> {
    var k := Position(line, '=');
    if k < |line| then Some(Entry(line[..k], line[k + 1..])) else None
  }

  /** The entries of a file, in order; lines without '=' are passed over. */
  function Entries(lines: seq<string>): seq<Entry> {
    if lines == [] then []
    else
      var e := ReadLine(lines[0]);
      (if e.Some? then [e.value] else []) + Entries(lines[1..])
  }

  function EntriesOf(text: string): seq<Entry> {
    Entries(Lines(text))
  }

  /** A dictionary filled entry by entry: the last entry of a key wins. */
  function Fill(es: seq<Entry>): map<string, string> {
    if es == [] then map[] else Fill(es[..|es| - 1])[es[|es| - 1].key := es[|es| - 1].value]
  }

  /** A search from the top: the first entry of a key wins. */
  function First(es: seq<Entry>, key: string): Option<string> {
    if es == [] then None
    else if es[0].key == key then Some(es[0].value)
    else First(es[1..], key)
  }

  /*** Printing ***/

  predicate Writable(e: Entry) {
    Free(e.key, '=') && Free(e.key, '\n') && Free(e.value, '\n')
  }

  function PrintEntry(e: Entry): string {
    e.key + "=" + e.value + "\n"
  }

  function Print(es: seq<Entry>): string {
    if es == [] then "" else PrintEntry(es[0]) + Print(es[1..])
  }

  lemma ReadPrintedLine(e: Entry)
    requires Writable(e)
    ensures ReadLine(e.key + "=" + e.value) == Some(e)
  {
    PositionInConcat(e.key, '=', e.value);
    var line := e.key + "=" + e.value;
    assert line[..|e.key|] == e.key && line[|e.key| + 1..] == e.value;
  }

  lemma LinesOfPrinted(e: Entry, rest: string)
    requires Writable(e)
    ensures Lines(PrintEntry(e) + rest) == [e.key + "=" + e.value] + Lines(rest)
  {
    var line := e.key + "=" + e.value;
    var s := PrintEntry(e) + rest;
    assert s == line + ['\n'] + rest;
    PositionInConcat(line, '\n', rest);
    assert s[..|line|] == line && s[|line| + 1..] == rest;
  }

  /** Reading undoes printing, entry by entry and in order. */
  lemma {:induction false} EntriesOfPrint(es: seq<Entry>)
    requires forall i :: 0 <= i < |es| ==> Writable(es[i])
    ensures EntriesOf(Print(es)) == es
  {
    if es != [] {
      var line := es[0].key + "=" + es[0].value;
      LinesOfPrinted(es[0], Print(es[1..]));
      ReadPrintedLine(es[0]);
      EntriesOfPrint(es[1..]);
      assert ([line] + Lines(Print(es[1..])))[1..] == Lines(Print(es[1..]));
    }
  }

  /** Whatever a file holds, what is read from it could be printed. */
  lemma {:induction false} LinesAreFree(s: string)
    ensures forall i :: 0 <= i < |Lines(s)| ==> Free(Lines(s)[i], '\n')
    decreases |s|
  {
    if s != "" {
      var k := Position(s, '\n');
      if k < |s| {
        LinesAreFree(s[k + 1..]);
      }
    }
  }

  lemma {:induction false} EntriesAreWritable(lines: seq<string>)
    requires forall i :: 0 <= i < |lines| ==> Free(lines[i], '\n')
    ensures forall i :: 0 <= i < |Entries(lines)| ==> Writable(Entries(lines)[i])
  {
    if lines != [] {
      EntriesAreWritable(lines[1..]);
    }
  }

  /*** Dictionaries ***/

  predicate Distinct(es: seq<Entry>) {
    forall i, j :: 0 <= i < j < |es| ==> es[i].key != es[j].key
  }

  /** Entries listing a dictionary in some iteration order. */
  predicate Lists(es: seq<Entry>, m: map<string, string>) {
    && Distinct(es)
    && (forall i :: 0 <= i < |es| ==> es[i].key in m && m[es[i].key] == es[i].value)
    && (forall k <- m :: exists i :: 0 <= i < |es| && es[i].key == k)
  }

  predicate WritableMap(m: map<string, string>) {
    forall k <- m :: Writable(Entry(k, m[k]))
  }

  /** A key of the dictionary comes with its value from some entry. */
  lemma {:induction false} FillSource(es: seq<Entry>, k: string) returns (i: nat)
    requires k in Fill(es)
    ensures i < |es| && es[i] == Entry(k, Fill(es)[k])
  {
    i := |es| - 1;
    if k != es[i].key {
      i := FillSource(es[..i], k);
    }
  }

  lemma {:induction false} FillCovers(es: seq<Entry>, i: nat)
    requires i < |es|
    ensures es[i].key in Fill(es)
  {
    if i < |es| - 1 {
      FillCovers(es[..|es| - 1], i);
    }
  }

  /** An entry that no later one overwrites is what the dictionary holds. */
  lemma {:induction false} FillLast(es: seq<Entry>, i: nat)
    requires i < |es| && forall j :: i < j < |es| ==> es[j].key != es[i].key
    ensures es[i].key in Fill(es) && Fill(es)[es[i].key] == es[i].value
  {
    if i < |es| - 1 {
      FillLast(es[..|es| - 1], i);
    }
  }

  lemma FillHas(es: seq<Entry>)
    ensures forall i :: 0 <= i < |es| ==> es[i].key in Fill(es)
    ensures forall k <- Fill(es) :: exists i :: 0 <= i < |es| && es[i] == Entry(k, Fill(es)[k])
  {
    forall i | 0 <= i < |es|
      ensures es[i].key in Fill(es)
    {
      FillCovers(es, i);
    }
    forall k | k in Fill(es)
      ensures exists i :: 0 <= i < |es| && es[i] == Entry(k, Fill(es)[k])
    {
      var i := FillSource(es, k);
    }
  }

  lemma FillOfListing(es: seq<Entry>, m: map<string, string>)
    requires Lists(es, m)
    ensures Fill(es) == m
  {
    FillHas(es);
    forall k | k in m
      ensures k in Fill(es)
    {
      var i :| 0 <= i < |es| && es[i].key == k;
    }
    assert Fill(es).Keys == m.Keys;
  }

  /** With distinct keys the first entry of a key is its only one. */
  lemma {:induction false} FirstFinds(es: seq<Entry>, i: nat)
    requires Distinct(es) && i < |es|
    ensures First(es, es[i].key) == Some(es[i].value)
  {
    if i > 0 {
      FirstFinds(es[1..], i - 1);
    }
  }

  lemma {:induction false} FirstMisses(es: seq<Entry>, key: string)
    requires forall i :: 0 <= i < |es| ==> es[i].key != key
    ensures First(es, key) == None
  {
    if es != [] {
      FirstMisses(es[1..], key);
    }
  }

  function Lookup(m: map<string, string>, key: string): Option<string> {
    if key in m then Some(m[key]) else None
  }

  lemma FirstOfDistinct(es: seq<Entry>, key: string)
    requires Distinct(es)
    ensures First(es, key) == Lookup(Fill(es), key)
  {
    FillHas(es);
    if key in Fill(es) {
      var i := FillSource(es, key);
      FirstFinds(es, i);
    } else {
      FirstMisses(es, key);
    }
  }

  /** A dictionary survives print-then-parse, in whatever order it is printed, exactly when its entries are writable. */
  lemma FillOfPrint(es: seq<Entry>, m: map<string, string>)
    requires Lists(es, m)
    ensures WritableMap(m) <==> Fill(EntriesOf(Print(es))) == m
    ensures WritableMap(m) ==> EntriesOf(Print(es)) == es
  {
    if WritableMap(m) {
      forall i | 0 <= i < |es|
        ensures Writable(es[i])
      {
        assert es[i] == Entry(es[i].key, m[es[i].key]);
      }
      EntriesOfPrint(es);
      FillOfListing(es, m);
    }
    if Fill(EntriesOf(Print(es))) == m {
      LinesAreFree(Print(es));
      EntriesAreWritable(Lines(Print(es)));
      FillHas(EntriesOf(Print(es)));
    }
  }
}
