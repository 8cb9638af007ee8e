/** The local TR-181 store: a text file holding a printed dictionary. */
module LocalStore {
  import opened Wrappers
  import opened IniFile
  import opened RfcText

  const CLEAR_PARAM := "Device.DeviceInfo.X_RDKCENTRAL-COM_RFC.ClearParam"
  const DEFAULTS_DIR := "/etc/rfcdefaults/"
  const MAX_PARAM_LEN := 2048

  type File = Option<string>
  datatype Code = Success | Failure | ValueIsEmpty
  datatype Answer = Answer(code: Code, value: string)

  /** A value as it fits the caller's buffer. */
  function Cut(v: string): string {
    if |v| < MAX_PARAM_LEN then v else v[..MAX_PARAM_LEN - 1]
  }

  function Found(v: Option<string>): Answer {
    if v.None? then Answer(Failure, "")
    else if v.value == "" then Answer(ValueIsEmpty, "")
    else Answer(Success, Cut(v.value))
  }

  function Read(file: File, name: string): Answer {
    if file.None? then Answer(Failure, "") else Found(First(EntriesOf(file.value), name))
  }

  /** The search loop: line by line, the first line with the key decides. */
  method GetValue(file: File, name: string) returns (r: Answer)
    ensures r == Read(file, name)
  {
    if file.None? {
      return Answer(Failure, "");
    }
    var lines := Lines(file.value);
    var n := 0;
    while n < |lines|
      invariant 0 <= n <= |lines|
      invariant First(Entries(lines[n..]), name) == First(Entries(lines), name)
    {
      var e := ReadLine(lines[n]);
      assert lines[n..][1..] == lines[n + 1..];
      assert e.Some? ==> ([e.value] + Entries(lines[n + 1..]))[1..] == Entries(lines[n + 1..]);
      assert e.None? ==> [] + Entries(lines[n + 1..]) == Entries(lines[n + 1..]);
      if e.Some? && e.value.key == name {
        return if e.value.value != "" then Answer(Success, Cut(e.value.value)) else Answer(ValueIsEmpty, "");
      }
      n := n + 1;
    }
    return Answer(Failure, "");
  }

  /** The defaults file of a component; a long component name is cut to the buffer. */
  function DefaultsName(caller: string): string {
    var room := 256 - |DEFAULTS_DIR| - 5;
    DEFAULTS_DIR + (if |caller| <= room then caller else caller[..room]) + ".ini"
  }

  type FileSystem = string -> File

  function ReadDefault(fs: FileSystem, caller: Option<string>, name: string): Answer {
    if caller.None? then Answer(Failure, "") else Read(fs(DefaultsName(caller.value)), name)
  }

  /** A read with its fallback: anything but a non-empty local value asks the component's defaults. */
  function ReadLocal(fs: FileSystem, file: File, caller: Option<string>, name: string): Answer {
    var local := Read(file, name);
    if local.code == Success then local else ReadDefault(fs, caller, name)
  }

  /*** Updates ***/

  function Dict(file: File): map<string, string> {
    if file.None? then map[] else Fill(EntriesOf(file.value))
  }

  predicate IsCleared(pattern: string, key: string)
    requires pattern != ""
  {
    key == pattern || (pattern[|pattern| - 1] == '.' && Contains(key, pattern))
  }

  predicate Nothing(m: map<string, string>, pattern: string)
    requires pattern != ""
  {
    forall k <- m :: !IsCleared(pattern, k)
  }

  /** The dictionary after a request; naming CLEAR_PARAM clears the keys its value selects. */
  function Updated(m: map<string, string>, name: string, value: string): map<string, string>
    requires name == CLEAR_PARAM ==> value != ""
  {
    if name == CLEAR_PARAM then map k | k in m && !IsCleared(value, k) :: m[k] else m[name := value]
  }

  /** What one update does to the file: leave it, or replace it by the printed dictionary in some order. */
  ghost predicate Outcome(before: File, name: string, value: string, writable: bool, after: File, code: Code)
    requires name == CLEAR_PARAM ==> value != ""
  {
    if name == CLEAR_PARAM && Nothing(Dict(before), value) then after == before && code == Success
    else if !writable then after == before && code == Failure
    else
      && code == Success && after.Some?
      && exists es: seq<Entry> :: Lists(es, Updated(Dict(before), name, value)) && after.value == Print(es)
  }

  lemma {:induction false} PrintConcat(a: seq<Entry>, e: Entry)
    ensures Print(a + [e]) == Print(a) + PrintEntry(e)
  {
    if a == [] {
      assert a + [e] == [e];
    } else {
      assert (a + [e])[1..] == a[1..] + [e];
      PrintConcat(a[1..], e);
    }
  }

  /** The clearing loop: every key is tried, in any order. */
  method ClearKeys(all: map<string, string>, pattern: string) returns (dict: map<string, string>, found: bool)
    requires pattern != ""
    ensures dict == Updated(all, CLEAR_PARAM, pattern)
    ensures found <==> !Nothing(all, pattern)
  {
    var keys := all.Keys;
    dict, found := all, false;
    while keys != {}
      invariant keys <= all.Keys
      invariant dict == map k | k in all && (k in keys || !IsCleared(pattern, k)) :: all[k]
      invariant found <==> exists k :: k in all && k !in keys && IsCleared(pattern, k)
      decreases keys
    {
      var k :| k in keys;
      if k == pattern || (pattern[|pattern| - 1] == '.' && Find(k, pattern, 0) != NPOS) {
        assert IsCleared(pattern, k);
        dict, found := dict - {k}, true;
      } else {
        assert !IsCleared(pattern, k);
      }
      keys := keys - {k};
    }
  }

  /** The print loop, in any order. */
  method PrintDict(dict: map<string, string>) returns (text: string)
    ensures exists es: seq<Entry> :: Lists(es, dict) && text == Print(es)
  {
    var keys := dict.Keys;
    text := "";
    ghost var es: seq<Entry> := [];
    while keys != {}
      invariant keys <= dict.Keys
      invariant text == Print(es)
      invariant Lists(es, dict - keys)
      decreases keys
    {
      var k :| k in keys;
      PrintConcat(es, Entry(k, dict[k]));
      ListsMore(es, dict - keys, dict - (keys - {k}), k);
      es := es + [Entry(k, dict[k])];
      text := text + PrintEntry(Entry(k, dict[k]));
      keys := keys - {k};
    }
    assert dict - keys == dict;
  }

  class Store {
    var file: File

    constructor (file: File)
      ensures this.file == file
    {
      this.file := file;
    }

    /** Load, change, rewrite. */
    method SetValue(name: string, value: string, writable: bool) returns (code: Code)
      requires name == CLEAR_PARAM ==> value != ""
      modifies this
      ensures Outcome(old(file), name, value, writable, file, code)
    {
      var dict: map<string, string> := map[];
      if file.Some? {
        dict := LoadLines(Lines(file.value));
      }
      if name == CLEAR_PARAM {
        var found;
        dict, found := ClearKeys(dict, value);
        if !found {
          return Success;
        }
      } else {
        dict := dict[name := value];
      }
      if !writable {
        return Failure;
      }
      var text := PrintDict(dict);
      file := Some(text);
      return Success;
    }
  }

  lemma ListsMore(es: seq<Entry>, m: map<string, string>, m': map<string, string>, k: string)
    requires Lists(es, m) && k !in m && k in m' && m' == m[k := m'[k]]
    ensures Lists(es + [Entry(k, m'[k])], m')
  {
    var es' := es + [Entry(k, m'[k])];
    forall x | x in m'
      ensures exists i :: 0 <= i < |es'| && es'[i].key == x
    {
      if x == k {
        assert es'[|es|].key == x;
      } else {
        var i :| 0 <= i < |es| && es[i].key == x;
        assert es'[i].key == x;
      }
    }
  }

  /** The load loop: a later line overwrites an earlier one. */
  method LoadLines(lines: seq<string>) returns (dict: map<string, string>)
    ensures dict == Fill(Entries(lines))
  {
    dict := map[];
    var n := 0;
    while n < |lines|
      invariant 0 <= n <= |lines|
      invariant dict == Fill(Entries(lines[..n]))
    {
      var e := ReadLine(lines[n]);
      EntriesSnoc(lines[..n], lines[n]);
      assert lines[..n + 1] == lines[..n] + [lines[n]];
      if e.Some? {
        dict := dict[e.value.key := e.value.value];
        FillSnoc(Entries(lines[..n]), e.value);
      } else {
        assert Entries(lines[..n]) + [] == Entries(lines[..n]);
      }
      n := n + 1;
    }
    assert lines[..n] == lines;
  }

  lemma FillSnoc(es: seq<Entry>, e: Entry)
    ensures Fill(es + [e]) == Fill(es)[e.key := e.value]
  {
    assert (es + [e])[..|es|] == es;
  }

  /** What one line contributes. */
  function EntryOf(line: string): seq<Entry> {
    if ReadLine(line).Some? then [ReadLine(line).value] else []
  }

  lemma EntriesUnfold(lines: seq<string>)
    ensures Entries([]) == []
    ensures lines != [] ==> Entries(lines) == EntryOf(lines[0]) + Entries(lines[1..])
  {
    hide ReadLine;
  }

  lemma {:induction false} EntriesSnoc(lines: seq<string>, line: string)
    ensures Entries(lines + [line]) == Entries(lines) + EntryOf(line)
  {
    hide Entries, EntryOf;
    var all := lines + [line];
    EntriesUnfold(lines);
    EntriesUnfold(all);
    if lines == [] {
      assert all[1..] == [];
      assert EntryOf(line) + [] == EntryOf(line) == [] + EntryOf(line);
    } else {
      assert all[1..] == lines[1..] + [line];
      EntriesSnoc(lines[1..], line);
    }
  }

  /*** The file refines a dictionary ***/

  /** No key twice. Every file the store has written is like this; see UpdateRefines. */
  predicate Canonical(file: File) {
    file.Some? ==> Distinct(EntriesOf(file.value))
  }

  /** A key that reads from the file as it does from the dictionary: its first line and its last give the same answer. */
  predicate Agrees(file: File, key: string) {
    Read(file, key) == Found(Lookup(Dict(file), key))
  }

  /** Files without duplicate keys agree everywhere. */
  lemma ReadRefines(file: File, name: string)
    requires Canonical(file)
    ensures Agrees(file, name)
  {
    if file.Some? {
      FirstOfDistinct(EntriesOf(file.value), name);
    }
  }

  lemma DictIsWritable(file: File)
    ensures WritableMap(Dict(file))
  {
    if file.Some? {
      LinesAreFree(file.value);
      EntriesAreWritable(Lines(file.value));
      FillHas(EntriesOf(file.value));
    }
  }

  /** Whether a request can be printed: a set needs an entry that fits a line, a clear prints what was read before. */
  predicate PrintableRequest(name: string, value: string) {
    name == CLEAR_PARAM || Writable(Entry(name, value))
  }

  /** Whether a request rewrites the file once it can be opened: all do but a clear that selects nothing. */
  predicate Rewrites(m: map<string, string>, name: string, value: string)
    requires name == CLEAR_PARAM ==> value != ""
  {
    !(name == CLEAR_PARAM && Nothing(m, value))
  }

  /**
   * An update is an update of the dictionary exactly when its request can be printed, and a file that was rewritten
   * holds no key twice, whatever the file before it held.
   */
  lemma UpdateRefines(before: File, name: string, value: string, writable: bool, after: File, code: Code)
    requires name == CLEAR_PARAM ==> value != ""
    requires Outcome(before, name, value, writable, after, code)
    ensures code == Failure ==> after == before
    ensures code == Success ==>
              (Dict(after) == Updated(Dict(before), name, value) <==> PrintableRequest(name, value))
    ensures code == Success && PrintableRequest(name, value) && Rewrites(Dict(before), name, value) ==> Canonical(after)
    ensures !Rewrites(Dict(before), name, value) ==> after == before
  {
    hide Print, Lines, Entries, Contains, First;
    var m := Dict(before);
    if name == CLEAR_PARAM && Nothing(m, value) {
      assert Updated(m, name, value) == m;
    } else if writable {
      var m' := Updated(m, name, value);
      var es :| Lists(es, m') && after.value == Print(es);
      FillOfPrint(es, m');
      DictIsWritable(before);
      if name != CLEAR_PARAM {
        assert m'[name] == value && WritableMap(m') ==> Writable(Entry(name, value));
      }
    }
  }

  /** After a rewrite every key reads from the updated dictionary. */
  lemma ReadAfterRewrite(before: File, name: string, value: string, after: File, key: string)
    requires name == CLEAR_PARAM ==> value != ""
    requires Outcome(before, name, value, true, after, Success)
    requires PrintableRequest(name, value) && Rewrites(Dict(before), name, value)
    ensures Read(after, key) == Found(Lookup(Updated(Dict(before), name, value), key))
  {
    hide Read, Dict, Updated, Found, Outcome, Lookup;
    UpdateRefines(before, name, value, true, after, Success);
    ReadRefines(after, key);
  }

  /**
   * On any file: a set value of fewer than 2048 characters is read back whole, a longer one as its first 2047, and another
   * key reads as before exactly when its first and last line agreed before.
   */
  lemma SetThenGet(before: File, name: string, value: string, after: File, other: string)
    requires name != CLEAR_PARAM && Writable(Entry(name, value))
    requires Outcome(before, name, value, true, after, Success)
    ensures value != "" ==> Read(after, name) == Answer(Success, if |value| < 2048 then value else value[..2047])
    ensures value == "" ==> Read(after, name).code == ValueIsEmpty
    ensures other != name ==> (Read(after, other) == Read(before, other) <==> Agrees(before, other))
  {
    hide Read, Dict, Outcome;
    ReadAfterRewrite(before, name, value, after, name);
    ReadAfterRewrite(before, name, value, after, other);
  }

  /** A key the dictionary lacks has no line in the file. */
  lemma MissingReads(file: File, key: string)
    requires key !in Dict(file)
    ensures Read(file, key) == Answer(Failure, "")
  {
    if file.Some? {
      FillHas(EntriesOf(file.value));
      FirstMisses(EntriesOf(file.value), key);
    }
  }

  /**
   * On any file: a selected key is gone, and another reads as before exactly when nothing was selected, which leaves the
   * file untouched, or its first and last line agreed before.
   */
  lemma ClearThenGet(before: File, pattern: string, after: File, key: string)
    requires pattern != ""
    requires Outcome(before, CLEAR_PARAM, pattern, true, after, Success)
    ensures IsCleared(pattern, key) ==> Read(after, key) == Answer(Failure, "")
    ensures !IsCleared(pattern, key) ==>
              (Read(after, key) == Read(before, key) <==> Nothing(Dict(before), pattern) || Agrees(before, key))
    ensures Nothing(Dict(before), pattern) ==> after == before
  {
    hide Read, Dict, Outcome, IsCleared, CLEAR_PARAM;
    UpdateRefines(before, CLEAR_PARAM, pattern, true, after, Success);
    if Nothing(Dict(before), pattern) {
      if IsCleared(pattern, key) {
        MissingReads(before, key);
      }
    } else {
      ReadAfterRewrite(before, CLEAR_PARAM, pattern, after, key);
    }
  }

  /** The drift in a file that holds a key twice: setting any other key switches it from its first line to its last. */
  lemma DuplicateKeysDrift(before: File, after: File, k: string, v: string, w: string, name: string, value: string)
    requires before == Some(Print([Entry(k, v), Entry(k, w)])) && Writable(Entry(k, v)) && Writable(Entry(k, w))
    requires name != k && name != CLEAR_PARAM && Writable(Entry(name, value))
    requires Outcome(before, name, value, true, after, Success)
    ensures Read(before, k) == Found(Some(v))
    ensures Read(after, k) == Found(Some(w))
  {
    hide Print, Lines, Entries, Outcome, CLEAR_PARAM;
    EntriesOfPrint([Entry(k, v), Entry(k, w)]);
    FillTwice(k, v, w);
    ReadAfterRewrite(before, name, value, after, k);
  }

  lemma FillTwice(k: string, v: string, w: string)
    ensures Fill([Entry(k, v), Entry(k, w)]) == map[k := w]
  {
    FillSnoc([], Entry(k, v));
    assert [] + [Entry(k, v)] == [Entry(k, v)];
    FillSnoc([Entry(k, v)], Entry(k, w));
  }

  /** What a clear selects: the key itself, or, for a name that ends in '.', every key with the name anywhere in it. */
  lemma ClearsExactly(pattern: string, key: string)
    requires pattern != ""
    ensures IsCleared(pattern, key)
        <==> key == pattern || (pattern[|pattern| - 1] == '.' && exists u: string, v: string :: key == u + pattern + v)
  {
    hide Contains;
    ContainsIsConcat(key, pattern);
  }

  /** How a file answers, by its first line of the key. */
  lemma ReadExactly(file: File, name: string)
    ensures Read(file, name) ==
              if file.None? || First(EntriesOf(file.value), name).None? then Answer(Failure, "")
              else
                var v := First(EntriesOf(file.value), name).value;
                if v == "" then Answer(ValueIsEmpty, "") else Answer(Success, if |v| < 2048 then v else v[..2047])
  {
  }

  /** A read with its fallback: a non-empty local value, else whatever the caller's own defaults file answers, if it names itself. */
  lemma FallbackExactly(fs: FileSystem, file: File, caller: Option<string>, name: string)
    ensures ReadLocal(fs, file, caller, name) ==
              if file.Some? && First(EntriesOf(file.value), name).Some? && First(EntriesOf(file.value), name).value != "" then
                Read(file, name)
              else if caller.None? then Answer(Failure, "")
              else
                var c := caller.value;
                Read(fs("/etc/rfcdefaults/" + (if |c| <= 234 then c else c[..234]) + ".ini"), name)
  {
    hide EntriesOf, First;
    assert |DEFAULTS_DIR| == 17;
  }
}
