/** The files that publish the features of an accepted reply, and the API functions that read them. */
module FeatureFiles {
  import opened Wrappers
  import opened IniFile
  import opened LocalStore
  import opened XconfProtocol

  const VARIABLE_FILE := "rfcVariable.ini"
  const MARKER := ".RFC_"

  /** The RFC directory: its files by name. A name with a slash cannot be created there. */
  type Directory = map<string, string>

  predicate IsPrefix(p: string, s: string) {
    |p| <= |s| && s[..|p|] == p
  }

  /** cleanAllFile: every marker and the variable file go. Done for every 200. */
  function CleanAll(dir: Directory): Directory {
    map f | f in dir && !IsPrefix(MARKER, f) && f != VARIABLE_FILE :: dir[f]
  }

  predicate Complete(f: Feature) {
    f.name.Some? && f.enable.Some? && f.effectiveImmediate.Some?
  }

  function Flag(b: bool): string {
    if b then "true" else "false"
  }

  function MarkerName(name: string): string {
    MARKER + name + ".ini"
  }

  /** The two lines of a feature, as entries. */
  function FeatureEntries(f: Feature): seq<Entry>
    requires Complete(f)
  {
    [Entry("RFC_ENABLE_" + f.name.value, Flag(f.enable.value)),
     Entry("RFC_" + f.name.value + "_effectiveImmediate", Flag(f.effectiveImmediate.value))]
  }

  function Exported(es: seq<Entry>): seq<Entry> {
    seq(|es|, i requires 0 <= i < |es| => Entry("export " + es[i].key, es[i].value))
  }

  function Append(dir: Directory, file: string, text: string): Directory {
    if !Free(file, '/') then dir
    else dir[file := (if file in dir then dir[file] else "") + text]
  }

  /** writeRemoteFeatureCntrlFile for the marker, if the feature has an instance, and for the variable file. */
  function WriteFeature(dir: Directory, f: Feature): Directory {
    if !Complete(f) then dir
    else
      var text := Print(Exported(FeatureEntries(f)));
      var dir' := if f.instance.Some? then Append(dir, MarkerName(f.name.value), text) else dir;
      Append(dir', VARIABLE_FILE, text)
  }

  function WriteFeatures(dir: Directory, fs: seq<Feature>): Directory {
    if fs == [] then dir else WriteFeature(WriteFeatures(dir, fs[..|fs| - 1]), fs[|fs| - 1])
  }

  /** The directory after a reply was accepted: cleaned when it arrived, written when it was processed. */
  function AfterAccept(dir: Directory, fs: seq<Feature>): Directory {
    WriteFeatures(CleanAll(dir), fs)
  }

  class Publisher {
    var dir: Directory

    method AppendFile(file: string, text: string)
      modifies this
      ensures dir == Append(old(dir), file, text)
    {
      if Free(file, '/') {
        dir := dir[file := (if file in dir then dir[file] else "") + text];
      }
    }

    /** The feature loop of ProcessJsonResponse; incomplete features are passed over. */
    method PublishFeatures(fs: seq<Feature>)
      modifies this
      ensures dir == WriteFeatures(old(dir), fs)
    {
      hide Append, FeatureEntries, Exported, Print, MarkerName, VARIABLE_FILE;
      var index := 0;
      while index < |fs|
        invariant 0 <= index <= |fs|
        invariant dir == WriteFeatures(old(dir), fs[..index])
      {
        var f := fs[index];
        assert fs[..index + 1][..index] == fs[..index];
        index := index + 1;
        if !Complete(f) {
          continue;
        }
        var text := Print(Exported(FeatureEntries(f)));
        if f.instance.Some? {
          AppendFile(MarkerName(f.name.value), text);
        }
        AppendFile(VARIABLE_FILE, text);
      }
      assert fs[..index] == fs;
    }
  }

  /*** Markers ***/

  predicate IsRfcEnabled(dir: Directory, name: string) {
    (".RFC_" + name + ".ini") in dir
  }

  /** The API asks for the very file the daemon writes. */
  lemma MarkerText(name: string)
    ensures MarkerName(name) == ".RFC_" + name + ".ini"
  {
  }

  predicate HasInstance(f: Feature, name: string) {
    Complete(f) && f.instance.Some? && f.name.value == name
  }

  lemma MarkerNames(a: string, b: string)
    ensures MarkerName(a) == MarkerName(b) ==> a == b
    ensures IsPrefix(MARKER, MarkerName(a)) && MarkerName(a) != VARIABLE_FILE
    ensures Free(a, '/') ==> Free(MarkerName(a), '/')
  {
    var m, n := MarkerName(a), MarkerName(b);
    if m == n {
      assert |a| == |b|;
      assert a == m[5..5 + |a|] && b == n[5..5 + |b|];
    }
    assert m[..5] == MARKER;
    assert m[0] == '.' && VARIABLE_FILE[0] == 'r';
  }

  lemma {:induction false} MarkersWritten(dir: Directory, fs: seq<Feature>, name: string)
    requires Free(name, '/')
    ensures IsRfcEnabled(WriteFeatures(dir, fs), name)
        <==> IsRfcEnabled(dir, name) || exists i :: 0 <= i < |fs| && HasInstance(fs[i], name)
    decreases |fs|
  {
    hide Print, Exported, FeatureEntries, MarkerName, VARIABLE_FILE;
    MarkerText(name);
    if fs != [] {
      var n := |fs| - 1;
      var init, f := fs[..n], fs[n];
      MarkersWritten(dir, init, name);
      MarkerNames(name, name);
      if f.name.Some? {
        MarkerNames(f.name.value, name);
        MarkerNames(name, f.name.value);
      }
      assert forall i :: 0 <= i < n ==> init[i] == fs[i];
    }
  }

  /** After an accepted reply a feature is enabled exactly when the reply holds a complete feature of that name with an instance. */
  lemma EnabledExactly(dir: Directory, fs: seq<Feature>, name: string)
    requires Free(name, '/')
    ensures IsRfcEnabled(AfterAccept(dir, fs), name) <==> exists i :: 0 <= i < |fs| && HasInstance(fs[i], name)
  {
    MarkersWritten(CleanAll(dir), fs, name);
    MarkerNames(name, name);
  }

  /*** The variable file ***/

  /** The reader drops everything up to the first blank of a line, such as the word export. */
  function FirstBlank(s: string): nat {
    if s == "" || s[0] == ' ' || s[0] == '\t' then 0 else 1 + FirstBlank(s[1..])
  }

  function DropExport(line: string): string {
    if FirstBlank(line) < |line| then line[FirstBlank(line) + 1..] else line
  }

  function DropExports(lines: seq<string>): seq<string> {
    seq(|lines|, i requires 0 <= i < |lines| => DropExport(lines[i]))
  }

  function ReadExported(file: File, name: string): Answer {
    if file.None? then Answer(Failure, "") else Found(First(Entries(DropExports(Lines(file.value))), name))
  }

  /** The search loop of the API's getValue, which rewrites each line before it looks for '='. */
  method GetExported(file: File, name: string) returns (r: Answer)
    ensures r == ReadExported(file, name)
  {
    if file.None? {
      return Answer(Failure, "");
    }
    var lines := Lines(file.value);
    ghost var dropped := DropExports(lines);
    hide Entries, First, ReadLine, Lines, Found, Cut;
    var n := 0;
    while n < |lines|
      invariant 0 <= n <= |lines|
      invariant First(Entries(dropped[n..]), name) == First(Entries(dropped), name)
    {
      var e := ReadLine(DropExport(lines[n]));
      assert dropped[n..][1..] == dropped[n + 1..];
      FirstByLine(dropped[n..], name);
      if e.Some? && e.value.key == name {
        return Found(Some(e.value.value));
      }
      n := n + 1;
    }
    NoLines(name);
    return Found(None);
  }

  lemma NoLines(name: string)
    ensures First(Entries([]), name) == None
  {
  }

  lemma FirstByLine(lines: seq<string>, name: string)
    requires lines != []
    ensures First(Entries(lines), name)
         == var e := ReadLine(lines[0]);
            if e.Some? && e.value.key == name then Some(e.value.value) else First(Entries(lines[1..]), name)
  {
    hide ReadLine;
    var e, rest := ReadLine(lines[0]), Entries(lines[1..]);
    if e.Some? {
      assert ([e.value] + rest)[1..] == rest;
    } else {
      assert [] + rest == rest;
    }
  }

  /** The files getRFCParameter consults while the parameter server is not ready. */
  datatype ApiFiles = ApiFiles(variables: File, store: File, bootstrap: File, defaults: File)

  function GetParameter(files: ApiFiles, name: string): Answer
    requires name != ""
  {
    if name[|name| - 1] == '.' then Answer(Failure, "")
    else if IsPrefix("RFC_", name) && Free(name, '.') then ReadExported(files.variables, name)
    else
      var a := ReadExported(files.store, name);
      if a.code == Success then a
      else
        var b := ReadExported(files.bootstrap, name);
        if b.code == Success then b else ReadExported(files.defaults, name)
  }

  /** The entries the variable file of a reply holds, in order. */
  function VariableEntries(fs: seq<Feature>): seq<Entry> {
    if fs == [] then []
    else VariableEntries(fs[..|fs| - 1]) + (if Complete(fs[|fs| - 1]) then FeatureEntries(fs[|fs| - 1]) else [])
  }

  lemma {:induction false} PrintAppend(a: seq<Entry>, b: seq<Entry>)
    ensures Print(a + b) == Print(a) + Print(b)
  {
    if a == [] {
      assert a + b == b;
    } else {
      assert (a + b)[1..] == a[1..] + b;
      PrintAppend(a[1..], b);
    }
  }

  function Contents(dir: Directory, file: string): string {
    if file in dir then dir[file] else ""
  }

  lemma FeatureAppended(dir: Directory, f: Feature)
    ensures Contents(WriteFeature(dir, f), VARIABLE_FILE)
         == Contents(dir, VARIABLE_FILE) + (if Complete(f) then Print(Exported(FeatureEntries(f))) else "")
    ensures VARIABLE_FILE in WriteFeature(dir, f) <==> VARIABLE_FILE in dir || Complete(f)
  {
    hide FeatureEntries, MarkerName, Exported, Print;
    assert Free(VARIABLE_FILE, '/');
    hide VARIABLE_FILE;
    if Complete(f) {
      MarkerNames(f.name.value, "");
    } else {
      assert Contents(dir, VARIABLE_FILE) + "" == Contents(dir, VARIABLE_FILE);
    }
  }

  lemma ExportedAppend(a: seq<Entry>, b: seq<Entry>)
    ensures Print(Exported(a + b)) == Print(Exported(a)) + Print(Exported(b))
  {
    assert Exported(a + b) == Exported(a) + Exported(b);
    PrintAppend(Exported(a), Exported(b));
  }

  lemma {:induction false} VariablesWritten(dir: Directory, fs: seq<Feature>)
    requires VARIABLE_FILE !in dir
    ensures Contents(WriteFeatures(dir, fs), VARIABLE_FILE) == Print(Exported(VariableEntries(fs)))
    decreases |fs|
  {
    if fs == [] {
      assert Exported([]) == [];
    } else {
      hide FeatureEntries, WriteFeature, VARIABLE_FILE, Print, Exported, Contents, Complete;
      var n := |fs| - 1;
      var init, f := fs[..n], fs[n];
      VariablesWritten(dir, init);
      FeatureAppended(WriteFeatures(dir, init), f);
      if Complete(f) {
        ExportedAppend(VariableEntries(init), FeatureEntries(f));
      } else {
        assert VariableEntries(init) + [] == VariableEntries(init);
        var text := Contents(WriteFeatures(dir, init), VARIABLE_FILE);
        assert text + "" == text;
      }
    }
  }

  lemma {:induction false} VariableFileExists(dir: Directory, fs: seq<Feature>)
    requires VARIABLE_FILE !in dir
    ensures VARIABLE_FILE in WriteFeatures(dir, fs) <==> exists i :: 0 <= i < |fs| && Complete(fs[i])
    decreases |fs|
  {
    hide WriteFeature, VARIABLE_FILE, Contents;
    if fs != [] {
      var n := |fs| - 1;
      var init, f := fs[..n], fs[n];
      VariableFileExists(dir, init);
      FeatureAppended(WriteFeatures(dir, init), f);
      assert forall i :: 0 <= i < n ==> init[i] == fs[i];
    }
  }

  /*** Reading it back ***/

  lemma DropPrinted(e: Entry)
    requires Writable(e)
    ensures ReadLine(DropExport("export " + e.key + "=" + e.value)) == Some(e)
  {
    var line := "export " + e.key + "=" + e.value;
    var rest := e.key + "=" + e.value;
    BlankBehindWord("export", rest);
    assert line == "export" + " " + rest;
    assert line[7..] == rest;
    ReadPrintedLine(e);
  }

  lemma {:induction false} BlankBehindWord(w: string, rest: string)
    requires Free(w, ' ') && Free(w, '\t')
    ensures FirstBlank(w + " " + rest) == |w|
  {
    if w == "" {
      assert w + " " + rest == " " + rest;
    } else {
      assert (w + " " + rest)[1..] == w[1..] + " " + rest;
      BlankBehindWord(w[1..], rest);
    }
  }

  lemma DropFirst(line: string, lines: seq<string>)
    ensures Entries(DropExports([line] + lines))
         == (var e := ReadLine(DropExport(line)); if e.Some? then [e.value] else []) + Entries(DropExports(lines))
  {
    hide ReadLine, DropExport;
    var all := DropExports([line] + lines);
    assert all[0] == DropExport(line);
    assert all[1..] == DropExports(lines);
  }

  lemma {:induction false} ReadExportedEntries(es: seq<Entry>)
    requires forall i :: 0 <= i < |es| ==> Writable(es[i])
    ensures Entries(DropExports(Lines(Print(Exported(es))))) == es
  {
    if es == [] {
      assert Exported(es) == [];
    } else {
      hide Entries, DropExports, DropExport, Lines, ReadLine, Writable, PrintEntry;
      var e, rest := es[0], Exported(es[1..]);
      var printed := Entry("export " + e.key, e.value);
      assert Exported(es)[0] == printed && Exported(es)[1..] == rest;
      ExportWritable(e);
      LinesOfPrinted(printed, Print(rest));
      DropPrinted(e);
      ReadExportedEntries(es[1..]);
      DropFirst(printed.key + "=" + e.value, Lines(Print(rest)));
    }
  }

  lemma ExportWritable(e: Entry)
    requires Writable(e)
    ensures Writable(Entry("export " + e.key, e.value))
  {
  }

  lemma {:induction false} FirstConcat(a: seq<Entry>, b: seq<Entry>, key: string)
    ensures First(a + b, key) == if First(a, key).Some? then First(a, key) else First(b, key)
  {
    if a == [] {
      assert a + b == b;
    } else {
      assert (a + b)[1..] == a[1..] + b;
      FirstConcat(a[1..], b, key);
    }
  }

  /** A name that fits a line of its own. */
  predicate PlainName(name: string) {
    Free(name, '=') && Free(name, '\n')
  }

  predicate PlainNames(fs: seq<Feature>) {
    forall i :: 0 <= i < |fs| && Complete(fs[i]) ==> PlainName(fs[i].name.value)
  }

  /** The first complete feature of a name. */
  function FirstNamed(fs: seq<Feature>, name: string): Option<Feature> {
    if fs == [] then None
    else
      var before := FirstNamed(fs[..|fs| - 1], name);
      if before.Some? then before
      else if Complete(fs[|fs| - 1]) && fs[|fs| - 1].name.value == name then Some(fs[|fs| - 1])
      else None
  }

  /** The flag that feature asks for. */
  function FlagNamed(fs: seq<Feature>, name: string): Option<bool> {
    var f := FirstNamed(fs, name);
    if f.Some? && Complete(f.value) then Some(f.value.enable.value) else None
  }

  /** Whether the second line of a feature named m is taken for the first of one named n. */
  predicate Mistaken(m: string, n: string) {
    m + "_effectiveImmediate" == "ENABLE_" + n
  }

  /** What a feature's lines say of n: its flag if it has that name, or its other flag if it is mistaken for it. */
  function Claim(f: Feature, n: string): Option<bool> {
    if !Complete(f) then None
    else if f.name.value == n then Some(f.enable.value)
    else if Mistaken(f.name.value, n) then Some(f.effectiveImmediate.value)
    else None
  }

  function FirstClaim(fs: seq<Feature>, n: string): Option<bool> {
    if fs == [] then None
    else
      var before := FirstClaim(fs[..|fs| - 1], n);
      if before.Some? then before else Claim(fs[|fs| - 1], n)
  }

  /** Only a name that begins with ENABLE is ever mistaken. */
  lemma NotMistaken(m: string, n: string)
    requires !IsPrefix("ENABLE", m)
    ensures !Mistaken(m, n)
  {
    var a, b := m + "_effectiveImmediate", "ENABLE_" + n;
    assert b[..6] == "ENABLE";
    if |m| < 6 {
      assert a[|m|] == '_';
      assert b[|m|] == b[..6][|m|];
      assert a[|m|] != b[|m|];
    } else {
      assert a[..6] == m[..6];
    }
  }

  /** Mistaken names are those whose second key is the first key of n. */
  lemma MistakenKeys(m: string, n: string)
    ensures "RFC_" + m + "_effectiveImmediate" == "RFC_ENABLE_" + n <==> Mistaken(m, n)
  {
    var a, b := m + "_effectiveImmediate", "ENABLE_" + n;
    assert "RFC_" + m + "_effectiveImmediate" == "RFC_" + a && "RFC_ENABLE_" + n == "RFC_" + b;
    assert ("RFC_" + a)[4..] == a && ("RFC_" + b)[4..] == b;
  }

  lemma EnableKeysDiffer(m: string, n: string)
    requires m != n
    ensures "RFC_ENABLE_" + m != "RFC_ENABLE_" + n
  {
    var a, b := "RFC_ENABLE_" + m, "RFC_ENABLE_" + n;
    assert a[11..] == m && b[11..] == n;
  }

  lemma FirstOfTwo(a: Entry, b: Entry, key: string)
    ensures First([a, b], key) == if a.key == key then Some(a.value) else if b.key == key then Some(b.value) else None
  {
    assert [a, b][1..] == [b];
    assert First([b], key) == if b.key == key then Some(b.value) else None;
  }

  function FlagText(b: Option<bool>): Option<string> {
    if b.Some? then Some(if b.value then "true" else "false") else None
  }

  lemma FirstOfFeature(f: Feature, n: string)
    requires Complete(f)
    ensures First(FeatureEntries(f), "RFC_ENABLE_" + n) == FlagText(Claim(f, n))
  {
    hide First, Mistaken;
    var m := f.name.value;
    MistakenKeys(m, n);
    if m != n {
      EnableKeysDiffer(m, n);
    }
    var es := FeatureEntries(f);
    FirstOfTwo(es[0], es[1], "RFC_ENABLE_" + n);
  }

  lemma FeatureIsWritable(f: Feature)
    requires Complete(f) && PlainName(f.name.value)
    ensures |FeatureEntries(f)| == 2 && Writable(FeatureEntries(f)[0]) && Writable(FeatureEntries(f)[1])
  {
    hide Flag;
    FlagIsLine(f.enable.value);
    FlagIsLine(f.effectiveImmediate.value);
  }

  lemma FlagIsLine(b: bool)
    ensures Free(Flag(b), '\n') && Flag(b) != "" && Cut(Flag(b)) == Flag(b)
  {
  }

  lemma {:induction false} FirstOfVariables(fs: seq<Feature>, n: string)
    requires PlainNames(fs)
    ensures First(VariableEntries(fs), "RFC_ENABLE_" + n) == FlagText(FirstClaim(fs, n))
    ensures forall i :: 0 <= i < |VariableEntries(fs)| ==> Writable(VariableEntries(fs)[i])
    decreases |fs|
  {
    hide FeatureEntries, Writable, PlainName, Flag, Claim, First;
    if fs == [] {
      NoEntries("RFC_ENABLE_" + n);
    } else {
      var k := |fs| - 1;
      var init, f := fs[..k], fs[k];
      FirstOfVariables(init, n);
      var b := if Complete(f) then FeatureEntries(f) else [];
      FirstConcat(VariableEntries(init), b, "RFC_ENABLE_" + n);
      if Complete(f) {
        FirstOfFeature(f, n);
        FeatureIsWritable(f);
      } else {
        NoEntries("RFC_ENABLE_" + n);
        NoClaim(f, n);
      }
    }
  }

  lemma NoEntries(key: string)
    ensures First([], key) == None
  {
  }

  lemma NoClaim(f: Feature, n: string)
    requires !Complete(f)
    ensures Claim(f, n) == None
  {
  }

  /** The answer of the API for a flag. */
  function AnswerOf(b: Option<bool>): Answer {
    if b.Some? then Answer(Success, if b.value then "true" else "false") else Answer(Failure, "")
  }

  lemma FoundFlag(b: Option<bool>)
    ensures Found(FlagText(b)) == AnswerOf(b)
  {
    if b.Some? {
      FlagIsLine(b.value);
    }
  }

  /** The variable file as the API finds it. */
  predicate Publishes(dir: Directory, files: ApiFiles) {
    files.variables == if "rfcVariable.ini" in dir then Some(dir["rfcVariable.ini"]) else None
  }

  /**
   * After an accepted reply, and before the parameter server is ready, the API answers for RFC_ENABLE_<n> with the first
   * claim on n among the complete features, and with a failure when there is none.
   */
  lemma AnswerIsFirstClaim(dir: Directory, fs: seq<Feature>, n: string, files: ApiFiles)
    requires PlainNames(fs) && Free(n, '.') && Publishes(AfterAccept(dir, fs), files)
    ensures GetParameter(files, "RFC_ENABLE_" + n) == AnswerOf(FirstClaim(fs, n))
  {
    var name := "RFC_ENABLE_" + n;
    assert name[..4] == "RFC_" && Free(name, '.') && name[|name| - 1] != '.';
    hide VARIABLE_FILE, Print, Lines, Entries, DropExports, Exported, AnswerOf, FlagText, Found, First, FirstClaim, PlainNames;
    VariablesWritten(CleanAll(dir), fs);
    VariableFileExists(CleanAll(dir), fs);
    FirstOfVariables(fs, n);
    ReadExportedEntries(VariableEntries(fs));
    FoundFlag(FirstClaim(fs, n));
    if VARIABLE_FILE !in AfterAccept(dir, fs) {
      NoneClaims(fs, n);
    }
  }

  lemma {:induction false} NoneClaims(fs: seq<Feature>, n: string)
    requires forall i :: 0 <= i < |fs| ==> !Complete(fs[i])
    ensures FirstClaim(fs, n) == None && AnswerOf(None) == Answer(Failure, "")
    decreases |fs|
  {
    if fs != [] {
      NoneClaims(fs[..|fs| - 1], n);
    }
  }

  /**
   * No feature misleads: one that is mistaken for n, with no claim on n in front of it, has for its other flag the very
   * flag of the first complete feature named n.
   */
  predicate NoneMisleads(fs: seq<Feature>, n: string) {
    forall i :: 0 <= i < |fs| && Complete(fs[i]) && fs[i].name.value != n && Mistaken(fs[i].name.value, n) && Unclaimed(fs, n, i) ==>
      FlagNamed(fs, n) == Some(fs[i].effectiveImmediate.value)
  }

  predicate Unclaimed(fs: seq<Feature>, n: string, i: nat)
    requires i <= |fs|
  {
    forall j :: 0 <= j < i ==> Claim(fs[j], n).None?
  }

  lemma {:induction false} FirstClaimFound(fs: seq<Feature>, n: string, i: nat)
    requires i < |fs| && Claim(fs[i], n).Some? && Unclaimed(fs, n, i)
    ensures FirstClaim(fs, n) == Claim(fs[i], n)
    decreases |fs|
  {
    hide Claim;
    var k := |fs| - 1;
    if i < k {
      FirstClaimFound(fs[..k], n, i);
    } else {
      NoFirstClaim(fs[..k], n);
    }
  }

  lemma {:induction false} NoFirstClaim(fs: seq<Feature>, n: string)
    requires Unclaimed(fs, n, |fs|)
    ensures FirstClaim(fs, n) == None && FirstNamed(fs, n) == None
    decreases |fs|
  {
    hide Mistaken;
    if fs != [] {
      var k := |fs| - 1;
      assert Claim(fs[k], n).None?;
      NoFirstClaim(fs[..k], n);
    }
  }

  /** A named feature that is the first to claim the name is the first of that name. */
  lemma {:induction false} FirstNamedFound(fs: seq<Feature>, n: string, i: nat)
    requires i < |fs| && Complete(fs[i]) && fs[i].name.value == n && Unclaimed(fs, n, i)
    ensures FirstNamed(fs, n) == Some(fs[i])
    decreases |fs|
  {
    hide Claim;
    var k := |fs| - 1;
    if i < k {
      FirstNamedFound(fs[..k], n, i);
    } else {
      NoFirstClaim(fs[..k], n);
    }
  }

  /** The place of the first claim, if there is one. */
  lemma FindClaim(fs: seq<Feature>, n: string) returns (i: nat)
    ensures i <= |fs| && Unclaimed(fs, n, i) && (i < |fs| ==> Claim(fs[i], n).Some?)
  {
    hide Claim;
    i := 0;
    while i < |fs| && Claim(fs[i], n).None?
      invariant i <= |fs| && Unclaimed(fs, n, i)
    {
      i := i + 1;
    }
  }

  lemma ClaimsAgreeExactly(fs: seq<Feature>, n: string)
    ensures FirstClaim(fs, n) == FlagNamed(fs, n) <==> NoneMisleads(fs, n)
  {
    hide FirstClaim, FirstNamed, Mistaken;
    var i := FindClaim(fs, n);
    if i == |fs| {
      NoFirstClaim(fs, n);
    } else {
      FirstClaimFound(fs, n, i);
      if fs[i].name.value == n {
        FirstNamedFound(fs, n, i);
      }
    }
  }

  /** The answer is the flag of the first complete feature named n exactly when no feature misleads. */
  lemma FlagOfFirst(dir: Directory, fs: seq<Feature>, n: string, files: ApiFiles)
    requires PlainNames(fs) && Free(n, '.') && Publishes(AfterAccept(dir, fs), files)
    ensures GetParameter(files, "RFC_ENABLE_" + n) == AnswerOf(FlagNamed(fs, n)) <==> NoneMisleads(fs, n)
    ensures (forall i :: 0 <= i < |fs| && Complete(fs[i]) ==> !Mistaken(fs[i].name.value, n)) ==> NoneMisleads(fs, n)
  {
    hide GetParameter, PlainNames, Publishes, AfterAccept, Mistaken, FirstClaim, FlagNamed, Unclaimed;
    AnswerIsFirstClaim(dir, fs, n, files);
    ClaimsAgreeExactly(fs, n);
    FlagsDiffer();
  }

  lemma FlagsDiffer()
    ensures Flag(true) != Flag(false)
  {
  }

  /** It can fail: a lone feature named ENABLE_x answers for the name x_effectiveImmediate, which no feature has. */
  lemma EnableMisleads(dir: Directory, f: Feature, x: string, files: ApiFiles)
    requires Complete(f) && f.name.value == "ENABLE_" + x && PlainName(f.name.value) && Free(x, '.')
    requires Publishes(AfterAccept(dir, [f]), files)
    ensures FirstNamed([f], x + "_effectiveImmediate") == None
    ensures GetParameter(files, "RFC_ENABLE_" + (x + "_effectiveImmediate")) == AnswerOf(f.effectiveImmediate)
  {
    var n := x + "_effectiveImmediate";
    assert Mistaken(f.name.value, n);
    assert |f.name.value| != |n|;
    assert Free("_effectiveImmediate", '.');
    assert FirstNamed([f][..0], n) == None && FirstClaim([f][..0], n) == None;
    hide GetParameter, AnswerOf, Publishes, Mistaken, AfterAccept;
    AnswerIsFirstClaim(dir, [f], n, files);
  }

  /** What an API file answers for a key, by its first line of it. */
  function AnswerIn(file: File, name: string): Option<string> {
    if file.None? then None else First(Entries(DropExports(Lines(file.value))), name)
  }

  /** A value in a buffer of 2048 bytes. */
  function Given(value: string): Answer {
    Answer(Success, if |value| < 2048 then value else value[..2047])
  }

  /**
   * A name outside the RFC_ variables is looked up in the store, then in the bootstrap file, then in the defaults: the first
   * non-empty value of the first two decides, else whatever the defaults answer. A name that ends in '.' is refused.
   */
  lemma LayeredRead(files: ApiFiles, name: string)
    requires name != "" && !(|name| >= 4 && name[..4] == "RFC_" && Free(name, '.'))
    ensures var store, bootstrap, defaults := AnswerIn(files.store, name), AnswerIn(files.bootstrap, name), AnswerIn(files.defaults, name);
            GetParameter(files, name) ==
              if name[|name| - 1] == '.' then Answer(Failure, "")
              else if store.Some? && store.value != "" then Given(store.value)
              else if bootstrap.Some? && bootstrap.value != "" then Given(bootstrap.value)
              else if defaults.None? then Answer(Failure, "")
              else if defaults.value == "" then Answer(ValueIsEmpty, "")
              else Given(defaults.value)
  {
    hide First, Entries, DropExports, Lines;
  }
}
