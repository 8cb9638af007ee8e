/** How the hash of a reply is found in its header block. */
module XconfHeader {
  import opened Wrappers
  import opened IniFile
  import opened RfcText
  import opened XconfProtocol

  predicate Blank(s: string) {
    forall i :: 0 <= i < |s| ==> s[i] == ' ' || s[i] == '\t' || s[i] == '\r'
  }

  lemma {:induction false} DropFront(blanks: string, rest: string)
    requires Blank(blanks) && (rest != "" ==> !IsBlank(rest[0]))
    ensures DropBlanks(blanks + rest) == rest
  {
    if blanks == "" {
      assert blanks + rest == rest;
    } else {
      assert (blanks + rest)[1..] == blanks[1..] + rest;
      DropFront(blanks[1..], rest);
    }
  }

  lemma {:induction false} DropBack(rest: string, blanks: string)
    requires Blank(blanks) && (rest != "" ==> !IsBlank(rest[|rest| - 1]))
    ensures DropBlanksBack(rest + blanks) == rest
  {
    if blanks == "" {
      assert rest + blanks == rest;
    } else {
      var n := |blanks| - 1;
      assert (rest + blanks)[..|rest| + n] == rest + blanks[..n];
      DropBack(rest, blanks[..n]);
    }
  }

  const MIXED := "configSetHash:"
  const LOWER := "configsethash:"
  const CRLF := "\r\n"

  /** The header with the field in some spelling, a value and a line end. */
  function Header(before: string, key: string, value: string, eol: string, behind: string): string {
    before + key + value + eol + behind
  }

  /** The field's first occurrence, in its mixed spelling, or in lower case where that does not occur at all. */
  predicate FoundAt(header: string, key: string, at: nat) {
    || (key == MIXED && Find(header, MIXED, 0) == at)
    || (key == LOWER && Find(header, MIXED, 0) == NPOS && Find(header, LOWER, 0) == at)
  }

  /** CRLF, a bare newline if no CRLF follows anywhere, or the end of the header. */
  predicate LineEnd(header: string, eol: string, behind: string, start: nat) {
    eol == CRLF || (eol == "\n" && Find(header, CRLF, start) == NPOS) || (eol == "" && behind == "")
  }

  lemma TrimmedValue(left: string, hash: string, right: string)
    requires Blank(left) && Blank(right) && hash != "" && !IsBlank(hash[0]) && !IsBlank(hash[|hash| - 1])
    ensures DropBlanksBack(DropBlanks(left + hash + right)) == hash
  {
    assert left + hash + right == left + (hash + right);
    DropFront(left, hash + right);
    DropBack(hash, right);
  }

  lemma CrlfFound(header: string, start: nat, end: nat)
    requires start <= end <= |header| - 2 && header[end] == '\r' && header[end + 1] == '\n'
    requires forall i :: start <= i < end ==> header[i] != '\n'
    ensures Find(header, CRLF, start) == end
  {
    assert header[end..end + 2] == CRLF;
    assert OccursAt(header, CRLF, end);
    NoCrlf(header, start, end);
  }

  lemma NoCrlf(header: string, start: nat, end: nat)
    requires start <= end <= |header| && (end < |header| ==> header[end] != '\n')
    requires forall i :: start <= i < end ==> header[i] != '\n'
    ensures forall i :: start <= i < end ==> !OccursAt(header, CRLF, i)
  {
    forall i | start <= i < end
      ensures !OccursAt(header, CRLF, i)
    {
      if i + 2 <= |header| {
        assert header[i..i + 2][1] == header[i + 1];
      }
    }
  }

  lemma NewlineFound(header: string, start: nat, end: nat)
    requires start <= end < |header| && header[end] == '\n'
    requires forall i :: start <= i < end ==> header[i] != '\n'
    ensures Find(header, "\n", start) == end
  {
    assert header[end..end + 1] == "\n";
    assert OccursAt(header, "\n", end);
    forall i | start <= i < end
      ensures !OccursAt(header, "\n", i)
    {
      assert header[i..i + 1][0] == header[i];
    }
  }

  lemma NothingFound(header: string, start: nat)
    requires start <= |header| && forall i :: start <= i < |header| ==> header[i] != '\n'
    ensures Find(header, CRLF, start) == NPOS && Find(header, "\n", start) == NPOS
  {
    NoCrlf(header, start, |header|);
    forall i | start <= i < |header|
      ensures !OccursAt(header, "\n", i)
    {
      assert header[i..i + 1][0] == header[i];
    }
  }

  lemma ValueInHeader(before: string, key: string, value: string, eol: string, behind: string)
    requires |key| == 14 && Free(value, '\n')
    ensures var header, start := Header(before, key, value, eol, behind), |before| + 14;
            && start + |value| <= |header| && header[start..start + |value|] == value
            && header[start + |value|..] == eol + behind
            && forall i :: start <= i < start + |value| ==> header[i] != '\n'
  {
  }

  lemma KeyLength(header: string, key: string, at: nat)
    requires FoundAt(header, key, at)
    ensures |key| == 14
  {
    hide Find;
  }

  /** Where the value ends: at the first CRLF behind it, else at the first newline, else with the header. */
  predicate EndsAt(header: string, start: nat, end: nat)
    requires start <= end <= |header|
  {
    var crlf, newline := Find(header, CRLF, start), Find(header, "\n", start);
    crlf == end || (crlf == NPOS && (newline == end || (newline == NPOS && end == |header|)))
  }

  lemma ValueEnds(header: string, start: nat, end: nat, eol: string, behind: string)
    requires start <= end <= |header| && header[end..] == eol + behind && LineEnd(header, eol, behind, start)
    requires forall i :: start <= i < end ==> header[i] != '\n'
    ensures EndsAt(header, start, end)
  {
    hide Find, OccursAt;
    var tail := eol + behind;
    assert forall i :: 0 <= i < |tail| ==> header[end + i] == tail[i];
    if eol == CRLF {
      assert tail[0] == '\r' && tail[1] == '\n';
      CrlfFound(header, start, end);
    } else if eol == "\n" {
      assert tail[0] == '\n';
      NewlineFound(header, start, end);
    } else {
      NothingFound(header, start);
    }
  }

  /** In either spelling and with every kind of line end, what is stored is the value between its blanks. */
  lemma HeaderHashReads(before: string, key: string, left: string, hash: string, right: string, eol: string, behind: string)
    requires Blank(left) && Blank(right) && hash != "" && !IsBlank(hash[0]) && !IsBlank(hash[|hash| - 1])
    requires Free(left + hash + right, '\n')
    requires var header := Header(before, key, left + hash + right, eol, behind);
             FoundAt(header, key, |before|) && LineEnd(header, eol, behind, |before| + 14)
    ensures HeaderHash(Header(before, key, left + hash + right, eol, behind)) == Some(hash)
  {
    hide HeaderHash, Header, FoundAt, LineEnd, EndsAt, Free, IsBlank, DropBlanks, DropBlanksBack;
    var value := left + hash + right;
    var header, start := Header(before, key, value, eol, behind), |before| + 14;
    KeyLength(header, key, |before|);
    TrimmedValue(left, hash, right);
    ValueInHeader(before, key, value, eol, behind);
    ValueEnds(header, start, start + |value|, eol, behind);
    ValueRead(header, key, |before|, start + |value|);
  }

  lemma ValueRead(header: string, key: string, at: nat, end: nat)
    requires at + 14 <= end <= |header| && FoundAt(header, key, at) && EndsAt(header, at + 14, end)
    ensures HeaderHash(header) == Some(DropBlanksBack(DropBlanks(header[at + 14..end])))
  {
    hide Find, DropBlanks, DropBlanksBack;
    assert end == |header| ==> header[at + 14..] == header[at + 14..end];
  }
}
