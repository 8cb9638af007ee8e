/** The request URL: the identity of the device as a percent-encoded query. */
module QueryUrl {
  import opened Wrappers
  import opened IniFile
  import RfcText

  /*** Percent-encoding, sections 2.1 and 2.3 of RFC 3986 ***/

  predicate Unreserved(c: char) {
    'A' <= c <= 'Z' || 'a' <= c <= 'z' || '0' <= c <= '9' || c == '-' || c == '.' || c == '_' || c == '~'
  }

  function HexDigit(n: nat): char
    requires n < 16
  {
    if n < 10 then '0' + n as char else 'A' + (n - 10) as char
  }

  function HexValue(c: char): Option<nat> {
    if '0' <= c <= '9' then Some((c - '0') as nat)
    else if 'A' <= c <= 'F' then Some((c - 'A') as nat + 10)
    else if 'a' <= c <= 'f' then Some((c - 'a') as nat + 10)
    else None
  }

  /** Text as the program holds it: bytes. */
  predicate Bytes(s: string) {
    forall i :: 0 <= i < |s| ==> s[i] as int < 256
  }

  function EscapeByte(c: char): string
    requires c as int < 256
  {
    if Unreserved(c) then [c] else ['%', HexDigit(c as int / 16), HexDigit(c as int % 16)]
  }

  function Escape(s: string): string
    requires Bytes(s)
  {
    if s == "" then "" else EscapeByte(s[0]) + Escape(s[1..])
  }

  /** The encoder takes a C string: it ends at the first NUL. */
  function CString(s: string): string {
    s[..Position(s, '\0')]
  }

  predicate Escaped(s: string) {
    |s| >= 3 && s[0] == '%' && HexValue(s[1]).Some? && HexValue(s[2]).Some?
  }

  function Decode(s: string): string {
    if s == "" then ""
    else if Escaped(s) then
      [(16 * HexValue(s[1]).value + HexValue(s[2]).value) as char] + Decode(s[3..])
    else [s[0]] + Decode(s[1..])
  }

  lemma HexRoundTrip(n: nat)
    requires n < 16
    ensures HexValue(HexDigit(n)) == Some(n)
  {
  }

  lemma DecodeByte(c: char, rest: string)
    requires c as int < 256
    ensures Decode(EscapeByte(c) + rest) == [c] + Decode(rest)
  {
    var s := EscapeByte(c) + rest;
    if Unreserved(c) {
      assert s[0] == c && s[1..] == rest;
    } else {
      HexRoundTrip(c as int / 16);
      HexRoundTrip(c as int % 16);
      assert s[3..] == rest;
    }
  }

  lemma {:induction false} DecodeEscaped(s: string, rest: string)
    requires Bytes(s)
    ensures Decode(Escape(s) + rest) == s + Decode(rest)
  {
    hide Decode, EscapeByte;
    if s == "" {
      assert Escape(s) + rest == rest && s + Decode(rest) == Decode(rest);
    } else {
      var tail := Escape(s[1..]) + rest;
      assert Escape(s) + rest == EscapeByte(s[0]) + tail;
      DecodeByte(s[0], tail);
      DecodeEscaped(s[1..], rest);
      assert [s[0]] + (s[1..] + Decode(rest)) == s + Decode(rest);
    }
  }

  lemma {:induction false} DecodeFree(s: string, rest: string)
    requires Free(s, '%')
    ensures Decode(s + rest) == s + Decode(rest)
  {
    if s == "" {
      assert s + rest == rest && s + Decode(rest) == Decode(rest);
    } else {
      var all := s + rest;
      assert all[0] == s[0] && all[1..] == s[1..] + rest;
      DecodeFree(s[1..], rest);
      assert [s[0]] + (s[1..] + Decode(rest)) == s + Decode(rest);
    }
  }

  lemma {:induction false} EscapeHasNoAmpersand(s: string)
    requires Bytes(s)
    ensures Free(Escape(s), '&')
  {
    if s != "" {
      EscapeHasNoAmpersand(s[1..]);
    }
  }

  lemma EscapeInjective(a: string, b: string)
    requires Bytes(a) && Bytes(b) && Escape(a) == Escape(b)
    ensures a == b
  {
    DecodeEscaped(a, "");
    DecodeEscaped(b, "");
    assert Escape(a) + "" == Escape(b) + "";
    assert a + Decode("") == a && b + Decode("") == b;
  }

  /*** The query ***/

  datatype Identity = Identity(
    mac: string, firmware: string, build: string, model: string, manufacturer: string,
    partner: string, osClass: string, account: string, experience: string)

  datatype Field = Field(key: string, value: string)

  const MAC := "estbMacAddress="
  const FIRMWARE := "firmwareVersion="
  const BUILD := "env="
  const MODEL := "model="
  const MANUFACTURER := "manufacturer="
  const CONTROLLER := "controllerId="
  const CHANNEL_MAP := "channelMapId="
  const VOD := "VodId="
  const PARTNER := "partnerId="
  const OS_CLASS := "osClass="
  const ACCOUNT := "accountId="
  const EXPERIENCE := "Experience="

  const CONTROLLER_ID := "2504"
  const CHANNEL_MAP_ID := "2345"
  const VOD_ID := "15660"

  /** The fields in the order they are sent. */
  function Fields(id: Identity): seq<Field> {
    [Field(MAC, id.mac), Field(FIRMWARE, id.firmware), Field(BUILD, id.build), Field(MODEL, id.model),
     Field(MANUFACTURER, id.manufacturer), Field(CONTROLLER, CONTROLLER_ID), Field(CHANNEL_MAP, CHANNEL_MAP_ID),
     Field(VOD, VOD_ID), Field(PARTNER, id.partner), Field(OS_CLASS, id.osClass), Field(ACCOUNT, id.account),
     Field(EXPERIENCE, id.experience)]
  }

  const VERSION := "version=2"

  function PlainPiece(f: Field): string {
    f.key + f.value + "&"
  }

  function EncodedPiece(f: Field): string
    requires Bytes(f.value)
  {
    f.key + Escape(CString(f.value)) + "&"
  }

  predicate AllBytes(fs: seq<Field>) {
    forall i :: 0 <= i < |fs| ==> Bytes(fs[i].value)
  }

  predicate AllText(fs: seq<Field>) {
    forall i :: 0 <= i < |fs| ==> Bytes(fs[i].value) && Free(fs[i].value, '\0')
  }

  function Plain(fs: seq<Field>): string {
    if fs == [] then VERSION else PlainPiece(fs[0]) + Plain(fs[1..])
  }

  function Encoded(fs: seq<Field>): string
    requires AllBytes(fs)
  {
    if fs == [] then VERSION else EncodedPiece(fs[0]) + Encoded(fs[1..])
  }

  function PlainUrl(base: string, id: Identity): string {
    base + "?" + Plain(Fields(id))
  }

  function EncodedUrl(base: string, id: Identity): string
    requires AllBytes(Fields(id))
  {
    base + "?" + Encoded(Fields(id))
  }

  /*** The encoded query loses nothing ***/

  predicate KeysFree(fs: seq<Field>) {
    forall i :: 0 <= i < |fs| ==> Free(fs[i].key, '%')
  }

  lemma KeyTexts()
    ensures MAC != "" && FIRMWARE != "" && BUILD != "" && MODEL != "" && MANUFACTURER != ""
    ensures PARTNER != "" && OS_CLASS != "" && ACCOUNT != "" && EXPERIENCE != ""
    ensures Free(MAC, '%') && Free(FIRMWARE, '%') && Free(BUILD, '%') && Free(MODEL, '%') && Free(MANUFACTURER, '%')
    ensures Free(CONTROLLER, '%') && Free(CHANNEL_MAP, '%') && Free(VOD, '%')
    ensures Free(PARTNER, '%') && Free(OS_CLASS, '%') && Free(ACCOUNT, '%') && Free(EXPERIENCE, '%')
  {
  }

  lemma FieldKeys(id: Identity)
    ensures KeysFree(Fields(id))
  {
    KeyTexts();
    hide MAC, FIRMWARE, BUILD, MODEL, MANUFACTURER, CONTROLLER, CHANNEL_MAP, VOD, PARTNER, OS_CLASS, ACCOUNT, EXPERIENCE;
    hide Free, CONTROLLER_ID, CHANNEL_MAP_ID, VOD_ID;
  }

  lemma CStringOfText(s: string)
    requires Free(s, '\0')
    ensures CString(s) == s
  {
  }

  lemma DecodePiece(f: Field, rest: string)
    requires Bytes(f.value) && Free(f.value, '\0') && Free(f.key, '%')
    ensures Decode(EncodedPiece(f) + rest) == PlainPiece(f) + Decode(rest)
  {
    hide Decode, Escape, CString;
    CStringOfText(f.value);
    var escaped := Escape(f.value);
    assert EncodedPiece(f) + rest == f.key + (escaped + ("&" + rest));
    DecodeFree(f.key, escaped + ("&" + rest));
    DecodeEscaped(f.value, "&" + rest);
    DecodeFree("&", rest);
    assert f.key + (f.value + ("&" + Decode(rest))) == PlainPiece(f) + Decode(rest);
  }

  lemma {:induction false} DecodeQuery(fs: seq<Field>)
    requires AllText(fs) && KeysFree(fs)
    ensures AllBytes(fs)
    ensures Decode(Encoded(fs)) == Plain(fs)
  {
    hide Decode, EncodedPiece, PlainPiece;
    if fs == [] {
      DecodeFree(VERSION, "");
      DecodeNothing();
      assert VERSION + "" == VERSION;
    } else {
      DecodeQuery(fs[1..]);
      DecodePiece(fs[0], Encoded(fs[1..]));
    }
  }

  lemma DecodeNothing()
    ensures Decode("") == ""
  {
  }

  /** Decoding what is sent gives the plain URL. */
  lemma DecodedUrlIsPlain(base: string, id: Identity)
    requires Free(base, '%') && AllText(Fields(id))
    ensures AllBytes(Fields(id))
    ensures Decode(EncodedUrl(base, id)) == PlainUrl(base, id)
  {
    hide Decode, Fields, Encoded, Plain;
    FieldKeys(id);
    DecodeQuery(Fields(id));
    DecodeFree(base + "?", Encoded(Fields(id)));
  }

  predicate SameKeys(a: seq<Field>, b: seq<Field>) {
    |a| == |b| && forall i :: 0 <= i < |a| ==> a[i].key == b[i].key
  }

  lemma SplitAtAmpersand(a: string, x: string, b: string, y: string)
    requires Free(a, '&') && Free(b, '&') && a + "&" + x == b + "&" + y
    ensures a == b && x == y
  {
    PositionInConcat(a, '&', x);
    PositionInConcat(b, '&', y);
    var s := a + "&" + x;
    assert a == s[..|a|] && b == s[..|b|];
    assert x == s[|a| + 1..] && y == s[|b| + 1..];
  }

  lemma PieceInjective(f: Field, x: string, g: Field, y: string)
    requires Bytes(f.value) && Free(f.value, '\0') && Bytes(g.value) && Free(g.value, '\0')
    requires f.key == g.key && EncodedPiece(f) + x == EncodedPiece(g) + y
    ensures f == g && x == y
  {
    hide Escape, CString;
    CStringOfText(f.value);
    CStringOfText(g.value);
    var a, b := Escape(f.value), Escape(g.value);
    assert a + "&" + x == (EncodedPiece(f) + x)[|f.key|..];
    assert b + "&" + y == (EncodedPiece(g) + y)[|g.key|..];
    EscapeHasNoAmpersand(f.value);
    EscapeHasNoAmpersand(g.value);
    SplitAtAmpersand(a, x, b, y);
    EscapeInjective(f.value, g.value);
  }

  lemma {:induction false} QueryInjective(a: seq<Field>, b: seq<Field>)
    requires AllText(a) && AllText(b) && SameKeys(a, b) && AllBytes(a) && AllBytes(b) && Encoded(a) == Encoded(b)
    ensures a == b
  {
    hide EncodedPiece;
    if a != [] {
      PieceInjective(a[0], Encoded(a[1..]), b[0], Encoded(b[1..]));
      QueryInjective(a[1..], b[1..]);
      assert a == [a[0]] + a[1..] && b == [b[0]] + b[1..];
    }
  }

  /** For one base, equal encoded URLs mean equal identities, whatever characters the fields hold. */
  lemma EncodedUrlInjective(base: string, a: Identity, b: Identity)
    requires AllText(Fields(a)) && AllText(Fields(b)) && AllBytes(Fields(a)) && AllBytes(Fields(b))
    requires EncodedUrl(base, a) == EncodedUrl(base, b)
    ensures a == b
  {
    hide Encoded;
    var x, y := Encoded(Fields(a)), Encoded(Fields(b));
    assert x == EncodedUrl(base, a)[|base| + 1..] && y == EncodedUrl(base, b)[|base| + 1..];
    QueryInjective(Fields(a), Fields(b));
    FieldsInjective(a, b);
  }

  lemma FieldsInjective(a: Identity, b: Identity)
    requires Fields(a) == Fields(b)
    ensures a == b
  {
    var x, y := Fields(a), Fields(b);
    assert x[0] == y[0] && x[1] == y[1] && x[2] == y[2] && x[3] == y[3] && x[4] == y[4];
    assert x[8] == y[8] && x[9] == y[9] && x[10] == y[10] && x[11] == y[11];
  }

  /** The plain URL has no such property: two identities can print the same. */
  lemma PlainUrlIsAmbiguous(base: string, id: Identity, x: string, y: string, z: string)
    ensures var a := id.(mac := x + "&" + FIRMWARE + y, firmware := z);
            var b := id.(mac := x, firmware := y + "&" + FIRMWARE + z);
            a != b && PlainUrl(base, a) == PlainUrl(base, b)
  {
    hide MAC, FIRMWARE, BUILD, MODEL, MANUFACTURER, CONTROLLER, CHANNEL_MAP, VOD, PARTNER, OS_CLASS, ACCOUNT, EXPERIENCE;
    hide CONTROLLER_ID, CHANNEL_MAP_ID, VOD_ID;
    var a := id.(mac := x + "&" + FIRMWARE + y, firmware := z);
    var b := id.(mac := x, firmware := y + "&" + FIRMWARE + z);
    hide Plain, PlainPiece;
    assert |a.mac| != |b.mac|;
    TwoPieces(Fields(a));
    TwoPieces(Fields(b));
    assert Fields(a)[2..] == Fields(b)[2..];
    AmbiguousPieces(x, y, z);
  }

  lemma AmbiguousPieces(x: string, y: string, z: string)
    ensures PlainPiece(Field(MAC, x + "&" + FIRMWARE + y)) + PlainPiece(Field(FIRMWARE, z))
         == PlainPiece(Field(MAC, x)) + PlainPiece(Field(FIRMWARE, y + "&" + FIRMWARE + z))
  {
    hide MAC, FIRMWARE;
  }

  lemma TwoPieces(fs: seq<Field>)
    requires |fs| >= 2
    ensures Plain(fs) == PlainPiece(fs[0]) + PlainPiece(fs[1]) + Plain(fs[2..])
  {
    hide Plain, PlainPiece;
    FirstPiece(fs);
    FirstPiece(fs[1..]);
    assert fs[1..][1..] == fs[2..];
  }

  lemma FirstPiece(fs: seq<Field>)
    requires fs != []
    ensures Plain(fs) == PlainPiece(fs[0]) + Plain(fs[1..])
  {
    hide PlainPiece, VERSION;
  }

  /*** The program ***/

  function Pieces(fs: seq<Field>): string
    requires AllBytes(fs)
  {
    if fs == [] then "" else EncodedPiece(fs[0]) + Pieces(fs[1..])
  }

  /** The stream after some of the fields were put out. */
  predicate Built(url: string, base: string, done: seq<Field>) {
    AllBytes(done) && url == base + "?" + Pieces(done)
  }

  lemma {:induction false} PiecesSnoc(fs: seq<Field>, f: Field)
    requires AllBytes(fs) && Bytes(f.value)
    ensures AllBytes(fs + [f]) && Pieces(fs + [f]) == Pieces(fs) + EncodedPiece(f)
  {
    hide EncodedPiece, Bytes;
    if fs == [] {
      assert fs + [f] == [f] && [f][1..] == [];
      assert Pieces([]) == "" && Pieces([f]) == EncodedPiece(f) + Pieces([]);
    } else {
      PiecesSnoc(fs[1..], f);
      assert (fs + [f])[1..] == fs[1..] + [f];
    }
  }

  lemma {:induction false} EncodedIsPieces(fs: seq<Field>)
    requires AllBytes(fs)
    ensures Encoded(fs) == Pieces(fs) + VERSION
  {
    hide EncodedPiece, VERSION, Bytes;
    if fs != [] {
      EncodedIsPieces(fs[1..]);
    }
  }

  lemma OneMore(url: string, base: string, done: seq<Field>, f: Field)
    requires Built(url, base, done) && Bytes(f.value)
    ensures Built(url + EncodedPiece(f), base, done + [f])
  {
    hide Pieces, EncodedPiece, Bytes;
    PiecesSnoc(done, f);
    assert url + EncodedPiece(f) == base + "?" + (Pieces(done) + EncodedPiece(f));
  }

  lemma AllBuilt(url: string, base: string, id: Identity)
    requires Built(url, base, Fields(id)) && AllBytes(Fields(id))
    ensures url + VERSION == EncodedUrl(base, id)
  {
    hide Pieces, Encoded, VERSION, Fields, AllBytes;
    EncodedIsPieces(Fields(id));
    assert url + VERSION == base + "?" + (Pieces(Fields(id)) + VERSION);
  }

  predicate AllUnreserved(s: string) {
    forall i :: 0 <= i < |s| ==> Unreserved(s[i])
  }

  lemma {:induction false} EscapeUnreserved(s: string)
    requires AllUnreserved(s)
    ensures Bytes(s) && Free(s, '\0') && Escape(s) == s
  {
    if s != "" {
      EscapeUnreserved(s[1..]);
    }
  }

  lemma PieceUnreserved(key: string, value: string)
    requires AllUnreserved(value)
    ensures Bytes(value) && EncodedPiece(Field(key, value)) == key + value + "&"
  {
    EscapeUnreserved(value);
    CStringOfText(value);
  }

  lemma ConstantsUnreserved()
    ensures AllUnreserved(CONTROLLER_ID) && AllUnreserved(CHANNEL_MAP_ID) && AllUnreserved(VOD_ID)
  {
  }

  lemma FieldBytes(id: Identity)
    requires AllBytes(Fields(id))
    ensures Bytes(id.mac) && Bytes(id.firmware) && Bytes(id.build) && Bytes(id.model) && Bytes(id.manufacturer)
    ensures Bytes(id.partner) && Bytes(id.osClass) && Bytes(id.account) && Bytes(id.experience)
  {
    hide MAC, FIRMWARE, BUILD, MODEL, MANUFACTURER, CONTROLLER, CHANNEL_MAP, VOD, PARTNER, OS_CLASS, ACCOUNT, EXPERIENCE;
    hide CONTROLLER_ID, CHANNEL_MAP_ID, VOD_ID, Bytes;
    var fs := Fields(id);
    assert Bytes(fs[0].value) && Bytes(fs[1].value) && Bytes(fs[2].value) && Bytes(fs[3].value) && Bytes(fs[4].value);
    assert Bytes(fs[8].value) && Bytes(fs[9].value) && Bytes(fs[10].value) && Bytes(fs[11].value);
  }

  /** EncodeString: a field put out with its value encoded, unless that is empty. */
  method EncodeString(key: string, value: string, output: string, ghost base: string, ghost done: seq<Field>)
    returns (r: string)
    requires Bytes(value) && Built(output, base, done)
    ensures key == "" ==> r == output
    ensures key != "" ==> Built(r, base, done + [Field(key, value)])
  {
    hide Built;
    if key == "" {
      return output;
    }
    OneMore(output, base, done, Field(key, value));
    r := output + key;
    if value != "" {
      r := r + Escape(CString(value));
    }
    r := r + "&";
    assert r == output + EncodedPiece(Field(key, value));
  }

  /** The order the fields are put out in is that of Fields. */
  lemma FieldsInOrder(id: Identity)
    ensures Fields(id)
         == [] + [Field(MAC, id.mac)] + [Field(FIRMWARE, id.firmware)] + [Field(BUILD, id.build)]
          + [Field(MODEL, id.model)] + [Field(MANUFACTURER, id.manufacturer)] + [Field(CONTROLLER, CONTROLLER_ID)]
          + [Field(CHANNEL_MAP, CHANNEL_MAP_ID)] + [Field(VOD, VOD_ID)] + [Field(PARTNER, id.partner)]
          + [Field(OS_CLASS, id.osClass)] + [Field(ACCOUNT, id.account)] + [Field(EXPERIENCE, id.experience)]
  {
    hide MAC, FIRMWARE, BUILD, MODEL, MANUFACTURER, CONTROLLER, CHANNEL_MAP, VOD, PARTNER, OS_CLASS, ACCOUNT, EXPERIENCE;
    hide CONTROLLER_ID, CHANNEL_MAP_ID, VOD_ID;
  }

  /** CreateXconfHTTPUrl, field after field. */
  method CreateXconfHTTPUrl(base: string, id: Identity) returns (url: string)
    requires AllBytes(Fields(id))
    ensures url == EncodedUrl(base, id)
  {
    KeyTexts();
    ConstantsUnreserved();
    FieldBytes(id);
    FieldsInOrder(id);
    hide MAC, FIRMWARE, BUILD, MODEL, MANUFACTURER, CONTROLLER, CHANNEL_MAP, VOD, PARTNER, OS_CLASS, ACCOUNT, EXPERIENCE;
    hide CONTROLLER_ID, CHANNEL_MAP_ID, VOD_ID, VERSION, Fields, Free, Bytes, AllBytes, AllUnreserved;
    hide EncodedUrl, EncodedPiece;
    url := base + "?";
    ghost var done: seq<Field> := [];
    StartsBuilt(base);
    hide Built;
    url := EncodeString(MAC, id.mac, url, base, done);
    done := done + [Field(MAC, id.mac)];
    url := EncodeString(FIRMWARE, id.firmware, url, base, done);
    done := done + [Field(FIRMWARE, id.firmware)];
    url := EncodeString(BUILD, id.build, url, base, done);
    done := done + [Field(BUILD, id.build)];
    url := EncodeString(MODEL, id.model, url, base, done);
    done := done + [Field(MODEL, id.model)];
    url := EncodeString(MANUFACTURER, id.manufacturer, url, base, done);
    done := done + [Field(MANUFACTURER, id.manufacturer)];
    url := PutConstant(CONTROLLER, CONTROLLER_ID, url, base, done);
    done := done + [Field(CONTROLLER, CONTROLLER_ID)];
    url := PutConstant(CHANNEL_MAP, CHANNEL_MAP_ID, url, base, done);
    done := done + [Field(CHANNEL_MAP, CHANNEL_MAP_ID)];
    url := PutConstant(VOD, VOD_ID, url, base, done);
    done := done + [Field(VOD, VOD_ID)];
    url := EncodeString(PARTNER, id.partner, url, base, done);
    done := done + [Field(PARTNER, id.partner)];
    url := EncodeString(OS_CLASS, id.osClass, url, base, done);
    done := done + [Field(OS_CLASS, id.osClass)];
    url := EncodeString(ACCOUNT, id.account, url, base, done);
    done := done + [Field(ACCOUNT, id.account)];
    url := EncodeString(EXPERIENCE, id.experience, url, base, done);
    done := done + [Field(EXPERIENCE, id.experience)];
    AllBuilt(url, base, id);
    url := url + VERSION;
  }

  lemma StartsBuilt(base: string)
    ensures Built(base + "?", base, [])
  {
    assert base + "?" + "" == base + "?";
  }

  /** A field whose value is a number: put out without encoding. */
  method PutConstant(key: string, value: string, output: string, ghost base: string, ghost done: seq<Field>)
    returns (r: string)
    requires AllUnreserved(value) && Built(output, base, done)
    ensures Built(r, base, done + [Field(key, value)])
  {
    hide Built, Bytes, EncodedPiece, AllUnreserved;
    PieceUnreserved(key, value);
    OneMore(output, base, done, Field(key, value));
    r := output + (key + value + "&");
  }

  /*** The text of it all ***/

  /** Unreserved are letters, decimal digits, hyphen, period, underscore and tilde (section 2.3 of RFC 3986), and only those stay. */
  lemma UnreservedExactly(c: char)
    requires c as int < 256
    ensures EscapeByte(c) == [c] <==> RfcText.IsLetter(c) || c in "0123456789-._~"
  {
    UnreservedText(c);
    assert |EscapeByte(c)| == 1 <==> Unreserved(c);
  }

  lemma UnreservedText(c: char)
    ensures Unreserved(c) <==> RfcText.IsLetter(c) || c in "0123456789-._~"
  {
    var marks := "0123456789-._~";
    if '0' <= c <= '9' {
      assert marks[(c - '0') as int] == c;
    }
    assert marks[10] == '-' && marks[11] == '.' && marks[12] == '_' && marks[13] == '~';
  }

  /** Escaped bytes are written with upper-case digits. */
  lemma HexText(n: nat)
    requires n < 16
    ensures HexDigit(n) == "0123456789ABCDEF"[n]
  {
    var digits := "0123456789ABCDEF";
    assert digits[..10] == "0123456789" && digits[10..] == "ABCDEF";
    if n < 10 {
      assert digits[n] == digits[..10][n];
    } else {
      assert digits[n] == digits[10..][n - 10];
    }
  }

  /** The fields and their names, in the order they are sent. */
  lemma FieldTexts(id: Identity)
    ensures Fields(id) == [
              Field("estbMacAddress=", id.mac), Field("firmwareVersion=", id.firmware), Field("env=", id.build), Field("model=", id.model),
              Field("manufacturer=", id.manufacturer), Field("controllerId=", "2504"), Field("channelMapId=", "2345"),
              Field("VodId=", "15660"), Field("partnerId=", id.partner), Field("osClass=", id.osClass),
              Field("accountId=", id.account), Field("Experience=", id.experience)]
  {
  }

  /** And how the plain query is put together from them: name, value and ampersand each, and the version behind them. */
  lemma TailPiece(fs: seq<Field>, i: nat)
    requires i < |fs|
    ensures Plain(fs[i..]) == fs[i].key + fs[i].value + "&" + Plain(fs[i + 1..])
    ensures Plain(fs[|fs|..]) == "version=2"
  {
    hide Plain;
    FirstPiece(fs[i..]);
    assert fs[i..][1..] == fs[i + 1..];
    assert fs[|fs|..] == [];
    NoPiecesLeft();
  }

  lemma NoPiecesLeft()
    ensures Plain([]) == "version=2"
  {
  }
}
