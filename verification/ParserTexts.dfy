/**
 Heads read off their text: which spelling of a name means what, which list names an
 option, and what framing, persistence, content type and stored fields follow. With the
 round trip this says what the parser makes of a message in letters and digits alone.
 */
module ParserTexts {
  import opened Text
  import opened ResponseParsing
  import opened ParserHead
  import opened ParserSound
  import opened ParserMessages
  import ParserChunked
  import opened ParserInterim
  import opened ParserConverse

  // ---------------------------------------------------------------------- names

  lemma FoldedNames()
    ensures Lower("Content-Type") == CONTENT_TYPE && Lower("Content-Length") == CONTENT_LENGTH
    ensures Lower("Transfer-Encoding") == TRANSFER_ENCODING && Lower("Connection") == CONNECTION
  {
    hide Lower;
    LowerIs("Content-Type", CONTENT_TYPE);
    LowerIs("Content-Length", CONTENT_LENGTH);
    LowerIs("Transfer-Encoding", TRANSFER_ENCODING);
    LowerIs("Connection", CONNECTION);
  }

  /** The four names the parser acts on, in any case, and no others. */
  lemma KindMeaning(name: string)
    ensures KindOf(name) == ContentType <==> Spells(name, "Content-Type")
    ensures KindOf(name) == ContentLength <==> Spells(name, "Content-Length")
    ensures KindOf(name) == TransferEncoding <==> Spells(name, "Transfer-Encoding")
    ensures KindOf(name) == Connection <==> Spells(name, "Connection")
  {
    hide Lower, SameLetter;
    FoldedNames();
    EqualMeansSpells(name, "Content-Type", CONTENT_TYPE);
    EqualMeansSpells(name, "Content-Length", CONTENT_LENGTH);
    EqualMeansSpells(name, "Transfer-Encoding", TRANSFER_ENCODING);
    EqualMeansSpells(name, "Connection", CONNECTION);
  }

  // ---------------------------------------------------------------------- lists

  /** The slice is an item of the comma-separated list. */
  ghost predicate IsItem(list: string, a: nat, b: nat) {
    && a <= b <= |list| && ',' !in list[a..b]
    && (a == 0 || list[a - 1] == ',') && (b == |list| || list[b] == ',')
  }

  ghost predicate ItemSpells(list: string, a: nat, b: nat, token: string) {
    IsItem(list, a, b) && Spells(TrimOws(list[a..b]), token)
  }

  /** Some item of the list is the token, blanks around it apart. */
  ghost predicate Lists(list: string, token: string) { exists a: nat, b: nat :: ItemSpells(list, a, b, token) }

  /** The first item ends at the first comma. */
  lemma FirstItem(list: string, b: nat)
    requires IsItem(list, 0, b)
    ensures b == Find(list, ',')
  {
    var comma := Find(list, ',');
    assert forall i :: 0 <= i < b ==> list[i] in list[0..b];
    assert forall i :: 0 <= i < comma ==> list[i] in list[..comma];
  }

  /** Items behind the first are the items of what follows its comma. */
  lemma LaterItem(list: string, a: nat, b: nat)
    requires Find(list, ',') < a <= b <= |list|
    ensures var k := Find(list, ',') + 1;
            list[k..][a - k..b - k] == list[a..b] && (IsItem(list, a, b) <==> IsItem(list[k..], a - k, b - k))
  {
    var k := Find(list, ',') + 1;
    assert list[k..][a - k..b - k] == list[a..b];
  }

  /** The scan finds a token exactly when an item of the text is that token. */
  lemma {:induction false} TokenListed(list: string, token: string)
    requires token != "" && Lower(token) == token
    ensures HasToken(list, token) <==> Lists(list, token)
    decreases |list|
  {
    hide TrimOws, Find, Spells, Lower, IsItem;
    var comma := Find(list, ',');
    EqualMeansSpells(TrimOws(list[..comma]), token, token);
    if list == "" {
      EmptyList(token);
    } else {
      FirstIsItem(list);
      assert list[0..comma] == list[..comma];
      if comma < |list| { TokenListed(list[comma + 1..], token); }
      ListedHereOrLater(list, token);
    }
  }

  lemma FirstIsItem(list: string)
    ensures IsItem(list, 0, Find(list, ','))
  {
    assert list[0..Find(list, ',')] == list[..Find(list, ',')];
  }

  lemma EmptyList(token: string)
    requires token != ""
    ensures !Lists("", token)
  {
  }

  lemma ListedHereOrLater(list: string, token: string)
    requires list != ""
    ensures var comma := Find(list, ',');
            Lists(list, token) <==>
              ItemSpells(list, 0, comma, token) || (comma < |list| && Lists(list[comma + 1..], token))
  {
    hide ItemSpells, Find;
    var comma := Find(list, ',');
    if a: nat, b: nat :| ItemSpells(list, a, b, token) { ItemHereOrLater(list, a, b, token); }
    if comma < |list| && Lists(list[comma + 1..], token) {
      var a: nat, b: nat :| ItemSpells(list[comma + 1..], a, b, token);
      ItemLater(list, a, b, token);
    }
  }

  lemma ItemHereOrLater(list: string, a: nat, b: nat, token: string)
    requires ItemSpells(list, a, b, token)
    ensures a <= b
    ensures var comma := Find(list, ',');
            if a == 0 then b == comma
            else comma < |list| && comma < a && ItemSpells(list[comma + 1..], a - (comma + 1), b - (comma + 1), token)
  {
    hide TrimOws, Spells, Find;
    if a == 0 {
      FirstItem(list, b);
    } else {
      CommaBefore(list, a);
      LaterItem(list, a, b);
    }
  }

  lemma ItemLater(list: string, a: nat, b: nat, token: string)
    requires Find(list, ',') < |list| && ItemSpells(list[Find(list, ',') + 1..], a, b, token)
    ensures var k := Find(list, ',') + 1; ItemSpells(list, a + k, b + k, token)
  {
    hide TrimOws, Spells, Find;
    var k := Find(list, ',') + 1;
    LaterItem(list, a + k, b + k);
  }

  lemma CommaBefore(list: string, a: nat)
    requires 0 < a <= |list| && list[a - 1] == ','
    ensures Find(list, ',') < a
  {
    var comma := Find(list, ',');
    assert forall i :: 0 <= i < comma ==> list[i] in list[..comma];
  }

  /** The last item of the list is "chunked". */
  ghost predicate EndsChunked(list: string) { exists a: nat :: ItemSpells(list, a, |list|, "chunked") }

  lemma ChunkedListed(value: string)
    ensures LastTransferEncodingIsChunked(value) <==> EndsChunked(value)
  {
    hide TrimOws, Spells, Lower, SameLetter, AfterLast;
    var k := AfterLast(value, ',');
    LowerIs("chunked", "chunked");
    EqualMeansSpells(TrimOws(value[k..]), "chunked", "chunked");
    assert value[k..|value|] == value[k..];
    assert IsItem(value, k, |value|);
    if a: nat :| ItemSpells(value, a, |value|, "chunked") {
      LastItemAt(value, a);
    }
    if Spells(TrimOws(value[k..]), "chunked") { assert ItemSpells(value, k, |value|, "chunked"); }
  }

  lemma NoCommaFrom(value: string, from: nat)
    requires from <= |value| && ',' !in value[from..]
    ensures forall i :: from <= i < |value| ==> value[i] != ','
  {
    forall i | from <= i < |value| ensures value[i] != ',' { assert value[i] == value[from..][i - from]; }
  }

  lemma LastItemAt(value: string, a: nat)
    requires IsItem(value, a, |value|)
    ensures a == AfterLast(value, ',')
  {
    hide AfterLast;
    var k := AfterLast(value, ',');
    assert value[a..|value|] == value[a..];
    NoCommaFrom(value, a);
    NoCommaFrom(value, k);
  }

  // -------------------------------------------------------------- stored fields

  ghost predicate FirstSpelled(headers: seq<Header>, name: string, i: nat) {
    i < |headers| && Spells(headers[i].name, name) && forall j :: 0 <= j < i ==> !Spells(headers[j].name, name)
  }

  ghost predicate LastSpelled(headers: seq<Header>, name: string, i: nat) {
    i < |headers| && Spells(headers[i].name, name) && forall j :: i < j < |headers| ==> !Spells(headers[j].name, name)
  }

  ghost predicate NoneSpelled(headers: seq<Header>, name: string) {
    forall j :: 0 <= j < |headers| ==> !Spells(headers[j].name, name)
  }

  /** The value of the first field that spells the name, empty when none does. */
  ghost predicate ValueOfFirst(headers: seq<Header>, name: string, value: string) {
    if NoneSpelled(headers, name) then value == ""
    else exists i: nat :: FirstSpelled(headers, name, i) && headers[i].value == value
  }

  lemma {:induction false} FirstValue(headers: seq<Header>, name: string, lower: string)
    requires Lower(name) == lower
    ensures ValueOfFirst(headers, name, HeaderValueOrEmpty(headers, lower))
  {
    hide EqualIgnoreCase, Spells;
    if headers != [] {
      EqualMeansSpells(headers[0].name, name, lower);
      var rest := headers[1..];
      FirstValue(rest, name, lower);
      if Spells(headers[0].name, name) {
        assert FirstSpelled(headers, name, 0);
      } else if NoneSpelled(rest, name) {
        forall j | 0 <= j < |headers| ensures !Spells(headers[j].name, name) {
          assert j > 0 ==> headers[j] == rest[j - 1];
        }
      } else {
        var i: nat :| FirstSpelled(rest, name, i) && rest[i].value == HeaderValueOrEmpty(rest, lower);
        forall j | 0 <= j < i + 1 ensures !Spells(headers[j].name, name) {
          assert j > 0 ==> headers[j] == rest[j - 1];
        }
        assert FirstSpelled(headers, name, i + 1);
      }
    }
  }

  /** Removing a line takes the last of that name and leaves the others in order. */
  lemma {:induction false} RemovedLine(headers: seq<Header>, name: string, lower: string, i: nat)
    requires Lower(name) == lower && LastSpelled(headers, name, i)
    ensures RemoveHeaderLine(headers, lower) == headers[..i] + headers[i + 1..]
    decreases |headers|
  {
    hide EqualIgnoreCase, Spells;
    var n := |headers| - 1;
    EqualMeansSpells(headers[n].name, name, lower);
    if i < n {
      RemovedLine(headers[..n], name, lower, i);
      assert headers[..n][..i] == headers[..i];
      assert headers[..n][i + 1..] + [headers[n]] == headers[i + 1..];
    } else {
      assert headers[n + 1..] == [];
    }
  }

  lemma {:induction false} NothingRemoved(headers: seq<Header>, name: string, lower: string)
    requires Lower(name) == lower && NoneSpelled(headers, name)
    ensures RemoveHeaderLine(headers, lower) == headers
  {
    hide EqualIgnoreCase, Spells;
    if headers != [] {
      var n := |headers| - 1;
      EqualMeansSpells(headers[n].name, name, lower);
      NothingRemoved(headers[..n], name, lower);
      assert headers[..n] + [headers[n]] == headers;
    }
  }

  /** The encoding a body is decoded by, and the line that goes with it, by name. */
  lemma EncodingInText(heads: seq<Head>)
    ensures ValueOfFirst(LeftoverFields(heads), "Content-Encoding", EncodingOf(heads))
    ensures forall i: nat :: LastSpelled(LeftoverFields(heads), "Content-Encoding", i) ==>
              RemoveHeaderLine(LeftoverFields(heads), CONTENT_ENCODING) ==
              LeftoverFields(heads)[..i] + LeftoverFields(heads)[i + 1..]
  {
    hide LeftoverFields, HeaderValueOrEmpty, RemoveHeaderLine, ValueOfFirst, Lower;
    LowerIs("Content-Encoding", CONTENT_ENCODING);
    FirstValue(LeftoverFields(heads), "Content-Encoding", CONTENT_ENCODING);
    forall i: nat | LastSpelled(LeftoverFields(heads), "Content-Encoding", i)
      ensures i < |LeftoverFields(heads)| && RemoveHeaderLine(LeftoverFields(heads), CONTENT_ENCODING) ==
              LeftoverFields(heads)[..i] + LeftoverFields(heads)[i + 1..] {
      RemovedLine(LeftoverFields(heads), "Content-Encoding", CONTENT_ENCODING, i);
    }
  }

  // ---------------------------------------------------------------- chunk sizes

  /**
   A size line as text: hexadecimal digits in either case, zeros in front or not, blanks around
   them, an extension behind a semicolon or none, CR or not.
   */
  lemma SizeLineInText(before: string, digits: string, after: string, extension: string, cr: bool, zeros: nat, n: nat)
    requires n <= SIZE_MAX && Spells(digits, Zeros(zeros) + ToChars(n, 16))
    requires (forall c :: c in before ==> IsOws(c)) && (forall c :: c in after ==> IsOws(c))
    requires extension == "" || extension[0] == ';'
    requires !cr && extension != "" ==> extension[|extension| - 1] != '\r'
    ensures ChunkSizeOf(WithCr(before + digits + after + extension, cr)) == Some(n)
  {
    hide TrimOws, FromChars, ToChars, AllDigits, NumberValue, Spells;
    var size := before + digits + after;
    var line := size + extension;
    PrintedDigits(digits, zeros, n, 16);
    DigitsAreClean(digits);
    ChoppedSize(size, extension, cr, digits, before, after);
    SizeEnds(size, extension);
    TrimOwsAround(before, digits, after);
    FromCharsMeaning(digits, 16, SIZE_MAX, n);
  }

  lemma SizeChars(before: string, digits: string, after: string)
    requires AllDigits(digits, 16)
    requires (forall c :: c in before ==> IsOws(c)) && (forall c :: c in after ==> IsOws(c))
    ensures forall c :: c in before + digits + after ==> c != ';' && c != '\r'
  {
    forall c | c in before + digits + after ensures c != ';' && c != '\r' {
      assert c in before || c in digits || c in after;
    }
  }

  lemma ChoppedSize(size: string, extension: string, cr: bool, digits: string, before: string, after: string)
    requires size == before + digits + after && AllDigits(digits, 16) && digits != ""
    requires (forall c :: c in before ==> IsOws(c)) && (forall c :: c in after ==> IsOws(c))
    requires !cr && extension != "" ==> extension[|extension| - 1] != '\r'
    ensures ChopCr(WithCr(size + extension, cr)) == size + extension && ';' !in size
  {
    SizeChars(before, digits, after);
    var line := size + extension;
    if cr {
      assert (line + "\r")[..|line|] == line;
    } else {
      assert extension == "" ==> line[|line| - 1] == size[|size| - 1] && size[|size| - 1] in size;
      assert extension != "" ==> line[|line| - 1] == extension[|extension| - 1];
    }
  }

  lemma SizeEnds(size: string, extension: string)
    requires ';' !in size && (extension == "" || extension[0] == ';')
    ensures (size + extension)[..Find(size + extension, ';')] == size
  {
    var line := size + extension;
    assert line[..|size|] == size;
    if extension == "" { FindAbsent(line, ';'); } else { FindAt(line, ';', |size|); }
  }

  // ---------------------------------------------------------- a head, by its text

  /** The value of the last field line that spells the name. */
  ghost function LastNamed(fields: seq<FieldLine>, name: string): Option<string> {
    if fields == [] then None
    else
      var f := fields[|fields| - 1];
      if Spells(f.name, name) then Some(TrimOws(f.raw)) else LastNamed(fields[..|fields| - 1], name)
  }

  /** A Connection line lists the option. */
  ghost predicate Offers(fields: seq<FieldLine>, option: string) {
    exists i :: 0 <= i < |fields| && Spells(fields[i].name, "Connection") && Lists(TrimOws(fields[i].raw), option)
  }

  /** All lines but those of the three names the response object speaks for itself. */
  ghost function KeptLines(fields: seq<FieldLine>): seq<Header> {
    if fields == [] then []
    else
      var f, rest := fields[|fields| - 1], KeptLines(fields[..|fields| - 1]);
      if Spells(f.name, "Content-Type") || Spells(f.name, "Content-Length") || Spells(f.name, "Transfer-Encoding")
      then rest else rest + [Header(f.name, TrimOws(f.raw))]
  }

  /** How the text delimits the body. */
  ghost function FramingInText(headRequest: bool, code: nat, fields: seq<FieldLine>): Framing {
    var coding := LastNamed(fields, "Transfer-Encoding");
    if headRequest || code == 204 || code == 304 then NoBody
    else if coding.Some? && EndsChunked(coding.value) then Chunked
    else if LastNamed(fields, "Content-Length").Some? then Length
    else UntilClose
  }

  ghost predicate KeepAliveInText(framing: Framing, version: string, fields: seq<FieldLine>)
    requires |version| == 8
  {
    framing != UntilClose && !Offers(fields, "close") && (Offers(fields, "keep-alive") || version[5..] == "1.1")
  }

  ghost function TypeInText(fields: seq<FieldLine>): string {
    var t := LastNamed(fields, "Content-Type");
    if t.Some? && t.value != "" then t.value else "application/octet-stream"
  }

  lemma {:induction false} ValuesInText(fields: seq<FieldLine>)
    ensures LastValue(fields, ContentType) == LastNamed(fields, "Content-Type")
    ensures LastValue(fields, ContentLength) == LastNamed(fields, "Content-Length")
    ensures LastValue(fields, TransferEncoding) == LastNamed(fields, "Transfer-Encoding")
    ensures StoredFields(fields) == KeptLines(fields)
  {
    hide KindOf, Spells, TrimOws;
    if fields != [] {
      KindMeaning(fields[|fields| - 1].name);
      ValuesInText(fields[..|fields| - 1]);
    }
  }

  lemma OptionInText(fields: seq<FieldLine>, option: string)
    requires option != "" && Lower(option) == option
    ensures ConnectionSays(fields, option) <==> Offers(fields, option)
  {
    hide KindOf, Spells, TrimOws, HasToken, Lists, Lower;
    forall i | 0 <= i < |fields|
      ensures KindOf(fields[i].name) == Connection <==> Spells(fields[i].name, "Connection")
      ensures HasToken(TrimOws(fields[i].raw), option) <==> Lists(TrimOws(fields[i].raw), option) {
      KindMeaning(fields[i].name);
      TokenListed(TrimOws(fields[i].raw), option);
    }
  }

  lemma OptionWords()
    ensures Lower("close") == "close" && Lower("keep-alive") == "keep-alive"
  {
    hide Lower;
    LowerIs("close", "close");
    LowerIs("keep-alive", "keep-alive");
  }

  /** What a head says, read field by field, is what its text says. */
  lemma SaidInText(headRequest: bool, code: nat, version: string, fields: seq<FieldLine>)
    requires ValidVersion(version)
    ensures FramingSaid(headRequest, code, fields) == FramingInText(headRequest, code, fields)
    ensures ContentTypeSaid(fields) == TypeInText(fields) && StoredFields(fields) == KeptLines(fields)
    ensures forall framing :: KeepAliveSaid(framing, version, fields) == KeepAliveInText(framing, version, fields)
  {
    hide KindOf, Spells, TrimOws, HasToken, Lists, Lower, LastValue, LastNamed, StoredFields, KeptLines, ConnectionSays,
         Offers, LastTransferEncodingIsChunked, EndsChunked;
    ValuesInText(fields);
    OptionWords();
    OptionInText(fields, "close");
    OptionInText(fields, "keep-alive");
    VersionInText(version);
    var coding := LastNamed(fields, "Transfer-Encoding");
    if coding.Some? { ChunkedListed(coding.value); }
  }

  lemma VersionInText(version: string)
    requires ValidVersion(version)
    ensures version[5..] == "1.1" <==> version[5] == '1' && version[7] == '1'
  {
    assert |version[5..]| == 3;
  }

  // ------------------------------------------------------- whole messages, by their text

  function Version(major: nat, minor: nat): string
    requires 1 <= major <= 9 && minor <= 9
  {
    "HTTP/" + [DIGITS[major]] + "." + [DIGITS[minor]]
  }

  /** A head as text: status line, field lines, blank line. */
  function HeadOf(version: string, code: nat, reason: string, fields: seq<FieldLine>): Head {
    Head(StatusText(version, ToChars(code, 10), Some(reason)), true, fields, "\r")
  }

  /** Lines the parser can read: a name, a colon, a value, and a number where a length is announced. */
  ghost predicate ReadableLines(fields: seq<FieldLine>) {
    forall i :: 0 <= i < |fields| ==>
      PlainField(fields[i]) && (Spells(fields[i].name, "Content-Length") ==>
        FromChars(TrimOws(fields[i].raw), 10, SIZE_MAX).Some?)
  }

  /** The body is of the kind and length the text announces. */
  ghost predicate FitsText(headRequest: bool, code: nat, fields: seq<FieldLine>, b: BodyText) {
    match FramingInText(headRequest, code, fields)
    case NoBody => b.Nothing?
    case Length =>
      b.Sized? && FromChars(LastNamed(fields, "Content-Length").value, 10, SIZE_MAX) == Some(|b.bytes|)
    case Chunked => b.Chunks? && ParserChunked.WellFormed(b.message)
    case UntilClose => b.ToTheEnd?
  }

  /** What passes for a version: any five characters, a digit from 1, a dot and a digit. */
  lemma VersionMeaning(v: string)
    ensures ValidVersion(v) <==> exists major: nat, minor: nat :: IsVersion(v, major, minor)
  {
    if ValidVersion(v) {
      var major, minor := DigitValue(v[5]), DigitValue(v[7]);
      assert v == v[..5] + [v[5]] + "." + [v[7]];
      assert IsVersion(v, major, minor);
    }
  }

  ghost predicate IsVersion(v: string, major: nat, minor: nat) {
    && |v| == 8 && 1 <= major <= 9 && minor <= 9
    && v[5..] == [DIGITS[major]] + "." + [DIGITS[minor]]
  }

  lemma VersionReads(major: nat, minor: nat)
    requires 1 <= major <= 9 && minor <= 9
    ensures var v := Version(major, minor);
            && ValidVersion(v) && ' ' !in v && IsLine(v)
            && (v[5..] == "1.1" <==> major == 1 && minor == 1)
  {
    var v := Version(major, minor);
    assert v[5] == DIGITS[major] && v[6] == '.' && v[7] == DIGITS[minor];
    assert |v[5..]| == 3;
  }

  lemma CodeReads(code: nat)
    requires 100 <= code <= 599
    ensures var c := ToChars(code, 10);
            ' ' !in c && IsLine(c) && FromChars(c, 10, UINT16_MAX) == Some(code)
  {
    hide ToChars;
    ToCharsRoundTrip(code, 10);
    DigitsAreClean(ToChars(code, 10));
  }

  lemma StatusLineReads(version: string, code: nat, reason: string)
    requires ValidVersion(version) && ' ' !in version && IsLine(version) && IsLine(reason) && 100 <= code <= 599
    ensures var t := StatusText(version, ToChars(code, 10), Some(reason));
            WellFormedStatus(t) && CodeOf(t) == code && CleanEnd(StatusLineText(t), true)
  {
    hide ToChars, FromChars;
    CodeReads(code);
    var c := ToChars(code, 10);
    assert forall x :: x in version + " " + c + (" " + reason) ==> x in version || x == ' ' || x in c || x in reason;
  }

  lemma LinesRead(fields: seq<FieldLine>)
    requires ReadableLines(fields)
    ensures forall i :: 0 <= i < |fields| ==> WellFormedField(fields[i])
  {
    hide KindOf, Spells, TrimOws, FromChars;
    forall i | 0 <= i < |fields| ensures WellFormedField(fields[i]) {
      KindMeaning(fields[i].name);
      LineIsClean(fields[i]);
    }
  }

  lemma LineIsClean(f: FieldLine)
    requires PlainField(f)
    ensures CleanEnd(f.name + ":" + f.raw, f.cr)
  {
  }

  lemma FitsAlike(headRequest: bool, h: Head, b: BodyText)
    requires WellFormedStatus(h.status) && FitsText(headRequest, CodeOf(h.status), h.fields, b)
    ensures Fits(headRequest, h, b)
  {
    hide FromChars, LastValue, LastNamed, EndsChunked, SaysChunked;
    SaidInText(headRequest, CodeOf(h.status), h.status.version, h.fields);
    ValuesInText(h.fields);
  }

  /**
   Every message, by its text: any version, final status, reason, lines and body in whichever of
   the four ways the text delimits it parses to exactly what the text says, and no further.
   */
  lemma MessageInText(headRequest: bool, major: nat, minor: nat, code: nat, reason: string, fields: seq<FieldLine>,
                      b: BodyText, rest: string, eof: bool, max: nat)
    requires 1 <= major <= 9 && minor <= 9 && 200 <= code <= 599 && IsLine(reason) && ReadableLines(fields)
    requires FitsText(headRequest, code, fields, b) && (b.ToTheEnd? ==> eof && rest == "")
    requires |RenderHead(HeadOf(Version(major, minor), code, reason, fields))| <= max && |BodyBytes(b)| <= max
    ensures var head := RenderHead(HeadOf(Version(major, minor), code, reason, fields));
            var r := ParseRun(Fresh(headRequest, EMPTY_RESPONSE), head + RenderBody(b) + rest, eof, max, None);
            && r.status == Complete && r.state.pos == |head| + |RenderBody(b)|
            && r.state.resp == HttpResponse(code, TrimOws(reason), KeptLines(fields),
                 if BodyBytes(b) == "" then None else Some(Payload(BodyBytes(b), TypeInText(fields))))
            && (r.state.body.keepAlive <==>
                  KeepAliveInText(FramingInText(headRequest, code, fields), Version(major, minor), fields))
  {
    hide ParseRun, RenderHead, RenderBody, FramingSaid, FramingInText, KeepAliveSaid, KeepAliveInText, StoredFields,
         KeptLines, ContentTypeSaid, TypeInText, ToChars, FromChars, TrimOws, Version, WellFormedField, ReadableLines,
         LastNamed, LastValue;
    var version := Version(major, minor);
    var h := HeadOf(version, code, reason, fields);
    VersionReads(major, minor);
    StatusLineReads(version, code, reason);
    LinesRead(fields);
    SaidInText(headRequest, code, version, fields);
    FitsAlike(headRequest, h, b);
    MessageRoundTrip(headRequest, h, b, rest, eof, max);
  }

  // ------------------------------------------------------------- the sized message

  function Line(name: string, value: string): FieldLine { FieldLine(name, " " + value, true) }

  lemma LineValue(name: string, value: string)
    requires Trimmed(value)
    ensures TrimOws(Line(name, value).raw) == value
  {
    hide TrimOws;
    TrimOwsAround(" ", value, "");
    assert " " + value + "" == " " + value;
  }

  /** A word that is the whole list. */
  lemma OneItem(word: string, token: string)
    requires Spells(word, token) && ',' !in token && Trimmed(word)
    ensures forall t :: Lists(word, t) <==> Spells(word, t)
  {
    hide TrimOws, SameLetter;
    TrimOwsIdentity(word);
    forall i | 0 <= i < |word| ensures word[i] != ',' {
      CommaSpelled(word[i], token[i]);
      assert token[i] in token;
    }
    assert word[0..|word|] == word;
    forall t ensures Lists(word, t) <==> Spells(word, t) {
      if Spells(word, t) { assert ItemSpells(word, 0, |word|, t); }
      if a: nat, b: nat :| ItemSpells(word, a, b, t) { assert a == 0 && b == |word|; }
    }
  }

  lemma CommaSpelled(c: char, d: char)
    requires SameLetter(c, d)
    ensures c == ',' <==> d == ','
    ensures IsOws(c) <==> IsOws(d)
  {
  }

  /** A spelling of a name holds no separator the name does not hold. */
  lemma SpelledPlain(s: string, name: string)
    requires Spells(s, name) && name != "" && ':' !in name && '\n' !in name && Trimmed(name)
    ensures s != "" && ':' !in s && IsLine(s) && Trimmed(s)
  {
    forall i | 0 <= i < |s| ensures s[i] != ':' && s[i] != '\n' && (IsOws(s[i]) <==> IsOws(name[i])) {
      assert name[i] in name;
    }
  }

  lemma LinePlain(name: string, value: string)
    requires name != "" && ':' !in name && IsLine(name) && IsLine(value)
    ensures PlainField(Line(name, value))
  {
  }

  lemma NamedMore(fields: seq<FieldLine>, f: FieldLine, name: string)
    ensures LastNamed(fields + [f], name) ==
            if Spells(f.name, name) then Some(TrimOws(f.raw)) else LastNamed(fields, name)
    ensures LastNamed([], name) == None && KeptLines([]) == []
    ensures KeptLines(fields + [f]) ==
            if Spells(f.name, "Content-Type") || Spells(f.name, "Content-Length") || Spells(f.name, "Transfer-Encoding")
            then KeptLines(fields) else KeptLines(fields) + [Header(f.name, TrimOws(f.raw))]
  {
    hide Spells, TrimOws;
    assert (fields + [f])[..|fields|] == fields;
  }

  /** The line for the connection, if there is one. */
  function ConnectionLines(connection: Option<(string, string)>): seq<FieldLine> {
    if connection.Some? then [Line(connection.value.0, connection.value.1)] else []
  }

  function SizedLines(connection: Option<(string, string)>, lengthName: string, n: nat): seq<FieldLine> {
    ConnectionLines(connection) + [Line(lengthName, ToChars(n, 10))]
  }

  ghost predicate Persistence(connection: Option<(string, string)>) {
    connection.Some? ==>
      && Spells(connection.value.0, "Connection")
      && (Spells(connection.value.1, "close") || Spells(connection.value.1, "keep-alive"))
  }

  lemma ConnectionLineReads(connection: Option<(string, string)>)
    requires Persistence(connection)
    ensures connection.Some? ==>
              && PlainField(Line(connection.value.0, connection.value.1))
              && TrimOws(Line(connection.value.0, connection.value.1).raw) == connection.value.1
              && forall t :: Lists(connection.value.1, t) <==> Spells(connection.value.1, t)
  {
    hide TrimOws, PlainField, Lists, Spells;
    if connection.Some? {
      var (name, option) := connection.value;
      SpelledPlain(name, "Connection");
      if Spells(option, "close") {
        SpelledPlain(option, "close");
        OneItem(option, "close");
      } else {
        SpelledPlain(option, "keep-alive");
        OneItem(option, "keep-alive");
      }
      LinePlain(name, option);
      LineValue(name, option);
    }
  }

  lemma LengthLineReads(lengthName: string, n: nat)
    requires Spells(lengthName, "Content-Length") && n <= SIZE_MAX
    ensures var f := Line(lengthName, ToChars(n, 10));
            && PlainField(f) && TrimOws(f.raw) == ToChars(n, 10)
            && FromChars(ToChars(n, 10), 10, SIZE_MAX) == Some(n)
  {
    hide TrimOws, PlainField, Spells, ToChars, FromChars;
    SpelledPlain(lengthName, "Content-Length");
    ToCharsRoundTrip(n, 10);
    DigitsAreClean(ToChars(n, 10));
    LinePlain(lengthName, ToChars(n, 10));
    LineValue(lengthName, ToChars(n, 10));
    ToCharsFromChars(n, 10, SIZE_MAX);
  }

  lemma DifferentNames(s: string)
    ensures Spells(s, "Content-Length") ==>
              !Spells(s, "Connection") && !Spells(s, "Transfer-Encoding") && !Spells(s, "Content-Type")
    ensures Spells(s, "Connection") ==>
              !Spells(s, "Content-Length") && !Spells(s, "Transfer-Encoding") && !Spells(s, "Content-Type")
    ensures !(Spells(s, "close") && Spells(s, "keep-alive"))
  {
  }

  lemma SizedLinesSay(connection: Option<(string, string)>, lengthName: string, n: nat)
    requires Persistence(connection) && Spells(lengthName, "Content-Length") && n <= SIZE_MAX
    ensures var fields := SizedLines(connection, lengthName, n);
            && ReadableLines(fields) && LastNamed(fields, "Content-Length") == Some(ToChars(n, 10))
            && LastNamed(fields, "Transfer-Encoding") == None && LastNamed(fields, "Content-Type") == None
            && KeptLines(fields) ==
                 (if connection.Some? then [Header(connection.value.0, connection.value.1)] else [])
  {
    hide TrimOws, PlainField, Spells, ToChars, FromChars, LastNamed, KeptLines, Lists;
    ConnectionLineReads(connection);
    LengthLineReads(lengthName, n);
    DifferentNames(lengthName);
    var before, f := ConnectionLines(connection), Line(lengthName, ToChars(n, 10));
    NamedMore(before, f, "Content-Length");
    NamedMore(before, f, "Transfer-Encoding");
    NamedMore(before, f, "Content-Type");
    assert (before + [f])[..|before|] == before;
    if connection.Some? {
      var g := Line(connection.value.0, connection.value.1);
      DifferentNames(connection.value.0);
      assert [] + [g] == [g] && [g][..0] == [];
      NamedMore([], g, "Transfer-Encoding");
      NamedMore([], g, "Content-Type");
    }
  }

  lemma SizedLinesOffer(connection: Option<(string, string)>, lengthName: string, n: nat, option: string)
    requires Persistence(connection) && Spells(lengthName, "Content-Length")
    ensures Offers(SizedLines(connection, lengthName, n), option) <==>
            connection.Some? && Spells(connection.value.1, option)
  {
    hide TrimOws, Spells, ToChars, Lists;
    ConnectionLineReads(connection);
    DifferentNames(lengthName);
    var fields := SizedLines(connection, lengthName, n);
    if connection.Some? {
      assert fields[0] == Line(connection.value.0, connection.value.1) && fields[1].name == lengthName;
    } else {
      assert fields[0].name == lengthName;
    }
  }

  function SizedHead(minor: nat, connection: Option<(string, string)>, lengthName: string, n: nat): Head
    requires minor <= 9
  {
    HeadOf(Version(1, minor), 200, "OK", SizedLines(connection, lengthName, n))
  }

  /**
   Sized round trip. "Content-Length" in letters of any case and the number of bytes in decimal
   delimit every body; "Connection" in any case with "close" ends persistence and with
   "keep-alive" asks for it; without either, HTTP/1.1 persists and HTTP/1.0 does not.
   */
  lemma SizedRoundTrip(minor: nat, connection: Option<(string, string)>, lengthName: string, body: string, rest: string,
                       eof: bool, max: nat)
    requires minor <= 9 && Persistence(connection) && Spells(lengthName, "Content-Length") && |body| <= SIZE_MAX
    requires |RenderHead(SizedHead(minor, connection, lengthName, |body|))| <= max && |body| <= max
    ensures var head := RenderHead(SizedHead(minor, connection, lengthName, |body|));
            var r := ParseRun(Fresh(false, EMPTY_RESPONSE), head + body + rest, eof, max, None);
            && r.status == Complete && r.state.pos == |head| + |body|
            && r.state.resp == HttpResponse(200, "OK",
                 if connection.Some? then [Header(connection.value.0, connection.value.1)] else [],
                 if body == "" then None else Some(Payload(body, "application/octet-stream")))
            && (r.state.body.keepAlive <==>
                  if connection.Some? then Spells(connection.value.1, "keep-alive") else minor == 1)
  {
    hide ParseRun, RenderHead, ToChars, FromChars, TrimOws, Version, LastNamed, KeptLines, Offers, Spells,
         ReadableLines, SizedLines, EndsChunked;
    var fields := SizedLines(connection, lengthName, |body|);
    SizedLinesSay(connection, lengthName, |body|);
    SizedLinesOffer(connection, lengthName, |body|, "close");
    SizedLinesOffer(connection, lengthName, |body|, "keep-alive");
    if connection.Some? { DifferentNames(connection.value.1); }
    VersionReads(1, minor);
    LengthReads(|body|);
    TrimOwsIdentity("OK");
    MessageInText(false, 1, minor, 200, "OK", fields, Sized(body), rest, eof, max);
  }

  lemma LengthReads(n: nat)
    requires n <= SIZE_MAX
    ensures FromChars(ToChars(n, 10), 10, SIZE_MAX) == Some(n)
  {
    ToCharsFromChars(n, 10, SIZE_MAX);
  }

  /** That head in letters. */
  lemma SizedHeadText(minor: nat, connection: Option<(string, string)>, lengthName: string, n: nat)
    requires minor <= 9
    ensures RenderHead(SizedHead(minor, connection, lengthName, n)) ==
            "HTTP/1." + [DIGITS[minor]] + " 200 OK\r\n" +
            (if connection.Some? then connection.value.0 + ": " + connection.value.1 + "\r\n" else "") +
            (lengthName + ": " + ToChars(n, 10) + "\r\n") + "\r\n"
  {
    hide ToChars, WithCr, StatusLineText, RenderLines, Version;
    StatusText200(minor);
    SizedLinesText(connection, lengthName, ToChars(n, 10));
  }

  lemma SizedLinesText(connection: Option<(string, string)>, lengthName: string, digits: string)
    ensures RenderLines(LinesOf(ConnectionLines(connection) + [Line(lengthName, digits)]), "\r") ==
            (if connection.Some? then connection.value.0 + ": " + connection.value.1 + "\r\n" else "") +
            (lengthName + ": " + digits + "\r\n") + "\r\n"
  {
    hide RenderLines, LineOf;
    var f := Line(lengthName, digits);
    LineText(lengthName, digits);
    if connection.Some? {
      var g := Line(connection.value.0, connection.value.1);
      LineText(connection.value.0, connection.value.1);
      assert LinesOf([g] + [f]) == [LineOf(g), LineOf(f)];
      TwoLines(LineOf(g), LineOf(f), "\r");
    } else {
      assert LinesOf([] + [f]) == [LineOf(f)];
      LastLine(LineOf(f), "\r");
    }
  }

  lemma LastLine(a: string, last: string)
    ensures RenderLines([a], last) == a + "\n" + (last + "\n")
  {
    assert [a][1..] == [];
  }

  lemma StatusText200(minor: nat)
    requires minor <= 9
    ensures WithCr(StatusLineText(StatusText(Version(1, minor), ToChars(200, 10), Some("OK"))), true) + "\n" ==
            "HTTP/1." + [DIGITS[minor]] + " 200 OK\r\n"
  {
    assert ToChars(200, 10) == "200" by { assert ToChars(20, 10) == "20" && ToChars(2, 10) == "2"; }
    assert DIGITS[1] == '1';
  }

  lemma LineText(name: string, value: string)
    ensures LineOf(Line(name, value)) + "\n" == name + ": " + value + "\r\n"
  {
    assert name + ":" + (" " + value) == name + ": " + value;
  }
}
