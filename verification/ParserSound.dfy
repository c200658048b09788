/**
 Only well-formed heads get through: whatever the bytes, a parse that completes has read
 a sequence of heads of the grammar, interim ones first, then a final one.  Together with
 the reading of well-formed heads this makes the accepted heads exactly the grammar.
 */
module ParserSound {
  import opened Text
  import opened ResponseParsing
  import opened ParserHead
  import opened ParserInterim
  import opened ParserSlicing

  /** A line is its text with or without the CR the parser drops. */
  lemma LineParts(raw: string)
    requires IsLine(raw)
    ensures var cr := raw != [] && raw[|raw| - 1] == '\r';
            WithCr(ChopCr(raw), cr) == raw && CleanEnd(ChopCr(raw), cr)
  {
    var text := ChopCr(raw);
    assert forall c :: c in text ==> c in raw;
    if raw != [] && raw[|raw| - 1] == '\r' { assert text + "\r" == raw; }
  }

  /** A text is what stands before the first `c`, the `c`, and the rest. */
  lemma SplitAtFound(text: string, c: char)
    ensures var at := Find(text, c);
            && c !in text[..at]
            && text == text[..at] + (if at < |text| then [c] + text[at + 1..] else "")
  {
  }

  /** A line cut at its first two blanks. */
  function CutStatus(line: string): StatusText {
    var sp1 := Find(line, ' ');
    if sp1 == |line| then StatusText(line, "", None)
    else
      var (code, reason) := CutCode(line[sp1 + 1..]);
      StatusText(line[..sp1], code, reason)
  }

  /** Code and reason, at the first blank. */
  function CutCode(rest: string): (string, Option<string>) {
    var sp2 := Find(rest, ' ');
    (rest[..sp2], if sp2 < |rest| then Some(rest[sp2 + 1..]) else None)
  }

  lemma CutCodeJoins(rest: string)
    ensures var (code, reason) := CutCode(rest);
            ' ' !in code && rest == code + (if reason.Some? then " " + reason.value else "")
  {
    hide Find;
    SplitAtFound(rest, ' ');
  }

  lemma CutStatusJoins(line: string)
    requires Find(line, ' ') < |line|
    ensures var t := CutStatus(line);
            StatusLineText(t) == line && ' ' !in t.version && ' ' !in t.code
  {
    hide Find, CutCode;
    var sp1 := Find(line, ' ');
    var v, rest := line[..sp1], line[sp1 + 1..];
    assert line == v + ([' '] + rest) && ' ' !in v by { SplitAtFound(line, ' '); }
    var (code, reason) := CutCode(rest);
    var tail := if reason.Some? then " " + reason.value else "";
    assert rest == code + tail && ' ' !in code by { CutCodeJoins(rest); }
    Rejoin(v, code, tail);
  }

  lemma Rejoin(a: string, b: string, c: string)
    ensures a + ([' '] + (b + c)) == a + " " + b + c
  {
    assert [' '] + (b + c) == " " + b + c;
    assert a + (" " + b + c) == a + " " + b + c;
  }

  /** A status line that passes is one of the grammar. */
  lemma StatusLineSound(s: ParserState, line: string) returns (t: StatusText)
    requires StatusLineStep(s, line).Next?
    ensures WellFormedStatus(t) && StatusLineText(t) == line && CodeOf(t) == StatusLineStep(s, line).s.head.statusCode
  {
    hide FromChars, TrimOws, Find, StatusLineText;
    t := CutStatus(line);
    CutStatusJoins(line);
  }

  lemma FieldParted(line: string)
    requires Find(line, ':') < |line|
    ensures var colon := Find(line, ':');
            ':' !in line[..colon] && line[..colon] + ":" + line[colon + 1..] == line
  {
    hide Find;
    SplitAtFound(line, ':');
  }

  /** So is a field line. */
  lemma FieldLineSound(s: ParserState, raw: string, start: nat) returns (f: FieldLine)
    requires IsLine(raw) && ChopCr(raw) != [] && start + |ChopCr(raw)| <= s.pos
    requires s.head.contentTypeOff + s.head.contentTypeLen <= s.pos && HeaderStep(s, ChopCr(raw), start).Next?
    ensures WellFormedField(f) && LineOf(f) == raw
  {
    hide FromChars, TrimOws, HasToken, LastTransferEncodingIsChunked, Find, ChopCr, WithCr, KindOf, CleanEnd;
    var line := ChopCr(raw);
    var colon := Find(line, ':');
    f := FieldLine(line[..colon], line[colon + 1..], raw != [] && raw[|raw| - 1] == '\r');
    FieldParted(line);
    LineParts(raw);
  }

  /** What a completed parse found at the cursor: a whole line within the budget, and a step that went on. */
  lemma CompletedLine(s: ParserState, buffer: string, eof: bool, max: nat, codec: Option<Codec>)
    returns (raw: string, s1: ParserState)
    requires s.Valid(|buffer|) && s.InHead() && ParseRun(s, buffer, eof, max, codec).status == Complete
    ensures IsLine(raw) && At(buffer, s.pos, raw + "\n")
    ensures s1 == s.(pos := s.pos + |raw| + 1) && s1.pos <= |buffer| && s1.Valid(s1.pos) && s1.pos <= max
    ensures var r := LineStep(s1, ChopCr(raw), s.pos);
            && HeadStep(s, buffer, eof, max) == r
            && (r.Next? || r.status == Complete)
            && (r.Next? ==> ParseRun(r.s, buffer, eof, max, codec).status == Complete)
  {
    hide ParseRun, LineStep, Installed;
    RunHeadStep(s, buffer, eof, max, codec);
    FoundLine(buffer, s.pos);
    var nl := FindFrom(buffer, '\n', s.pos);
    raw := if nl < |buffer| then buffer[s.pos..nl] else "";
    s1 := s.(pos := s.pos + |raw| + 1);
  }

  lemma LinesOfMore(f: FieldLine, rest: seq<FieldLine>, blank: string)
    ensures RenderLines(LinesOf([f] + rest), blank) == LineOf(f) + "\n" + RenderLines(LinesOf(rest), blank)
  {
    hide LineOf;
    assert LinesOf([f] + rest) == [LineOf(f)] + LinesOf(rest);
    assert LinesOf([f] + rest)[1..] == LinesOf(rest);
  }

  lemma BlankAlone(raw: string)
    requires ChopCr(raw) == []
    ensures IsBlank(raw) && RenderLines(LinesOf([]), raw) == raw + "\n"
  {
    assert LinesOf([]) == [];
  }

  /** The fields and the blank line before a completed parse goes on. */
  lemma {:induction false} FieldsSound(s: ParserState, buffer: string, eof: bool, max: nat, codec: Option<Codec>)
    returns (fields: seq<FieldLine>, blank: string, t: ParserState)
    requires s.Valid(|buffer|) && s.phase == Headers && ParseRun(s, buffer, eof, max, codec).status == Complete
    ensures forall i :: 0 <= i < |fields| ==> WellFormedField(fields[i])
    ensures IsBlank(blank) && At(buffer, s.pos, RenderLines(LinesOf(fields), blank))
    ensures t.Valid(|buffer|) && t.pos == s.pos + |RenderLines(LinesOf(fields), blank)| <= max
    ensures s.head.statusCode < 200 ==>
              t.phase == StatusLine && t.pos > s.pos && ParseRun(t, buffer, eof, max, codec).status == Complete
    decreases |buffer| - s.pos
  {
    hide ParseRun, HeadStep, WellFormedField, HeaderStep, FramingDecision, At, RenderLines, LinesOf, ChopCr, IsBlank,
         StatusLineStep;
    var raw, s1 := CompletedLine(s, buffer, eof, max, codec);
    var r := LineStep(s1, ChopCr(raw), s.pos);
    if ChopCr(raw) == [] {
      fields, blank, t := [], raw, r.s;
      BlankAlone(raw);
      ValidGrows(t, t.pos, |buffer|);
    } else {
      var f := FieldLineSound(s1, raw, s.pos);
      ValidGrows(r.s, r.s.pos, |buffer|);
      var rest;
      rest, blank, t := FieldsSound(r.s, buffer, eof, max, codec);
      fields := [f] + rest;
      LinesOfMore(f, rest, blank);
      AtSplit(buffer, s.pos, raw + "\n", RenderLines(LinesOf(rest), blank));
    }
  }

  /** One whole head, from its status line to its blank line. */
  lemma HeadSound(s: ParserState, buffer: string, eof: bool, max: nat, codec: Option<Codec>)
    returns (h: Head, t: ParserState)
    requires s.Valid(|buffer|) && s.phase == StatusLine && ParseRun(s, buffer, eof, max, codec).status == Complete
    ensures WellFormedHead(h) && At(buffer, s.pos, RenderHead(h))
    ensures t.Valid(|buffer|) && t.pos == s.pos + |RenderHead(h)| <= max
    ensures CodeOf(h.status) < 200 ==>
              t.phase == StatusLine && t.pos > s.pos && ParseRun(t, buffer, eof, max, codec).status == Complete
  {
    hide ParseRun, HeadStep, WellFormedField, WellFormedStatus, StatusLineText, CodeOf, RenderLines, LinesOf, At,
         StatusLineStep, HeaderStep, BlankLineStep, ChopCr, WithCr, CleanEnd;
    var raw, s1 := CompletedLine(s, buffer, eof, max, codec);
    var r := LineStep(s1, ChopCr(raw), s.pos);
    var status := StatusLineSound(s1, ChopCr(raw));
    LineParts(raw);
    ValidGrows(r.s, r.s.pos, |buffer|);
    var fields, blank;
    fields, blank, t := FieldsSound(r.s, buffer, eof, max, codec);
    h := Head(status, raw != [] && raw[|raw| - 1] == '\r', fields, blank);
    AtSplit(buffer, s.pos, raw + "\n", RenderLines(LinesOf(fields), blank));
  }

  /** Interim heads, then a final one. */
  ghost predicate HeadSequence(heads: seq<Head>) {
    && heads != [] && (forall i :: 0 <= i < |heads| - 1 ==> InterimHead(heads[i]))
    && WellFormedHead(heads[|heads| - 1]) && CodeOf(heads[|heads| - 1].status) >= 200
  }

  /** Every completed parse starts with a sequence of heads of the grammar. */
  lemma {:induction false} OnlyWellFormedHeads(
      s: ParserState, buffer: string, eof: bool, max: nat, codec: Option<Codec>)
    returns (heads: seq<Head>)
    requires s.Valid(|buffer|) && s.phase == StatusLine && ParseRun(s, buffer, eof, max, codec).status == Complete
    ensures HeadSequence(heads) && At(buffer, s.pos, RenderHeads(heads)) && s.pos + |RenderHeads(heads)| <= max
    decreases |buffer| - s.pos
  {
    hide ParseRun, WellFormedHead, RenderHead, At, CodeOf;
    var h, t := HeadSound(s, buffer, eof, max, codec);
    if InterimHead(h) {
      var rest := OnlyWellFormedHeads(t, buffer, eof, max, codec);
      heads := [h] + rest;
      assert heads[1..] == rest;
      AtSplit(buffer, s.pos, RenderHead(h), RenderHeads(rest));
    } else {
      heads := [h];
      assert heads[1..] == [] && RenderHead(h) + "" == RenderHead(h);
    }
  }

  // ------------------------------------------------------------- option lists

  /** Items separated by commas. */
  function CommaList(items: seq<string>): string {
    if items == [] then "" else if |items| == 1 then items[0] else items[0] + "," + CommaList(items[1..])
  }

  ghost predicate Names(item: string, token: string) { EqualIgnoreCase(TrimOws(item), token) }

  /** Scanning a list finds a token exactly when one of its items names it. */
  lemma {:induction false} HasTokenMeaning(items: seq<string>, token: string)
    requires token != "" && forall i :: 0 <= i < |items| ==> ',' !in items[i]
    ensures HasToken(CommaList(items), token) <==> exists i :: 0 <= i < |items| && Names(items[i], token)
    decreases |items|
  {
    hide TrimOws, EqualIgnoreCase;
    NamesNothing(token);
    if |items| == 1 {
      FindAbsent(items[0], ',');
      assert items[0][..|items[0]|] == items[0];
    } else if |items| > 1 {
      var rest := items[1..];
      var list := CommaList(items);
      HasTokenMeaning(rest, token);
      assert list[..|items[0]|] == items[0] && list[|items[0]| + 1..] == CommaList(rest);
      FindAt(list, ',', |items[0]|);
      assert forall i :: 0 <= i < |rest| ==> rest[i] == items[i + 1];
      assert forall i :: 1 <= i < |items| ==> items[i] == rest[i - 1];
    }
  }

  lemma NamesNothing(token: string)
    requires token != ""
    ensures !Names("", token)
  {
  }
}
