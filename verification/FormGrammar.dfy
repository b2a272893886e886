/** Exactly which multipart bodies the parser accepts, as texts put together from parts
    (src/http/HttpContext.cc): it is more lenient than RFC 7578, in the head of a part as well as
    before the first and behind the last boundary. */
module FormGrammar {
  import opened Text
  import opened HttpRequests
  import opened HttpParsing
  import opened HttpPrinting
  import opened MultipartForms

  /** `p` stands in `s` at `k` and nowhere before. */
  ghost predicate FirstAt(s: string, p: string, k: nat) {
    OccursAt(s, p, k) && forall j :: 0 <= j < k ==> !OccursAt(s, p, j)
  }

  lemma FirstAtIs(s: string, p: string, k: nat)
    ensures Find(s, p, 0) == Some(k) <==> FirstAt(s, p, k)
  {
    FindMeans(s, p, 0);
    if FirstAt(s, p, k) {
      FindIs(s, p, 0, k);
    }
  }

  // ---------- parameters ----------

  /** Quoted: up to the closing quote, nothing when there is none. */
  ghost predicate QuotedReads(text: string, value: string) {
    if '"' in text then exists more :: text == value + "\"" + more && '"' !in value else value == ""
  }

  /** Bare: up to the next semicolon or the end, blanks around it dropped. */
  ghost predicate BareReads(text: string, value: string) {
    exists bare, more ::
      text == bare + more && ';' !in bare && (more == "" || more[0] == ';') && Trimmed(bare, value, BLANKS)
  }

  /** A parameter starts behind the first place where its name and an equals sign stand. */
  ghost predicate Reads(header: string, name: string, value: string) {
    || (value == "" && forall k :: !OccursAt(header, name + "=", k))
    || exists k: nat ::
         && FirstAt(header, name + "=", k)
         && var text := header[k + |name| + 1..];
            if text != "" && text[0] == '"' then QuotedReads(text[1..], value) else BareReads(text, value)
  }

  lemma QuotedIsRead(header: string, pos: nat)
    requires pos < |header| && header[pos] == '"'
    ensures var end := Find(header, "\"", pos + 1);
            QuotedReads(header[pos + 1..], if end.None? then "" else header[pos + 1..end.value])
  {
    var text := header[pos + 1..];
    CharBehind(header, pos + 1, '"');
    hide Find;
    FindNoChar(text, '"');
    if Find(text, "\"", 0).Some? {
      var k := Find(text, "\"", 0).value;
      CutChar(text, '"', k);
      assert text == text[..k] + "\"" + text[k + 1..];
    }
  }

  lemma BareIsRead(header: string, pos: nat)
    requires pos <= |header|
    ensures var end := Find(header, ";", pos);
            BareReads(header[pos..], Strip(if end.None? then header[pos..] else header[pos..end.value], IsBlank))
  {
    hide Find, Strip, BareReads;
    var text := header[pos..];
    CharBehind(header, pos, ';');
    BareTextReads(text);
  }

  lemma BareTextReads(text: string)
    ensures var end := Find(text, ";", 0);
            BareReads(text, Strip(if end.None? then text else text[..end.value], IsBlank))
  {
    hide Find, Strip, Trimmed;
    FindNoChar(text, ';');
    if Find(text, ";", 0).Some? {
      var k := Find(text, ";", 0).value;
      CutChar(text, ';', k);
      PaddingMeaning(text[..k]);
      var bare, more := text[..k], text[k..];
      assert text == bare + more && more[0] == ';';
    } else {
      PaddingMeaning(text);
      var bare, more := text, "";
      assert text == bare + more;
    }
  }

  lemma CharBehind(s: string, from: nat, c: char)
    requires from <= |s|
    ensures var r, t := Find(s, [c], from), Find(s[from..], [c], 0);
            && r.Some? == t.Some? && (r.Some? ==> r.value == from + t.value && s[from..r.value] == s[from..][..t.value])
  {
    assert s == s[..from] + s[from..];
    FindShift(s[..from], s[from..], [c], 0);
  }

  lemma CutChar(s: string, c: char, k: nat)
    requires Find(s, [c], 0) == Some(k)
    ensures k < |s| && s[k] == c && c !in s[..k] && s == s[..k] + [c] + s[k + 1..]
  {
    hide Find, OccursAt;
    FindMeans(s, [c], 0);
    NoneBefore(s, c, k);
    OccursChar(s, c, k);
    OccursCut(s, [c], k);
  }

  lemma NoneBefore(s: string, c: char, k: nat)
    requires k <= |s| && forall i :: 0 <= i < k ==> !OccursAt(s, [c], i)
    ensures c !in s[..k]
  {
    if c in s[..k] {
      var i :| 0 <= i < k && s[..k][i] == c;
      OccursChar(s, c, i);
    }
  }

  lemma Absent(s: string, p: string)
    requires Find(s, p, 0).None?
    ensures forall k :: !OccursAt(s, p, k)
  {
    FindMeans(s, p, 0);
  }

  lemma ParameterMeaning(header: string, name: string)
    ensures Reads(header, name, ParameterValue(header, name))
  {
    hide Find, QuotedReads, BareReads, Strip, FirstAt, OccursAt;
    FindMeans(header, name + "=", 0);
    var found := Find(header, name + "=", 0);
    if found.Some? {
      var k := found.value;
      FirstAtIs(header, name + "=", k);
      var pos := k + |name| + 1;
      if pos < |header| && header[pos] == '"' {
        assert header[pos..][1..] == header[pos + 1..];
        QuotedIsRead(header, pos);
      } else {
        BareIsRead(header, pos);
      }
    } else {
      Absent(header, name + "=");
    }
  }

  // ---------- the head of a part ----------

  /** A header line as it stands, without the space a printer puts behind the colon. */
  function RawLine(h: Header): string {
    h.name + ":" + h.value
  }

  /** Any line with a colon is a header. */
  ghost predicate RawHeader(h: Header) {
    ':' !in h.name && OneLine(RawLine(h))
  }

  ghost predicate RawHeaders(headers: seq<Header>) {
    forall i :: 0 <= i < |headers| ==> RawHeader(headers[i])
  }

  /** Lines separated by line breaks. */
  function RawHead(headers: seq<Header>): string {
    if headers == [] then ""
    else if |headers| == 1 then RawLine(headers[0])
    else RawLine(headers[0]) + CRLF + RawHead(headers[1..])
  }

  /** The last value given to a field, blanks around it dropped. */
  function LastField(known: string, headers: seq<Header>, key: string): string {
    if headers == [] then known
    else
      var h := headers[|headers| - 1];
      if Lower(h.name) == key then Strip(h.value, IsBlank)
      else LastField(known, headers[..|headers| - 1], key)
  }

  function Fields(h: PartHeaders, headers: seq<Header>): PartHeaders {
    PartHeaders(LastField(h.disposition, headers, "content-disposition"),
                LastField(h.contentType, headers, "content-type"))
  }

  function OneField(h: PartHeaders, x: Header): PartHeaders {
    WithPartHeader(h, Lower(x.name), Strip(x.value, IsBlank))
  }

  lemma {:induction false} LastFieldFirst(known: string, headers: seq<Header>, key: string)
    requires headers != []
    ensures LastField(known, headers, key)
         == LastField(if Lower(headers[0].name) == key then Strip(headers[0].value, IsBlank) else known, headers[1..], key)
  {
    hide Lower, Strip;
    if |headers| > 1 {
      LastFieldFirst(known, headers[..|headers| - 1], key);
      assert headers[..|headers| - 1][1..] == headers[1..][..|headers| - 2];
    } else {
      assert headers[..0] == [];
    }
  }

  lemma FieldsFirst(h: PartHeaders, headers: seq<Header>)
    requires headers != []
    ensures Fields(h, headers) == Fields(OneField(h, headers[0]), headers[1..])
  {
    hide Lower, Strip, LastField;
    LastFieldFirst(h.disposition, headers, "content-disposition");
    LastFieldFirst(h.contentType, headers, "content-type");
  }

  lemma ColonSplits(x: Header)
    requires RawHeader(x)
    ensures Find(RawLine(x), ":", 0) == Some(|x.name|)
    ensures RawLine(x)[..|x.name|] == x.name && RawLine(x)[|x.name| + 1..] == x.value
  {
    hide Find;
    FindChar(x.name, ':', x.value);
    assert RawLine(x) == x.name + [':'] + x.value;
  }

  /** The first line of a head is read as the header it spells. */
  lemma RawFirst(x: Header, post: string, headerEnd: nat, h: PartHeaders)
    requires RawHeader(x) && 0 < |RawLine(x)| <= headerEnd <= |RawLine(x) + CRLF + post|
    ensures HeaderLines(RawLine(x) + CRLF + post, 0, headerEnd, h)
         == HeaderLines(RawLine(x) + CRLF + post, |RawLine(x)| + 2, headerEnd, OneField(h, x))
  {
    hide Find;
    var line := RawLine(x);
    FindLineEnd(line, post);
    ColonSplits(x);
    assert (line + CRLF + post)[0..|line|] == line;
  }

  lemma LineHasColon(x: Header)
    ensures |RawLine(x)| > 0
  {
  }

  lemma {:induction false} HeadReads(headers: seq<Header>, post: string, h: PartHeaders)
    requires RawHeaders(headers)
    ensures HeaderLines(RawHead(headers) + CRLF + post, 0, |RawHead(headers)|, h) == Some(Fields(h, headers))
    decreases |headers|
  {
    if headers == [] {
      NoFields(h);
    } else {
      hide HeaderLines, RawHeader, RawLine, LastField, OneField, Fields;
      var x := headers[0];
      FieldsFirst(h, headers);
      if |headers| == 1 {
        assert headers[1..] == [];
        NoFields(OneField(h, x));
        LastLine(x, post, h);
      } else {
        HeadReads(headers[1..], post, OneField(h, x));
        LineThenRest(x, RawHead(headers[1..]), post, h);
      }
    }
  }

  lemma LastLine(x: Header, post: string, h: PartHeaders)
    requires RawHeader(x)
    ensures HeaderLines(RawLine(x) + CRLF + post, 0, |RawLine(x)|, h) == Some(OneField(h, x))
  {
    LineHasColon(x);
    hide HeaderLines, RawLine, OneField;
    RawFirst(x, post, |RawLine(x)|, h);
    HeaderLinesDone(RawLine(x) + CRLF + post, |RawLine(x)| + 2, |RawLine(x)|, OneField(h, x));
  }

  lemma LineThenRest(x: Header, rest: string, post: string, h: PartHeaders)
    requires RawHeader(x)
    ensures var head := RawLine(x) + CRLF + rest;
            HeaderLines(head + CRLF + post, 0, |head|, h)
            == HeaderLines(rest + CRLF + post, 0, |rest|, OneField(h, x))
  {
    LineHasColon(x);
    hide HeaderLines, RawLine, OneField, RawHeader;
    var line, n := RawLine(x), |RawLine(x) + CRLF + rest|;
    HeadSplit(line, rest, post);
    RawFirst(x, rest + CRLF + post, n, h);
    HeaderLinesShift(line + CRLF, rest + CRLF + post, 0, |rest|, OneField(h, x));
  }

  lemma NoFields(h: PartHeaders)
    ensures Fields(h, []) == h
  {
  }

  lemma HeadSplit(line: string, rest: string, post: string)
    ensures (line + CRLF + rest) + CRLF + post == line + CRLF + (rest + CRLF + post)
    ensures (line + CRLF + rest) + CRLF + post == (line + CRLF) + (rest + CRLF + post)
  {
  }

  /** A line with a colon spells a header. */
  lemma HeaderOfLine(line: string) returns (x: Header)
    requires OneLine(line) && ':' in line
    ensures RawHeader(x) && RawLine(x) == line
  {
    FindNoChar(line, ':');
    FindMeans(line, ":", 0);
    var k := Find(line, ":", 0).value;
    x := Header(line[..k], line[k + 1..]);
    assert line[k] == line[k..k + 1][0] == ':';
    assert line == line[..k] + ":" + line[k + 1..];
    forall i | 0 <= i < k ensures line[..k][i] != ':' {
      OccursChar(line, ':', i);
      assert !OccursAt(line, ":", i);
    }
  }

  lemma OneLineUpTo(s: string, n: nat)
    requires Find(s, CRLF, 0) == Some(n)
    ensures n + 2 <= |s| && OneLine(s[..n]) && s == s[..n] + CRLF + s[n + 2..]
  {
    FindMeans(s, CRLF, 0);
    hide Find, OneLine;
    LineBefore(s, n);
    OccursCut(s, CRLF, n);
  }

  lemma LineBefore(s: string, n: nat)
    requires n <= |s| && forall k :: 0 <= k < n ==> !OccursAt(s, CRLF, k)
    ensures OneLine(s[..n])
  {
    forall k ensures !OccursAt(s[..n], CRLF, k) {
      if 0 <= k && k + 2 <= n {
        OccursCrlf(s[..n], k);
        OccursCrlf(s, k);
        assert !OccursAt(s, CRLF, k);
      }
    }
  }

  /** Conversely a head that is read consists of header lines. */
  lemma {:induction false} HeadSpells(s: string, n: nat, h: PartHeaders) returns (headers: seq<Header>)
    requires FirstAt(s, HEADER_END, n) && HeaderLines(s, 0, n, h).Some?
    ensures RawHeaders(headers) && RawHead(headers) == s[..n]
    decreases |s|
  {
    headers := [];
    if n > 0 {
      hide HeaderLines, Find, OneField, FirstAt, RawLine, RawHeader;
      var e, x := FirstHeader(s, n, h);
      if e == n {
        headers := [x];
      } else {
        var more := HeadSpells(s[e + 2..], n - e - 2, OneField(h, x));
        headers := OneMore(s, n, e, x, more);
      }
    }
  }

  /** The first header of a head, and where its line ends. */
  lemma FirstHeader(s: string, n: nat, h: PartHeaders) returns (e: nat, x: Header)
    requires FirstAt(s, HEADER_END, n) && HeaderLines(s, 0, n, h).Some? && n > 0
    ensures e <= n && n <= |s| && RawHeader(x) && RawLine(x) == s[..e]
    ensures e < n ==>
              && e + 2 < n && FirstAt(s[e + 2..], HEADER_END, n - e - 2)
              && HeaderLines(s[e + 2..], 0, n - e - 2, OneField(h, x)).Some?
              && s[..n] == s[..e] + CRLF + s[e + 2..][..n - e - 2]
  {
    hide HeaderLines, Find, OneField;
    e := HeadLineEnd(s, n);
    OneLineUpTo(s, e);
    LineRead(s, n, e, h);
    x := HeaderOfLine(s[..e]);
    if e < n {
      RestIsRead(s, n, e, x, h);
    }
  }

  lemma RestIsRead(s: string, n: nat, e: nat, x: Header, h: PartHeaders)
    requires FirstAt(s, HEADER_END, n) && HeaderLines(s, 0, n, h).Some? && e < n
    requires Find(s, CRLF, 0) == Some(e) && RawHeader(x) && RawLine(x) == s[..e]
    ensures e + 2 < n <= |s| && FirstAt(s[e + 2..], HEADER_END, n - e - 2)
    ensures HeaderLines(s[e + 2..], 0, n - e - 2, OneField(h, x)).Some?
    ensures s[..n] == s[..e] + CRLF + s[e + 2..][..n - e - 2]
  {
    hide HeaderLines, Find, OneField, RawLine, RawHeader, OneLine, FirstAt, OccursAt;
    OneLineUpTo(s, e);
    LineHasColon(x);
    LineBreakAt(s, e);
    HeadRest(s, n, e);
    HeadLonger(s, n);
    var line, rest := s[..e], s[e + 2..];
    RawFirst(x, rest, n, h);
    HeaderLinesShift(line + CRLF, rest, 0, n - e - 2, OneField(h, x));
    PrefixOf(s, line, rest, n);
  }

  lemma LineBreakAt(s: string, e: nat)
    requires Find(s, CRLF, 0) == Some(e)
    ensures OccursAt(s, CRLF, e)
  {
    FindMeans(s, CRLF, 0);
  }

  lemma HeadLonger(s: string, n: nat)
    requires FirstAt(s, HEADER_END, n)
    ensures n + 4 <= |s|
  {
  }

  lemma PrefixOf(s: string, line: string, rest: string, n: nat)
    requires s == line + CRLF + rest && |line| + 2 <= n <= |s|
    ensures s == (line + CRLF) + rest && s[..n] == line + CRLF + rest[..n - |line| - 2]
  {
  }

  lemma OneMore(s: string, n: nat, e: nat, x: Header, more: seq<Header>) returns (headers: seq<Header>)
    requires e + 2 < n <= |s| && RawHeader(x) && RawLine(x) == s[..e]
    requires s[..n] == s[..e] + CRLF + s[e + 2..][..n - e - 2]
    requires RawHeaders(more) && RawHead(more) == s[e + 2..][..n - e - 2]
    ensures RawHeaders(headers) && RawHead(headers) == s[..n]
  {
    hide RawHeader, RawLine;
    headers := [x] + more;
    assert headers[1..] == more;
    MoreThanOne(more, s[e + 2..], n - e - 2);
  }

  lemma MoreThanOne(more: seq<Header>, rest: string, n: nat)
    requires 0 < n <= |rest| && RawHead(more) == rest[..n]
    ensures more != []
  {
  }

  /** The first line break is at the end of the head or before it. */
  lemma HeadLineEnd(s: string, n: nat) returns (e: nat)
    requires OccursAt(s, HEADER_END, n)
    ensures Find(s, CRLF, 0) == Some(e) && e <= n
  {
    assert s[n..n + 2] == s[n..n + 4][..2] == CRLF;
    assert OccursAt(s, CRLF, n);
    FindMeans(s, CRLF, 0);
    e := Find(s, CRLF, 0).value;
  }

  /** A line read in the head has a colon. */
  lemma LineRead(s: string, n: nat, e: nat, h: PartHeaders)
    requires 0 < n <= |s| && e <= n && Find(s, CRLF, 0) == Some(e) && HeaderLines(s, 0, n, h).Some?
    ensures ':' in s[..e]
  {
    hide Find;
    assert s[0..e] == s[..e];
    FindNoChar(s[..e], ':');
  }

  /** Behind a line break that is not the end, the rest of the head ends at the same place; were it
      empty, the head would have ended sooner. */
  lemma HeadRest(s: string, n: nat, e: nat)
    requires FirstAt(s, HEADER_END, n) && OccursAt(s, CRLF, e) && e < n
    ensures e + 2 < n && FirstAt(s[e + 2..], HEADER_END, n - e - 2)
  {
    hide OccursAt;
    BlankLineAt(s, n);
    OccursCrlf(s, e);
    OccursCrlf(s, n);
    assert e + 1 != n;
    if e + 2 == n {
      BreakThenBlank(s, e);
    }
    forall j | e + 2 <= j < n ensures !OccursAt(s, HEADER_END, j) {
    }
    FirstBehind(s, HEADER_END, e + 2, n);
  }

  lemma BlankLineAt(s: string, n: nat)
    requires OccursAt(s, HEADER_END, n)
    ensures OccursAt(s, CRLF, n)
  {
    assert s[n..n + 2] == s[n..n + 4][..2];
  }

  lemma BreakThenBlank(s: string, e: nat)
    requires OccursAt(s, CRLF, e) && OccursAt(s, HEADER_END, e + 2)
    ensures OccursAt(s, HEADER_END, e)
  {
    assert s[e..e + 4] == s[e..e + 2] + s[e + 2..e + 6][..2];
  }

  // ---------- a part ----------

  datatype RawPart = RawPart(headers: seq<Header>, content: string)

  /** The text behind a boundary and its line break; `rest` starts with the next boundary. */
  function RawText(p: RawPart, rest: string): string {
    RawHead(p.headers) + HEADER_END + (p.content + CRLF + rest)
  }

  /** The head ends at the first blank line, the content at the first boundary on a new line, and the
      disposition is a form's and names the field. */
  ghost predicate IsPart(p: RawPart, boundary: string, rest: string) {
    && RawHeaders(p.headers) && boundary <= rest
    && FirstAt(RawText(p, rest), HEADER_END, |RawHead(p.headers)|)
    && FirstAt(p.content + CRLF + rest, CRLF + boundary, |p.content|)
    && GoodDisposition(Fields(PartHeaders("", ""), p.headers))
  }

  lemma PartRead(p: RawPart, boundary: string, rest: string)
    requires IsPart(p, boundary, rest)
    ensures PartAt(RawText(p, rest), boundary, 0)
         == Part(Fields(PartHeaders("", ""), p.headers), p.content, |RawText(p, rest)| - |rest|)
  {
    hide Find, HeaderLines, GoodDisposition, RawHead, Fields, FirstAt;
    var s, head, behind := RawText(p, rest), RawHead(p.headers), p.content + CRLF + rest;
    FirstAtIs(s, HEADER_END, |head|);
    FirstAtIs(behind, CRLF + boundary, |p.content|);
    assert s == (head + HEADER_END) + behind;
    FindShift(head + HEADER_END, behind, CRLF + boundary, 0);
    HeadReads(p.headers, CRLF + behind, PartHeaders("", ""));
    EndForm(head, behind);
    assert s[|head| + 4..|head| + 4 + |p.content|] == p.content;
  }

  lemma EndForm(head: string, behind: string)
    ensures head + HEADER_END + behind == head + CRLF + (CRLF + behind)
  {
  }

  lemma PartSpelled(s: string, boundary: string) returns (p: RawPart, rest: string)
    requires PartAt(s, boundary, 0).Part?
    ensures IsPart(p, boundary, rest) && s == RawText(p, rest)
  {
    hide HeaderLines, GoodDisposition, RawHead, Fields, FirstAt, Find;
    var n := Find(s, HEADER_END, 0).value;
    FirstAtIs(s, HEADER_END, n);
    var k := Find(s, CRLF + boundary, n + 4).value;
    var headers := HeadSpells(s, n, PartHeaders("", ""));
    var behind := s[n + 4..];
    HeadCut(s, n);
    ContentCut(s, boundary, n + 4, k);
    p, rest := RawPart(headers, s[n + 4..k]), s[k + 2..];
    HeadReads(headers, CRLF + behind, PartHeaders("", ""));
    EndForm(s[..n], behind);
  }

  lemma HeadCut(s: string, n: nat)
    requires FirstAt(s, HEADER_END, n)
    ensures s == s[..n] + HEADER_END + s[n + 4..]
  {
    assert s[n..n + 4] == HEADER_END;
  }

  lemma ContentCut(s: string, boundary: string, start: nat, k: nat)
    requires start <= |s| && Find(s, CRLF + boundary, start) == Some(k)
    ensures start <= k && k + 2 + |boundary| <= |s|
    ensures s[start..] == s[start..k] + CRLF + s[k + 2..] && boundary <= s[k + 2..]
    ensures FirstAt(s[start..k] + CRLF + s[k + 2..], CRLF + boundary, k - start)
  {
    hide Find, OccursAt, FirstAt;
    var p, t := CRLF + boundary, s[start..];
    FindMeans(s, p, start);
    FirstBehind(s, p, start, k);
    FirstStands(t, p, k - start);
    StartsWith(t, CRLF, boundary, k - start);
    CutLine(s, start, k);
  }

  lemma FirstStands(s: string, p: string, k: nat)
    requires FirstAt(s, p, k)
    ensures OccursAt(s, p, k)
  {
  }

  lemma CutLine(s: string, start: nat, k: nat)
    requires start <= k && k + 2 <= |s| && OccursAt(s[start..], CRLF, k - start)
    ensures s[start..] == s[start..k] + CRLF + s[k + 2..]
    ensures s[start..][k - start + 2..] == s[k + 2..]
  {
    hide OccursAt;
    OccursCut(s[start..], CRLF, k - start);
    SlicesOfTail(s, start, k, 2);
  }

  lemma StartsWith(s: string, p: string, q: string, k: nat)
    requires OccursAt(s, p + q, k)
    ensures OccursAt(s, p, k) && q <= s[k + |p|..]
  {
    var both := s[k..k + |p| + |q|];
    assert both[..|p|] == p && both[|p|..] == q;
    assert s[k..k + |p|] == both[..|p|] && s[k + |p|..][..|q|] == both[|p|..];
  }

  lemma FirstBehind(s: string, p: string, start: nat, k: nat)
    requires start <= |s| && start <= k && OccursAt(s, p, k)
    requires forall j :: start <= j < k ==> !OccursAt(s, p, j)
    ensures FirstAt(s[start..], p, k - start)
  {
    var t := s[start..];
    assert s == s[..start] + t;
    OccursBehind(s[..start], t, p, k - start);
    forall j | 0 <= j < k - start ensures !OccursAt(t, p, j) {
      OccursBehind(s[..start], t, p, j);
      assert !OccursAt(s, p, start + j);
    }
  }

  // ---------- the body ----------

  /** The closing boundary, behind any text without one. */
  ghost predicate Closing(s: string, boundary: string, pre: string, after: string) {
    s == pre + (boundary + ("--" + after)) && FirstAt(s, boundary, |pre|)
  }

  /** A part behind a boundary, behind any text without one. */
  ghost predicate Opening(s: string, boundary: string, pre: string, p: RawPart, rest: string) {
    && s == pre + (boundary + (CRLF + RawText(p, rest))) && FirstAt(s, boundary, |pre|)
    && IsPart(p, boundary, rest)
  }

  ghost predicate IsForm(s: string, boundary: string, parts: seq<RawPart>)
    decreases |parts|
  {
    if parts == [] then exists pre, after :: Closing(s, boundary, pre, after)
    else exists pre, rest :: Opening(s, boundary, pre, parts[0], rest) && IsForm(rest, boundary, parts[1..])
  }

  /** The parts stored in a request one after the other. */
  function Stored(r: Request, parts: seq<RawPart>): Request
    decreases |parts|
  {
    if parts == [] then r
    else Stored(WithPart(r, Fields(PartHeaders("", ""), parts[0].headers), parts[0].content), parts[1..])
  }

  lemma ClosingRead(s: string, boundary: string, pre: string, after: string)
    requires Closing(s, boundary, pre, after)
    ensures NextPart(s, boundary, 0) == Closed
  {
    FirstAtIs(s, boundary, |pre|);
    hide Find, FirstAt, PartAt;
    BehindBoundary(s, pre, boundary, "--" + after);
    assert s[|pre| + |boundary|..][..2] == "--";
  }

  lemma BehindBoundary(s: string, pre: string, boundary: string, tail: string)
    requires s == pre + (boundary + tail)
    ensures s[|pre| + |boundary|..] == tail && s == (pre + boundary) + tail
    ensures |tail| >= 2 ==> s[|pre| + |boundary|..|pre| + |boundary| + 2] == tail[..2]
  {
  }

  lemma OpeningRead(s: string, boundary: string, pre: string, p: RawPart, rest: string)
    requires Opening(s, boundary, pre, p, rest)
    ensures NextPart(s, boundary, 0) == Part(Fields(PartHeaders("", ""), p.headers), p.content, |s| - |rest|)
    ensures |rest| <= |s| && s[|s| - |rest|..] == rest
  {
    hide Find, FirstAt, PartAt, IsPart, Fields, RawText, NextPart, OccursAt;
    FirstAtIs(s, boundary, |pre|);
    var text := RawText(p, rest);
    RestOfText(p, rest);
    PartRead(p, boundary, rest);
    var front := TextBehind(s, pre, boundary, text);
    NextPartOpens(s, boundary, |pre|);
    PartAtShift(front, text, boundary, 0);
    EndBehind(s, front, text, rest);
  }

  lemma NextPartOpens(s: string, boundary: string, k: nat)
    requires Find(s, boundary, 0) == Some(k)
    requires OccursAt(s, CRLF, k + |boundary|) && !OccursAt(s, "--", k + |boundary|)
    ensures NextPart(s, boundary, 0) == PartAt(s, boundary, k + |boundary| + 2)
  {
    hide Find, OccursAt, PartAt;
  }

  lemma TextBehind(s: string, pre: string, boundary: string, text: string) returns (front: string)
    requires s == pre + (boundary + (CRLF + text))
    ensures s == front + text && |front| == |pre| + |boundary| + 2
    ensures OccursAt(s, CRLF, |pre| + |boundary|) && !OccursAt(s, "--", |pre| + |boundary|)
  {
    front := pre + boundary + CRLF;
    var i := |pre| + |boundary|;
    assert s[i..i + 2] == CRLF;
    assert s[i..i + 2][0] == '\r' && "--"[0] == '-';
  }

  lemma EndBehind(s: string, front: string, text: string, rest: string)
    requires s == front + text && |rest| <= |text| && text[|text| - |rest|..] == rest
    ensures s[|s| - |rest|..] == rest
  {
  }

  lemma RestOfText(p: RawPart, rest: string)
    ensures |rest| <= |RawText(p, rest)| && RawText(p, rest)[|RawText(p, rest)| - |rest|..] == rest
  {
    hide RawHead;
  }

  lemma BoundaryCut(s: string, boundary: string, k: nat, mark: string)
    requires FirstAt(s, boundary, k) && |mark| == 2 && OccursAt(s, mark, k + |boundary|)
    ensures var after := s[k + |boundary| + 2..]; s == s[..k] + (boundary + (mark + after))
  {
    var i := k + |boundary|;
    FirstStands(s, boundary, k);
    hide FirstAt, OccursAt;
    OccursCut(s, boundary, k);
    OccursCut(s, mark, i);
    Regroup(s, boundary, k, mark);
  }

  lemma Regroup(s: string, p: string, k: nat, mark: string)
    requires k + |p| + |mark| <= |s|
    requires s == s[..k] + p + s[k + |p|..]
    requires s == s[..k + |p|] + mark + s[k + |p| + |mark|..]
    ensures s == s[..k] + (p + (mark + s[k + |p| + |mark|..]))
  {
    assert s[k + |p|..] == mark + s[k + |p| + |mark|..];
  }

  lemma ClosedSpelled(s: string, boundary: string) returns (pre: string, after: string)
    requires NextPart(s, boundary, 0) == Closed
    ensures Closing(s, boundary, pre, after)
  {
    hide Find, PartAt, FirstAt;
    var k := Find(s, boundary, 0).value;
    FirstAtIs(s, boundary, k);
    BoundaryCut(s, boundary, k, "--");
    pre, after := s[..k], s[k + |boundary| + 2..];
  }

  lemma OpenSpelled(s: string, boundary: string) returns (pre: string, p: RawPart, rest: string)
    requires NextPart(s, boundary, 0).Part?
    ensures Opening(s, boundary, pre, p, rest)
  {
    hide Find, PartAt, FirstAt, IsPart;
    var k := Find(s, boundary, 0).value;
    FirstAtIs(s, boundary, k);
    BoundaryCut(s, boundary, k, CRLF);
    pre := s[..k];
    var text := s[k + |boundary| + 2..];
    assert s == s[..k + |boundary| + 2] + text;
    PartAtShift(s[..k + |boundary| + 2], text, boundary, 0);
    p, rest := PartSpelled(text, boundary);
  }

  /** What lies before the cursor does not matter. */
  lemma {:induction false} PartsShift(pre: string, s: string, boundary: string, cursor: nat, r: Request)
    requires cursor <= |s|
    ensures Parts(pre + s, boundary, |pre| + cursor, r) == Parts(s, boundary, cursor, r)
    decreases |s| - cursor
  {
    hide NextPart, WithPart;
    var behind := s[cursor..];
    assert s == s[..cursor] + behind && pre + s == (pre + s[..cursor]) + behind;
    NextPartShift(s[..cursor], behind, boundary);
    NextPartShift(pre + s[..cursor], behind, boundary);
    match NextPart(s, boundary, cursor) {
      case Part(h, content, next) =>
        PartsShift(pre, s, boundary, next, WithPart(r, h, content));
      case _ =>
    }
  }

  lemma PartsFrom(s: string, boundary: string, cursor: nat, r: Request)
    requires cursor <= |s|
    ensures Parts(s, boundary, cursor, r) == Parts(s[cursor..], boundary, 0, r)
  {
    assert s == s[..cursor] + s[cursor..];
    PartsShift(s[..cursor], s[cursor..], boundary, 0, r);
  }

  /** Every form is accepted and stored. */
  lemma {:induction false} FormIsRead(s: string, boundary: string, parts: seq<RawPart>, r: Request)
    requires IsForm(s, boundary, parts)
    ensures Parts(s, boundary, 0, r) == (true, Stored(r, parts))
    decreases |parts|
  {
    hide NextPart, Closing, Opening, WithPart, Fields;
    if parts == [] {
      var pre, after :| Closing(s, boundary, pre, after);
      ClosingRead(s, boundary, pre, after);
    } else {
      var pre, rest :| Opening(s, boundary, pre, parts[0], rest) && IsForm(rest, boundary, parts[1..]);
      OpeningRead(s, boundary, pre, parts[0], rest);
      var r' := WithPart(r, Fields(PartHeaders("", ""), parts[0].headers), parts[0].content);
      FormIsRead(rest, boundary, parts[1..], r');
      PartsFrom(s, boundary, |s| - |rest|, r');
    }
  }

  /** And nothing else is accepted. */
  lemma {:induction false} ReadIsForm(s: string, boundary: string, r: Request) returns (parts: seq<RawPart>)
    requires Parts(s, boundary, 0, r).0
    ensures IsForm(s, boundary, parts)
    decreases |s|
  {
    hide NextPart, Closing, Opening, WithPart, Fields;
    if NextPart(s, boundary, 0) == Closed {
      parts := [];
      var pre, after := ClosedSpelled(s, boundary);
      assert Closing(s, boundary, pre, after);
    } else {
      var pre, p, rest := OpenSpelled(s, boundary);
      OpeningRead(s, boundary, pre, p, rest);
      var r' := WithPart(r, Fields(PartHeaders("", ""), p.headers), p.content);
      PartsFrom(s, boundary, |s| - |rest|, r');
      var more := ReadIsForm(rest, boundary, r');
      parts := [p] + more;
      assert parts[1..] == more && parts[0] == p;
      assert Opening(s, boundary, pre, parts[0], rest) && IsForm(rest, boundary, parts[1..]);
    }
  }

  /** Exactly the requests whose body is accepted: those that declare no form, and those with a
      boundary and a form under it. */
  ghost predicate AcceptableBody(r: Request) {
    var contentType := HeaderValue(r.headers, "Content-Type");
    Contains(contentType, "multipart/form-data") ==>
      && ParameterValue(contentType, "boundary") != ""
      && exists parts :: IsForm(r.body, "--" + ParameterValue(contentType, "boundary"), parts)
  }

  lemma MultipartMeaning(r: Request)
    ensures Multipart(r).0 <==> AcceptableBody(r)
  {
    hide Parts, IsForm, ParameterValue, Find;
    var contentType := HeaderValue(r.headers, "Content-Type");
    var boundary := "--" + ParameterValue(contentType, "boundary");
    if Parts(r.body, boundary, 0, r).0 {
      var parts := ReadIsForm(r.body, boundary, r);
    }
    if exists parts :: IsForm(r.body, boundary, parts) {
      var parts :| IsForm(r.body, boundary, parts);
      FormIsRead(r.body, boundary, parts, r);
    }
  }
}
