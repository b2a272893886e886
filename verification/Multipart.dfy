/** Multipart form bodies as a client prints them (RFC 7578 section 4), and the round trip. */
module MultipartForms {
  import opened Text
  import opened HttpRequests
  import opened HttpParsing
  import opened HttpPrinting

  datatype FormPart =
    | Field(name: string, content: string)
    | File(name: string, fileName: string, contentType: string, content: string)

  const FORM := "form-data; name=\""

  /** What follows the closing quote of the name. */
  function Behind(p: FormPart): string {
    if p.File? then "; " + "filename=" + ("\"" + p.fileName + "\"") else ""
  }

  function Disposition(p: FormPart): string {
    FORM + p.name + "\"" + Behind(p)
  }

  function HeadLines(p: FormPart): seq<Header> {
    [Header("Content-Disposition", Disposition(p))]
    + (if p.File? then [Header("Content-Type", p.contentType)] else [])
  }

  /** Header lines separated, not ended, by line breaks. */
  function HeadText(headers: seq<Header>): string
    requires headers != []
  {
    if |headers| == 1 then HeaderLine(headers[0])
    else HeaderLine(headers[0]) + CRLF + HeadText(headers[1..])
  }

  /** A part without the boundary in front of it; the line break at the end belongs to the next boundary. */
  function PartText(p: FormPart): string {
    CRLF + HeadText(HeadLines(p)) + HEADER_END + p.content + CRLF
  }

  function BodyText(parts: seq<FormPart>, boundary: string): string {
    if parts == [] then boundary + "--" + CRLF
    else boundary + PartText(parts[0]) + BodyText(parts[1..], boundary)
  }

  ghost predicate WellFormedName(name: string) {
    name != "" && '"' !in name && OneLine(name) && !Contains(name, "filename=")
  }

  /** `boundary` is the delimiter with its two leading dashes. */
  ghost predicate WellFormedPart(p: FormPart, boundary: string) {
    && WellFormedName(p.name)
    && !Contains(p.content, CRLF + boundary)
    && (p.File? ==>
          && p.fileName != "" && '"' !in p.fileName && OneLine(p.fileName)
          && Stripped(p.contentType, IsBlank) && OneLine(p.contentType))
  }

  /** What the parts amount to in a request: fields by name, the last one winning, files in order. */
  function WithParts(r: Request, parts: seq<FormPart>): Request
    decreases |parts|
  {
    if parts == [] then r
    else
      match parts[0]
      case Field(name, content) => WithParts(r.(bodyForm := r.bodyForm[name := content]), parts[1..])
      case File(name, file, contentType, content) =>
        WithParts(r.(files := r.files + [UploadedFile(name, file, contentType, content)]), parts[1..])
  }

  // ---------- searching ----------

  lemma OccursPoint(s: string, p: string, k: int, i: int)
    requires 0 <= i < |p| && 0 <= k
    ensures OccursAt(s, p, k) ==> k + i < |s| && s[k + i] == p[i]
  {
    if k + |p| <= |s| {
      assert s[k..k + |p|][i] == s[k + i];
    }
  }

  /** A pattern whose first character does not occur before it is found there. */
  lemma FindAfter(pre: string, p: string, post: string)
    requires p != "" && p[0] !in pre
    ensures Find(pre + p + post, p, 0) == Some(|pre|)
  {
    var s := pre + p + post;
    assert s[|pre|..|pre| + |p|] == p;
    forall j | 0 <= j < |pre| ensures !OccursAt(s, p, j) {
      OccursPoint(s, p, j, 0);
    }
    FindIs(s, p, 0, |pre|);
  }

  /** A delimiter that starts with a carriage return and has no other one cannot begin inside the
      content and end in the delimiter behind it. */
  lemma FindDelimiter(content: string, delimiter: string, post: string)
    requires |delimiter| > 1 && delimiter[0] == '\r' && '\r' !in delimiter[1..]
    requires !Contains(content, delimiter)
    ensures Find(content + delimiter + post, delimiter, 0) == Some(|content|)
  {
    var s := content + delimiter + post;
    assert s[|content|..|content| + |delimiter|] == delimiter;
    FindMeans(content, delimiter, 0);
    forall j | 0 <= j < |content| ensures !OccursAt(s, delimiter, j) {
      if j + |delimiter| <= |content| {
        assert s == content + (delimiter + post);
        OccursInPrefix(content, delimiter + post, delimiter, j);
        assert !OccursAt(content, delimiter, j);
      } else {
        assert delimiter[|content| - j] == delimiter[1..][|content| - j - 1] != '\r';
        OccursPoint(s, delimiter, j, |content| - j);
      }
    }
    FindIs(s, delimiter, 0, |content|);
  }

  lemma OneLineHead(line: string, post: string)
    requires OneLine(line)
    ensures Find(line + HEADER_END + post, HEADER_END, 0) == Some(|line|)
  {
    var s := line + HEADER_END + post;
    assert s == line + CRLF + (CRLF + post);
    FindLineEnd(line, CRLF + post);
    FindMeans(s, CRLF, 0);
    assert s[|line|..|line| + 4] == HEADER_END;
    forall j | 0 <= j < |line| ensures !OccursAt(s, HEADER_END, j) {
      OccursPoint(s, HEADER_END, j, 0);
      OccursPoint(s, HEADER_END, j, 1);
      OccursCrlf(s, j);
      assert !OccursAt(s, CRLF, j);
    }
    FindIs(s, HEADER_END, 0, |line|);
  }

  /** Behind two non-empty lines the double line break is the first one. */
  lemma TwoLineHead(first: string, last: string, post: string)
    requires OneLine(first) && OneLine(last) && last != ""
    ensures Find(first + CRLF + last + HEADER_END + post, HEADER_END, 0) == Some(|first| + 2 + |last|)
  {
    var s := first + CRLF + last + HEADER_END + post;
    var m, n := |first|, |first| + 2 + |last|;
    assert s[n..n + 4] == HEADER_END;
    assert s[0..m] == first && s[m] == '\r' && s[m + 1] == '\n';
    assert s[m + 2..m + 2 + |last|] == last && s[n] == '\r';
    forall j | 0 <= j < n ensures !OccursAt(s, HEADER_END, j) {
      var k := if j == m then j + 2 else j;
      OccursPoint(s, HEADER_END, j, k - j);
      OccursPoint(s, HEADER_END, j, k - j + 1);
      if k < m {
        BreakPositions(first, s, 0, k);
      } else if k >= m + 2 {
        BreakPositions(last, s, m + 2, k);
      }
    }
    FindIs(s, HEADER_END, 0, n);
  }

  /** No line break starts inside a one-line stretch that a carriage return follows. */
  lemma BreakPositions(line: string, s: string, at: nat, j: nat)
    requires OneLine(line) && at + |line| < |s| && s[at..at + |line|] == line && s[at + |line|] == '\r'
    requires at <= j < at + |line|
    ensures !(s[j] == '\r' && s[j + 1] == '\n')
  {
    OccursCrlf(line, j - at);
    assert !OccursAt(line, CRLF, j - at);
    assert forall i :: 0 <= i < |line| ==> line[i] == s[at..at + |line|][i] == s[at + i];
  }

  // ---------- parameters of the disposition ----------

  lemma QuotedValue(pre: string, name: string, text: string, post: string)
    requires Find(pre + name + "=" + "\"" + text + "\"" + post, name + "=", 0) == Some(|pre|)
    requires '"' !in text
    ensures ParameterValue(pre + name + "=" + "\"" + text + "\"" + post, name) == text
  {
    hide Find;
    var value := pre + name + "=" + "\"" + text + "\"" + post;
    var pos := |pre| + |name| + 1;
    assert value[pos] == '"';
    var behind := text + ['"'] + post;
    var front := pre + name + "=" + "\"";
    assert value == front + behind;
    FindChar(text, '"', post);
    FindShift(front, behind, "\"", 0);
    assert |front| == pos + 1;
    assert value[pos + 1..pos + 1 + |text|] == text;
  }

  lemma Regroup(a: string, b: string, c: string, d: string, e: string)
    ensures a + b + c + d == a + (b + c + d)
    ensures a + b + (c + d + e) == (a + (b + c)) + d + e
  {
  }

  /** The disposition cut at the name, and at the file name. */
  lemma DispositionForms(p: FormPart)
    ensures Disposition(p) == "form-data; " + "name" + "=" + "\"" + p.name + "\"" + Behind(p)
    ensures Disposition(p) == "form-data; " + "name=" + ("\"" + p.name + "\"" + Behind(p))
    ensures p.File? ==>
              Disposition(p) == (FORM + p.name + "\"; ") + "filename=" + ("\"" + p.fileName + "\"")
    ensures p.File? ==>
              Disposition(p) == FORM + p.name + "\"; " + "filename" + "=" + "\"" + p.fileName + "\"" + ""
  {
    assert FORM == "form-data; " + "name" + "=" + "\"";
    assert FORM == ("form-data; " + "name=") + "\"";
    Regroup("form-data; " + "name=", "\"" + p.name, "\"", Behind(p), "");
    Regroup("form-data; " + "name=", "\"", p.name, "\"", "");
    if p.File? {
      assert "\"" + "; " == "\"; ";
      assert "filename" + "=" == "filename=";
      var a := FORM + p.name;
      Regroup(a, "\"", "; ", "filename=", "\"" + p.fileName + "\"");
      Regroup(a, "\"", "; ", "", "");
      FileForm(a + "\"; ", p.fileName);
    }
  }

  lemma FileForm(a: string, file: string)
    ensures a + "filename=" + ("\"" + file + "\"") == a + "filename" + "=" + "\"" + file + "\"" + ""
  {
    assert a + "filename" + "=" == a + "filename=";
  }

  lemma NameParameter(p: FormPart)
    requires WellFormedName(p.name)
    ensures ParameterValue(Disposition(p), "name") == p.name
  {
    DispositionForms(p);
    FindAfter("form-data; ", "name=", "\"" + p.name + "\"" + Behind(p));
    assert "name" + "=" == "name=";
    QuotedValue("form-data; ", "name", p.name, Behind(p));
  }

  /** Up to the closing quote of the name nothing reads `filename=`. */
  lemma NoFileNameInName(name: string, post: string, j: nat)
    requires WellFormedName(name) && j <= |FORM| + |name|
    ensures !OccursAt(FORM + name + "\"" + post, "filename=", j)
  {
    hide Find;
    var key := "filename=";
    var s := FORM + name + "\"" + post;
    var quote := |FORM| + |name|;
    FindMeans(name, key, 0);
    if j < |FORM| {
      OccursPoint(s, key, j, 0);
      OccursPoint(s, key, j, 1);
      assert s[j] == FORM[j];
      assert s[1] == FORM[1];
    } else if j + |key| <= quote {
      var k := j - |FORM|;
      assert s[j..j + |key|] == name[k..k + |key|];
      assert !OccursAt(name, key, k);
    } else {
      OccursPoint(s, key, j, quote - j);
      assert s[quote] == '"';
    }
  }

  lemma NoFileName(p: FormPart)
    requires WellFormedName(p.name) && p.Field?
    ensures ParameterValue(Disposition(p), "filename") == ""
  {
    var s, key := Disposition(p), "filename=";
    assert "filename" + "=" == key;
    forall j | 0 <= j ensures !OccursAt(s, key, j) {
      if j <= |FORM| + |p.name| {
        NoFileNameInName(p.name, "", j);
      }
    }
    FindMeans(s, key, 0);
  }

  lemma FileNameParameter(p: FormPart)
    requires WellFormedName(p.name) && p.File? && '"' !in p.fileName
    ensures ParameterValue(Disposition(p), "filename") == p.fileName
  {
    var s, key := Disposition(p), "filename=";
    var pre := FORM + p.name + "\"; ";
    var quote := |FORM| + |p.name|;
    DispositionForms(p);
    assert s[quote + 1] == ';' && s[quote + 2] == ' ' && |pre| == quote + 3;
    forall j | 0 <= j < |pre| ensures !OccursAt(s, key, j) {
      if j <= quote {
        NoFileNameInName(p.name, Behind(p), j);
      } else {
        OccursPoint(s, key, j, 0);
      }
    }
    assert s[|pre|..|pre| + |key|] == key;
    FindIs(s, key, 0, |pre|);
    assert "filename" + "=" == key;
    QuotedValue(pre, "filename", p.fileName, "");
  }

  lemma DispositionAccepted(p: FormPart)
    requires WellFormedName(p.name)
    ensures Stripped(Disposition(p), IsBlank) && Contains(Disposition(p), "form-data")
  {
    var s := Disposition(p);
    assert s[0] == FORM[0] == 'f';
    assert p.File? ==> Behind(p)[|Behind(p)| - 1] == '"';
    assert s[|s| - 1] == '"';
    assert s[0..9] == FORM[0..9] == "form-data";
    assert OccursAt(s, "form-data", 0);
  }

  // ---------- the headers of a part ----------

  lemma LineShift(pre: string, s: string, lineStart: nat, headerEnd: nat)
    requires lineStart <= headerEnd <= |s|
    ensures var e := LineEnd(s, lineStart, headerEnd);
            var e' := LineEnd(pre + s, |pre| + lineStart, |pre| + headerEnd);
            e' == |pre| + e && (pre + s)[|pre| + lineStart..e'] == s[lineStart..e]
  {
    FindShift(pre, s, CRLF, lineStart);
  }

  lemma {:induction false} HeaderLinesShift(pre: string, s: string, lineStart: nat, headerEnd: nat, h: PartHeaders)
    requires headerEnd <= |s|
    ensures HeaderLines(pre + s, |pre| + lineStart, |pre| + headerEnd, h) == HeaderLines(s, lineStart, headerEnd, h)
    decreases headerEnd - lineStart
  {
    hide LineEnd, WithPartHeader, Strip;
    if lineStart < headerEnd {
      LineShift(pre, s, lineStart, headerEnd);
      var lineEnd := LineEnd(s, lineStart, headerEnd);
      var line := s[lineStart..lineEnd];
      var colon := Find(line, ":", 0);
      if colon.Some? {
        var h' := WithPartHeader(h, Lower(line[..colon.value]), Strip(line[colon.value + 1..], IsBlank));
        HeaderLinesShift(pre, s, lineEnd + 2, headerEnd, h');
        assert |pre| + (lineEnd + 2) == |pre| + lineEnd + 2;
      }
    }
  }

  /** The first line of a head is read as the header it prints. */
  lemma PartLine(x: Header, post: string, headerEnd: nat, h: PartHeaders)
    requires WellFormedHeader(x) && Stripped(x.value, IsBlank)
    requires |HeaderLine(x)| <= headerEnd <= |HeaderLine(x) + CRLF + post|
    ensures HeaderLines(HeaderLine(x) + CRLF + post, 0, headerEnd, h)
         == HeaderLines(HeaderLine(x) + CRLF + post, |HeaderLine(x)| + 2, headerEnd,
                        WithPartHeader(h, Lower(x.name), x.value))
  {
    hide Find;
    var line := HeaderLine(x);
    FindLineEnd(line, post);
    assert (line + CRLF + post)[0..|line|] == line;
    FindChar(x.name, ':', " " + x.value);
    assert line == x.name + [':'] + (" " + x.value);
    assert line[..|x.name|] == x.name && line[|x.name| + 1..] == [' '] + x.value;
    StripPadded(' ', x.value, IsBlank);
  }

  lemma BehindOneLine(p: FormPart)
    requires p.File? ==> OneLine(p.fileName)
    ensures OneLine(Behind(p)) && (Behind(p) != "" ==> Behind(p)[0] == ';')
  {
    if p.File? {
      var key := "; " + "filename=" + "\"";
      OneLineWithoutFeed(key);
      OneLineJoin(key, p.fileName);
      OneLineWithoutFeed("\"");
      OneLineJoin(key + p.fileName, "\"");
      assert Behind(p) == key + p.fileName + "\"";
    } else {
      OneLineWithoutFeed("");
    }
  }

  lemma DispositionOneLine(p: FormPart)
    requires OneLine(p.name) && (p.File? ==> OneLine(p.fileName))
    ensures OneLine("Content-Disposition: " + Disposition(p))
  {
    var pre := "Content-Disposition: " + FORM;
    OneLineWithoutFeed(pre);
    OneLineJoin(pre, p.name);
    OneLineWithoutFeed("\"");
    OneLineJoin(pre + p.name, "\"");
    BehindOneLine(p);
    OneLineJoin(pre + p.name + "\"", Behind(p));
    assert pre + p.name + "\"" + Behind(p) == "Content-Disposition: " + Disposition(p);
  }

  lemma HeaderOneLine(name: string, value: string)
    requires '\n' !in name && ':' !in name && OneLine(name + ": " + value)
    ensures WellFormedHeader(Header(name, value))
  {
    assert HeaderLine(Header(name, value)) == name + ": " + value;
  }

  lemma HeadersWellFormed(p: FormPart, boundary: string)
    requires WellFormedPart(p, boundary)
    ensures WellFormedHeader(HeadLines(p)[0]) && Stripped(HeadLines(p)[0].value, IsBlank)
    ensures p.File? ==> WellFormedHeader(HeadLines(p)[1]) && Stripped(HeadLines(p)[1].value, IsBlank)
  {
    hide Disposition, WellFormedHeader, OneLine;
    DispositionAccepted(p);
    DispositionOneLine(p);
    assert "Content-Disposition" + ": " == "Content-Disposition: ";
    HeaderOneLine("Content-Disposition", Disposition(p));
    if p.File? {
      TypeOneLine(p.contentType);
    }
  }

  lemma TypeOneLine(contentType: string)
    requires OneLine(contentType)
    ensures WellFormedHeader(Header("Content-Type", contentType))
  {
    OneLineWithoutFeed("Content-Type" + ": ");
    OneLineJoin("Content-Type" + ": ", contentType);
    HeaderOneLine("Content-Type", contentType);
  }

  lemma HeaderLinesDone(body: string, lineStart: nat, headerEnd: nat, h: PartHeaders)
    requires headerEnd <= |body| && headerEnd <= lineStart
    ensures HeaderLines(body, lineStart, headerEnd, h) == Some(h)
  {
  }

  function HeadersOf(p: FormPart): PartHeaders {
    PartHeaders(Disposition(p), if p.File? then p.contentType else "")
  }

  /** A printed head is read back. */
  lemma HeadRoundTrip(p: FormPart, boundary: string, post: string)
    requires WellFormedPart(p, boundary)
    ensures var head := HeadText(HeadLines(p));
            && Find(head + HEADER_END + post, HEADER_END, 0) == Some(|head|)
            && HeaderLines(head + HEADER_END + post, 0, |head|, PartHeaders("", "")) == Some(HeadersOf(p))
  {
    if p.Field? {
      OneHead(p, boundary, post);
    } else {
      TwoHeads(p, boundary, post);
    }
  }

  lemma HeadEndForm(line: string, post: string)
    ensures line + HEADER_END + post == line + CRLF + (CRLF + post)
  {
  }

  lemma KeyNames()
    ensures Lower("Content-Disposition") == "content-disposition"
    ensures Lower("Content-Type") == "content-type"
  {
  }

  lemma OneHead(p: FormPart, boundary: string, post: string)
    requires p.Field? && WellFormedPart(p, boundary)
    ensures var head := HeadText(HeadLines(p));
            && Find(head + HEADER_END + post, HEADER_END, 0) == Some(|head|)
            && HeaderLines(head + HEADER_END + post, 0, |head|, PartHeaders("", "")) == Some(HeadersOf(p))
  {
    HeadersWellFormed(p, boundary);
    hide Find, HeaderLines, Disposition;
    var x := HeadLines(p)[0];
    var line := HeaderLine(x);
    OneLineHead(line, post);
    var behind := CRLF + post;
    HeadEndForm(line, post);
    KeyNames();
    PartLine(x, behind, |line|, PartHeaders("", ""));
    HeaderLinesDone(line + CRLF + behind, |line| + 2, |line|, HeadersOf(p));
  }

  lemma TwoHeads(p: FormPart, boundary: string, post: string)
    requires p.File? && WellFormedPart(p, boundary)
    ensures var head := HeadText(HeadLines(p));
            && Find(head + HEADER_END + post, HEADER_END, 0) == Some(|head|)
            && HeaderLines(head + HEADER_END + post, 0, |head|, PartHeaders("", "")) == Some(HeadersOf(p))
  {
    hide Find, HeaderLines, Disposition;
    HeadersWellFormed(p, boundary);
    var headers, head := HeadLines(p), HeadText(HeadLines(p));
    var first, last := HeaderLine(headers[0]), HeaderLine(headers[1]);
    assert HeadText(headers[1..]) == last;
    assert head == first + CRLF + last;
    TwoLineHead(first, last, post);
    var behind := last + CRLF + (CRLF + post);
    assert head + HEADER_END + post == first + CRLF + behind;
    KeyNames();
    PartLine(headers[0], behind, |head|, PartHeaders("", ""));
    var h := PartHeaders(Disposition(p), "");
    PartLine(headers[1], CRLF + post, |last|, h);
    HeaderLinesShift(first + CRLF, behind, 0, |last|, h);
    HeaderLinesDone(behind, |last| + 2, |last|, HeadersOf(p));
  }

  // ---------- the parts ----------

  /** The parser's view of the next part does not depend on what lies before the cursor. */
  lemma NextPartShift(pre: string, s: string, boundary: string)
    ensures NextPart(pre + s, boundary, |pre|) == Moved(NextPart(s, boundary, 0), |pre|)
  {
    hide Find, OccursAt, PartAt;
    FindShift(pre, s, boundary, 0);
    var marker := Find(s, boundary, 0);
    if marker.Some? {
      var partStart := marker.value + |boundary|;
      OccursBehind(pre, s, "--", partStart);
      OccursBehind(pre, s, CRLF, partStart);
      PartAtShift(pre, s, boundary, partStart + 2);
      assert |pre| + (partStart + 2) == (|pre| + partStart) + 2;
    }
  }

  function Moved(t: PartTurn, ahead: nat): PartTurn {
    match t
    case Part(h, content, next) => Part(h, content, ahead + next)
    case _ => t
  }

  lemma PartAtShift(pre: string, s: string, boundary: string, start: nat)
    ensures PartAt(pre + s, boundary, |pre| + start) == Moved(PartAt(s, boundary, start), |pre|)
  {
    hide Find, HeaderLines, GoodDisposition;
    FindShift(pre, s, HEADER_END, start);
    var headerEnd := Find(s, HEADER_END, start);
    if headerEnd.Some? {
      FindShift(pre, s, CRLF + boundary, headerEnd.value + 4);
      HeaderLinesShift(pre, s, start, headerEnd.value, PartHeaders("", ""));
      var next := Find(s, CRLF + boundary, headerEnd.value + 4);
      if next.Some? {
        assert (pre + s)[|pre| + headerEnd.value + 4..|pre| + next.value] == s[headerEnd.value + 4..next.value];
      }
    }
  }

  ghost predicate GoodBoundary(boundary: string) {
    boundary != "" && '\r' !in boundary
  }

  /** A printed part in front of the next boundary is read back, and the cursor comes to stand on
      that boundary. */
  lemma NextPartRoundTrip(p: FormPart, boundary: string, post: string)
    requires GoodBoundary(boundary) && WellFormedPart(p, boundary)
    ensures NextPart(boundary + PartText(p) + (boundary + post), boundary, 0)
         == Part(HeadersOf(p), p.content, |boundary + PartText(p)|)
  {
    hide Find, PartAt, PartText, HeadText, WellFormedPart;
    var s := boundary + PartText(p) + (boundary + post);
    var front := boundary + CRLF;
    var rest := HeadText(HeadLines(p)) + HEADER_END + (p.content + (CRLF + boundary) + post);
    PartForm(p, boundary, post);
    FirstBoundary(s, boundary, rest);
    PartAtRoundTrip(p, boundary, post);
    PartAtShift(front, rest, boundary, 0);
  }

  lemma FirstBoundary(s: string, boundary: string, rest: string)
    requires s == boundary + CRLF + rest
    ensures Find(s, boundary, 0) == Some(0) && s[|boundary|..|boundary| + 2] == CRLF
  {
    assert s[..|boundary|] == boundary && OccursAt(s, boundary, 0);
    FindIs(s, boundary, 0, 0);
  }

  lemma PartForm(p: FormPart, boundary: string, post: string)
    ensures boundary + PartText(p) + (boundary + post)
         == boundary + CRLF + (HeadText(HeadLines(p)) + HEADER_END + (p.content + (CRLF + boundary) + post))
    ensures |PartText(p)| == 2 + |HeadText(HeadLines(p))| + 4 + |p.content| + 2
  {
    PartRegroup(boundary, HeadText(HeadLines(p)), p.content, post);
  }

  lemma PartRegroup(boundary: string, head: string, content: string, post: string)
    ensures boundary + (CRLF + head + HEADER_END + content + CRLF) + (boundary + post)
         == boundary + CRLF + (head + HEADER_END + (content + (CRLF + boundary) + post))
  {
    var tail := content + CRLF + boundary + post;
    assert content + (CRLF + boundary) + post == tail;
    assert (CRLF + head + HEADER_END + content + CRLF) + (boundary + post) == CRLF + (head + HEADER_END + tail);
  }

  lemma PartAtRoundTrip(p: FormPart, boundary: string, post: string)
    requires GoodBoundary(boundary) && WellFormedPart(p, boundary)
    ensures PartAt(HeadText(HeadLines(p)) + HEADER_END + (p.content + (CRLF + boundary) + post), boundary, 0)
         == Part(HeadersOf(p), p.content, |HeadText(HeadLines(p))| + 4 + |p.content| + 2)
  {
    hide Find, HeaderLines, HeadText, Disposition, ParameterValue;
    var head := HeadText(HeadLines(p));
    var behind := p.content + (CRLF + boundary) + post;
    var s := head + HEADER_END + behind;
    HeadRoundTrip(p, boundary, behind);
    FindDelimiter(p.content, CRLF + boundary, post);
    FindShift(head + HEADER_END, behind, CRLF + boundary, 0);
    assert s[|head| + 4..|head| + 4 + |p.content|] == p.content;
    DispositionAccepted(p);
    NameParameter(p);
  }

  function WithOne(r: Request, p: FormPart): Request {
    WithPart(r, HeadersOf(p), p.content)
  }

  lemma WithOneMeaning(r: Request, p: FormPart)
    requires WellFormedName(p.name) && (p.File? ==> p.fileName != "" && '"' !in p.fileName)
    ensures WithOne(r, p) == WithParts(r, [p])
  {
    NameParameter(p);
    if p.File? {
      FileNameParameter(p);
    } else {
      NoFileName(p);
    }
  }

  // ---------- the body ----------

  ghost predicate WellFormedParts(parts: seq<FormPart>, boundary: string) {
    forall i :: 0 <= i < |parts| ==> WellFormedPart(parts[i], boundary)
  }

  lemma ClosingRoundTrip(boundary: string)
    requires GoodBoundary(boundary)
    ensures NextPart(BodyText([], boundary), boundary, 0) == Closed
  {
    var s := BodyText([], boundary);
    assert s[0..|boundary|] == boundary && s[|boundary|..|boundary| + 2] == "--";
    FindIs(s, boundary, 0, 0);
  }

  lemma FirstPart(parts: seq<FormPart>, boundary: string)
    requires GoodBoundary(boundary) && parts != [] && WellFormedPart(parts[0], boundary)
    ensures NextPart(BodyText(parts, boundary), boundary, 0)
         == Part(HeadersOf(parts[0]), parts[0].content, |boundary + PartText(parts[0])|)
  {
    hide NextPart, PartText;
    var next := BodyText(parts[1..], boundary);
    assert next == boundary + next[|boundary|..];
    NextPartRoundTrip(parts[0], boundary, next[|boundary|..]);
    assert BodyText(parts, boundary) == boundary + PartText(parts[0]) + next;
  }

  /** Printing a form then parsing it, behind whatever the parser has already passed: every part
      comes back byte for byte. */
  lemma {:induction false} PartsRoundTrip(pre: string, parts: seq<FormPart>, boundary: string, r: Request)
    requires GoodBoundary(boundary) && WellFormedParts(parts, boundary)
    ensures Parts(pre + BodyText(parts, boundary), boundary, |pre|, r) == (true, WithParts(r, parts))
    decreases |parts|
  {
    hide NextPart, PartText, WithPart;
    var s := BodyText(parts, boundary);
    NextPartShift(pre, s, boundary);
    if parts == [] {
      ClosingRoundTrip(boundary);
    } else {
      FirstPart(parts, boundary);
      var pre' := pre + (boundary + PartText(parts[0]));
      assert pre + s == pre' + BodyText(parts[1..], boundary);
      WithOneMeaning(r, parts[0]);
      PartsRoundTrip(pre', parts[1..], boundary, WithOne(r, parts[0]));
    }
  }

  // ---------- the declared boundary ----------

  const FORM_TYPE := "multipart/form-data; boundary="

  /** A content type that declares a form with the boundary `token`, in whatever way. */
  ghost predicate Declares(contentType: string, token: string) {
    && Contains(contentType, "multipart/form-data") && ParameterValue(contentType, "boundary") == token
    && token != "" && '\r' !in token
  }

  lemma FormType(more: string)
    ensures Contains(FORM_TYPE + more, "multipart/form-data")
    ensures Find(FORM_TYPE + more, "boundary=", 0) == Some(|FORM_TYPE| - 9)
  {
    hide Find;
    var s, pre := FORM_TYPE + more, "multipart/form-data; ";
    FindMeans(s, "multipart/form-data", 0);
    assert s[0..19] == FORM_TYPE[0..19] == "multipart/form-data";
    assert OccursAt(s, "multipart/form-data", 0);
    assert FORM_TYPE == pre + "boundary=";
    FindAfter(pre, "boundary=", more);
  }

  /** A bare boundary, up to the end or the next parameter. */
  lemma BareBoundary(token: string, more: string)
    requires token != "" && token[0] != '"' && ';' !in token && '\r' !in token && Stripped(token, IsBlank)
    requires more == "" || more[0] == ';'
    ensures Declares(FORM_TYPE + (token + more), token)
  {
    hide Find;
    FormType(token + more);
    var s := FORM_TYPE + (token + more);
    assert "boundary" + "=" == "boundary=" && s[|FORM_TYPE|] == token[0];
    if more == "" {
      assert token + more == token;
      FindNoChar(token, ';');
    } else {
      FindChar(token, ';', more[1..]);
      assert token + more == token + [';'] + more[1..];
    }
    FindShift(FORM_TYPE, token + more, ";", 0);
    assert s[|FORM_TYPE|..|FORM_TYPE| + |token|] == token && s[|FORM_TYPE|..] == token + more;
    assert Strip(token, IsBlank) == token;
  }

  /** A quoted boundary, which may contain whatever a quoted string may but the quote, and anything
      behind it. */
  lemma QuotedBoundary(token: string, more: string)
    requires token != "" && '"' !in token && '\r' !in token
    ensures Declares(FORM_TYPE + ("\"" + token + "\"" + more), token)
  {
    hide Find;
    FormType("\"" + token + "\"" + more);
    var pre := "multipart/form-data; ";
    QuotedForm(pre, token, more);
    assert "boundary" + "=" == "boundary=";
    QuotedValue(pre, "boundary", token, more);
  }

  lemma QuotedForm(pre: string, token: string, more: string)
    requires FORM_TYPE == pre + "boundary="
    ensures FORM_TYPE + ("\"" + token + "\"" + more) == pre + "boundary" + "=" + "\"" + token + "\"" + more
  {
    assert pre + "boundary" + "=" == pre + "boundary=";
  }

  /** `m` is an upload of `parts` under the boundary `token`. */
  ghost predicate Uploads(m: Message, parts: seq<FormPart>, token: string) {
    && Declares(LastValue("", AllHeaders(m), "Content-Type"), token)
    && m.body == BodyText(parts, "--" + token)
  }

  lemma MultipartRoundTrip(m: Message, parts: seq<FormPart>, token: string, time: int)
    requires WellFormedParts(parts, "--" + token) && Uploads(m, parts, token)
    ensures Multipart(Plain(m, time)) == (true, WithParts(Plain(m, time), parts))
  {
    hide Parts, BodyText, WithParts, ParameterValue, Find;
    HeaderTableLookup(map[], AllHeaders(m), "Content-Type");
    PartsRoundTrip("", parts, "--" + token, Plain(m, time));
    assert "" + m.body == m.body;
  }

  /** An upload printed on a connection is parsed into its fields and files, and the bytes behind it
      are left for the next request. */
  lemma UploadRoundTrip(m: Message, parts: seq<FormPart>, token: string, rest: string, time: int)
    requires WellFormedHead(m) && WellFormedParts(parts, "--" + token) && Uploads(m, parts, token)
    ensures Parse(Initial, Print(m) + rest, time)
         == Outcome(Complete, Context(GotAll, WithParts(Plain(m, time), parts), HeadSize(m), |m.body|), rest)
  {
    MultipartRoundTrip(m, parts, token, 0);
    MultipartRoundTrip(m, parts, token, time);
    RequestRoundTrip(m, rest, time);
  }
}
