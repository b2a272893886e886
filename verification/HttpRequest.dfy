/** The request object the parser fills in (src/http/HttpRequest.h). */
module HttpRequests {
  import opened Text

  datatype Method = Invalid | Get | Post | Head | Put | Delete
  datatype Version = Unknown | Http10 | Http11

  datatype UploadedFile = UploadedFile(fieldName: string, fileName: string, contentType: string, content: string)

  /** The value an `HttpRequest` object holds. */
  datatype Request = Request(
    verb: Method, version: Version, path: string, query: string, receiveTime: int,
    headers: map<string, string>, bodyForm: map<string, string>, files: seq<UploadedFile>, body: string)

  const Blank := Request(Invalid, Unknown, "", "", 0, map[], map[], [], "")

  function MethodOf(name: string): Method {
    if name == "GET" then Get
    else if name == "POST" then Post
    else if name == "HEAD" then Head
    else if name == "PUT" then Put
    else if name == "DELETE" then Delete
    else Invalid
  }

  /** Header names are stored in lower case, values without surrounding white space; a later
      header of the same name replaces an earlier one. */
  function WithHeader(headers: map<string, string>, name: string, value: string): map<string, string> {
    headers[Lower(name) := Strip(value, IsSpace)]
  }

  function HeaderValue(headers: map<string, string>, name: string): string {
    if Lower(name) in headers then headers[Lower(name)] else ""
  }

  class HttpRequest {
    var verb: Method
    var version: Version
    var path: string
    var query: string
    var receiveTime: int
    var headers: map<string, string>
    var bodyForm: map<string, string>
    var files: seq<UploadedFile>
    var body: string

    function Value(): Request
      reads this
    {
      Request(verb, version, path, query, receiveTime, headers, bodyForm, files, body)
    }

    constructor ()
      ensures Value() == Blank
    {
      verb, version, path, query, receiveTime := Invalid, Unknown, "", "", 0;
      headers, bodyForm, files, body := map[], map[], [], "";
    }

    method SetMethod(name: string) returns (known: bool)
      modifies this
      ensures known <==> name in ["GET", "POST", "HEAD", "PUT", "DELETE"]
      ensures Value() == old(Value()).(verb := MethodOf(name))
    {
      verb := MethodOf(name);
      known := verb != Invalid;
    }

    method SetVersion(v: Version)
      modifies this
      ensures Value() == old(Value()).(version := v)
    {
      version := v;
    }

    method SetPath(p: string)
      modifies this
      ensures Value() == old(Value()).(path := p)
    {
      path := p;
    }

    method SetQuery(q: string)
      modifies this
      ensures Value() == old(Value()).(query := q)
    {
      query := q;
    }

    method SetReceiveTime(time: int)
      modifies this
      ensures Value() == old(Value()).(receiveTime := time)
    {
      receiveTime := time;
    }

    /** `line` is the header line without its line break, `colon` the position of its colon. */
    method AddHeader(line: string, colon: nat)
      requires colon < |line|
      modifies this
      ensures Value() == old(Value()).(headers := WithHeader(old(headers), line[..colon], line[colon + 1..]))
    {
      var start := colon + 1;
      while start < |line| && IsSpace(line[start])
        invariant colon < start <= |line|
        invariant DropLeading(line[colon + 1..], IsSpace) == DropLeading(line[start..], IsSpace)
      {
        assert line[start..][1..] == line[start + 1..];
        start := start + 1;
      }
      var value := line[start..];
      while value != "" && IsSpace(value[|value| - 1])
        invariant DropTrailing(value, IsSpace) == DropTrailing(line[start..], IsSpace)
        decreases |value|
      {
        value := value[..|value| - 1];
      }
      headers := headers[Lower(line[..colon]) := value];
    }

    method AddBodyForm(field: string, value: string)
      modifies this
      ensures Value() == old(Value()).(bodyForm := old(bodyForm)[field := value])
    {
      bodyForm := bodyForm[field := value];
    }

    function GetHeader(name: string): string
      reads this
    {
      HeaderValue(headers, name)
    }

    method AddFile(file: UploadedFile)
      modifies this
      ensures Value() == old(Value()).(files := old(files) + [file])
    {
      files := files + [file];
    }

    method SetBody(text: string)
      modifies this
      ensures Value() == old(Value()).(body := text)
    {
      body := text;
    }

    method Load(r: Request)
      modifies this
      ensures Value() == r
    {
      verb, version, path, query, receiveTime := r.verb, r.version, r.path, r.query, r.receiveTime;
      headers, bodyForm, files, body := r.headers, r.bodyForm, r.files, r.body;
    }

    method Swap(other: HttpRequest)
      modifies this, other
      ensures Value() == old(other.Value()) && other.Value() == old(Value())
    {
      var mine, theirs := Value(), other.Value();
      Load(theirs);
      other.Load(mine);
    }
  }
}
