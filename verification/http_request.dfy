/** The request object that HttpCodeC::decode fills in field by field, from a TcpBuffer. */
module HttpRequests {
  import opened Interest
  import opened Bytes
  import opened TcpBuffers
  import opened StringSplit
  import opened KeyValues
  import opened HttpDefine
  import opened HttpCodec

  class HttpRequest {
    var verb: Option<HttpMethod>
    var path: string
    var query: string
    var version: string
    var headers: Headers
    var body: string
    var queryMaps: Headers
    var decodeSucc: bool

    constructor ()
      ensures View() == BLANK && !decodeSucc
    {
      verb, path, query, version, body := None, "", "", "", "";
      headers, queryMaps, decodeSucc := map[], map[], false;
    }

    ghost function View(): Request
      reads this
    {
      Request(verb, path, query, version, headers, body, queryMaps)
    }
  }

  /** The bytes of getBufferString as characters. */
  function Text(bytes: seq<Byte>): string {
    seq(|bytes|, i requires 0 <= i < |bytes| => bytes[i] as char)
  }

  /** What a parsing method returned, and what it left in the request. */
  ghost predicate Agrees(parsed: Parsed, ok: bool, threw: bool, after: Request) {
    match parsed
    case Thrown => threw
    case Good(r) => !threw && ok && after == r
    case Bad(r) => !threw && !ok && after == r
  }

  method ParseHttpRequestLine(request: HttpRequest, tmp: string) returns (ok: bool, threw: bool)
    modifies request
    ensures Agrees(ParseRequestLine(old(request.View()), tmp), ok, threw, request.View())
    ensures request.decodeSucc == old(request.decodeSucc)
  {
    hide Upper, SplitMap, Find, FindFirstOf, FindLast;
    ok, threw := false, false;
    var s1, s2 := FindFirstOf(tmp, " "), FindLast(tmp, ' ');
    if s1.None? || s2.None? || s1 == s2 {
      return;
    }
    var name := Upper(tmp[..s1.value]);
    if name == "GET" {
      request.verb := Some(Get);
    } else if name == "POST" {
      request.verb := Some(Post);
    } else {
      return;
    }
    var version := Upper(tmp[s2.value + 1..]);
    if version != "HTTP/1.1" && version != "HTTP/1.0" {
      return;
    }
    request.version := version;
    assert ' ' in " ";
    ok, threw := ParseTarget(request, tmp[s1.value + 1..s2.value]);
  }

  method ParseTarget(request: HttpRequest, target: string) returns (ok: bool, threw: bool)
    modifies request
    ensures Agrees(ParseUrl(old(request.View()), target), ok, threw, request.View())
    ensures request.decodeSucc == old(request.decodeSucc)
  {
    hide SplitMap, FindFirstOf;
    ok, threw := false, false;
    var url := target;
    var j := Find(url, "://");
    if j.Some? && j.value + 3 >= |url| {
      return;
    }
    if j.Some? {
      url := url[j.value + 3..];
      var k := FindFirstOf(url, "/");
      if k.None? || k.value == |url| - 1 {
        return true, false;
      }
      url := url[k.value + 1..];
    }
    var q := FindFirstOf(url, "?");
    if q.None? {
      request.path := url;
      return true, false;
    }
    request.path := url[..q.value];
    request.query := url[q.value + 1..];
    var maps, failed := SplitStrToMap(request.queryMaps, request.query, "&", "=");
    if failed {
      return false, true;
    }
    request.queryMaps := maps;
    ok := true;
  }

  method ParseHttpRequestHeader(request: HttpRequest, str: string) returns (ok: bool, threw: bool)
    modifies request
    ensures Agrees(ParseHeader(old(request.View()), str), ok, threw, request.View())
    ensures request.decodeSucc == old(request.decodeSucc)
  {
    hide SplitMap;
    ok, threw := true, false;
    if |str| < 4 {
      return;
    }
    var maps, failed := SplitStrToMap(request.headers, str, CRLF, ":");
    if failed {
      return false, true;
    }
    request.headers := maps;
  }

  method ParseHttpRequestContent(request: HttpRequest, str: string)
    modifies request`body
    ensures request.body == if str == "" then old(request.body) else str
  {
    if str == "" {
      return;
    }
    request.body := str;
  }

  /** The parsing in decode. Every pass of its loop returns or breaks, so there is one. */
  method DecodeText(request: HttpRequest, strs: string) returns (ok: bool, threw: bool, readSize: int)
    modifies request
    ensures request.decodeSucc == old(request.decodeSucc)
    ensures
      match Decode(old(request.View()), strs)
      case Escaped => threw
      case Failed(r) => !threw && !ok && request.View() == r
      case Accepted(n, r) => !threw && ok && readSize == n && request.View() == r
  {
    hide Find, ParseRequestLine, ParseHeader, Atoi;
    ok, threw, readSize := false, false, 0;
    var tmp := strs;
    var i := Find(tmp, CRLF);
    if i.None? {
      return;
    }
    if i.value == |tmp| - 2 {
      return true, false, 0;
    }
    ok, threw := ParseHttpRequestLine(request, tmp[..i.value]);
    if threw || !ok {
      return;
    }
    ok := false;
    tmp := tmp[i.value + 2..];
    readSize := readSize + i.value + 2;

    var j := Find(tmp, BLANK_LINE);
    if j.None? {
      return;
    }
    ok, threw := ParseHttpRequestHeader(request, tmp[..j.value]);
    if threw || !ok {
      return;
    }
    tmp := tmp[j.value + 4..];
    readSize := readSize + j.value + 4;

    if CONTENT_LENGTH !in request.headers {
      request.headers := request.headers[CONTENT_LENGTH := ""];
    }
    var contentLen := Atoi(request.headers[CONTENT_LENGTH]);
    if |strs| - readSize < contentLen {
      return false, false, readSize;
    }
    if request.verb == Some(Post) && contentLen != 0 {
      ParseHttpRequestContent(request, if contentLen < 0 then tmp else tmp[..contentLen]);
      readSize := readSize + contentLen;
    }
  }

  /** decode on a buffer. `overrun` is a recycleRead to before the buffer, which a negative Content-Length can
      ask for. */
  method DecodeFrom(buf: TcpBuffer, request: HttpRequest) returns (threw: bool, overrun: bool)
    requires buf.Valid() && !request.decodeSucc
    modifies buf, request
    ensures
      var outcome := Decode(old(request.View()), Text(old(buf.View()).Contents()));
      && (threw <==> outcome.Escaped?)
      && (overrun <==> outcome.Accepted? && old(buf.readIndex) + outcome.consumed < 0)
      && (request.decodeSucc <==> outcome.Accepted? && !overrun)
      && (!threw ==> request.View() == outcome.request)
      && (request.decodeSucc ==> outcome.consumed <= old(buf.View()).Readable())
      && (if request.decodeSucc then buf.View() == old(buf.View()).RecycleRead(outcome.consumed)
          else buf.View() == old(buf.View()))
    ensures buf.Valid() && (fresh(buf.buffer) || buf.buffer == old(buf.buffer))
  {
    threw, overrun := false, false;
    var ok, readSize;
    ghost var before := request.View();
    var strs := Text(buf.buffer[buf.readIndex..buf.writeIndex]);
    ConsumedInRange(before, strs);
    hide Decode;
    ok, threw, readSize := DecodeText(request, strs);
    if threw || !ok {
      return;
    }
    if buf.readIndex + readSize < 0 {
      overrun := true;
      return;
    }
    // after the early break nothing is recycled, which is what recycling 0 bytes does
    buf.RecycleRead(readSize);
    request.decodeSucc := true;
  }

  lemma ConsumedInRange(r: Request, strs: string)
    ensures Decode(r, strs).Accepted? ==> Decode(r, strs).consumed <= |strs|
  {
    hide ParseRequestLine, ParseHeader, WithLength, DeclaredLength;
  }
}
