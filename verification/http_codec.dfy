/** The HTTP/1.1 request parser: request line (section 3 of RFC 9112), field lines (section 5) and
    Content-Length bodies (section 6.2). */
module HttpCodec {
  import opened Interest
  import opened StringSplit
  import opened KeyValues
  import opened HttpDefine

  const BLANK_LINE := "\r\n\r\n"
  const CONTENT_LENGTH := "Content-Length"

  datatype HttpMethod = Get | Post

  /** The fields of HttpRequest. The enum starts out unset. */
  datatype Request = Request(
    verb: Option<HttpMethod>, path: string, query: string, version: string,
    headers: Headers, body: string, queryMaps: Headers)

  const BLANK := Request(None, "", "", "", map[], "", map[])

  /** What a parsing function returns, with the fields it has set so far. */
  datatype Parsed = Good(request: Request) | Bad(request: Request) | Thrown

  datatype Decoded = Failed(request: Request) | Accepted(consumed: int, request: Request) | Escaped

  predicate OccursAt(s: string, pattern: string, i: nat) {
    i + |pattern| <= |s| && s[i..i + |pattern|] == pattern
  }

  function FindFrom(s: string, pattern: string, from: nat): (r: Option<nat>)
    ensures r.Some? ==> from <= r.value && OccursAt(s, pattern, r.value)
    ensures r.Some? ==> forall i: nat :: from <= i < r.value ==> !OccursAt(s, pattern, i)
    ensures r.None? ==> forall i: nat :: from <= i ==> !OccursAt(s, pattern, i)
    decreases |s| - from
  {
    if from + |pattern| > |s| then None
    else if OccursAt(s, pattern, from) then Some(from)
    else FindFrom(s, pattern, from + 1)
  }

  /** std::string::find. */
  function Find(s: string, pattern: string): (r: Option<nat>)
    ensures r.Some? ==> OccursAt(s, pattern, r.value)
  {
    FindFrom(s, pattern, 0)
  }

  /** find_last_of for one character. */
  function FindLast(s: string, c: char): (r: Option<nat>)
    ensures r.Some? ==> r.value < |s| && s[r.value] == c && forall i :: r.value < i < |s| ==> s[i] != c
    ensures r.None? ==> forall i :: 0 <= i < |s| ==> s[i] != c
  {
    if s == "" then None
    else if s[|s| - 1] == c then Some(|s| - 1)
    else FindLast(s[..|s| - 1], c)
  }

  function Upper(s: string): string {
    if s == "" then ""
    else [if 'a' <= s[0] <= 'z' then (s[0] as int - 32) as char else s[0]] + Upper(s[1..])
  }

  function DigitsValue(s: string, acc: nat): nat {
    if s == "" || !('0' <= s[0] <= '9') then acc else DigitsValue(s[1..], acc * 10 + (s[0] as int - 48))
  }

  /** std::atoi, on values that fit an int. */
  function Atoi(s: string): int {
    if s == "" then 0
    else if s[0] == ' ' || 9 <= s[0] as int <= 13 then Atoi(s[1..])
    else if s[0] == '-' then
      var n: int := DigitsValue(s[1..], 0);
      -n
    else if s[0] == '+' then DigitsValue(s[1..], 0)
    else DigitsValue(s, 0)
  }

  function ParsePath(r: Request, url: string): Parsed {
    var j := FindFirstOf(url, "?");
    if j.None? then Good(r.(path := url))
    else
      var r1 := r.(path := url[..j.value], query := url[j.value + 1..]);
      var m := SplitMap(r1.queryMaps, r1.query, "&", "=");
      if m.Threw? then Thrown else Good(r1.(queryMaps := m.value))
  }

  function ParseUrl(r: Request, url: string): Parsed {
    var j := Find(url, "://");
    if j.Some? && j.value + 3 >= |url| then Bad(r)
    else if j.None? then ParsePath(r, url)
    else
      var rest := url[j.value + 3..];
      var k := FindFirstOf(rest, "/");
      // only a host: the root path, which is left empty
      if k.None? || k.value == |rest| - 1 then Good(r) else ParsePath(r, rest[k.value + 1..])
  }

  predicate KnownName(name: string) { name == "GET" || name == "POST" }

  predicate KnownVersion(version: string) { version == "HTTP/1.1" || version == "HTTP/1.0" }

  function VerbOf(name: string): HttpMethod {
    if name == "GET" then Get else Post
  }

  /** The three parts of a request line, the method and the version in capitals. */
  function ParseWords(r: Request, name: string, url: string, version: string): Parsed {
    if !KnownName(name) then Bad(r)
    else
      var r1 := r.(verb := Some(VerbOf(name)));
      if !KnownVersion(version) then Bad(r1) else ParseUrl(r1.(version := version), url)
  }

  function ParseRequestLine(r: Request, line: string): Parsed {
    var s1, s2 := FindFirstOf(line, " "), FindLast(line, ' ');
    if s1.None? || s2.None? || s1 == s2 then Bad(r)
    else
      assert ' ' in " ";
      ParseWords(r, Upper(line[..s1.value]), line[s1.value + 1..s2.value], Upper(line[s2.value + 1..]))
  }

  /** A block of fewer than four characters is not looked at. */
  function ParseHeader(r: Request, str: string): Parsed {
    if |str| < 4 then Good(r)
    else
      var m := SplitMap(r.headers, str, CRLF, ":");
      if m.Threw? then Thrown else Good(r.(headers := m.value))
  }

  /** operator[] leaves an empty Content-Length behind when there was none. */
  function WithLength(headers: Headers): Headers {
    if CONTENT_LENGTH in headers then headers else headers[CONTENT_LENGTH := ""]
  }

  function DeclaredLength(headers: Headers): int {
    Atoi(WithLength(headers)[CONTENT_LENGTH])
  }

  /** From the body on: `read` characters are parsed, `rest` are not. A negative length cuts nothing off. */
  function DecodeBody(r: Request, read: nat, rest: string): Decoded {
    var n := DeclaredLength(r.headers);
    var r1 := r.(headers := WithLength(r.headers));
    if |rest| < n then Failed(r1)
    else if r1.verb == Some(Post) && n != 0 then
      var body := if n < 0 then rest else rest[..n];
      Accepted(read + n, if body == "" then r1 else r1.(body := body))
    else Accepted(read, r1)
  }

  function DecodeHeaders(r: Request, read: nat, tmp: string): Decoded {
    var j := Find(tmp, BLANK_LINE);
    if j.None? then Failed(r)
    else
      var parsed := ParseHeader(r, tmp[..j.value]);
      match parsed
      case Thrown => Escaped
      case Bad(r1) => Failed(r1)
      case Good(r1) => DecodeBody(r1, read + j.value + 4, tmp[j.value + 4..])
  }

  function Decode(r: Request, strs: string): Decoded {
    var i := Find(strs, CRLF);
    if i.None? then Failed(r)
    else if i.value == |strs| - 2 then Accepted(0, r)
    else
      var parsed := ParseRequestLine(r, strs[..i.value]);
      match parsed
      case Thrown => Escaped
      case Bad(r1) => Failed(r1)
      case Good(r1) => DecodeHeaders(r1, i.value + 2, strs[i.value + 2..])
  }

  // --- Printing a request ---

  datatype Message = Message(
    verb: HttpMethod, path: string, query: Headers, queryOrder: seq<string>, version: string,
    headers: Headers, order: seq<string>, body: string)
  {
    ghost predicate Ordered() {
      Enumerates(queryOrder, query) && Enumerates(order, headers)
    }

    function QueryText(): string
      requires forall k :: k in queryOrder ==> k in query
    {
      Joined(Lines(query, queryOrder, "="), "&")
    }

    function Url(): string
      requires forall k :: k in queryOrder ==> k in query
    {
      if query == map[] then path else path + "?" + QueryText()
    }

    function Name(): string {
      if verb == Get then "GET" else "POST"
    }

    function RequestLine(): string
      requires forall k :: k in queryOrder ==> k in query
    {
      Name() + " " + Url() + " " + version
    }

    /** A request as section 2.1 of RFC 9112 lays it out. */
    function Print(): string
      requires forall k :: k in queryOrder ==> k in query
      requires forall k :: k in order ==> k in headers
    {
      RequestLine() + CRLF + (Block(headers, order) + CRLF + body)
    }

    /** Origin-form, with what the code does not quote kept out, and the right Content-Length. */
    ghost predicate Printable() {
      && Ordered()
      && KnownVersion(version)
      && Clean(Url(), " \r") && Find(Url(), "://").None? && Clean(path, "?")
      && GoodPairs(query, "&", "=") && GoodHeaders(headers)
      && DeclaredLength(headers) == |body| && (verb == Get ==> body == "")
    }

    /** What the request line says. */
    function FromLine(): Request
      requires forall k :: k in queryOrder ==> k in query
    {
      Request(Some(verb), path, if query == map[] then "" else QueryText(), version, map[], "", query)
    }

    /** The whole request; a header block of fewer than four characters is lost. */
    function Recovered(): Request
      requires forall k :: k in queryOrder ==> k in query
      requires forall k :: k in order ==> k in headers
    {
      FromLine().(headers := WithLength(if |Block(headers, order)| < 6 then map[] else headers), body := body)
    }
  }

  // --- Finding line ends ---

  lemma OccursChar(s: string, pattern: string, i: nat, k: nat)
    requires OccursAt(s, pattern, i) && k < |pattern|
    ensures i + k < |s| && s[i + k] == pattern[k]
  {
    assert s[i..i + |pattern|][k] == s[i + k];
  }

  lemma FindAfterClean(a: string, rest: string)
    requires Clean(a, "\r")
    ensures Find(a + CRLF + rest, CRLF) == Some(|a|)
  {
    var s := a + CRLF + rest;
    assert OccursAt(s, CRLF, |a|);
    assert '\r' in "\r";
    forall i: nat | i < |a| ensures !OccursAt(s, CRLF, i) {
      assert s[i] == a[i];
      if OccursAt(s, CRLF, i) { OccursChar(s, CRLF, i, 0); }
    }
  }

  lemma NoLineEnd(a: string, k: nat)
    requires Clean(a, "\r") && k < |a| + 2
    ensures Find((a + CRLF)[..k], CRLF) == None
  {
    var s := (a + CRLF)[..k];
    assert '\r' in "\r";
    assert forall i :: 0 <= i < |a| && i < k ==> s[i] == a[i];
    forall i: nat ensures !OccursAt(s, CRLF, i) {
      if OccursAt(s, CRLF, i) { OccursChar(s, CRLF, i, 0); }
    }
  }

  predicate NonEmptyLines(ls: seq<string>) {
    forall i :: 0 <= i < |ls| ==> ls[i] != "" && Clean(ls[i], CRLF)
  }

  /** A blank line comes only after the last of the lines. */
  lemma {:induction false} BlankLineAtEnd(ls: seq<string>, i: nat)
    requires NonEmptyLines(ls) && ls != []
    requires OccursAt(Terminated(ls, CRLF) + CRLF, BLANK_LINE, i)
    ensures i == |Terminated(ls, CRLF)| - 2
    decreases |ls|, 0
  {
    var x, more := ls[0], Terminated(ls[1..], CRLF) + CRLF;
    var s := Terminated(ls, CRLF) + CRLF;
    assert s == x + CRLF + more;
    OccursChar(s, BLANK_LINE, i, 0);
    OccursChar(s, BLANK_LINE, i, 2);
    assert '\r' in CRLF;
    assert forall k :: 0 <= k < |x| ==> s[k] == x[k];
    assert s[|x| + 1] == '\n';
    assert i >= |x| && i != |x| + 1;
    assert ls[1..] != [] ==> more[0] == ls[1][0];
    if i > |x| {
      assert s[i..i + 4] == more[i - |x| - 2..i - |x| + 2];
      BlankLineLater(ls[1..], i - |x| - 2);
    } else {
      assert s[i + 2] == more[0];
    }
  }

  lemma {:induction false} BlankLineLater(ls: seq<string>, i: nat)
    requires NonEmptyLines(ls) && OccursAt(Terminated(ls, CRLF) + CRLF, BLANK_LINE, i)
    ensures i == |Terminated(ls, CRLF)| - 2
    decreases |ls|, 1
  {
    if ls != [] { BlankLineAtEnd(ls, i); }
  }

  // --- Parsing what was printed ---

  lemma {:induction false} UpperFixed(s: string)
    requires forall i :: 0 <= i < |s| ==> !('a' <= s[i] <= 'z')
    ensures Upper(s) == s
  {
    if s != "" { UpperFixed(s[1..]); }
  }

  lemma FirstAndLast(a: string, u: string, b: string)
    requires Clean(a, " ") && Clean(u, " ") && Clean(b, " ")
    ensures
      var line := a + " " + u + " " + b;
      FindFirstOf(line, " ") == Some(|a|) && FindLast(line, ' ') == Some(|a| + 1 + |u|)
  {
    var line := a + " " + u + " " + b;
    assert ' ' in " ";
    assert forall i :: 0 <= i < |a| ==> line[i] == a[i];
    assert line[|a|] == ' ' && line[|a| + 1 + |u|] == ' ';
    assert forall i :: |a| + 1 + |u| < i < |line| ==> line[i] == b[i - |a| - 2 - |u|];
  }

  lemma QueryParses(m: Message)
    requires m.Printable() && m.query != map[]
    ensures SplitMap(map[], m.QueryText(), "&", "=") == Done(m.query)
  {
    var ls := Lines(m.query, m.queryOrder, "=");
    LinesClean(m.query, m.queryOrder, "&", "=");
    if m.QueryText() == "" {
      NoNonEmpty(ls, "&");
    } else {
      hide GoodPairs, Lines, Joined, SplitMap;
      JoinedRoundTrip(m.query, m.queryOrder, "&", "=");
    }
  }

  lemma UrlParses(m: Message, r: Request)
    requires m.Printable() && r.queryMaps == map[] && r.query == ""
    ensures
      ParseUrl(r, m.Url()) ==
      Good(r.(path := m.path, query := if m.query == map[] then "" else m.QueryText(), queryMaps := m.query))
  {
    var url := m.Url();
    assert ParseUrl(r, url) == ParsePath(r, url);
    assert '?' in "?";
    if m.query != map[] {
      QueryParses(m);
      hide SplitMap, Find, GoodPairs, GoodHeaders, Message.QueryText;
      assert url[|m.path|] == '?' && forall i :: 0 <= i < |m.path| ==> url[i] == m.path[i];
      assert FindFirstOf(url, "?") == Some(|m.path|);
      assert url[..|m.path|] == m.path && url[|m.path| + 1..] == m.QueryText();
    } else {
      assert FindFirstOf(url, "?") == None;
    }
  }

  lemma KnownWords(name: string, version: string)
    requires KnownName(name) && KnownVersion(version)
    ensures Upper(name) == name && Upper(version) == version
    ensures Clean(name, " ") && Clean(version, " ") && Clean(name, "\r") && Clean(version, "\r")
  {
    KnownWord(name);
    KnownWord(version);
  }

  /** Capitals, digits, the slash and the dot: nothing to change and nothing to cut at. */
  lemma KnownWord(word: string)
    requires KnownName(word) || KnownVersion(word)
    ensures Upper(word) == word && Clean(word, " ") && Clean(word, "\r")
  {
    assert forall i :: 0 <= i < |word| ==> ' ' < word[i] < 'a';
    hide KnownName, KnownVersion;
    UpperFixed(word);
  }

  /** The request line is cut at its two spaces. */
  lemma LineCuts(r: Request, name: string, url: string, version: string)
    requires Clean(url, " ") && KnownName(name) && KnownVersion(version)
    ensures
      ParseRequestLine(r, name + " " + url + " " + version) ==
      ParseUrl(r.(verb := Some(VerbOf(name)), version := version), url)
  {
    hide *;
    KnownWords(name, version);
    FirstAndLast(name, url, version);
    LineParts(name, url, version);
    var line := name + " " + url + " " + version;
    assert |name| + 1 + |url| + 1 == |name| + |url| + 2;
    LineStep(r, line, |name|, |name| + 1 + |url|);
    WordsStep(r, name, url, version);
  }

  lemma LineStep(r: Request, line: string, s1: nat, s2: nat)
    requires s1 < s2 < |line| && FindFirstOf(line, " ") == Some(s1) && FindLast(line, ' ') == Some(s2)
    ensures
      ParseRequestLine(r, line) == ParseWords(r, Upper(line[..s1]), line[s1 + 1..s2], Upper(line[s2 + 1..]))
  {
    hide Upper, FindFirstOf, FindLast, ParseWords;
  }

  lemma WordsStep(r: Request, name: string, url: string, version: string)
    requires KnownName(name) && KnownVersion(version)
    ensures ParseWords(r, name, url, version) == ParseUrl(r.(verb := Some(VerbOf(name)), version := version), url)
  {
    hide ParseUrl, KnownName, KnownVersion, VerbOf;
  }

  lemma LineParts(a: string, u: string, b: string)
    ensures
      var line := a + " " + u + " " + b;
      && |line| == |a| + |u| + |b| + 2
      && line[..|a|] == a && line[|a| + 1..|a| + 1 + |u|] == u && line[|a| + |u| + 2..] == b
  {
    var line := a + " " + u + " " + b;
    assert forall i :: 0 <= i < |u| ==> line[|a| + 1 + i] == u[i];
  }

  lemma CleanLine(name: string, url: string, version: string)
    requires Clean(name, "\r") && Clean(url, "\r") && Clean(version, "\r")
    ensures Clean(name + " " + url + " " + version, "\r")
  {
    var line := name + " " + url + " " + version;
    assert forall i :: 0 <= i < |line| ==>
      line[i] == if i < |name| then name[i] else if i == |name| || i == |name| + 1 + |url| then ' '
                 else if i < |name| + 1 + |url| then url[i - |name| - 1] else version[i - |name| - 2 - |url|];
  }

  lemma LineParses(m: Message)
    requires m.Printable()
    ensures ParseRequestLine(BLANK, m.RequestLine()) == Good(m.FromLine())
    ensures Clean(m.RequestLine(), "\r")
  {
    hide Message.Url, ParseRequestLine, ParseUrl, Find, GoodPairs, GoodHeaders, DeclaredLength;
    CleanParts(m.Url());
    CleanLine(m.Name(), m.Url(), m.version);
    LineCuts(BLANK, m.Name(), m.Url(), m.version);
    UrlParses(m, BLANK.(verb := Some(m.verb), version := m.version));
  }

  lemma EnumeratesOrders(m: Message)
    requires m.Printable()
    ensures forall k :: k in m.queryOrder ==> k in m.query
    ensures forall k :: k in m.order ==> k in m.headers
  {
  }

  lemma CleanParts(url: string)
    requires Clean(url, " \r")
    ensures Clean(url, " ") && Clean(url, "\r")
  {
    assert ' ' in " \r" && '\r' in " \r";
  }

  /** Reading past the request line. */
  lemma DecodesLine(m: Message, tmp: string)
    requires m.Printable() && |tmp| > 0
    ensures Decode(BLANK, m.RequestLine() + CRLF + tmp) == DecodeHeaders(m.FromLine(), |m.RequestLine()| + 2, tmp)
  {
    hide *;
    EnumeratesOrders(m);
    LineParses(m);
    var line := m.RequestLine();
    FindAfterClean(line, tmp);
    LineAndRest(line, tmp);
    DecodeStep(BLANK, line + CRLF + tmp, |line|, m.FromLine());
  }

  lemma LineAndRest(line: string, tmp: string)
    ensures
      var s := line + CRLF + tmp;
      |s| == |line| + 2 + |tmp| && s[..|line|] == line && s[|line| + 2..] == tmp
  {
  }

  lemma DecodeStep(r: Request, s: string, i: nat, r1: Request)
    requires Find(s, CRLF) == Some(i) && i + 2 < |s| && ParseRequestLine(r, s[..i]) == Good(r1)
    ensures Decode(r, s) == DecodeHeaders(r1, i + 2, s[i + 2..])
  {
    hide Find, ParseRequestLine, DecodeHeaders;
  }

  lemma BlockLines(m: Headers, order: seq<string>)
    requires GoodHeaders(m) && Enumerates(order, m) && m != map[]
    ensures var ls := Lines(m, order, ":"); NonEmptyLines(ls) && ls != []
  {
    var ls := Lines(m, order, ":");
    LinesClean(m, order, CRLF, ":");
    NonEmptyParts(ls);
  }

  lemma {:induction false} NonEmptyParts(ls: seq<string>)
    requires NonEmpty(ls) == ls
    ensures forall i :: 0 <= i < |ls| ==> ls[i] != ""
  {
    if ls != [] {
      NonEmptyShorter(ls[1..]);
      assert ls[0] != "";
      assert NonEmpty(ls)[1..] == NonEmpty(ls[1..]);
      NonEmptyParts(ls[1..]);
    }
  }

  lemma {:induction false} NonEmptyShorter(ls: seq<string>)
    ensures |NonEmpty(ls)| <= |ls|
  {
    if ls != [] { NonEmptyShorter(ls[1..]); }
  }

  lemma BlankLineFound(ls: seq<string>, rest: string)
    requires NonEmptyLines(ls) && ls != []
    ensures
      var block := Terminated(ls, CRLF);
      |block| >= 2 && Find(block + CRLF + rest, BLANK_LINE) == Some(|block| - 2)
  {
    hide Terminated, NonEmptyLines;
    var block := Terminated(ls, CRLF);
    TerminatedSnoc(ls, CRLF);
    var s := block + CRLF + rest;
    assert s[|block| - 2..|block| + 2] == BLANK_LINE;
    assert OccursAt(s, BLANK_LINE, |block| - 2);
    forall i: nat | i < |block| - 2 ensures !OccursAt(s, BLANK_LINE, i) {
      if OccursAt(s, BLANK_LINE, i) {
        assert (block + CRLF)[i..i + 4] == s[i..i + 4];
        BlankLineAtEnd(ls, i);
      }
    }
  }

  lemma BlankLineMissing(ls: seq<string>, k: nat)
    requires NonEmptyLines(ls) && ls != [] && k < |Terminated(ls, CRLF)| + 2
    ensures Find((Terminated(ls, CRLF) + CRLF)[..k], BLANK_LINE) == None
  {
    var block := Terminated(ls, CRLF);
    var s := (block + CRLF)[..k];
    forall i: nat ensures !OccursAt(s, BLANK_LINE, i) {
      if OccursAt(s, BLANK_LINE, i) {
        assert (block + CRLF)[i..i + 4] == s[i..i + 4];
        BlankLineAtEnd(ls, i);
      }
    }
  }

  function KeptHeaders(m: Message): Headers
    requires forall k :: k in m.order ==> k in m.headers
  {
    if |Block(m.headers, m.order)| < 6 then map[] else m.headers
  }

  /** Reading past the header block. */
  lemma DecodesBlock(m: Message, read: nat, rest: string)
    requires m.Printable() && m.headers != map[]
    ensures
      var block := Block(m.headers, m.order);
      DecodeHeaders(m.FromLine(), read, block + CRLF + rest) ==
      DecodeBody(m.FromLine().(headers := KeptHeaders(m)), read + |block| + 2, rest)
  {
    hide *;
    EnumeratesOrders(m);
    var block := Block(m.headers, m.order);
    BlockParses(m);
    BlockEnds(m, rest);
    HeadersEnd(m.FromLine(), read, block, rest, m.FromLine().(headers := KeptHeaders(m)));
  }

  lemma HeadersEnd(r: Request, read: nat, block: string, rest: string, r1: Request)
    requires |block| >= 2 && Find(block + CRLF + rest, BLANK_LINE) == Some(|block| - 2)
    requires ParseHeader(r, block[..|block| - 2]) == Good(r1)
    ensures DecodeHeaders(r, read, block + CRLF + rest) == DecodeBody(r1, read + |block| + 2, rest)
  {
    hide *;
    BlockParts(block, rest);
    HeadersStep(r, read, block + CRLF + rest, |block| - 2, r1);
  }

  /** The first blank line is the end of the block. */
  lemma BlockEnds(m: Message, rest: string)
    requires m.Printable() && m.headers != map[]
    ensures
      var block := Block(m.headers, m.order);
      |block| >= 2 && Find(block + CRLF + rest, BLANK_LINE) == Some(|block| - 2)
  {
    BlockLines(m.headers, m.order);
    var ls := Lines(m.headers, m.order, ":");
    assert Block(m.headers, m.order) == Terminated(ls, CRLF);
    hide *;
    BlankLineFound(ls, rest);
  }

  lemma HeadersStep(r: Request, read: nat, tmp: string, j: nat, r1: Request)
    requires Find(tmp, BLANK_LINE) == Some(j) && j + 4 <= |tmp| && ParseHeader(r, tmp[..j]) == Good(r1)
    ensures DecodeHeaders(r, read, tmp) == DecodeBody(r1, read + j + 4, tmp[j + 4..])
  {
    hide Find, ParseHeader, DecodeBody;
  }

  lemma BlockParts(block: string, rest: string)
    requires |block| >= 2
    ensures
      var tmp := block + CRLF + rest;
      |tmp| >= |block| + 2 && tmp[..|block| - 2] == block[..|block| - 2] && tmp[|block| + 2..] == rest
  {
  }

  lemma BlockParses(m: Message)
    requires m.Printable() && m.headers != map[]
    ensures |Block(m.headers, m.order)| >= 2
    ensures
      var block := Block(m.headers, m.order);
      ParseHeader(m.FromLine(), block[..|block| - 2]) == Good(m.FromLine().(headers := KeptHeaders(m)))
  {
    CutBlockRoundTrip(m.headers, m.order);
    hide Block, SplitMap, Message.Printable;
  }

  lemma {:induction false} BlockHolds(m: Headers, order: seq<string>, k: string)
    requires k in order && forall x :: x in order ==> x in m
    ensures |Block(m, order)| >= |k| + 3
  {
    BlockStep(m, order);
    if k != order[0] { BlockHolds(m, order[1..], k); }
  }

  /** A block too short to be looked at declares no length. */
  lemma KeptLength(m: Message)
    requires m.Printable()
    ensures DeclaredLength(KeptHeaders(m)) == |m.body|
  {
    if CONTENT_LENGTH in m.headers {
      BlockHolds(m.headers, m.order, CONTENT_LENGTH);
      assert |CONTENT_LENGTH| == 14;
    }
    hide Block;
  }

  lemma BodyStep(r: Request, read: nat, body: string, tail: string)
    requires DeclaredLength(r.headers) == |body| && r.body == "" && (r.verb == Some(Get) ==> body == "")
    requires r.verb.Some?
    ensures
      DecodeBody(r, read, body + tail) ==
      Accepted(read + |body|, r.(headers := WithLength(r.headers), body := body))
  {
    hide DeclaredLength, WithLength;
    assert (body + tail)[..|body|] == body;
    assert |body| == 0 ==> body == "";
    assert r.verb.value.Get? || r.verb.value.Post?;
  }

  lemma PrintShape(m: Message, tail: string)
    requires m.Printable()
    ensures
      var line, block := m.RequestLine(), Block(m.headers, m.order);
      && m.Print() + tail == line + CRLF + (block + CRLF + (m.body + tail))
      && |m.Print()| == |line| + 2 + |block| + 2 + |m.body|
  {
    hide Message.RequestLine, Message.Printable, Block;
  }

  /** Decoding a printed request, whatever follows it, gives the request back and consumes exactly it. */
  lemma DecodeInvertsPrint(m: Message, tail: string)
    requires m.Printable() && m.headers != map[]
    ensures Decode(BLANK, m.Print() + tail) == Accepted(|m.Print()|, m.Recovered())
  {
    hide *;
    EnumeratesOrders(m);
    PrintShape(m, tail);
    PrintedBody(m, tail);
    var line, block := m.RequestLine(), Block(m.headers, m.order);
    DecodesLine(m, block + CRLF + (m.body + tail));
    DecodesBlock(m, |line| + 2, m.body + tail);
  }

  /** The body as it is read behind the header block. */
  lemma PrintedBody(m: Message, tail: string)
    requires m.Printable()
    ensures
      var read := |m.RequestLine()| + 2 + |Block(m.headers, m.order)| + 2;
      DecodeBody(m.FromLine().(headers := KeptHeaders(m)), read, m.body + tail) ==
      Accepted(read + |m.body|, m.Recovered())
  {
    KeptLength(m);
    var read := |m.RequestLine()| + 2 + |Block(m.headers, m.order)| + 2;
    hide Message.RequestLine, Block, Message.QueryText, WithLength, DeclaredLength, DecodeBody;
    BodyStep(m.FromLine().(headers := KeptHeaders(m)), read, m.body, tail);
  }

  lemma FirstIn(order: seq<string>)
    requires order != []
    ensures order[0] in order
  {
  }

  /** A request without header lines is refused: the parser waits for two line ends after the first. */
  lemma HeaderlessRefused(m: Message)
    requires m.Printable() && m.headers == map[]
    ensures Decode(BLANK, m.Print()).Failed?
  {
    if m.order != [] { FirstIn(m.order); }
    assert m.body == "" by {
      assert Atoi("") == 0;
    }
    assert m.Print() == m.RequestLine() + CRLF + CRLF;
    hide Message.RequestLine, Message.Print, Message.Printable, Decode;
    DecodesLine(m, CRLF);
    assert Find(CRLF, BLANK_LINE) == None;
  }

  /** The plainest request there is, complete, is such a one. */
  lemma PlainGetRefused()
    ensures
      var m := Message(Get, "/", map[], [], "HTTP/1.1", map[], [], "");
      && m.Printable() && m.Print() == "GET / HTTP/1.1\r\n\r\n" && Decode(BLANK, m.Print()).Failed?
  {
    var m := Message(Get, "/", map[], [], "HTTP/1.1", map[], [], "");
    assert Atoi("") == 0;
    assert m.Printable();
    assert m.Print() == "GET / HTTP/1.1\r\n\r\n";
    hide *;
    HeaderlessRefused(m);
  }

  /** On a proper prefix the parser fails, so nothing is consumed; except on the prefix that ends with the
      request line's CRLF, where it reports success without having parsed or consumed anything. */
  lemma PrefixFailsUnlessLine(m: Message, k: nat)
    requires m.Printable() && m.headers != map[] && k < |m.Print()|
    ensures
      var outcome := Decode(BLANK, m.Print()[..k]);
      if k == |m.RequestLine()| + 2 then outcome == Accepted(0, BLANK) else outcome.Failed?
  {
    hide *;
    EnumeratesOrders(m);
    LineParses(m);
    PrintShape(m, "");
    var line, block := m.RequestLine(), Block(m.headers, m.order);
    var more := block + CRLF + m.body;
    assert m.body + "" == m.body && m.Print() + "" == m.Print();
    Cut(line, more, k);
    if k <= |line| + 2 {
      LinePrefix(line, k);
    } else {
      DecodesLine(m, more[..k - |line| - 2]);
      HeadersPrefixFails(m, |line| + 2, k - |line| - 2);
    }
  }

  lemma Cut(line: string, more: string, k: nat)
    requires k <= |line| + 2 + |more|
    ensures
      (line + CRLF + more)[..k] ==
      if k <= |line| + 2 then (line + CRLF)[..k] else line + CRLF + more[..k - |line| - 2]
  {
  }

  lemma LinePrefix(line: string, k: nat)
    requires Clean(line, "\r") && k <= |line| + 2
    ensures
      var outcome := Decode(BLANK, (line + CRLF)[..k]);
      if k == |line| + 2 then outcome == Accepted(0, BLANK) else outcome.Failed?
  {
    if k < |line| + 2 {
      NoLineEnd(line, k);
      hide Find;
    } else {
      FindAfterClean(line, "");
      assert (line + CRLF)[..k] == line + CRLF + "";
      hide Find, ParseRequestLine, DecodeHeaders;
    }
  }

  lemma HeadersPrefixFails(m: Message, read: nat, k: nat)
    requires m.Printable() && m.headers != map[]
    requires k < |Block(m.headers, m.order)| + 2 + |m.body|
    ensures
      DecodeHeaders(m.FromLine(), read, (Block(m.headers, m.order) + CRLF + m.body)[..k]).Failed?
  {
    var block := Block(m.headers, m.order);
    var n := |block| + 2;
    BlockLines(m.headers, m.order);
    KeptLength(m);
    if k < n {
      BlankLineMissing(Lines(m.headers, m.order, ":"), k);
      hide Lines, Terminated, Find, ParseHeader, DecodeBody, Message.FromLine, Message.Printable;
      assert (block + CRLF + m.body)[..k] == (block + CRLF)[..k];
    } else {
      hide Block, Find, DecodeHeaders, Message.FromLine, Message.Printable, DeclaredLength, KeptHeaders;
      assert (block + CRLF + m.body)[..k] == block + CRLF + m.body[..k - n];
      DecodesBlock(m, read, m.body[..k - n]);
    }
  }

  // --- Exceptions ---

  lemma LineNeverThrows(r: Request, line: string)
    ensures !ParseRequestLine(r, line).Thrown?
  {
    hide FindFirstOf, FindLast, Upper, ParseWords;
    var s1, s2 := FindFirstOf(line, " "), FindLast(line, ' ');
    if s1.Some? && s2.Some? && s1 != s2 {
      assert ' ' in " ";
      WordsNeverThrow(r, Upper(line[..s1.value]), line[s1.value + 1..s2.value], Upper(line[s2.value + 1..]));
    }
  }

  lemma WordsNeverThrow(r: Request, name: string, url: string, version: string)
    ensures !ParseWords(r, name, url, version).Thrown?
  {
    UrlNeverThrows(r.(verb := Some(VerbOf(name)), version := version), url);
    hide KnownName, KnownVersion, ParseUrl, VerbOf;
  }

  lemma UrlNeverThrows(r: Request, url: string)
    ensures !ParseUrl(r, url).Thrown?
  {
    hide FindFirstOf, Find, ParsePath;
    var j := Find(url, "://");
    PathNeverThrows(r, url);
    if j.Some? && j.value + 3 < |url| {
      var rest := url[j.value + 3..];
      var k := FindFirstOf(rest, "/");
      if k.Some? { PathNeverThrows(r, rest[k.value + 1..]); }
    }
  }

  lemma PathNeverThrows(r: Request, url: string)
    ensures !ParsePath(r, url).Thrown?
  {
    hide FindFirstOf, SplitMap;
    var j := FindFirstOf(url, "?");
    if j.Some? { QueryNeverThrows(r.queryMaps, url[j.value + 1..]); }
  }

  lemma QueryNeverThrows(m: Headers, query: string)
    ensures !SplitMap(m, query, "&", "=").Threw?
  {
    hide Pieces, PutPieces, EndsWith;
    if query != "" {
      SingleNeverThrows(if EndsWith(query, "&") then query else query + "&", "&");
      SinglePutNeverThrows(m, SplitVector(query, "&").value, "=");
    }
  }

  lemma HeaderThrowsIff(r: Request, str: string)
    ensures ParseHeader(r, str).Thrown? <==> |str| >= 4 && TrailingRun(str, CRLF) % 2 == 1
  {
    PairThrowsIff(str, CRLF);
    hide SplitVector, TrailingRun, PutPieces;
    if |str| >= 4 && SplitVector(str, CRLF).Done? {
      SinglePutNeverThrows(r.headers, SplitVector(str, CRLF).value, ":");
    }
  }

  /** decode lets an exception out exactly when the request line is accepted and the block before the first
      blank line, of four characters or more, ends in an odd number of CRs and LFs. */
  lemma DecodeEscapesIff(r: Request, strs: string)
    ensures
      Decode(r, strs).Escaped? <==>
      && Find(strs, CRLF).Some?
      && var i := Find(strs, CRLF).value;
      && i != |strs| - 2 && ParseRequestLine(r, strs[..i]).Good?
      && var j := Find(strs[i + 2..], BLANK_LINE);
      && j.Some? && j.value >= 4 && TrailingRun(strs[i + 2..][..j.value], CRLF) % 2 == 1
  {
    hide Find, ParseRequestLine, DecodeHeaders, TrailingRun;
    var line := Find(strs, CRLF);
    if line.Some? {
      var i := line.value;
      LineNeverThrows(r, strs[..i]);
      if ParseRequestLine(r, strs[..i]).Good? {
        HeadersEscapeIff(ParseRequestLine(r, strs[..i]).request, i + 2, strs[i + 2..]);
      }
    }
  }

  lemma HeadersEscapeIff(r: Request, read: nat, tmp: string)
    ensures
      DecodeHeaders(r, read, tmp).Escaped? <==>
      var j := Find(tmp, BLANK_LINE);
      j.Some? && j.value >= 4 && TrailingRun(tmp[..j.value], CRLF) % 2 == 1
  {
    hide Find, ParseHeader, TrailingRun, DeclaredLength;
    var j := Find(tmp, BLANK_LINE);
    if j.Some? { HeaderThrowsIff(r, tmp[..j.value]); }
  }

  // --- Content-Length ---

  function Decimal(n: nat): string {
    if n < 10 then [(48 + n) as char] else Decimal(n / 10) + [(48 + n % 10) as char]
  }

  lemma {:induction false} DigitsSnoc(s: string, d: nat, acc: nat)
    requires d < 10 && forall i :: 0 <= i < |s| ==> '0' <= s[i] <= '9'
    ensures DigitsValue(s + [(48 + d) as char], acc) == DigitsValue(s, acc) * 10 + d
  {
    var t := s + [(48 + d) as char];
    if s == "" {
      assert t[0] == (48 + d) as char && t[1..] == "";
    } else {
      assert t[1..] == s[1..] + [(48 + d) as char];
      DigitsSnoc(s[1..], d, acc * 10 + (s[0] as int - 48));
    }
  }

  lemma {:induction false} DecimalDigits(n: nat)
    ensures Decimal(n) != "" && forall i :: 0 <= i < |Decimal(n)| ==> '0' <= Decimal(n)[i] <= '9'
    ensures DigitsValue(Decimal(n), 0) == n
  {
    if n < 10 {
      DigitsSnoc("", n, 0);
      assert "" + [(48 + n) as char] == Decimal(n);
    } else {
      DecimalDigits(n / 10);
      DigitsSnoc(Decimal(n / 10), n % 10, 0);
    }
  }

  /** A length printed in decimal, behind any number of spaces, is the length declared. */
  lemma {:induction false} LengthRead(spaces: nat, n: nat)
    ensures Atoi(seq(spaces, _ => ' ') + Decimal(n)) == n
  {
    var s := seq(spaces, _ => ' ') + Decimal(n);
    DecimalDigits(n);
    if spaces == 0 {
      assert s == Decimal(n);
    } else {
      assert s[0] == ' ' && s[1..] == seq(spaces - 1, _ => ' ') + Decimal(n);
      LengthRead(spaces - 1, n);
    }
  }
}
