/** What the HTTP parser accepts and what it refuses, on every text. */
module HttpAcceptance {
  import opened Interest
  import opened StringSplit
  import opened KeyValues
  import opened HttpDefine
  import opened HttpCodec

  // --- The words of a request line ---

  /** s is the word, written in capitals, small letters or both. */
  ghost predicate Spells(s: string, word: string) {
    && |s| == |word|
    && forall i :: 0 <= i < |s| ==> s[i] == word[i] || ('A' <= word[i] <= 'Z' && s[i] as int == word[i] as int + 32)
  }

  lemma {:induction false} UpperIff(s: string, word: string)
    requires forall i :: 0 <= i < |word| ==> !('a' <= word[i] <= 'z')
    ensures Upper(s) == word <==> Spells(s, word)
  {
    if s != "" && word != "" {
      UpperIff(s[1..], word[1..]);
      assert Upper(s)[1..] == Upper(s[1..]);
      SpellsRest(s, word);
      assert Upper(s) == [Upper(s)[0]] + Upper(s)[1..] && word == [word[0]] + word[1..];
    }
  }

  lemma SpellsRest(s: string, word: string)
    requires s != "" && word != ""
    ensures
      Spells(s, word) <==>
      && Spells(s[1..], word[1..])
      && (s[0] == word[0] || ('A' <= word[0] <= 'Z' && s[0] as int == word[0] as int + 32))
  {
    if Spells(s[1..], word[1..]) {
      assert forall i :: 0 < i < |s| ==> s[i] == s[1..][i - 1] && word[i] == word[1..][i - 1];
    }
  }

  lemma KnownIff(s: string)
    ensures Upper(s) == "GET" <==> Spells(s, "GET")
    ensures Upper(s) == "POST" <==> Spells(s, "POST")
    ensures Upper(s) == "HTTP/1.1" <==> Spells(s, "HTTP/1.1")
    ensures Upper(s) == "HTTP/1.0" <==> Spells(s, "HTTP/1.0")
  {
    hide Upper, Spells;
    UpperIff(s, "GET");
    UpperIff(s, "POST");
    UpperIff(s, "HTTP/1.1");
    UpperIff(s, "HTTP/1.0");
  }

  /** The line's first space is at s1, its last one, another, at s2. */
  ghost predicate SpacesAt(line: string, s1: nat, s2: nat) {
    && s1 < s2 < |line| && line[s1] == ' ' && line[s2] == ' '
    && (forall k :: 0 <= k < |line| && line[k] == ' ' ==> s1 <= k <= s2)
  }

  ghost predicate NamesMethod(s: string, verb: HttpMethod) {
    Spells(s, if verb.Get? then "GET" else "POST")
  }

  /** A line that names the method and one of the two versions before its first and behind its last space. */
  ghost predicate WellFormed(line: string, s1: nat, s2: nat, verb: HttpMethod) {
    && SpacesAt(line, s1, s2) && NamesMethod(line[..s1], verb)
    && (Spells(line[s2 + 1..], "HTTP/1.1") || Spells(line[s2 + 1..], "HTTP/1.0"))
  }

  ghost predicate FirstAt(s: string, pattern: string, i: nat) {
    OccursAt(s, pattern, i) && forall k: nat :: k < i ==> !OccursAt(s, pattern, k)
  }

  /** A target that ends with its first "://". */
  ghost predicate BareScheme(url: string) {
    |url| >= 3 && FirstAt(url, "://", |url| - 3)
  }

  lemma FindIff(s: string, pattern: string, i: nat)
    ensures Find(s, pattern) == Some(i) <==> FirstAt(s, pattern, i)
  {
    hide OccursAt;
    var found := FindFrom(s, pattern, 0);
    if FirstAt(s, pattern, i) && found.Some? {
      assert found.value <= i && i <= found.value;
    }
  }

  lemma SpacesIff(line: string, s1: nat, s2: nat)
    ensures
      SpacesAt(line, s1, s2) <==>
      FindFirstOf(line, " ") == Some(s1) && FindLast(line, ' ') == Some(s2) && s1 != s2
  {
    assert ' ' in " ";
    var first, last := FindFirstOf(line, " "), FindLast(line, ' ');
    if first == Some(s1) && last == Some(s2) {
      assert line[s1] == ' ' && line[s2] == ' ';
      assert s1 <= s2;
    }
    if SpacesAt(line, s1, s2) {
      assert first.Some? && last.Some?;
      assert line[first.value] == ' ';
    }
  }

  /** A target is refused exactly when it ends with its first "://"; it says nothing of the other parts. */
  lemma UrlGoodIff(r: Request, url: string)
    ensures ParseUrl(r, url).Good? <==> !BareScheme(url)
    ensures
      var parsed := ParseUrl(r, url);
      parsed.Good? ==>
        var t := parsed.request;
        t == r.(path := t.path, query := t.query, queryMaps := t.queryMaps)
  {
    hide FindFirstOf, SplitMap, Find;
    UrlNeverThrows(r, url);
    if |url| >= 3 { FindIff(url, "://", |url| - 3); }
  }

  /** The version in capitals. */
  ghost predicate NamesVersion(s: string, version: string) {
    Spells(s, version) && (version == "HTTP/1.1" || version == "HTTP/1.0")
  }

  lemma WordsGoodIff(r: Request, name: string, url: string, version: string, verb: HttpMethod)
    requires NamesMethod(name, verb) && (Spells(version, "HTTP/1.1") || Spells(version, "HTTP/1.0"))
    ensures
      NamesVersion(version, Upper(version)) &&
      ParseWords(r, Upper(name), url, Upper(version)) ==
      ParseUrl(r.(verb := Some(verb), version := Upper(version)), url)
  {
    KnownIff(name);
    KnownIff(version);
    hide Upper, ParseUrl, Spells;
  }

  lemma WordsBad(r: Request, name: string, url: string, version: string)
    requires !(Spells(version, "HTTP/1.1") || Spells(version, "HTTP/1.0")) ||
             forall verb :: !NamesMethod(name, verb)
    ensures ParseWords(r, Upper(name), url, Upper(version)).Bad?
  {
    KnownIff(name);
    KnownIff(version);
    hide Upper, ParseUrl, Spells;
    assert !Spells(name, "GET") || NamesMethod(name, Get);
    assert !Spells(name, "POST") || NamesMethod(name, Post);
  }

  /** The parts of a well-formed line. */
  lemma WellFormedParses(r: Request, line: string, s1: nat, s2: nat, verb: HttpMethod)
    requires WellFormed(line, s1, s2, verb)
    ensures
      NamesVersion(line[s2 + 1..], Upper(line[s2 + 1..])) &&
      ParseRequestLine(r, line) ==
      ParseUrl(r.(verb := Some(verb), version := Upper(line[s2 + 1..])), line[s1 + 1..s2])
  {
    hide Upper, FindFirstOf, FindLast, ParseUrl, ParseWords, ParseRequestLine, NamesMethod, Spells, NamesVersion;
    SpacesIff(line, s1, s2);
    LineStep(r, line, s1, s2);
    WordsGoodIff(r, line[..s1], line[s1 + 1..s2], line[s2 + 1..], verb);
  }

  lemma OneSpaceFails(r: Request, line: string)
    requires forall s1: nat, s2: nat :: !SpacesAt(line, s1, s2)
    ensures ParseRequestLine(r, line).Bad?
  {
    hide Upper, FindFirstOf, FindLast, ParseWords, SpacesAt;
    var first, last := FindFirstOf(line, " "), FindLast(line, ' ');
    if first.Some? && last.Some? { SpacesIff(line, first.value, last.value); }
  }

  lemma WrongWordsFail(r: Request, line: string, s1: nat, s2: nat)
    requires SpacesAt(line, s1, s2) && forall verb :: !WellFormed(line, s1, s2, verb)
    ensures ParseRequestLine(r, line).Bad?
  {
    hide Upper, FindFirstOf, FindLast, ParseWords, ParseRequestLine, NamesMethod, Spells;
    SpacesIff(line, s1, s2);
    LineStep(r, line, s1, s2);
    if Spells(line[s2 + 1..], "HTTP/1.1") || Spells(line[s2 + 1..], "HTTP/1.0") {
      forall verb ensures !NamesMethod(line[..s1], verb) { assert !WellFormed(line, s1, s2, verb); }
    }
    WordsBad(r, line[..s1], line[s1 + 1..s2], line[s2 + 1..]);
  }

  lemma NotWellFormedFails(r: Request, line: string)
    requires forall s1: nat, s2: nat, verb :: !WellFormed(line, s1, s2, verb)
    ensures ParseRequestLine(r, line).Bad?
  {
    hide *;
    if s1: nat, s2: nat :| SpacesAt(line, s1, s2) {
      WrongWordsFail(r, line, s1, s2);
    } else {
      OneSpaceFails(r, line);
    }
  }

  ghost predicate GoodLine(line: string, s1: nat, s2: nat, verb: HttpMethod) {
    WellFormed(line, s1, s2, verb) && !BareScheme(line[s1 + 1..s2])
  }

  lemma GoodIff(r: Request, line: string, s1: nat, s2: nat, verb: HttpMethod)
    requires WellFormed(line, s1, s2, verb)
    ensures ParseRequestLine(r, line).Good? <==> GoodLine(line, s1, s2, verb)
  {
    WellFormedParses(r, line, s1, s2, verb);
    hide Upper, ParseUrl, ParseRequestLine, BareScheme, NamesVersion, NamesMethod, Spells;
    UrlGoodIff(r.(verb := Some(verb), version := Upper(line[s2 + 1..])), line[s1 + 1..s2]);
  }

  /** Which request lines are accepted: those with two different outer spaces, GET or POST before the first, one of
      the two versions behind the last, in capitals or not, and between them a target that is not a bare scheme. */
  lemma LineAcceptedIff(r: Request, line: string)
    ensures ParseRequestLine(r, line).Good? <==> exists s1: nat, s2: nat, verb :: GoodLine(line, s1, s2, verb)
  {
    hide ParseRequestLine, WellFormed, BareScheme;
    forall s1: nat, s2: nat, verb | WellFormed(line, s1, s2, verb)
      ensures ParseRequestLine(r, line).Good? <==> GoodLine(line, s1, s2, verb)
    {
      GoodIff(r, line, s1, s2, verb);
    }
    if forall s1: nat, s2: nat, verb :: !WellFormed(line, s1, s2, verb) { NotWellFormedFails(r, line); }
  }

  /** The verb set is the one named, and so is the version, in capitals. */
  lemma LineFields(r: Request, line: string, s1: nat, s2: nat, verb: HttpMethod)
    requires GoodLine(line, s1, s2, verb)
    ensures ParseRequestLine(r, line).Good?
    ensures
      var t := ParseRequestLine(r, line).request;
      && t.verb == Some(verb) && NamesVersion(line[s2 + 1..], t.version)
      && t.headers == r.headers && t.body == r.body
  {
    WellFormedParses(r, line, s1, s2, verb);
    hide Upper, ParseUrl, ParseRequestLine, BareScheme, NamesVersion, NamesMethod, Spells;
    UrlGoodIff(r.(verb := Some(verb), version := Upper(line[s2 + 1..])), line[s1 + 1..s2]);
  }

  // --- A whole request ---

  /** The header map after the block. A block of fewer than four characters is not looked at. */
  ghost predicate HeadersBecome(before: Headers, block: string, after: Headers) {
    if |block| < 4 then after == before else SplitMap(before, block, "\r\n", ":") == Done(after)
  }

  /** What the Content-Length says, 0 when there is none. */
  function LengthIn(headers: Headers): int {
    if "Content-Length" in headers then Atoi(headers["Content-Length"]) else 0
  }

  /** operator[] on the header map. */
  function LengthAdded(headers: Headers): Headers {
    if "Content-Length" in headers then headers else headers["Content-Length" := ""]
  }

  /** A request whose line is the first i characters, whose headers are the next j, and whose body has arrived. */
  ghost predicate Arrived(r: Request, strs: string, i: nat, j: nat, headers: Headers) {
    && FirstAt(strs, "\r\n", i) && i + 2 < |strs|
    && (exists s1: nat, s2: nat, verb :: GoodLine(strs[..i], s1, s2, verb))
    && FirstAt(strs[i + 2..], "\r\n\r\n", j)
    && HeadersBecome(r.headers, strs[i + 2..][..j], headers)
    && i + j + 6 + LengthIn(headers) <= |strs|
  }

  /** What is left of the text behind the blank line. */
  lemma BlankLineInside(strs: string, i: nat, j: nat)
    requires i + 2 <= |strs| && OccursAt(strs[i + 2..], "\r\n\r\n", j)
    ensures i + j + 6 <= |strs| && strs[i + 2..][j + 4..] == strs[i + j + 6..]
  {
  }

  /** A GET leaves what its Content-Length counts in the buffer; a POST takes it as its body, and with a negative
      length takes all there is and hands that many bytes back. */
  lemma BodyRead(r: Request, read: nat, rest: string)
    requires r.verb.Some?
    ensures
      var n, outcome := LengthIn(r.headers), DecodeBody(r, read, rest);
      && (outcome.Accepted? <==> n <= |rest|) && (outcome.Failed? <==> n > |rest|)
      && (outcome.Accepted? ==>
            outcome.consumed == (if r.verb == Some(Post) then read + n else read) &&
            outcome.request.body == (
              if r.verb == Some(Get) || n == 0 || rest == "" then r.body else if n < 0 then rest else rest[..n]) &&
            outcome.request == r.(headers := LengthAdded(r.headers), body := outcome.request.body))
  {
    assert Atoi("") == 0;
    assert r.verb.value.Get? || r.verb.value.Post?;
    hide Atoi;
  }

  /** The two outcomes of the header block, if it is ended. */
  lemma HeadersRead(r: Request, read: nat, tmp: string, j: nat, headers: Headers)
    requires FirstAt(tmp, "\r\n\r\n", j) && HeadersBecome(r.headers, tmp[..j], headers)
    ensures j + 4 <= |tmp|
    ensures DecodeHeaders(r, read, tmp) == DecodeBody(r.(headers := headers), read + j + 4, tmp[j + 4..])
  {
    FindIff(tmp, BLANK_LINE, j);
    hide Find, SplitMap;
    assert ParseHeader(r, tmp[..j]) == Good(r.(headers := headers));
    HeadersStep(r, read, tmp, j, r.(headers := headers));
  }

  lemma BlockOf(r: Request, read: nat, tmp: string) returns (j: nat, after: Headers)
    requires DecodeHeaders(r, read, tmp).Accepted?
    ensures FirstAt(tmp, "\r\n\r\n", j) && HeadersBecome(r.headers, tmp[..j], after)
  {
    hide SplitMap, DecodeBody, FirstAt, Find;
    j := Find(tmp, BLANK_LINE).value;
    FindIff(tmp, BLANK_LINE, j);
    after := ParseHeader(r, tmp[..j]).request.headers;
  }

  /** What decode makes of a request that has arrived: how much it consumes and what it reads. A GET leaves
      what its Content-Length counts in the buffer. A POST takes it as its body, and with a negative length takes
      all there is and consumes that many characters less. Path and query are those of the line. */
  lemma ArrivedIsRead(
    r: Request, strs: string, i: nat, j: nat, headers: Headers, s1: nat, s2: nat, verb: HttpMethod)
    requires Arrived(r, strs, i, j, headers) && GoodLine(strs[..i], s1, s2, verb)
    ensures i + j + 6 <= |strs| && ParseRequestLine(r, strs[..i]).Good?
    ensures
      var n, rest, outcome := LengthIn(headers), strs[i + j + 6..], Decode(r, strs);
      && outcome.Accepted?
      && outcome.consumed == (if verb == Post then i + j + 6 + n else i + j + 6)
      && outcome.request.verb == Some(verb) && NamesVersion(strs[..i][s2 + 1..], outcome.request.version)
      && outcome.request ==
           ParseRequestLine(r, strs[..i]).request.(headers := LengthAdded(headers), body := outcome.request.body)
      && outcome.request.body == (
           if verb == Get || n == 0 || rest == "" then r.body else if n < 0 then rest else rest[..n])
  {
    hide *;
    ArrivedParts(r, strs, i, j, headers);
    LineFields(r, strs[..i], s1, s2, verb);
    var r1 := ParseRequestLine(r, strs[..i]).request;
    LineRead(r, strs, i);
    HeadersRead(r1, i + 2, strs[i + 2..], j, headers);
    BodyRead(r1.(headers := headers), i + j + 6, strs[i + j + 6..]);
  }

  lemma LineRead(r: Request, strs: string, i: nat)
    requires FirstAt(strs, "\r\n", i) && i + 2 < |strs|
    ensures
      match ParseRequestLine(r, strs[..i])
      case Good(r1) => Decode(r, strs) == DecodeHeaders(r1, i + 2, strs[i + 2..])
      case Bad(r1) => Decode(r, strs) == Failed(r1)
      case Thrown => Decode(r, strs) == Escaped
  {
    FindIff(strs, CRLF, i);
    hide Find, ParseRequestLine, DecodeHeaders, FirstAt;
  }

  lemma ArrivedParts(r: Request, strs: string, i: nat, j: nat, headers: Headers)
    requires Arrived(r, strs, i, j, headers)
    ensures FirstAt(strs, "\r\n", i) && i + 2 < |strs| && FirstAt(strs[i + 2..], "\r\n\r\n", j)
    ensures i + j + 6 <= |strs| && strs[i + 2..][j + 4..] == strs[i + j + 6..]
    ensures HeadersBecome(r.headers, strs[i + 2..][..j], headers)
    ensures LengthIn(headers) <= |strs[i + j + 6..]|
  {
    hide HeadersBecome, LengthIn, GoodLine;
    BlankLineInside(strs, i, j);
  }

  /** The text is one line and its CRLF. */
  ghost predicate LineAlone(strs: string) {
    |strs| >= 2 && FirstAt(strs, "\r\n", |strs| - 2)
  }

  lemma LineAloneKept(r: Request, strs: string)
    requires LineAlone(strs)
    ensures Decode(r, strs) == Accepted(0, r)
  {
    FindIff(strs, CRLF, |strs| - 2);
    hide Find, ParseRequestLine, DecodeHeaders, FirstAt;
  }

  /** Which texts are accepted: one line alone, whatever it is, of which nothing is consumed, and requests whose line
      is good and whose headers and body have arrived. So nothing is ever consumed behind a line that names
      another method or version, or none. */
  lemma DecodeAcceptsIff(r: Request, strs: string)
    ensures
      Decode(r, strs).Accepted? <==>
      LineAlone(strs) || exists i: nat, j: nat, headers :: Arrived(r, strs, i, j, headers)
    ensures LineAlone(strs) ==> Decode(r, strs) == Accepted(0, r)
  {
    hide *;
    if LineAlone(strs) {
      LineAloneKept(r, strs);
    } else if Decode(r, strs).Accepted? {
      var i, j, headers := AcceptedArrived(r, strs);
    } else if i: nat, j: nat, headers :| Arrived(r, strs, i, j, headers) {
      var s1, s2, verb := LineOf(r, strs, i, j, headers);
      ArrivedIsRead(r, strs, i, j, headers, s1, s2, verb);
    }
  }

  lemma LineOf(r: Request, strs: string, i: nat, j: nat, headers: Headers)
    returns (s1: nat, s2: nat, verb: HttpMethod)
    requires Arrived(r, strs, i, j, headers)
    ensures i <= |strs| && GoodLine(strs[..i], s1, s2, verb)
  {
    hide GoodLine, HeadersBecome, FirstAt, LengthIn;
    s1, s2, verb :| GoodLine(strs[..i], s1, s2, verb);
  }

  lemma AcceptedArrived(r: Request, strs: string) returns (i: nat, j: nat, headers: Headers)
    requires Decode(r, strs).Accepted? && !LineAlone(strs)
    ensures Arrived(r, strs, i, j, headers)
  {
    i := FirstLine(r, strs);
    hide *;
    LineRead(r, strs, i);
    var s1, s2, verb := GoodFirst(r, strs, i);
    LineFields(r, strs[..i], s1, s2, verb);
    var r1 := ParseRequestLine(r, strs[..i]).request;
    j, headers := BlockOf(r1, i + 2, strs[i + 2..]);
    BlockFits(r1, i + 2, strs[i + 2..], j, headers);
    ArrivedIs(r, strs, i, j, headers, s1, s2, verb);
  }

  lemma FirstLine(r: Request, strs: string) returns (i: nat)
    requires Decode(r, strs).Accepted? && !LineAlone(strs)
    ensures FirstAt(strs, "\r\n", i) && i + 2 < |strs|
  {
    hide Find, ParseRequestLine, DecodeHeaders, FirstAt;
    i := Find(strs, CRLF).value;
    FindIff(strs, CRLF, i);
  }

  lemma GoodFirst(r: Request, strs: string, i: nat) returns (s1: nat, s2: nat, verb: HttpMethod)
    requires i <= |strs| && ParseRequestLine(r, strs[..i]).Good?
    ensures GoodLine(strs[..i], s1, s2, verb)
  {
    hide *;
    LineAcceptedIff(r, strs[..i]);
    s1, s2, verb :| GoodLine(strs[..i], s1, s2, verb);
  }

  lemma BlockFits(r: Request, read: nat, tmp: string, j: nat, headers: Headers)
    requires DecodeHeaders(r, read, tmp).Accepted? && r.verb.Some?
    requires FirstAt(tmp, "\r\n\r\n", j) && HeadersBecome(r.headers, tmp[..j], headers)
    ensures j + 4 + LengthIn(headers) <= |tmp|
  {
    hide *;
    HeadersRead(r, read, tmp, j, headers);
    BodyRead(r.(headers := headers), read + j + 4, tmp[j + 4..]);
  }

  lemma ArrivedIs(r: Request, strs: string, i: nat, j: nat, headers: Headers, s1: nat, s2: nat, verb: HttpMethod)
    requires FirstAt(strs, "\r\n", i) && i + 2 < |strs| && FirstAt(strs[i + 2..], "\r\n\r\n", j)
    requires GoodLine(strs[..i], s1, s2, verb) && HeadersBecome(r.headers, strs[i + 2..][..j], headers)
    requires j + 4 + LengthIn(headers) <= |strs[i + 2..]|
    ensures Arrived(r, strs, i, j, headers)
  {
    hide FirstAt, GoodLine, HeadersBecome, LengthIn;
  }

  // --- The target ---

  lemma PathParses(r: Request, path: string)
    requires Clean(path, "?")
    ensures ParsePath(r, path) == Good(r.(path := path))
  {
    assert '?' in "?";
  }

  lemma PathAndQueryParse(r: Request, path: string, query: map<string, string>, order: seq<string>)
    requires Clean(path, "?") && GoodPairs(query, "&", "=") && Enumerates(order, query) && r.queryMaps == map[]
    ensures
      var text := Joined(Lines(query, order, "="), "&");
      ParsePath(r, path + "?" + text) == Good(r.(path := path, query := text, queryMaps := query))
  {
    var text := Joined(Lines(query, order, "="), "&");
    var url := path + "?" + text;
    QuerySplits(query, order);
    hide Lines, Joined, SplitMap, GoodPairs, Enumerates;
    assert '?' in "?";
    assert url[|path|] == '?' && forall i :: 0 <= i < |path| ==> url[i] == path[i];
    assert FindFirstOf(url, "?") == Some(|path|);
    assert url[..|path|] == path && url[|path| + 1..] == text;
  }

  lemma QuerySplits(query: map<string, string>, order: seq<string>)
    requires GoodPairs(query, "&", "=") && Enumerates(order, query)
    ensures SplitMap(map[], Joined(Lines(query, order, "="), "&"), "&", "=") == Done(query)
  {
    var ls := Lines(query, order, "=");
    LinesClean(query, order, "&", "=");
    if Joined(ls, "&") == "" {
      NoNonEmpty(ls, "&");
      assert order == [];
      assert forall k :: k in query <==> k in order;
      assert query == map[];
    } else {
      hide GoodPairs, Lines, Joined, SplitMap;
      JoinedRoundTrip(query, order, "&", "=");
    }
  }

  /** The first "://" of an absolute-form target is the one behind its scheme. */
  lemma SchemeFound(scheme: string, rest: string)
    requires Clean(scheme, ":")
    ensures Find(scheme + "://" + rest, "://") == Some(|scheme|)
    ensures (scheme + "://" + rest)[|scheme| + 3..] == rest
  {
    var url := scheme + "://" + rest;
    assert ':' in ":";
    assert OccursAt(url, "://", |scheme|);
    forall k: nat | k < |scheme| ensures !OccursAt(url, "://", k) {
      assert url[k] == scheme[k];
      if OccursAt(url, "://", k) { OccursChar(url, "://", k, 0); }
    }
    FindIff(url, "://", |scheme|);
  }

  /** An absolute-form target (section 3.2.2 of RFC 9112): scheme and host are dropped, and the path is what
      follows the slash behind the host. */
  lemma AbsoluteUrl(r: Request, scheme: string, host: string, target: string)
    requires Clean(scheme, ":") && Clean(host, "/") && target != ""
    ensures ParseUrl(r, scheme + "://" + (host + "/" + target)) == ParsePath(r, target)
  {
    var rest := host + "/" + target;
    SchemeFound(scheme, rest);
    hide Find, ParsePath;
    assert '/' in "/";
    assert rest[|host|] == '/' && forall i :: 0 <= i < |host| ==> rest[i] == host[i];
    assert FindFirstOf(rest, "/") == Some(|host|);
    assert rest[|host| + 1..] == target;
  }

  /** With only a host, or a host and a slash, path and query stay as they are. */
  lemma HostOnlyUrl(r: Request, scheme: string, host: string)
    requires Clean(scheme, ":") && Clean(host, "/")
    ensures host != "" ==> ParseUrl(r, scheme + "://" + host) == Good(r)
    ensures ParseUrl(r, scheme + "://" + (host + "/")) == Good(r)
  {
    SchemeFound(scheme, host);
    SchemeFound(scheme, host + "/");
    hide Find, ParsePath;
    assert '/' in "/";
    assert FindFirstOf(host, "/") == None;
    var rest := host + "/";
    assert rest[|host|] == '/' && forall i :: 0 <= i < |host| ==> rest[i] == host[i];
    assert FindFirstOf(rest, "/") == Some(|host|);
  }

  lemma SpelledWords(name: string, version: string, verb: HttpMethod)
    requires NamesMethod(name, verb) && (Spells(version, "HTTP/1.1") || Spells(version, "HTTP/1.0"))
    ensures forall i :: 0 <= i < |name| ==> name[i] != ' '
    ensures forall i :: 0 <= i < |version| ==> version[i] != ' '
  {
  }

  lemma WordsCut(name: string, verb: HttpMethod, url: string, version: string)
    requires NamesMethod(name, verb) && (Spells(version, "HTTP/1.1") || Spells(version, "HTTP/1.0"))
    ensures WellFormed(name + " " + url + " " + version, |name|, |name| + 1 + |url|, verb)
  {
    SpelledWords(name, version, verb);
    LineParts(name, url, version);
    hide NamesMethod, Spells;
    var line := name + " " + url + " " + version;
    assert forall k :: 0 <= k < |line| ==>
      line[k] == if k < |name| then name[k] else if k == |name| || k == |name| + 1 + |url| then ' '
                 else if k < |name| + 1 + |url| then url[k - |name| - 1] else version[k - |name| - 2 - |url|];
  }

  /** A line with a method and a version in any mix of capitals and small letters is cut at its outer spaces, whatever
      is between them. */
  lemma SpelledLineParses(r: Request, name: string, verb: HttpMethod, url: string, version: string)
    requires NamesMethod(name, verb) && (Spells(version, "HTTP/1.1") || Spells(version, "HTTP/1.0"))
    ensures
      && NamesVersion(version, Upper(version))
      && ParseRequestLine(r, name + " " + url + " " + version) ==
           ParseUrl(r.(verb := Some(verb), version := Upper(version)), url)
  {
    hide *;
    WordsCut(name, verb, url, version);
    LineParts(name, url, version);
    WellFormedParses(r, name + " " + url + " " + version, |name|, |name| + 1 + |url|, verb);
    assert |name| + 1 + |url| + 1 == |name| + |url| + 2;
  }

  /** A request line with an absolute-form target: the path and the query read are the ones behind the host. */
  lemma AbsoluteLineParses(
    name: string, verb: HttpMethod, scheme: string, host: string, path: string, query: map<string, string>,
    order: seq<string>, version: string)
    requires NamesMethod(name, verb) && (Spells(version, "HTTP/1.1") || Spells(version, "HTTP/1.0"))
    requires Clean(scheme, ":") && Clean(host, "/") && Clean(path, "?")
    requires GoodPairs(query, "&", "=") && Enumerates(order, query)
    ensures
      var text := Joined(Lines(query, order, "="), "&");
      var parsed :=
        ParseRequestLine(BLANK, name + " " + (scheme + "://" + (host + "/" + (path + "?" + text))) + " " + version);
      && parsed.Good? && NamesVersion(version, parsed.request.version)
      && parsed.request == Request(Some(verb), path, text, parsed.request.version, map[], "", query)
  {
    var text := Joined(Lines(query, order, "="), "&");
    hide Lines, Joined, GoodPairs, Enumerates, NamesMethod, NamesVersion, Spells, Upper, ParseRequestLine;
    hide ParseUrl, ParsePath, Clean;
    SpelledLineParses(BLANK, name, verb, scheme + "://" + (host + "/" + (path + "?" + text)), version);
    var r := BLANK.(verb := Some(verb), version := Upper(version));
    AbsoluteUrl(r, scheme, host, path + "?" + text);
    PathAndQueryParse(r, path, query, order);
  }

  // --- Lengths that are not plain decimals ---

  ghost predicate Blank(s: string) {
    forall i :: 0 <= i < |s| ==> s[i] == ' ' || 9 <= s[i] as int <= 13
  }

  /** Digits end where the first other character is. */
  lemma {:induction false} DigitsStop(s: string, tail: string, acc: nat)
    requires forall i :: 0 <= i < |s| ==> '0' <= s[i] <= '9'
    requires tail == "" || !('0' <= tail[0] <= '9')
    ensures DigitsValue(s + tail, acc) == DigitsValue(s, acc)
  {
    if s == "" {
      assert s + tail == tail;
    } else {
      assert (s + tail)[1..] == s[1..] + tail;
      DigitsStop(s[1..], tail, acc * 10 + (s[0] as int - 48));
    }
  }

  lemma {:induction false} BlanksSkipped(blanks: string, rest: string)
    requires Blank(blanks)
    ensures Atoi(blanks + rest) == Atoi(rest)
  {
    if blanks == "" {
      assert blanks + rest == rest;
    } else {
      assert (blanks + rest)[1..] == blanks[1..] + rest;
      BlanksSkipped(blanks[1..], rest);
    }
  }

  lemma SignRead(digits: string)
    requires digits != "" && '0' <= digits[0] <= '9'
    ensures Atoi(digits) == Atoi("+" + digits) == DigitsValue(digits, 0)
    ensures Atoi("-" + digits) == 0 - DigitsValue(digits, 0)
  {
    assert ("+" + digits)[1..] == digits == ("-" + digits)[1..];
    assert ("+" + digits)[0] == '+' && ("-" + digits)[0] == '-';
    hide DigitsValue;
  }

  /** A length with blanks before it, with or without a sign, and with anything but a digit behind it. */
  lemma SignedLength(blanks: string, n: nat, tail: string)
    requires Blank(blanks) && (tail == "" || !('0' <= tail[0] <= '9'))
    ensures Atoi(blanks + (Decimal(n) + tail)) == Atoi(blanks + ("+" + (Decimal(n) + tail))) == n
    ensures Atoi(blanks + ("-" + (Decimal(n) + tail))) == 0 - n
  {
    hide *;
    var digits := Decimal(n) + tail;
    BlanksSkipped(blanks, digits);
    BlanksSkipped(blanks, "+" + digits);
    BlanksSkipped(blanks, "-" + digits);
    DecimalDigits(n);
    DigitsStop(Decimal(n), tail, 0);
    assert digits[0] == Decimal(n)[0];
    SignRead(digits);
  }

  /** Anything else declares a length of 0. */
  lemma NoLength(blanks: string, tail: string)
    requires Blank(blanks)
    requires tail == "" || !(Blank(tail[..1]) || tail[0] == '+' || tail[0] == '-' || '0' <= tail[0] <= '9')
    ensures Atoi(blanks + tail) == 0
  {
    BlanksSkipped(blanks, tail);
    assert tail != "" ==> tail[..1][0] == tail[0];
  }
}
