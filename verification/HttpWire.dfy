/**
  The bytes of an HTTP request as components/httpClientLibrary/le_httpClientLib.c builds them,
  and a reader that takes them apart again (section 3 of RFC 7230).
 */
module HttpWire {
  import opened Basics

  const CRLF: string := "\r\n"
  const REQUEST_BUFFER_SIZE: nat := 1024

  /** `le_result_t`; codes the client only passes on are `Code`. */
  datatype Result =
    | LeOk | WouldBlock | Terminated | Unavailable | Timeout | Busy | BadParameter | Fault
    | Code(n: int)

  datatype Command = Head | Get | Post | Put | Delete | Unrecognized

  /** One answer of the resource callback: a key, a value and a status. */
  datatype FieldAnswer = FieldAnswer(key: string, value: string, status: Result)

  /** One answer of the body callback: a chunk and a status. */
  datatype ChunkAnswer = ChunkAnswer(data: string, status: Result)

  /** The connection parameters; `encode` is the base64 encoder. */
  datatype Config = Config(host: string, port: nat, credential: string,
                           encode: string -> string, monitored: bool)

  function CommandText(c: Command): string {
    match c
    case Head => "HEAD"
    case Get => "GET"
    case Post => "POST"
    case Put => "PUT"
    case Delete => "DELETE"
    case Unrecognized => ""
  }

  predicate HasBody(c: Command) {
    c == Post || c == Put
  }

  function Digit(d: nat): char
    requires d < 10
  {
    ['0', '1', '2', '3', '4', '5', '6', '7', '8', '9'][d]
  }

  function Decimal(n: nat): string {
    if n < 10 then [Digit(n)] else Decimal(n / 10) + [Digit(n % 10)]
  }

  // ---- request line, host, credential ------------------------------------------------------

  /** The URI without the one slash the line adds. */
  function TrimUri(uri: string): string {
    if uri != "" && uri[0] == '/' then uri[1..] else uri
  }

  function FirstLine(c: Command, uri: string): string {
    CommandText(c) + " /" + TrimUri(uri) + " HTTP/1.1"
  }

  /** A host with a colon is an IPv6 address and goes in brackets. */
  function HostLine(g: Config): string {
    if ':' in g.host then "Host: [" + g.host + "]:" + Decimal(g.port)
    else "host: " + g.host + ":" + Decimal(g.port)
  }

  function RequestLine(g: Config, c: Command, uri: string): string {
    FirstLine(c, uri) + CRLF + (HostLine(g) + CRLF)
  }

  function AuthLine(g: Config): string {
    "Authorization: Basic " + g.encode(g.credential)
  }

  function AuthBytes(g: Config): string {
    if g.credential == "" then "" else AuthLine(g) + CRLF
  }

  // ---- header fields and body --------------------------------------------------------------

  function FieldLine(a: FieldAnswer): string {
    a.key + ": " + a.value
  }

  /** The answer suspends the request: only when the socket is monitored. */
  predicate Suspends(monitored: bool, status: Result) {
    monitored && status == WouldBlock
  }

  /** An empty key or value ends the fields whatever the status. */
  predicate EndsFields(a: FieldAnswer) {
    a.key == "" || a.value == ""
  }

  /** The field lines a script of answers gives, in callback order, up to its end. */
  function FieldLines(monitored: bool, fields: seq<FieldAnswer>): seq<string> {
    if fields == [] then []
    else if Suspends(monitored, fields[0].status) then FieldLines(monitored, fields[1..])
    else if EndsFields(fields[0]) then []
    else if fields[0].status == Terminated then [FieldLine(fields[0])]
    else [FieldLine(fields[0])] + FieldLines(monitored, fields[1..])
  }

  /** Lines as bytes: each is followed by CRLF. */
  function Lines(lines: seq<string>): string {
    if lines == [] then "" else lines[0] + CRLF + Lines(lines[1..])
  }

  /** The header fields and the empty line. */
  function FieldBytes(monitored: bool, fields: seq<FieldAnswer>): string {
    Lines(FieldLines(monitored, fields)) + CRLF
  }

  /** Both statuses end the body after the chunk they come with. */
  predicate EndsBody(status: Result) {
    status == Terminated || status == Unavailable
  }

  function BodyBytes(monitored: bool, chunks: seq<ChunkAnswer>): string {
    if chunks == [] then ""
    else if Suspends(monitored, chunks[0].status) then BodyBytes(monitored, chunks[1..])
    else if chunks[0].data == "" then ""
    else if EndsBody(chunks[0].status) then chunks[0].data
    else chunks[0].data + BodyBytes(monitored, chunks[1..])
  }

  function BodyPart(g: Config, c: Command, chunks: seq<ChunkAnswer>): string {
    if HasBody(c) then BodyBytes(g.monitored, chunks) else ""
  }

  /** Everything a request sends. */
  function Wire(g: Config, c: Command, uri: string, fields: seq<FieldAnswer>,
                chunks: seq<ChunkAnswer>): string {
    RequestLine(g, c, uri) + (AuthBytes(g) + (FieldBytes(g.monitored, fields)
                                              + BodyPart(g, c, chunks)))
  }

  // ---- the text itself ---------------------------------------------------------------------

  /** The number a string of digits denotes. */
  function DecimalValue(s: string): int {
    if s == "" then 0
    else 10 * DecimalValue(s[..|s| - 1]) + (s[|s| - 1] as int - '0' as int)
  }

  /** A port number is read back from its digits, and has no leading zero. */
  lemma {:induction false} DecimalReads(n: nat)
    ensures DecimalValue(Decimal(n)) == n && Decimal(n) != ""
    ensures forall i :: 0 <= i < |Decimal(n)| ==> '0' <= Decimal(n)[i] <= '9'
    ensures n > 0 ==> Decimal(n)[0] != '0'
  {
    if n >= 10 {
      DecimalReads(n / 10);
      var s := Decimal(n);
      assert s[..|s| - 1] == Decimal(n / 10);
    } else {
      assert Decimal(n)[..0] == "";
    }
  }

  /** The five methods as the server sees them. */
  lemma MethodTexts(uri: string)
    ensures FirstLine(Head, uri) == "HEAD /" + TrimUri(uri) + " HTTP/1.1"
    ensures FirstLine(Get, uri) == "GET /" + TrimUri(uri) + " HTTP/1.1"
    ensures FirstLine(Post, uri) == "POST /" + TrimUri(uri) + " HTTP/1.1"
    ensures FirstLine(Put, uri) == "PUT /" + TrimUri(uri) + " HTTP/1.1"
    ensures FirstLine(Delete, uri) == "DELETE /" + TrimUri(uri) + " HTTP/1.1"
  {
    assert "HEAD" + " /" == "HEAD /" && "GET" + " /" == "GET /" && "POST" + " /" == "POST /";
    assert "PUT" + " /" == "PUT /" && "DELETE" + " /" == "DELETE /";
  }

  /** One leading slash makes no difference, and is the only one that goes. */
  lemma OneSlash(uri: string)
    requires uri == "" || uri[0] != '/'
    ensures TrimUri(uri) == uri && TrimUri("/" + uri) == uri && TrimUri("//" + uri) == "/" + uri
  {
  }

  /** The body is sent with POST and PUT, behind everything else, and with no other method. */
  lemma BodyGoesLast(g: Config, c: Command, uri: string, fields: seq<FieldAnswer>,
                     chunks: seq<ChunkAnswer>)
    ensures c == Post || c == Put ==>
              Wire(g, c, uri, fields, chunks)
              == Wire(g, c, uri, fields, []) + BodyBytes(g.monitored, chunks)
    ensures c != Post && c != Put ==> Wire(g, c, uri, fields, chunks) == Wire(g, c, uri, fields, [])
  {
    var a, b, d, e := RequestLine(g, c, uri), AuthBytes(g), FieldBytes(g.monitored, fields),
                      BodyPart(g, c, chunks);
    assert a + (b + (d + e)) == a + (b + (d + "")) + e;
  }

  /** A request without credential, fields or body. */
  lemma KnownGet(encode: string -> string)
    ensures Wire(Config("h", 80, "", encode, true), Get, "/a/b", [], [])
            == "GET /a/b HTTP/1.1\r\nhost: h:80\r\n\r\n"
  {
    var g := Config("h", 80, "", encode, true);
    MethodTexts("/a/b");
    assert TrimUri("/a/b") == "a/b" && Decimal(80) == "80";
    assert FirstLine(Get, "/a/b") == "GET /a/b HTTP/1.1" && HostLine(g) == "host: h:80";
    assert Wire(g, Get, "/a/b", [], []) == RequestLine(g, Get, "/a/b") + CRLF;
  }

  /** A request with everything, to an IPv6 address. */
  lemma KnownPut(encode: string -> string)
    ensures var g := Config("::1", 8080, "u:p", encode, false);
            var fields := [FieldAnswer("K", "v", LeOk), FieldAnswer("L", "w", Terminated)];
            Wire(g, Put, "x", fields, [ChunkAnswer("12", LeOk), ChunkAnswer("3", Terminated)])
            == "PUT /x HTTP/1.1\r\nHost: [::1]:8080\r\n"
               + ("Authorization: Basic " + encode("u:p") + "\r\n"
                  + ("K: v\r\nL: w\r\n\r\n" + "123"))
  {
    var g := Config("::1", 8080, "u:p", encode, false);
    KnownPutLine(g);
    KnownFields();
    KnownBody();
  }

  lemma KnownPutLine(g: Config)
    requires g.host == "::1" && g.port == 8080
    ensures RequestLine(g, Put, "x") == "PUT /x HTTP/1.1\r\nHost: [::1]:8080\r\n"
  {
    MethodTexts("x");
    assert Decimal(808) == "808" && Decimal(8080) == "8080";
    assert FirstLine(Put, "x") == "PUT /x HTTP/1.1";
    assert HostLine(g) == "Host: [::1]:8080";
  }

  lemma KnownBody()
    ensures BodyBytes(false, [ChunkAnswer("12", LeOk), ChunkAnswer("3", Terminated)]) == "123"
  {
    var chunks := [ChunkAnswer("12", LeOk), ChunkAnswer("3", Terminated)];
    assert chunks[1..] == [ChunkAnswer("3", Terminated)];
  }

  lemma KnownFields()
    ensures FieldBytes(false, [FieldAnswer("K", "v", LeOk), FieldAnswer("L", "w", Terminated)])
            == "K: v\r\nL: w\r\n\r\n"
  {
    var fields := [FieldAnswer("K", "v", LeOk), FieldAnswer("L", "w", Terminated)];
    assert fields[1..] == [FieldAnswer("L", "w", Terminated)];
    assert FieldLine(fields[0]) == "K: v" && FieldLine(fields[1]) == "L: w";
    assert FieldLines(false, fields) == ["K: v", "L: w"];
    assert ["K: v", "L: w"][1..] == ["L: w"] && ["L: w"][1..] == [];
    assert Lines(["L: w"]) == "L: w\r\n";
  }

  // ---- the body the callback announces -----------------------------------------------------

  /** The body as the callback is documented: chunks up to an empty one or one that comes with
      the final status. */
  function AnnouncedBody(monitored: bool, chunks: seq<ChunkAnswer>): string {
    if chunks == [] then ""
    else if Suspends(monitored, chunks[0].status) then AnnouncedBody(monitored, chunks[1..])
    else if chunks[0].data == "" then ""
    else if chunks[0].status == Terminated then chunks[0].data
    else chunks[0].data + AnnouncedBody(monitored, chunks[1..])
  }

  /** The next answer that does not suspend carries data. */
  predicate MoreComes(monitored: bool, chunks: seq<ChunkAnswer>) {
    chunks != []
    && if Suspends(monitored, chunks[0].status) then MoreComes(monitored, chunks[1..])
       else chunks[0].data != ""
  }

  /** Before the announced end, data comes with the status unavailable and more would follow. */
  predicate CutShort(monitored: bool, chunks: seq<ChunkAnswer>) {
    chunks != []
    && if Suspends(monitored, chunks[0].status) then CutShort(monitored, chunks[1..])
       else
         && chunks[0].data != "" && chunks[0].status != Terminated
         && if chunks[0].status == Unavailable then MoreComes(monitored, chunks[1..])
            else CutShort(monitored, chunks[1..])
  }

  lemma {:induction false} AnnouncedIffMore(monitored: bool, chunks: seq<ChunkAnswer>)
    ensures AnnouncedBody(monitored, chunks) != "" <==> MoreComes(monitored, chunks)
  {
    if chunks != [] && Suspends(monitored, chunks[0].status) {
      AnnouncedIffMore(monitored, chunks[1..]);
    }
  }

  /** The body sent is the body announced exactly when no chunk comes with the status unavailable
      while more data would follow: that status ends the body although its data is sent. */
  lemma {:induction false} BodyIsAnnouncedIff(monitored: bool, chunks: seq<ChunkAnswer>)
    ensures BodyBytes(monitored, chunks) == AnnouncedBody(monitored, chunks)
            <==> !CutShort(monitored, chunks)
  {
    if chunks != [] {
      var first, rest := chunks[0], chunks[1..];
      BodyIsAnnouncedIff(monitored, rest);
      if !Suspends(monitored, first.status) && first.data != "" && first.status != Terminated {
        if first.status == Unavailable {
          AnnouncedIffMore(monitored, rest);
          var more := AnnouncedBody(monitored, rest);
          assert |first.data + more| == |first.data| + |more|;
          assert more == "" ==> first.data + more == first.data;
        } else {
          var a, b := BodyBytes(monitored, rest), AnnouncedBody(monitored, rest);
          assert (first.data + a)[|first.data|..] == a && (first.data + b)[|first.data|..] == b;
        }
      }
    }
  }

  /** A body of two chunks of which only the first is sent. */
  lemma UnavailableCutsBody()
    ensures var chunks := [ChunkAnswer("a", Unavailable), ChunkAnswer("b", Terminated)];
            BodyBytes(true, chunks) == "a" && AnnouncedBody(true, chunks) == "ab"
  {
    var chunks := [ChunkAnswer("a", Unavailable), ChunkAnswer("b", Terminated)];
    assert chunks[1..] == [ChunkAnswer("b", Terminated)];
    assert AnnouncedBody(true, chunks[1..]) == "b";
  }

  // ---- suspensions add nothing -------------------------------------------------------------

  function UnblockedFields(fields: seq<FieldAnswer>): seq<FieldAnswer> {
    if fields == [] then []
    else (if fields[0].status == WouldBlock then [] else [fields[0]])
         + UnblockedFields(fields[1..])
  }

  function UnblockedChunks(chunks: seq<ChunkAnswer>): seq<ChunkAnswer> {
    if chunks == [] then []
    else (if chunks[0].status == WouldBlock then [] else [chunks[0]])
         + UnblockedChunks(chunks[1..])
  }

  lemma {:induction false} FieldsSuspended(fields: seq<FieldAnswer>)
    ensures FieldLines(true, fields) == FieldLines(false, UnblockedFields(fields))
  {
    if fields != [] {
      FieldsSuspended(fields[1..]);
      if fields[0].status == WouldBlock {
        assert UnblockedFields(fields) == UnblockedFields(fields[1..]);
      } else {
        OneMoreField(fields[0], UnblockedFields(fields[1..]));
        assert FieldLines(true, fields)
               == if EndsFields(fields[0]) then []
                  else [FieldLine(fields[0])]
                       + if fields[0].status == Terminated then []
                         else FieldLines(true, fields[1..]);
      }
    }
  }

  lemma OneMoreField(a: FieldAnswer, rest: seq<FieldAnswer>)
    ensures FieldLines(false, [a] + rest)
            == if EndsFields(a) then []
               else [FieldLine(a)]
                    + if a.status == Terminated then [] else FieldLines(false, rest)
  {
    assert ([a] + rest)[1..] == rest;
  }

  lemma {:induction false} ChunksSuspended(chunks: seq<ChunkAnswer>)
    ensures BodyBytes(true, chunks) == BodyBytes(false, UnblockedChunks(chunks))
  {
    if chunks != [] {
      ChunksSuspended(chunks[1..]);
      var rest := UnblockedChunks(chunks[1..]);
      if chunks[0].status != WouldBlock {
        assert UnblockedChunks(chunks)[0] == chunks[0] && UnblockedChunks(chunks)[1..] == rest;
      } else {
        assert UnblockedChunks(chunks) == rest;
      }
    }
  }

  /** A monitored socket sends for a suspending script what an unmonitored one sends for the
      script without its suspensions. */
  lemma SuspensionsAddNothing(g: Config, c: Command, uri: string, fields: seq<FieldAnswer>,
                              chunks: seq<ChunkAnswer>)
    requires g.monitored
    ensures Wire(g, c, uri, fields, chunks)
            == Wire(g.(monitored := false), c, uri, UnblockedFields(fields),
                    UnblockedChunks(chunks))
  {
    FieldsSuspended(fields);
    ChunksSuspended(chunks);
    var g' := g.(monitored := false);
    assert HostLine(g) == HostLine(g') && AuthBytes(g) == AuthBytes(g');
    assert RequestLine(g, c, uri) == RequestLine(g', c, uri);
    assert BodyPart(g, c, chunks) == BodyPart(g', c, UnblockedChunks(chunks));
  }

  // ---- a reader ----------------------------------------------------------------------------

  /** The position of the first CRLF, or None. */
  function LineEnd(s: string): Option<nat> {
    if |s| < 2 then None
    else if s[0] == '\r' && s[1] == '\n' then Some(0)
    else match LineEnd(s[1..]) case None => None case Some(n) => Some(n + 1)
  }

  lemma {:induction false} LineEndBound(s: string)
    ensures LineEnd(s).Some? ==> LineEnd(s).value + 2 <= |s|
  {
    if |s| >= 2 {
      LineEndBound(s[1..]);
    }
  }

  /** Reads lines up to the empty one; None when there is none. */
  function ReadHead(s: string): Option<(seq<string>, string)>
    decreases |s|
  {
    LineEndBound(s);
    match LineEnd(s)
    case None => None
    case Some(n) =>
      if n == 0 then Some(([], s[2..]))
      else match ReadHead(s[n + 2..])
           case None => None
           case Some((lines, body)) => Some(([s[..n]] + lines, body))
  }

  /** A line break inside a string; a carriage return alone is none. */
  predicate Breaks(line: string) {
    exists i :: 0 <= i < |line| - 1 && line[i] == '\r' && line[i + 1] == '\n'
  }

  predicate Unbroken(lines: seq<string>) {
    forall i :: 0 <= i < |lines| ==> !Breaks(lines[i])
  }

  lemma {:induction false} LineEndOfUnbroken(line: string, rest: string)
    requires !Breaks(line)
    ensures LineEnd(line + CRLF + rest) == Some(|line|)
  {
    var s := line + CRLF + rest;
    if line != "" {
      assert !Breaks(line[1..]) by {
        assert forall i :: 0 <= i < |line| - 1 ==> line[1..][i] == line[i + 1];
      }
      LineEndOfUnbroken(line[1..], rest);
      assert s[1..] == line[1..] + CRLF + rest;
      assert s[0] == line[0];
      assert s[1] == if |line| > 1 then line[1] else '\r';
    }
  }

  /** The first line end leaves no break before it. */
  lemma {:induction false} NoBreakBeforeLineEnd(s: string)
    requires LineEnd(s).Some? && LineEnd(s).value <= |s|
    ensures !Breaks(s[..LineEnd(s).value])
  {
    var n := LineEnd(s).value;
    if n > 0 {
      LineEndBound(s[1..]);
      NoBreakBeforeLineEnd(s[1..]);
      assert s[..n][1..] == s[1..][..n - 1];
      BreaksTail(s[..n]);
    }
  }

  lemma BreaksTail(line: string)
    requires line != "" && !(|line| > 1 && line[0] == '\r' && line[1] == '\n')
    ensures Breaks(line) ==> Breaks(line[1..])
  {
    if Breaks(line) {
      var i :| 0 <= i < |line| - 1 && line[i] == '\r' && line[i + 1] == '\n';
      assert line[1..][i - 1] == '\r' && line[1..][i - 1 + 1] == '\n';
    }
  }

  /** No line that is read has a break in it. */
  lemma {:induction false} ReadsUnbroken(s: string)
    ensures ReadHead(s).Some? ==> Unbroken(ReadHead(s).value.0)
    decreases |s|
  {
    LineEndBound(s);
    if ReadHead(s).Some? && LineEnd(s).value > 0 {
      NoBreakBeforeLineEnd(s);
      ReadsUnbroken(s[LineEnd(s).value + 2..]);
    }
  }

  lemma ReadOneLine(line: string, rest: string)
    requires line != "" && !Breaks(line)
    ensures ReadHead(line + CRLF + rest)
            == match ReadHead(rest)
               case None => None
               case Some((lines, body)) => Some(([line] + lines, body))
  {
    LineEndOfUnbroken(line, rest);
    var s := line + CRLF + rest;
    assert s[|line| + 2..] == rest && s[..|line|] == line;
  }

  lemma Regroup(r: string, a: string, l: string, b: string)
    ensures r + (a + (l + CRLF + b)) == r + a + l + CRLF + b
    ensures r + a + (l + CRLF + b) == r + a + l + CRLF + b
  {
  }

  lemma ReadEmptyLine(body: string)
    ensures ReadHead(CRLF + body) == Some(([], body))
  {
    var s := CRLF + body;
    assert s == "" + CRLF + body;
    LineEndOfUnbroken("", body);
    assert s[2..] == body;
  }

  lemma {:induction false} ReadLines(lines: seq<string>, body: string)
    requires Unbroken(lines) && "" !in lines
    ensures ReadHead(Lines(lines) + CRLF + body) == Some((lines, body))
  {
    if lines == [] {
      ReadEmptyLine(body);
      assert Lines(lines) + CRLF + body == CRLF + body;
    } else {
      var line, rest := lines[0], lines[1..];
      assert lines == [line] + rest;
      ReadLines(rest, body);
      ReadOneLine(line, Lines(rest) + CRLF + body);
      Regroup(line, CRLF, Lines(rest), body);
    }
  }

  /** The lines before the empty one. */
  function HeadLines(g: Config, c: Command, uri: string, fields: seq<FieldAnswer>): seq<string> {
    [FirstLine(c, uri), HostLine(g)] + (if g.credential == "" then [] else [AuthLine(g)])
    + FieldLines(g.monitored, fields)
  }

  lemma {:induction false} LinesAppend(a: seq<string>, b: seq<string>)
    ensures Lines(a + b) == Lines(a) + Lines(b)
  {
    if a == [] {
      assert a + b == b;
    } else {
      LinesAppend(a[1..], b);
      assert (a + b)[1..] == a[1..] + b && (a + b)[0] == a[0];
      assert a[0] + CRLF + (Lines(a[1..]) + Lines(b)) == a[0] + CRLF + Lines(a[1..]) + Lines(b);
    }
  }

  lemma LinesOfHead(one: string, two: string, auth: seq<string>, fs: seq<string>)
    ensures Lines([one, two] + auth + fs) == one + CRLF + (two + CRLF) + Lines(auth) + Lines(fs)
  {
    LinesAppend([one, two] + auth, fs);
    LinesAppend([one, two], auth);
    assert [one, two][1..] == [two];
    LinesOfOne(two);
    assert one + CRLF + (two + CRLF) == Lines([one, two]);
  }

  lemma LinesOfOne(line: string)
    ensures Lines([line]) == line + CRLF
  {
    assert [line][1..] == [];
    assert line + CRLF + "" == line + CRLF;
  }

  lemma WireIsLines(g: Config, c: Command, uri: string, fields: seq<FieldAnswer>,
                    chunks: seq<ChunkAnswer>)
    ensures Wire(g, c, uri, fields, chunks)
            == Lines(HeadLines(g, c, uri, fields)) + CRLF + BodyPart(g, c, chunks)
  {
    var auth := if g.credential == "" then [] else [AuthLine(g)];
    var fs := FieldLines(g.monitored, fields);
    LinesOfHead(FirstLine(c, uri), HostLine(g), auth, fs);
    LinesOfOne(AuthLine(g));
    Regroup(RequestLine(g, c, uri), AuthBytes(g), Lines(fs), BodyPart(g, c, chunks));
  }

  /** A server that reads lines gets back the request line, the host, at most one Authorization
      line, the fields in callback order, one empty line and then exactly the body, if and only
      if no line has a line break in it: the source copies every part as it stands. */
  lemma ServerReadsRequest(g: Config, c: Command, uri: string, fields: seq<FieldAnswer>,
                           chunks: seq<ChunkAnswer>)
    ensures ReadHead(Wire(g, c, uri, fields, chunks))
            == Some((HeadLines(g, c, uri, fields), BodyPart(g, c, chunks)))
            <==> Unbroken(HeadLines(g, c, uri, fields))
  {
    var lines := HeadLines(g, c, uri, fields);
    WireIsLines(g, c, uri, fields, chunks);
    ReadsUnbroken(Wire(g, c, uri, fields, chunks));
    if Unbroken(lines) {
      FieldLinesNonEmpty(g.monitored, fields);
      ReadLines(lines, BodyPart(g, c, chunks));
    }
  }

  /** A line with a break and the two lines it stands for are the same bytes. */
  lemma LinesOfBreak(before: seq<string>, a: string, b: string, after: seq<string>)
    ensures Lines(before + [a + CRLF + b] + after) == Lines(before + [a, b] + after)
  {
    LinesAppend(before + [a + CRLF + b], after);
    LinesAppend(before, [a + CRLF + b]);
    LinesOfOne(a + CRLF + b);
    LinesAppend(before + [a, b], after);
    LinesAppend(before, [a, b]);
    assert [a, b][1..] == [b];
    LinesOfOne(b);
    assert a + CRLF + b + CRLF == a + CRLF + (b + CRLF);
  }

  /** A field value with a line break is read as two lines. */
  lemma BrokenValueIsTwoLines(g: Config, c: Command, uri: string, key: string, v: string,
                              w: string, chunks: seq<ChunkAnswer>)
    requires Unbroken(HeadLines(g, c, uri, [])) && key != "" && w != ""
    requires !Breaks(key + ": " + v) && !Breaks(w)
    ensures var fields := [FieldAnswer(key, v + CRLF + w, Terminated)];
            ReadHead(Wire(g, c, uri, fields, chunks))
            == Some((HeadLines(g, c, uri, []) + [key + ": " + v, w], BodyPart(g, c, chunks)))
  {
    var fields := [FieldAnswer(key, v + CRLF + w, Terminated)];
    var head, a := HeadLines(g, c, uri, []), key + ": " + v;
    assert FieldLine(fields[0]) == a + CRLF + w;
    OneField(g, c, uri, fields[0]);
    WireIsLines(g, c, uri, fields, chunks);
    ReadBroken(head, a, w, BodyPart(g, c, chunks));
  }

  lemma ReadBroken(head: seq<string>, a: string, b: string, body: string)
    requires Unbroken(head + [a, b]) && "" !in head + [a, b]
    ensures ReadHead(Lines(head + [a + CRLF + b]) + CRLF + body) == Some((head + [a, b], body))
  {
    LinesOfBreak(head, a, b, []);
    assert head + [a + CRLF + b] + [] == head + [a + CRLF + b];
    assert head + [a, b] + [] == head + [a, b];
    ReadLines(head + [a, b], body);
  }

  lemma OneField(g: Config, c: Command, uri: string, f: FieldAnswer)
    requires !EndsFields(f) && f.status == Terminated
    ensures HeadLines(g, c, uri, [f]) == HeadLines(g, c, uri, []) + [FieldLine(f)]
  {
    assert FieldLines(g.monitored, [f]) == [FieldLine(f)];
  }

  /** One value, two fields: "v" and a field "X" that no callback gave. */
  lemma InjectedField(g: Config, c: Command, uri: string, chunks: seq<ChunkAnswer>)
    requires Unbroken(HeadLines(g, c, uri, []))
    ensures ReadHead(Wire(g, c, uri, [FieldAnswer("K", "v" + CRLF + "X: y", Terminated)], chunks))
            == Some((HeadLines(g, c, uri, []) + ["K: v", "X: y"], BodyPart(g, c, chunks)))
  {
    assert "K" + ": " + "v" == "K: v";
    BrokenValueIsTwoLines(g, c, uri, "K", "v", "X: y", chunks);
  }

  lemma {:induction false} FieldLinesNonEmpty(monitored: bool, fields: seq<FieldAnswer>)
    ensures forall i :: 0 <= i < |FieldLines(monitored, fields)| ==>
              FieldLines(monitored, fields)[i] != ""
  {
    if fields != [] {
      FieldLinesNonEmpty(monitored, fields[1..]);
    }
  }
}
