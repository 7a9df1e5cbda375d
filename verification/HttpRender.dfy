/** Rendering a request and reading it back (request line: section 3.1.1 of RFC 7230;
    header fields: section 3.2; Content-Length: section 3.3.2). */
module HttpRender {
  import opened HttpText
  import opened HttpFraming

  datatype Header = Header(name: string, value: string)

  const CRLF := "\r\n"

  function Text(h: Header): string {
    h.name + ":" + h.value
  }

  function Lines(headers: seq<Header>): string {
    if headers == [] then "" else Text(headers[0]) + CRLF + Lines(headers[1..])
  }

  /** Whether a request announces the length of its body, and with what white space before it. */
  datatype Length = Unannounced | Announced(padding: string)

  /** A request, with its length header, if it has one, anywhere among the others. */
  datatype Request = Request(
    httpMethod: string,
    spaces: string,
    url: string,
    version: string,
    before: seq<Header>,
    length: Length,
    after: seq<Header>,
    body: string)

  function LengthHeader(r: Request): seq<Header> {
    if r.length.Unannounced? then []
    else [Header("Content-Length", r.length.padding + Decimal(|r.body|))]
  }

  function AllHeaders(r: Request): seq<Header> {
    r.before + LengthHeader(r) + r.after
  }

  function Head(r: Request): string {
    r.httpMethod + r.spaces + r.url + " " + r.version
  }

  function Render(r: Request): string {
    Head(r) + CRLF + Lines(AllHeaders(r)) + CRLF + r.body
  }

  predicate HeaderOk(h: Header) {
    ':' !in h.name && '\r' !in h.name && '\r' !in h.value
  }

  /** What the grammar asks of the parts: no spaces or line ends inside tokens, and only one
      length header counts, so none may follow the request's own. A request without one has no body. */
  predicate WellFormed(r: Request) {
    ' ' !in r.httpMethod && '\r' !in r.httpMethod &&
    r.spaces != "" && (forall k :: 0 <= k < |r.spaces| ==> r.spaces[k] == ' ') &&
    r.url != "" && ' ' !in r.url && '\r' !in r.url && '\r' !in r.version &&
    (forall h :: h in r.before ==> HeaderOk(h)) &&
    (forall h :: h in r.after ==> HeaderOk(h) && h.name != "Content-Length") &&
    match r.length
    case Unannounced => r.body == "" && forall h :: h in r.before ==> h.name != "Content-Length"
    case Announced(padding) =>
      |r.body| < 0x1_0000_0000 && forall k :: 0 <= k < |padding| ==> padding[k] == ' ' || padding[k] == '\t'
  }

  // ------------------------------------------------------------------ one line

  lemma LineEnd(p: string, line: string, q: string)
    requires '\r' !in line
    ensures FindCrlf(p + line + CRLF + q, |p|) == |p| + |line|
  {
    var b := p + line + CRLF + q;
    forall k | |p| <= k < |p| + |line|
      ensures !CrlfAt(b, k)
    {
      assert b[k] == line[k - |p|];
    }
    assert b[|p| + |line|] == '\r' && b[|p| + |line| + 1] == '\n';
    FirstCrlf(b, |p|, |p| + |line|);
  }

  /** The size in force after a header line. */
  function SizeAfter(h: Header, size: nat): nat {
    if h.name == "Content-Length" then Atoi(h.value) % UINT else size
  }

  lemma HeaderText(h: Header, size: nat)
    requires HeaderOk(h)
    ensures FindChar(Text(h), ':') == |h.name| < |Text(h)|
    ensures BodySizeAfter(Text(h), |h.name|, size) == SizeAfter(h, size)
    ensures '\r' !in Text(h)
  {
    assert Text(h) == h.name + [':'] + h.value;
    FirstChar(h.name, ':', h.value);
    assert Text(h)[..|h.name|] == h.name && Text(h)[|h.name| + 1..] == h.value;
  }

  lemma ReadsField(p: string, h: Header, q: string, size: nat)
    requires HeaderOk(h)
    ensures ReadLine(p + Text(h) + CRLF + q, |p|, size) == Field(|p| + |Text(h)| + 2, SizeAfter(h, size))
  {
    var b := p + Text(h) + CRLF + q;
    HeaderText(h, size);
    LineEnd(p, Text(h), q);
    assert b[|p|..|p| + |Text(h)|] == Text(h);
  }

  /** A line without a colon ends the headers, empty or not. */
  lemma ColonFreeLineEndsHeaders(p: string, line: string, q: string, size: nat)
    requires '\r' !in line && ':' !in line
    ensures ReadLine(p + line + CRLF + q, |p|, size) == Blank(|p| + |line| + 2)
  {
    LineEnd(p, line, q);
    assert (p + line + CRLF + q)[|p|..|p| + |line|] == line;
    NoColon(line);
  }

  lemma NoColon(line: string)
    requires ':' !in line
    ensures FindChar(line, ':') == |line|
  {
  }

  // ------------------------------------------------------------------ all the headers

  function SizeAfterAll(headers: seq<Header>, size: nat): nat {
    if headers == [] then size else SizeAfterAll(headers[1..], SizeAfter(headers[0], size))
  }

  lemma RegroupLines(p: string, t: string, c: string, l: string, e: string, q: string)
    ensures p + (t + c + l) + e + q == p + t + c + (l + e + q)
    ensures p + (t + c + l) + e + q == (p + t + c) + l + e + q
  {
  }

  lemma ScanGoesOn(b: string, it: nat, size: nat, next: nat, nextSize: nat)
    requires it <= |b| && ReadLine(b, it, size) == Field(next, nextSize)
    ensures ScanHeaders(b, it, size) == ScanHeaders(b, next, nextSize)
  {
  }

  lemma ScansField(b: string, p: string, h: Header, q: string, size: nat)
    requires HeaderOk(h) && b == p + Text(h) + CRLF + q
    ensures |p + Text(h) + CRLF| <= |b|
    ensures ScanHeaders(b, |p|, size) == ScanHeaders(b, |p + Text(h) + CRLF|, SizeAfter(h, size))
  {
    var next := p + Text(h) + CRLF;
    assert |next| == |p| + |Text(h)| + 2;
    assert |b| == |next| + |q|;
    assert ReadLine(b, |p|, size) == Field(|next|, SizeAfter(h, size)) by {
      ReadsField(p, h, q, size);
    }
    ScanGoesOn(b, |p|, size, |next|, SizeAfter(h, size));
  }

  /** The header scan ends after the first line without a colon, with the size then in force. */
  lemma {:induction false} ScansLines(b: string, p: string, headers: seq<Header>, stop: string, q: string, size: nat)
    requires (forall h :: h in headers ==> HeaderOk(h)) && '\r' !in stop && ':' !in stop
    requires b == p + Lines(headers) + (stop + CRLF) + q
    ensures ScanHeaders(b, |p|, size) == Headers(true, |p + Lines(headers)| + |stop| + 2, SizeAfterAll(headers, size))
    decreases |headers|
  {
    if headers == [] {
      assert b == p + stop + CRLF + q;
      ColonFreeLineEndsHeaders(p, stop, q, size);
    } else {
      var h, rest := headers[0], headers[1..];
      var t, l := Text(h), Lines(rest);
      assert Lines(headers) == t + CRLF + l;
      RegroupLines(p, t, CRLF, l, stop + CRLF, q);
      ScansField(b, p, h, l + (stop + CRLF) + q, size);
      ScansLines(b, p + t + CRLF, rest, stop, q, SizeAfter(h, size));
      assert |p + t + CRLF + l| == |p + (t + CRLF + l)|;
    }
  }

  lemma {:induction false} SizeAfterConcat(a: seq<Header>, b: seq<Header>, size: nat)
    ensures SizeAfterAll(a + b, size) == SizeAfterAll(b, SizeAfterAll(a, size))
  {
    if a == [] {
      assert a + b == b;
    } else {
      assert (a + b)[1..] == a[1..] + b;
      SizeAfterConcat(a[1..], b, SizeAfter(a[0], size));
    }
  }

  lemma {:induction false} OtherHeadersKeepSize(headers: seq<Header>, size: nat)
    requires forall h :: h in headers ==> h.name != "Content-Length"
    ensures SizeAfterAll(headers, size) == size
  {
    if headers != [] {
      OtherHeadersKeepSize(headers[1..], size);
    }
  }

  lemma OwnSize(padding: string, n: nat, size: nat)
    requires n < 0x1_0000_0000 && forall k :: 0 <= k < |padding| ==> padding[k] == ' ' || padding[k] == '\t'
    ensures SizeAfterAll([Header("Content-Length", padding + Decimal(n))], size) == n
  {
    var h := Header("Content-Length", padding + Decimal(n));
    assert [h][1..] == [];
    assert padding + Decimal(n) + "" == padding + Decimal(n);
    AtoiInvertsDecimal(padding, n, "");
  }

  /** Whatever length headers came before, the request's own decides; without one there is no body. */
  lemma LengthHeaderDecides(r: Request)
    requires WellFormed(r)
    ensures SizeAfterAll(AllHeaders(r), 0) == |r.body|
  {
    SizeAfterConcat(r.before + LengthHeader(r), r.after, 0);
    SizeAfterConcat(r.before, LengthHeader(r), 0);
    OtherHeadersKeepSize(r.after, |r.body|);
    match r.length {
      case Unannounced => OtherHeadersKeepSize(r.before, 0);
      case Announced(padding) => OwnSize(padding, |r.body|, SizeAfterAll(r.before, 0));
    }
  }

  // ------------------------------------------------------------------ the request line

  lemma {:induction false} SkipsSpaces(spaces: string, s: string)
    requires (forall k :: 0 <= k < |spaces| ==> spaces[k] == ' ') && s != "" && s[0] != ' '
    ensures SkipSpaces(spaces + s) == s
  {
    if spaces == "" {
      assert spaces + s == s;
    } else {
      assert (spaces + s)[1..] == spaces[1..] + s;
      SkipsSpaces(spaces[1..], s);
    }
  }

  lemma TokenBefore(token: string, rest: string)
    requires ' ' !in token && rest != "" && rest[0] == ' '
    ensures Token(token + rest) == token
  {
    assert token + rest == token + [' '] + rest[1..];
    FirstChar(token, ' ', rest[1..]);
  }

  lemma ReadsRequestLine(r: Request)
    requires WellFormed(r)
    ensures ParseLine(Head(r)) == RequestLine(true, r.httpMethod, r.url)
  {
    var afterMethod := r.spaces + (r.url + (" " + r.version));
    assert Head(r) == r.httpMethod + afterMethod;
    TokenBefore(r.httpMethod, afterMethod);
    assert Head(r)[|r.httpMethod|..] == afterMethod;
    SkipsSpaces(r.spaces, r.url + (" " + r.version));
    TokenBefore(r.url, " " + r.version);
  }

  // ------------------------------------------------------------------ the round trip

  lemma NoReturnInValue(padding: string, n: nat)
    requires forall k :: 0 <= k < |padding| ==> padding[k] == ' ' || padding[k] == '\t'
    ensures '\r' !in padding + Decimal(n)
  {
    var value := padding + Decimal(n);
    forall k | 0 <= k < |value|
      ensures value[k] != '\r'
    {
      if k >= |padding| {
        assert IsDigit(Decimal(n)[k - |padding|]);
      }
    }
  }

  lemma OwnHeadersAreOk(r: Request)
    requires WellFormed(r)
    ensures forall h :: h in AllHeaders(r) ==> HeaderOk(h)
  {
    if r.length.Announced? {
      NoReturnInValue(r.length.padding, |r.body|);
    }
  }

  lemma FirstLine(head: string, q: string)
    requires '\r' !in head
    ensures FindCrlf(head + CRLF + q, 0) == |head| && (head + CRLF + q)[..|head|] == head
  {
    assert "" + head + CRLF + q == head + CRLF + q;
    LineEnd("", head, q);
  }

  /** An accepted request line, headers, a line without a colon and some bytes: a complete
      request if and only if there are as many bytes as the headers announce. */
  lemma CompleteIffBodyIsThere(b: string, head: string, headers: seq<Header>, stop: string, tail: string)
    requires '\r' !in head && ParseLine(head).ok && '\r' !in stop && ':' !in stop
    requires forall h :: h in headers ==> HeaderOk(h)
    requires b == head + CRLF + Lines(headers) + (stop + CRLF) + tail
    ensures var size := SizeAfterAll(headers, 0);
      Parse(b) == Scan(size <= |tail|, |b| - |tail| + size, ParseLine(head).httpMethod, ParseLine(head).url)
  {
    GroupRest(head, CRLF, Lines(headers), stop + CRLF, tail);
    FirstLine(head, Lines(headers) + (stop + CRLF) + tail);
    ScansLines(b, head + CRLF, headers, stop, tail, 0);
    ParseContinues(b, |head|, ParseLine(head));
  }

  lemma GroupRest(p: string, c: string, l: string, e: string, q: string)
    ensures p + c + l + e + q == p + c + (l + e + q)
  {
  }

  lemma ParseContinues(b: string, e: nat, line: RequestLine)
    requires FindCrlf(b, 0) == e && e + 2 <= |b| && ParseLine(b[..e]) == line
    ensures Parse(b) == ParseFrom(b, e, line)
  {
  }

  lemma RenderedIsAFrame(r: Request)
    requires WellFormed(r)
    ensures Parse(Render(r)) == Scan(true, |Render(r)|, r.httpMethod, r.url)
  {
    assert '\r' !in Head(r);
    ReadsRequestLine(r);
    OwnHeadersAreOk(r);
    LengthHeaderDecides(r);
    assert "" + CRLF == CRLF;
    CompleteIffBodyIsThere(Render(r), Head(r), AllHeaders(r), "", r.body);
  }

  /** A rendered request followed by any bytes parses to its exact length, method and url. */
  lemma RoundTrip(r: Request, rest: string)
    requires WellFormed(r)
    ensures Parse(Render(r) + rest) == Scan(true, |Render(r)|, r.httpMethod, r.url)
    ensures |Render(r) + rest| < 0x8000_0000 ==> ToInt(Parse(Render(r) + rest).end) == |Render(r)|
  {
    RenderedIsAFrame(r);
    FramesArePrefixFree(Render(r), Render(r), rest);
    if |Render(r) + rest| < 0x8000_0000 {
      ReturnedLengthIsExact(Render(r) + rest);
    }
  }

  /** A negative length, as the last one, becomes so large that on buffers whose size fits an
      `int` the request never completes. */
  lemma NegativeLengthNeverCompletes(b: string, head: string, before: seq<Header>, padding: string, n: nat,
      after: seq<Header>, stop: string, tail: string)
    requires '\r' !in head && ParseLine(head).ok && '\r' !in stop && ':' !in stop && 0 < n <= 0x8000_0000
    requires (forall h :: h in before ==> HeaderOk(h)) && forall h :: h in after ==> HeaderOk(h) && h.name != "Content-Length"
    requires forall k :: 0 <= k < |padding| ==> padding[k] == ' ' || padding[k] == '\t'
    requires b == head + CRLF + Lines(before + [NegativeLength(padding, n)] + after) + (stop + CRLF) + tail
    requires |b| < 0x8000_0000
    ensures !Parse(b).ok
  {
    NegativeLengthIsOk(padding, n);
    NegativeSize(before, padding, n, after);
    CompleteIffBodyIsThere(b, head, before + [NegativeLength(padding, n)] + after, stop, tail);
  }

  function NegativeLength(padding: string, n: nat): Header {
    Header("Content-Length", padding + ['-'] + Decimal(n))
  }

  lemma NegativeLengthIsOk(padding: string, n: nat)
    requires forall k :: 0 <= k < |padding| ==> padding[k] == ' ' || padding[k] == '\t'
    ensures HeaderOk(NegativeLength(padding, n))
  {
    NoReturnInValue(padding, n);
    assert '\r' !in padding by {
      assert forall k :: 0 <= k < |padding| ==> padding[k] != '\r';
    }
    assert forall c :: c in Decimal(n) ==> c in padding + Decimal(n);
  }

  lemma NegativeSize(before: seq<Header>, padding: string, n: nat, after: seq<Header>)
    requires 0 < n <= 0x8000_0000 && forall h :: h in after ==> h.name != "Content-Length"
    requires forall k :: 0 <= k < |padding| ==> padding[k] == ' ' || padding[k] == '\t'
    ensures SizeAfterAll(before + [NegativeLength(padding, n)] + after, 0) == 0x1_0000_0000 - n
  {
    var own := [NegativeLength(padding, n)];
    SizeAfterConcat(before + own, after, 0);
    SizeAfterConcat(before, own, 0);
    assert own[1..] == [];
    assert padding + ['-'] + Decimal(n) + "" == padding + ['-'] + Decimal(n);
    AtoiReadsSign(padding, '-', n, "");
    OtherHeadersKeepSize(after, 0x1_0000_0000 - n);
  }
}
