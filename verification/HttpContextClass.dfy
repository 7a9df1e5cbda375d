/** The _HttpContext object: the request-line scanner and the framing loop with its parse
    state, proved against the functions of HttpFraming. Every access is in bounds and the
    loop terminates, for every buffer. */
module HttpContextClass {
  import opened HttpText
  import opened HttpFraming

  datatype ParseState = ExpectRequestLine | ExpectHeaders | ExpectBody | GotAll

  // ------------------------------------------------------------------ one character at a time

  lemma TokenStep(buf: string, i: nat, end: nat)
    requires i < end <= |buf| && buf[i] != ' '
    ensures Token(buf[i..end]) == [buf[i]] + Token(buf[i + 1..end])
  {
    assert buf[i..end][1..] == buf[i + 1..end];
  }

  /** One more character of the token that starts at `begin`. */
  lemma TokenGrows(buf: string, begin: nat, i: nat, end: nat)
    requires begin <= i < end <= |buf| && buf[i] != ' '
    requires Token(buf[begin..end]) == buf[begin..i] + Token(buf[i..end])
    ensures buf[begin..i] + [buf[i]] == buf[begin..i + 1]
    ensures Token(buf[begin..end]) == buf[begin..i + 1] + Token(buf[i + 1..end])
  {
    TokenStep(buf, i, end);
    Regroup(buf[begin..i], [buf[i]], Token(buf[i + 1..end]));
  }

  lemma Regroup(a: string, b: string, c: string)
    ensures a + (b + c) == a + b + c
  {
  }

  lemma TokenEnds(buf: string, i: nat, end: nat)
    requires i <= end <= |buf| && (i < end ==> buf[i] == ' ')
    ensures Token(buf[i..end]) == ""
  {
  }

  lemma SpaceStep(buf: string, i: nat, end: nat)
    requires i < end <= |buf| && buf[i] == ' '
    ensures SkipSpaces(buf[i..end]) == SkipSpaces(buf[i + 1..end])
  {
    assert buf[i..end][1..] == buf[i + 1..end];
  }

  lemma SpacesEnd(buf: string, i: nat, end: nat)
    requires i <= end <= |buf| && (i < end ==> buf[i] != ' ')
    ensures SkipSpaces(buf[i..end]) == buf[i..end]
  {
  }

  lemma SliceOfSlice(buf: string, begin: nat, m: nat, end: nat)
    requires begin <= m <= end <= |buf|
    ensures buf[begin..end][m - begin..] == buf[m..end]
  {
  }

  /** The parse of a request line from where its method ends. */
  lemma LineFromParts(buf: string, begin: nat, m: nat, end: nat)
    requires begin <= m <= end <= |buf| && Token(buf[begin..end]) == buf[begin..m]
    ensures var rest := SkipSpaces(buf[m..end]);
      ParseLine(buf[begin..end]) ==
        if m == end || rest == "" then RequestLine(false, buf[begin..m], "") else RequestLine(true, buf[begin..m], Token(rest))
  {
    SliceOfSlice(buf, begin, m, end);
  }

  // ------------------------------------------------------------------ one line at a time

  /** What the parse comes to once the header scan ends in `h`. */
  ghost predicate Pends(b: string, h: Headers, p: Scan) {
    p.ok == (h.done && (h.bodySize == 0 || |b| - h.it >= h.bodySize)) && p.end == h.it + h.bodySize
  }

  lemma AfterRequestLine(b: string, e: nat)
    requires e == FindCrlf(b, 0) && e < |b|
    ensures var line, p := ParseLine(b[0..e]), Parse(b);
      e + 2 <= |b| && p.httpMethod == line.httpMethod && p.url == line.url &&
      if line.ok then Pends(b, ScanHeaders(b, e + 2, 0), p) else !p.ok && p.end == e
  {
    assert b[0..e] == b[..e];
  }

  lemma AfterHeaderLine(b: string, it: nat, bodySize: nat)
    requires it <= |b|
    ensures var l := ReadLine(b, it, bodySize);
      ScanHeaders(b, it, bodySize) ==
        if l.NoEnd? then Headers(false, it, bodySize)
        else if l.Blank? then Headers(true, l.next, bodySize)
        else ScanHeaders(b, l.next, l.bodySize)
  {
  }

  class HttpContext {
    var state: ParseState
    var requestMethod: string
    var requestUrl: string

    constructor ()
      ensures state == ExpectRequestLine && requestMethod == "" && requestUrl == ""
    {
      state, requestMethod, requestUrl := ExpectRequestLine, "", "";
    }

    method Reset()
      modifies this
      ensures state == ExpectRequestLine && requestMethod == "" && requestUrl == ""
    {
      state, requestMethod, requestUrl := ExpectRequestLine, "", "";
    }

    /** The first and third loops of `praseRequestLine`: the characters up to a space or the end. */
    method TakeToken(buf: string, begin: nat, end: nat) returns (stop: nat, token: string)
      requires begin <= end <= |buf|
      ensures begin <= stop <= end && token == buf[begin..stop] == Token(buf[begin..end])
      ensures stop < end ==> buf[stop] == ' '
    {
      stop, token := begin, "";
      while stop != end && buf[stop] != ' '
        invariant begin <= stop <= end && token == buf[begin..stop]
        invariant Token(buf[begin..end]) == token + Token(buf[stop..end])
        decreases end - stop
      {
        TokenGrows(buf, begin, stop, end);
        token := token + [buf[stop]];
        stop := stop + 1;
      }
      TokenEnds(buf, stop, end);
    }

    /** Its second loop has no bound of its own: what is at `end` stops it. */
    method PassSpaces(buf: string, begin: nat, end: nat) returns (stop: nat)
      requires begin <= end < |buf| && buf[end] != ' '
      ensures begin <= stop <= end && buf[stop..end] == SkipSpaces(buf[begin..end])
    {
      stop := begin;
      while buf[stop] == ' '
        invariant begin <= stop <= end && SkipSpaces(buf[stop..end]) == SkipSpaces(buf[begin..end])
        decreases end - stop
      {
        SpaceStep(buf, stop, end);
        stop := stop + 1;
      }
      SpacesEnd(buf, stop, end);
    }

    /** `praseRequestLine`: the byte at `end` is the CR of the line's end. */
    method PraseRequestLine(buf: string, begin: nat, end: nat) returns (ok: bool)
      requires begin <= end < |buf| && buf[end] == '\r'
      modifies this`requestMethod, this`requestUrl
      ensures var line := ParseLine(buf[begin..end]);
        ok == line.ok && requestMethod == old(requestMethod) + line.httpMethod && requestUrl == old(requestUrl) + line.url
    {
      var start, token := TakeToken(buf, begin, end);
      requestMethod := requestMethod + token;
      LineFromParts(buf, begin, start, end);
      if start == end {
        return false;
      }
      start := PassSpaces(buf, start, end);
      if start == end {
        return false;
      }
      start, token := TakeToken(buf, start, end);
      requestUrl := requestUrl + token;
      ok := true;
    }

    /** What the loop knows at its head, in each parse state, and when it stops. */
    ghost predicate On(buf: string, hasMore: bool, ok: bool, it: nat, bodySize: nat, httpMethod: string, url: string)
      reads this
    {
      var p := Parse(buf);
      it <= |buf| && state != GotAll &&
      if hasMore && state == ExpectRequestLine then
        it == 0 && bodySize == 0 && requestMethod == httpMethod && requestUrl == url
      else
        requestMethod == httpMethod + p.httpMethod && requestUrl == url + p.url &&
        if hasMore && state == ExpectHeaders then
          Pends(buf, ScanHeaders(buf, it, bodySize), p)
        else if hasMore then Pends(buf, Headers(true, it, bodySize), p)
        else ok == p.ok && it + bodySize == p.end
    }

    /** The branch of the loop that reads the request line. */
    method RequestLineBranch(buf: string, ghost m: string, ghost u: string) returns (hasMore: bool, ok: bool, it: nat)
      requires state == ExpectRequestLine && On(buf, true, false, 0, 0, m, u)
      modifies this
      ensures On(buf, hasMore, ok, it, 0, m, u) && (hasMore ==> state == ExpectHeaders)
    {
      hasMore := true;
      it := FindCrlf(buf, 0);
      if it != |buf| {
        AfterRequestLine(buf, it);
        ok := PraseRequestLine(buf, 0, it);
        if ok {
          it := it + 2;
          state := ExpectHeaders;
        } else {
          hasMore := false;
        }
      } else {
        ok := false;
        hasMore := false;
      }
    }

    /** The branch that reads one header line. */
    method HeaderBranch(buf: string, it: nat, bodySize: nat) returns (hasMore: bool, next: nat, size: nat)
      requires it <= |buf| && state == ExpectHeaders
      modifies this`state
      ensures var l := ReadLine(buf, it, bodySize);
        if l.NoEnd? then !hasMore && next == it && size == bodySize && state == ExpectHeaders
        else if l.Blank? then hasMore && next == l.next && size == bodySize && state == ExpectBody
        else hasMore && next == l.next && size == l.bodySize && state == ExpectHeaders
    {
      hasMore, next, size := true, it, bodySize;
      var itCrlf := FindCrlf(buf, it);
      if itCrlf != |buf| {
        var line := buf[it..itCrlf];
        var colon := FindChar(line, ':');
        if colon != |line| {
          var header := line[..colon];
          if header == "Content-Length" {
            size := Atoi(line[colon + 1..]) % UINT;
          }
        } else {
          state := ExpectBody;
        }
        next := itCrlf + 2;
      } else {
        hasMore := false;
      }
    }

    /** The branch that looks at the body. */
    method BodyBranch(buf: string, it: nat, bodySize: nat) returns (ok: bool)
      requires it <= |buf|
      ensures ok <==> bodySize == 0 || |buf| - it >= bodySize
    {
      if bodySize != 0 && |buf| - it >= bodySize {
        ok := true;
      } else if bodySize == 0 {
        ok := true;
      } else {
        ok := false;
      }
    }

    /** `parseRequest`. It appends to the method and url it finds in the context, and it never
        reaches the state that `gotAll` asks for. */
    method ParseRequest(buf: string) returns (ok: bool, length: int)
      modifies this
      ensures ok == Parse(buf).ok && length == ToInt(Parse(buf).end)
      ensures requestMethod == old(requestMethod) + Parse(buf).httpMethod
      ensures requestUrl == old(requestUrl) + Parse(buf).url
      ensures state != GotAll
    {
      ghost var m, u := requestMethod, requestUrl;
      state := ExpectRequestLine;
      ok := false;
      var hasMore := true;
      var bodySize: nat, it: nat := 0, 0;
      while hasMore
        invariant On(buf, hasMore, ok, it, bodySize, m, u)
        decreases hasMore, |buf| - it, match state case ExpectRequestLine => 2 case ExpectHeaders => 1 case _ => 0
      {
        if state == ExpectRequestLine {
          hasMore, ok, it := RequestLineBranch(buf, m, u);
        } else if state == ExpectHeaders {
          AfterHeaderLine(buf, it, bodySize);
          hasMore, it, bodySize := HeaderBranch(buf, it, bodySize);
          if !hasMore {
            ok := false;
          }
        } else {
          ok := BodyBranch(buf, it, bodySize);
          hasMore := false;
        }
      }
      length := ToInt(it + bodySize);
    }
  }
}
