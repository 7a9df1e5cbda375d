/** The request framing of Http/_HttpContext.cpp: from a buffer of bytes, whether it starts
    with a complete request, where that request ends, and its method and url. A subset of the
    message format of section 3 of RFC 7230. */
module HttpFraming {
  import opened HttpText

  /** What `praseRequestLine` appends and returns. */
  datatype RequestLine = RequestLine(ok: bool, httpMethod: string, url: string)

  function ParseLine(line: string): RequestLine {
    var m := Token(line);
    if |m| == |line| then RequestLine(false, m, "")
    else
      var rest := SkipSpaces(line[|m|..]);
      if rest == [] then RequestLine(false, m, "")
      else RequestLine(true, m, Token(rest))
  }

  lemma AfterSpaces(s: string) returns (j: nat)
    requires SkipSpaces(s) != ""
    ensures j < |s| && s[j] != ' '
  {
    j := |s| - |SkipSpaces(s)|;
  }

  lemma SomethingAfterSpaces(s: string, j: nat)
    requires j < |s| && s[j] != ' '
    ensures SkipSpaces(s) != ""
  {
  }

  lemma {:induction false} FoundNoLater(s: string, c: char, i: nat)
    requires i < |s| && s[i] == c
    ensures FindChar(s, c) <= i
  {
    if i > 0 && s[0] != c {
      FoundNoLater(s[1..], c, i - 1);
    }
  }

  lemma AcceptedHasParts(line: string) returns (i: nat, j: nat)
    requires ParseLine(line).ok
    ensures i < j < |line| && line[i] == ' ' && line[j] != ' '
  {
    i := FindChar(line, ' ');
    var k := AfterSpaces(line[i..]);
    j := i + k;
    assert line[i..][k] == line[j];
  }

  lemma DropDrop(s: string, m: nat, n: nat)
    requires m + n <= |s|
    ensures s[m..][n..] == s[m + n..] && forall k :: 0 <= k < n ==> s[m..][k] == s[m + k]
  {
  }

  lemma SpacesPart(line: string, m: nat) returns (u: nat)
    requires m <= |line| && SkipSpaces(line[m..]) != ""
    ensures m <= u < |line| && line[u..] == SkipSpaces(line[m..]) && line[u] != ' '
    ensures forall k :: m <= k < u ==> line[k] == ' '
  {
    var n := |line[m..]| - |SkipSpaces(line[m..])|;
    u := m + n;
    DropDrop(line, m, n);
    forall k | m <= k < u
      ensures line[k] == ' '
    {
      assert line[m..][k - m] == line[m + (k - m)];
    }
  }

  lemma UrlPart(line: string, u: nat) returns (e: nat)
    requires u < |line| && line[u] != ' '
    ensures u < e <= |line| && Token(line[u..]) == line[u..e] && ' ' !in line[u..e] && (e < |line| ==> line[e] == ' ')
  {
    e := u + FindChar(line[u..], ' ');
    assert line[u..][..e - u] == line[u..e];
  }

  /** What an accepted line is made of: the method up to the first space, spaces, and the url up
      to the next space or the end. */
  lemma LineParts(line: string) returns (m: nat, u: nat, e: nat)
    requires ParseLine(line).ok
    ensures m < u < e <= |line| && (e < |line| ==> line[e] == ' ')
    ensures ParseLine(line).httpMethod == line[..m] && ' ' !in line[..m]
    ensures forall k :: m <= k < u ==> line[k] == ' '
    ensures ParseLine(line).url == line[u..e] && ' ' !in line[u..e]
  {
    m := FindChar(line, ' ');
    u := SpacesPart(line, m);
    e := UrlPart(line, u);
  }

  lemma PartsAreAccepted(line: string, i: nat, j: nat)
    requires i < j < |line| && line[i] == ' ' && line[j] != ' '
    ensures ParseLine(line).ok
  {
    FoundNoLater(line, ' ', i);
    var m := FindChar(line, ' ');
    assert line[m..][j - m] == line[j];
    SomethingAfterSpaces(line[m..], j - m);
  }

  /** A request line is accepted if and only if some space is followed, later, by something else. */
  lemma LineAcceptedIff(line: string)
    ensures ParseLine(line).ok <==> exists i, j :: 0 <= i < j < |line| && line[i] == ' ' && line[j] != ' '
  {
    if ParseLine(line).ok {
      var i, j := AcceptedHasParts(line);
    }
    if i, j :| 0 <= i < j < |line| && line[i] == ' ' && line[j] != ' ' {
      PartsAreAccepted(line, i, j);
    }
  }

  const UINT: nat := 0x1_0000_0000

  /** The effect of one header line on the body size: the match is on exactly this name, the
      value goes through `atoi` and into an unsigned, and a later line overrides. */
  function BodySizeAfter(line: string, colon: nat, bodySize: nat): nat
    requires colon < |line|
  {
    if line[..colon] == "Content-Length" then Atoi(line[colon + 1..]) % UINT else bodySize
  }

  /** One line of the header loop: it has no end yet, it has no colon, or it is a field. */
  datatype Line = NoEnd | Blank(next: nat) | Field(next: nat, bodySize: nat)

  function ReadLine(b: string, it: nat, bodySize: nat): (l: Line)
    requires it <= |b|
    ensures !l.NoEnd? ==> it + 2 <= l.next <= |b|
  {
    var e := FindCrlf(b, it);
    if e == |b| then NoEnd
    else
      var colon := FindChar(b[it..e], ':');
      if colon == e - it then Blank(e + 2)
      else Field(e + 2, BodySizeAfter(b[it..e], colon, bodySize))
  }

  /** Where the header scan stops: at a colon-free line (`done`), or where a line has no end yet. */
  datatype Headers = Headers(done: bool, it: nat, bodySize: nat)

  function ScanHeaders(b: string, it: nat, bodySize: nat): (h: Headers)
    requires it <= |b|
    ensures it <= h.it <= |b| && (h.done ==> it + 2 <= h.it)
    decreases |b| - it
  {
    match ReadLine(b, it, bodySize)
    case NoEnd => Headers(false, it, bodySize)
    case Blank(next) => Headers(true, next, bodySize)
    case Field(next, size) => ScanHeaders(b, next, size)
  }

  /** A parse: `end` is the position the source adds up before narrowing it to an `int`. */
  datatype Scan = Scan(ok: bool, end: nat, httpMethod: string, url: string)

  /** The parse once the request line, which ends at `e`, has been read. */
  function ParseFrom(b: string, e: nat, line: RequestLine): Scan
    requires e + 2 <= |b|
  {
    if !line.ok then Scan(false, e, line.httpMethod, line.url)
    else
      var h := ScanHeaders(b, e + 2, 0);
      var ok := h.done && (h.bodySize == 0 || |b| - h.it >= h.bodySize);
      Scan(ok, h.it + h.bodySize, line.httpMethod, line.url)
  }

  function Parse(b: string): Scan {
    var e := FindCrlf(b, 0);
    if e == |b| then Scan(false, e, "", "") else ParseFrom(b, e, ParseLine(b[..e]))
  }

  /** Narrowing to a 32-bit `int`. */
  function ToInt(n: nat): int {
    var w := n % UINT;
    if w < 0x8000_0000 then w else w - UINT
  }

  // ------------------------------------------------------------------ frames are a prefix-free code

  ghost predicate SameUpTo(a: string, b: string, n: nat) {
    n <= |a| && n <= |b| && a[..n] == b[..n]
  }

  lemma SamePart(a: string, b: string, n: nat, i: nat, j: nat)
    requires SameUpTo(a, b, n) && i <= j <= n
    ensures a[i..j] == b[i..j]
  {
    forall k | i <= k < j
      ensures a[k] == b[k]
    {
      assert a[k] == a[..n][k] && b[k] == b[..n][k];
    }
  }

  lemma SameLineEnds(a: string, b: string, n: nat, k: nat)
    requires SameUpTo(a, b, n) && k + 1 < n
    ensures CrlfAt(a, k) <==> CrlfAt(b, k)
  {
    assert a[k] == a[..n][k] && b[k] == b[..n][k];
    assert a[k + 1] == a[..n][k + 1] && b[k + 1] == b[..n][k + 1];
  }

  /** The first line end is the one that `FindCrlf` finds. */
  lemma {:induction false} FirstCrlf(b: string, from: nat, i: nat)
    requires from <= i && CrlfAt(b, i) && forall k :: from <= k < i ==> !CrlfAt(b, k)
    ensures FindCrlf(b, from) == i
    decreases i - from
  {
    if from < i {
      FirstCrlf(b, from + 1, i);
    }
  }

  /** A line end inside the common part is found in both. */
  lemma SameCrlf(a: string, b: string, n: nat, from: nat)
    requires SameUpTo(a, b, n) && from <= n
    requires FindCrlf(a, from) + 2 <= n
    ensures FindCrlf(b, from) == FindCrlf(a, from)
  {
    var i := FindCrlf(a, from);
    forall k | from <= k <= i
      ensures CrlfAt(b, k) <==> k == i
    {
      SameLineEnds(a, b, n, k);
    }
    FirstCrlf(b, from, i);
  }

  /** One that is not complete inside a prefix is not found in the prefix. */
  lemma {:induction false} NoCrlfInPrefix(a: string, n: nat, from: nat)
    requires from <= n <= |a| && n < FindCrlf(a, from) + 2
    ensures FindCrlf(a[..n], from) == n
    decreases n - from
  {
    if from < n {
      assert CrlfAt(a[..n], from) ==> CrlfAt(a, from);
      NoCrlfInPrefix(a, n, from + 1);
    }
  }

  lemma SameReadLine(a: string, b: string, n: nat, it: nat, bodySize: nat)
    requires SameUpTo(a, b, n) && it <= n
    requires !ReadLine(a, it, bodySize).NoEnd? && ReadLine(a, it, bodySize).next <= n
    ensures ReadLine(b, it, bodySize) == ReadLine(a, it, bodySize)
  {
    SameCrlf(a, b, n, it);
    SamePart(a, b, n, it, FindCrlf(a, it));
  }

  lemma CutReadLine(a: string, n: nat, it: nat, bodySize: nat)
    requires it <= n <= |a| && !ReadLine(a, it, bodySize).NoEnd? && n < ReadLine(a, it, bodySize).next
    ensures ReadLine(a[..n], it, bodySize).NoEnd?
  {
    NoCrlfInPrefix(a, n, it);
  }

  lemma {:induction false} SameHeaders(a: string, b: string, n: nat, it: nat, bodySize: nat)
    requires SameUpTo(a, b, n) && it <= n
    requires ScanHeaders(a, it, bodySize).done && ScanHeaders(a, it, bodySize).it <= n
    ensures ScanHeaders(b, it, bodySize) == ScanHeaders(a, it, bodySize)
    decreases |a| - it
  {
    var l := ReadLine(a, it, bodySize);
    assert l.next <= n;
    SameReadLine(a, b, n, it, bodySize);
    if l.Field? {
      SameHeaders(a, b, n, l.next, l.bodySize);
    }
  }

  /** Cut before the end of its headers, a buffer has no complete headers. */
  lemma {:induction false} CutHeaders(a: string, n: nat, it: nat, bodySize: nat)
    requires it <= n <= |a| && ScanHeaders(a, it, bodySize).done && n < ScanHeaders(a, it, bodySize).it
    ensures !ScanHeaders(a[..n], it, bodySize).done
    decreases |a| - it
  {
    var l := ReadLine(a, it, bodySize);
    if n < l.next {
      CutReadLine(a, n, it, bodySize);
    } else {
      assert SameUpTo(a, a[..n], n);
      SameReadLine(a, a[..n], n, it, bodySize);
      if l.Field? {
        CutHeaders(a, n, l.next, l.bodySize);
      }
    }
  }

  /** A complete request ends inside its buffer, after at least its two line ends. */
  lemma FrameFits(b: string)
    requires Parse(b).ok
    ensures 4 <= Parse(b).end <= |b|
  {
  }

  lemma SameRequestLine(a: string, b: string, n: nat)
    requires SameUpTo(a, b, n) && FindCrlf(a, 0) + 2 <= n
    ensures FindCrlf(b, 0) == FindCrlf(a, 0) && b[..FindCrlf(b, 0)] == a[..FindCrlf(a, 0)]
  {
    SameCrlf(a, b, n, 0);
    var e := FindCrlf(a, 0);
    SamePart(a, b, n, 0, e);
    assert a[..e] == a[0..e] && b[..e] == b[0..e];
  }

  lemma SameParseFrom(a: string, b: string, n: nat, e: nat, line: RequestLine)
    requires SameUpTo(a, b, n) && e + 2 <= n && ParseFrom(a, e, line).ok && ParseFrom(a, e, line).end <= n
    ensures ParseFrom(b, e, line) == ParseFrom(a, e, line)
  {
    SameHeaders(a, b, n, e + 2, 0);
  }

  /** A request is read from the bytes it spans. */
  lemma SameParse(a: string, b: string, n: nat)
    requires SameUpTo(a, b, n) && Parse(a).ok && Parse(a).end <= n
    ensures Parse(b) == Parse(a)
  {
    var e := FindCrlf(a, 0);
    var line := ParseLine(a[..e]);
    assert ParseFrom(a, e, line).end >= e + 4;
    SameRequestLine(a, b, n);
    SameParseFrom(a, b, n, e, line);
  }

  /** What follows a complete request does not change how it is read. */
  lemma FrameIgnoresWhatFollows(b: string, rest: string)
    requires Parse(b).ok
    ensures Parse(b).end <= |b| && Parse(b[..Parse(b).end] + rest) == Parse(b)
  {
    var n := Parse(b).end;
    FrameFits(b);
    var c := b[..n] + rest;
    assert c[..n] == b[..n];
    SameParse(b, c, n);
  }

  lemma CutParseFrom(a: string, n: nat, e: nat, line: RequestLine)
    requires e + 2 <= n <= |a| && ParseFrom(a, e, line).ok && n < ParseFrom(a, e, line).end
    ensures !ParseFrom(a[..n], e, line).ok
  {
    var h := ScanHeaders(a, e + 2, 0);
    if n < h.it {
      CutHeaders(a, n, e + 2, 0);
    } else {
      assert SameUpTo(a, a[..n], n);
      SameHeaders(a, a[..n], n, e + 2, 0);
    }
  }

  /** No proper prefix of a request is a complete request. */
  lemma ShorterPrefixIsIncomplete(b: string, n: nat)
    requires Parse(b).ok && n < Parse(b).end
    ensures n <= |b| && !Parse(b[..n]).ok
  {
    FrameFits(b);
    var e := FindCrlf(b, 0);
    if n < e + 2 {
      NoCrlfInPrefix(b, n, 0);
    } else {
      assert SameUpTo(b, b[..n], n);
      SameRequestLine(b, b[..n], n);
      CutParseFrom(b, n, e, ParseLine(b[..e]));
    }
  }

  /** A string that is exactly one request. */
  predicate IsFrame(f: string) {
    Parse(f).ok && Parse(f).end == |f|
  }

  /** Frames are a prefix-free code, and parsing a buffer that starts with a frame finds it. */
  lemma FramesArePrefixFree(f: string, g: string, rest: string)
    requires IsFrame(f)
    ensures Parse(f + rest) == Parse(f)
    ensures IsFrame(g) && f <= g ==> f == g
  {
    assert f[..Parse(f).end] == f;
    FrameIgnoresWhatFollows(f, rest);
    if IsFrame(g) && f <= g && |f| < |g| {
      assert g[..|f|] == f;
      ShorterPrefixIsIncomplete(g, |f|);
    }
  }

  /** On buffers whose size fits an `int`, the length the source returns is the frame's end. */
  lemma ReturnedLengthIsExact(b: string)
    requires Parse(b).ok && |b| < 0x8000_0000
    ensures ToInt(Parse(b).end) == Parse(b).end
  {
    FrameFits(b);
    SmallToInt(Parse(b).end);
  }

  /** Narrowing keeps the value modulo 2^32 and lands in the range of an `int`. */
  lemma NarrowsTo32Bits(n: nat)
    ensures -0x8000_0000 <= ToInt(n) < 0x8000_0000 && (n - ToInt(n)) % 0x1_0000_0000 == 0
  {
    assert n - n % UINT == n / UINT * UINT;
    if n % UINT >= 0x8000_0000 {
      assert n - ToInt(n) == (n / UINT + 1) * UINT;
    }
  }

  lemma SmallToInt(n: nat)
    requires n < 0x8000_0000
    ensures ToInt(n) == n
  {
  }

  // ------------------------------------------------------------------ a buffer splits one way

  function Concat(frames: seq<string>): string {
    if frames == [] then "" else frames[0] + Concat(frames[1..])
  }

  /** The frames at the front of a buffer. */
  function Frames(b: string): (fs: seq<string>)
    decreases |b|
  {
    if !Parse(b).ok then []
    else
      FrameFits(b);
      [b[..Parse(b).end]] + Frames(b[Parse(b).end..])
  }

  function Tail(b: string): string
    decreases |b|
  {
    if !Parse(b).ok then b
    else
      FrameFits(b);
      Tail(b[Parse(b).end..])
  }

  lemma FrameThenRest(f: string, rest: string)
    requires IsFrame(f)
    ensures Frames(f + rest) == [f] + Frames(rest) && Tail(f + rest) == Tail(rest)
  {
    FramesArePrefixFree(f, f, rest);
    assert (f + rest)[..|f|] == f && (f + rest)[|f|..] == rest;
  }

  lemma FirstFrame(b: string)
    requires Parse(b).ok
    ensures var n := Parse(b).end; 4 <= n <= |b| && IsFrame(b[..n])
  {
    FrameFits(b);
    FrameIgnoresWhatFollows(b, "");
    assert b[..Parse(b).end] + "" == b[..Parse(b).end];
  }

  /** A buffer that parses starts with a frame, and the rest follows it. */
  lemma PeelFirst(b: string)
    requires Parse(b).ok
    ensures var n := Parse(b).end;
      4 <= n <= |b| && b == b[..n] + b[n..] && IsFrame(b[..n]) && Parse(b[..n]) == Parse(b) &&
      Frames(b) == [b[..n]] + Frames(b[n..]) && Tail(b) == Tail(b[n..])
  {
    FirstFrame(b);
    CutAt(b, Parse(b).end);
    FramesArePrefixFree(b[..Parse(b).end], b[..Parse(b).end], b[Parse(b).end..]);
  }

  lemma CutAt(b: string, n: nat)
    requires n <= |b|
    ensures b == b[..n] + b[n..]
  {
  }

  lemma SplitCons(f: string, fs: seq<string>, tail: string)
    ensures Concat([f] + fs) + tail == f + (Concat(fs) + tail)
    ensures forall g :: g in [f] + fs <==> g == f || g in fs
  {
    assert ([f] + fs)[1..] == fs;
  }

  /** Every buffer is its frames followed by a tail that starts with no complete request. */
  lemma {:induction false} BufferSplits(b: string)
    ensures b == Concat(Frames(b)) + Tail(b) && !Parse(Tail(b)).ok
    ensures forall f :: f in Frames(b) ==> IsFrame(f)
    decreases |b|
  {
    if Parse(b).ok {
      PeelFirst(b);
      var f, rest := b[..Parse(b).end], b[Parse(b).end..];
      BufferSplits(rest);
      SplitCons(f, Frames(rest), Tail(rest));
    }
  }

  /** And in no other way. */
  lemma {:induction false} SplitIsUnique(frames: seq<string>, tail: string)
    requires (forall f :: f in frames ==> IsFrame(f)) && !Parse(tail).ok
    ensures Frames(Concat(frames) + tail) == frames && Tail(Concat(frames) + tail) == tail
    decreases |frames|
  {
    if frames == [] {
      assert Concat(frames) + tail == tail;
    } else {
      var f, rest := frames[0], Concat(frames[1..]) + tail;
      assert Concat(frames) + tail == f + rest;
      SplitIsUnique(frames[1..], tail);
      FrameThenRest(f, rest);
    }
  }
}
