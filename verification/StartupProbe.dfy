/**
 The responder that answers health probes while the server is starting: it reads a
 request head into a buffer of 4096 bytes, whatever pieces it arrives in, and answers
 by method and path.

 Text is handled as the bytes it stands in: a line ends at the first newline, and words
 are separated by the UTF-8 forms of the white space characters.
 */
module StartupProbe {
  import opened Basics

  type Byte = x: int | 0 <= x < 256
  type Bytes = seq<Byte>

  const CAPACITY: nat := 4096

  function Ascii(s: string): Bytes
    requires forall i :: 0 <= i < |s| ==> s[i] < 128 as char
  {
    seq(|s|, i requires 0 <= i < |s| => s[i] as int)
  }

  const LF: Byte := 10
  const CR: Byte := 13

  // ----- the request line -----------------------------------------------------------

  /** What comes before the first newline, without a carriage return before it. */
  function FirstLine(head: Bytes): Bytes {
    var line := UpTo(head, LF);
    if |line| < |head| && line != [] && line[|line| - 1] == CR then line[..|line| - 1] else line
  }

  function UpTo(s: Bytes, b: Byte): (r: Bytes)
    ensures r <= s
    ensures b !in r
    ensures |r| < |s| ==> s[|r|] == b
  {
    if s == [] || s[0] == b then [] else [s[0]] + UpTo(s[1..], b)
  }

  /** The length of the white space character that the text begins with, or 0. */
  function SpaceLength(s: Bytes): (n: nat)
    ensures n <= |s|
  {
    if |s| >= 1 && (9 <= s[0] <= 13 || s[0] == 32) then 1
    else if |s| >= 2 && s[0] == 0xC2 && (s[1] == 0x85 || s[1] == 0xA0) then 2
    else if |s| >= 3 && s[0] == 0xE1 && s[1] == 0x9A && s[2] == 0x80 then 3
    else if |s| >= 3 && s[0] == 0xE2 && s[1] == 0x80 &&
            (0x80 <= s[2] <= 0x8A || s[2] == 0xA8 || s[2] == 0xA9 || s[2] == 0xAF) then 3
    else if |s| >= 3 && s[0] == 0xE2 && s[1] == 0x81 && s[2] == 0x9F then 3
    else if |s| >= 3 && s[0] == 0xE3 && s[1] == 0x80 && s[2] == 0x80 then 3
    else 0
  }

  function SkipSpace(s: Bytes): (r: Bytes)
    ensures |r| <= |s|
    decreases |s|
  {
    if SpaceLength(s) == 0 then s else SkipSpace(s[SpaceLength(s)..])
  }

  /** The bytes up to the next white space, and the rest. */
  function Word(s: Bytes): (r: (Bytes, Bytes))
    ensures r.0 + r.1 == s
  {
    if s == [] || SpaceLength(s) > 0 then ([], s)
    else var (w, rest) := Word(s[1..]); ([s[0]] + w, rest)
  }

  datatype Response = Healthy | Metrics | Unavailable

  predicate IsHealthPath(path: Bytes) {
    path == Ascii("/health") || path == Ascii("/api/v1/health") || path == Ascii("/ping")
  }

  /** The answer to a request line. */
  function Dispatch(line: Bytes, metrics: bool): Response {
    var (method_, rest) := Word(SkipSpace(line));
    var path := UpTo(Word(SkipSpace(rest)).0, '?' as int);
    if method_ == Ascii("GET") && IsHealthPath(path) then Healthy
    else if method_ == Ascii("GET") && path == Ascii("/metrics") && metrics then Metrics
    else Unavailable
  }

  /** The answer to a stream of bytes: that to the first line of what fits the buffer. */
  function Answer(stream: Bytes, metrics: bool): Response {
    Dispatch(FirstLine(stream[..Min(|stream|, CAPACITY)]), metrics)
  }

  // ----- reading --------------------------------------------------------------------

  predicate HasBlankLine(s: Bytes) {
    exists i :: 0 <= i <= |s| - 4 && s[i] == CR && s[i + 1] == LF && s[i + 2] == CR && s[i + 3] == LF
  }

  lemma {:induction false} UpToInPrefix(s: Bytes, t: Bytes, b: Byte)
    requires s <= t && b in s
    ensures UpTo(t, b) == UpTo(s, b) && |UpTo(s, b)| < |s|
  {
    if s[0] != b {
      assert t[1..][..|s| - 1] == s[1..];
      UpToInPrefix(s[1..], t[1..], b);
    }
  }

  /** Once a newline has come, what follows does not change the first line. */
  lemma FirstLineInPrefix(s: Bytes, t: Bytes)
    requires s <= t && LF in s
    ensures FirstLine(s) == FirstLine(t)
  {
    UpToInPrefix(s, t, LF);
  }

  /**
   Reads the request head and answers.  The k-th read delivers `sizes(k)` bytes, but at
   least one, and no more than there are or the buffer has room for; it delivers none at
   the end of the stream.  The answer depends on the stream only.
   */
  method AnswerProbe(stream: Bytes, sizes: nat -> nat, metrics: bool) returns (response: Response)
    ensures response == Answer(stream, metrics)
  {
    var buf := new Byte[CAPACITY];
    var filled, k := 0, 0;
    while true
      invariant filled <= CAPACITY && filled <= |stream|
      invariant buf[..filled] == stream[..filled]
      invariant filled < CAPACITY
      decreases Min(|stream|, CAPACITY) - filled
    {
      var n := Min(Max(sizes(k), 1), Min(CAPACITY - filled, |stream| - filled));
      k := k + 1;
      if n == 0 { break; }
      for i := 0 to n
        invariant filled + n <= CAPACITY && filled + n <= |stream|
        invariant buf[..filled + i] == stream[..filled + i]
      {
        buf[filled + i] := stream[filled + i];
        assert buf[..filled + i + 1] == buf[..filled + i] + [buf[filled + i]];
      }
      filled := filled + n;
      if HasBlankLine(buf[..filled]) || filled == CAPACITY { break; }
    }
    var head := buf[..filled];
    var all := stream[..Min(|stream|, CAPACITY)];
    if filled < |all| {
      assert LF in head;
      FirstLineInPrefix(head, all);
    } else {
      assert head == all;
    }
    response := Dispatch(FirstLine(head), metrics);
  }

  // ----- what the answer means --------------------------------------------------------

  /** The white space characters of Unicode. */
  predicate IsWhiteSpace(cp: int) {
    || 9 <= cp <= 13 || cp == 32 || cp == 0x85 || cp == 0xA0 || cp == 0x1680 || 0x2000 <= cp <= 0x200A
    || cp == 0x2028 || cp == 0x2029 || cp == 0x202F || cp == 0x205F || cp == 0x3000
  }

  /** The bytes of a character of the basic plane (section 3 of RFC 3629). */
  function Utf8(cp: nat): Bytes
    requires cp < 0x10000
  {
    if cp < 0x80 then [cp]
    else if cp < 0x800 then [0xC0 + cp / 64, 0x80 + cp % 64]
    else [0xE0 + cp / 4096, 0x80 + cp / 64 % 64, 0x80 + cp % 64]
  }

  /** A text begins with white space exactly if its first character is white space. */
  lemma WhiteSpaceIsSkipped(cp: nat, rest: Bytes)
    requires cp < 0x10000
    ensures SpaceLength(Utf8(cp) + rest) == if IsWhiteSpace(cp) then |Utf8(cp)| else 0
  {
    var s := Utf8(cp) + rest;
    assert s[0] == Utf8(cp)[0];
    if cp >= 0x800 {
      assert s[1] == 0x80 + cp / 64 % 64 && s[2] == 0x80 + cp % 64;
      assert cp == cp / 4096 * 4096 + cp / 64 % 64 * 64 + cp % 64;
    } else if cp >= 0x80 {
      assert s[1] == 0x80 + cp % 64;
    }
  }

  ghost predicate Printable(s: Bytes) {
    forall i :: 0 <= i < |s| ==> 32 < s[i] < 127
  }

  lemma {:induction false} WordIsRead(w: Bytes, rest: Bytes)
    requires Printable(w) && (rest == [] || SpaceLength(rest) > 0)
    ensures Word(w + rest) == (w, rest)
  {
    if w == [] {
      assert w + rest == rest;
    } else {
      var s := w + rest;
      assert s[0] == w[0] && s[1..] == w[1..] + rest;
      assert SpaceLength(s) == 0;
      WordIsRead(w[1..], rest);
      assert w == [w[0]] + w[1..];
    }
  }

  lemma {:induction false} UpToMark(path: Bytes, query: Bytes, b: Byte)
    requires b !in path && (query == [] || query[0] == b)
    ensures UpTo(path + query, b) == path
  {
    if path == [] {
      assert path + query == query;
    } else {
      assert (path + query)[1..] == path[1..] + query;
      assert b !in path[1..] by { assert forall c :: c in path[1..] ==> c in path; }
      UpToMark(path[1..], query, b);
      assert path == [path[0]] + path[1..];
    }
  }

  lemma NoSpaceInFront(w: Bytes, rest: Bytes)
    requires Printable(w) && w != []
    ensures SkipSpace(w + rest) == w + rest
  {
    assert (w + rest)[0] == w[0];
  }

  /** One blank and then a word. */
  lemma BlankIsSkipped(w: Bytes, rest: Bytes)
    requires Printable(w) && w != []
    ensures SkipSpace([32] + (w + rest)) == w + rest
  {
    NoSpaceInFront(w, rest);
    assert ([32] + (w + rest))[1..] == w + rest;
  }

  /** The answer to every request line of printable words: a method, a target made of a path
      and a query, and whatever comes behind. */
  lemma RequestLineIsAnswered(verb: Bytes, path: Bytes, query: Bytes, rest: Bytes, metrics: bool)
    requires Printable(verb) && verb != [] && Printable(path) && '?' as int !in path
    requires Printable(query) && (query == [] || query[0] == '?' as int) && path + query != []
    requires rest == [] || SpaceLength(rest) > 0
    ensures Dispatch(verb + ([32] + (path + query + rest)), metrics) ==
            if verb != ['G' as int, 'E' as int, 'T' as int] then Unavailable
            else if path == Ascii("/health") || path == Ascii("/api/v1/health") || path == Ascii("/ping") then Healthy
            else if path == Ascii("/metrics") && metrics then Metrics
            else Unavailable
  {
    var target := path + query;
    assert Ascii("GET") == ['G' as int, 'E' as int, 'T' as int];
    NoSpaceInFront(verb, [32] + (target + rest));
    WordIsRead(verb, [32] + (target + rest));
    BlankIsSkipped(target, rest);
    WordIsRead(target, rest);
    UpToMark(path, query, '?' as int);
  }

  /** A line without a target is not answered with health or metrics. */
  lemma BareWordIsUnavailable(word: Bytes, metrics: bool)
    requires Printable(word)
    ensures Dispatch(word, metrics) == Unavailable
  {
    assert word + [] == word;
    WordIsRead(word, []);
    if word != [] { NoSpaceInFront(word, []); }
    EmptyIsNoPath();
  }

  lemma EmptyIsNoPath()
    ensures UpTo(Word(SkipSpace([])).0, '?' as int) == [] && !IsHealthPath([]) && [] != Ascii("/metrics")
  {
    assert |Ascii("/health")| > 0 && |Ascii("/api/v1/health")| > 0 && |Ascii("/ping")| > 0 && |Ascii("/metrics")| > 0;
  }

  /** A GET of a path, with any query, is answered by the path alone. */
  lemma QueryIsIgnored(path: Bytes, query: Bytes, version: Bytes, metrics: bool)
    requires Printable(path) && path != [] && '?' as int !in path
    requires Printable(query) && (query == [] || query[0] == '?' as int)
    ensures Dispatch(Ascii("GET ") + path + query + Ascii(" ") + version, metrics) ==
            if IsHealthPath(path) then Healthy else if path == Ascii("/metrics") && metrics then Metrics else Unavailable
  {
    var rest := Ascii(" ") + version;
    assert Ascii("GET") == ['G' as int, 'E' as int, 'T' as int];
    RequestLineIsAnswered(Ascii("GET"), path, query, rest, metrics);
    Assembled(path, query, version);
  }

  lemma Assembled(path: Bytes, query: Bytes, version: Bytes)
    ensures Ascii("GET ") + path + query + Ascii(" ") + version ==
            Ascii("GET") + ([32] + (path + query + (Ascii(" ") + version)))
  {
    assert Ascii("GET ") == Ascii("GET") + [32];
    Regrouped(Ascii("GET"), [32], path, query, Ascii(" ") + version);
    assert Ascii("GET ") + path + query + Ascii(" ") + version == Ascii("GET ") + path + query + (Ascii(" ") + version);
  }

  lemma Regrouped(a: Bytes, b: Bytes, c: Bytes, d: Bytes, e: Bytes)
    ensures a + b + c + d + e == a + (b + (c + d + e))
  {}

  lemma LineBeforeNewline(line: Bytes, rest: Bytes)
    requires LF !in line && |line| + 1 <= CAPACITY && (line == [] || line[|line| - 1] != CR)
    ensures var stream := line + [LF] + rest; FirstLine(stream[..Min(|stream|, CAPACITY)]) == line
  {
    var stream := line + [LF] + rest;
    var all := stream[..Min(|stream|, CAPACITY)];
    var head := line + [LF];
    assert head <= all;
    assert head[|line|] == LF;
    FirstLineInPrefix(head, all);
    UpToMark(line, [LF], LF);
  }

  lemma LineWithoutEnd(line: Bytes)
    requires LF !in line && |line| <= CAPACITY
    ensures FirstLine(line[..Min(|line|, CAPACITY)]) == line
  {
    assert line[..|line|] == line && line + [] == line;
    UpToMark(line, [], LF);
  }

  /** The same for a line that ends in a newline alone, and for one that never ends. */
  lemma OnlyTheFirstLineCountsToo(line: Bytes, rest: Bytes, metrics: bool)
    requires LF !in line && |line| + 1 <= CAPACITY && (line == [] || line[|line| - 1] != CR)
    ensures Answer(line + [LF] + rest, metrics) == Dispatch(line, metrics) && Answer(line, metrics) == Dispatch(line, metrics)
  {
    LineBeforeNewline(line, rest);
    LineWithoutEnd(line);
  }

  /** Only the first line counts: a line that fits the buffer is answered whatever
      follows it. */
  lemma OnlyTheFirstLineCounts(line: Bytes, rest: Bytes, metrics: bool)
    requires LF !in line && |line| + 2 <= CAPACITY
    ensures Answer(line + [CR, LF] + rest, metrics) == Dispatch(line, metrics)
  {
    var stream := line + [CR, LF] + rest;
    var all := stream[..Min(|stream|, CAPACITY)];
    var head := line + [CR, LF];
    assert head <= all;
    assert head[|line| + 1] == LF;
    FirstLineInPrefix(head, all);
    assert head == (line + [CR]) + [LF];
    UpToMark(line + [CR], [LF], LF);
    assert (line + [CR])[..|line|] == line;
  }
}
