/**
Reading one loopback callback request: a bounded buffer filled by reads of any
size, then the request line parsed into the three parameters of a login
callback (RFC 6749 sections 4.1.2 and 4.1.2.1).
*/
module HttpCallback {
  import opened Wrappers
  import opened Utf8
  import Text

  const CAPACITY: nat := 8 * 1024

  datatype Callback = Callback(state: Option<string>, code: Option<string>, error: Option<string>)

  /** What the URL library reads from a request target. */
  datatype Target = Target(path: string, pairs: seq<(string, string)>)

  datatype UrlLibrary = UrlLibrary(callbackPath: string, parse: string -> Option<Target>)

  // ---- parsing -----------------------------------------------------------------------

  predicate HasCrlf(s: seq<byte>) {
    exists i | 0 <= i < |s| - 1 :: s[i] == 0x0D && s[i + 1] == 0x0A
  }

  /** Position just past the first CR LF at or after i. */
  function CrlfEnd(s: seq<byte>, i: nat): (n: nat)
    requires i < |s| - 1 && exists k | i <= k < |s| - 1 :: s[k] == 0x0D && s[k + 1] == 0x0A
    ensures i + 2 <= n <= |s| && s[n - 2] == 0x0D && s[n - 1] == 0x0A
    ensures forall k | i <= k < n - 2 :: !(s[k] == 0x0D && s[k + 1] == 0x0A)
    decreases |s| - i
  {
    if s[i] == 0x0D && s[i + 1] == 0x0A then i + 2 else CrlfEnd(s, i + 1)
  }

  function LineFeedAt(s: string, i: nat): (n: nat)
    requires i <= |s|
    ensures i <= n <= |s| && (n < |s| ==> s[n] == '\n') && forall k | i <= k < n :: s[k] != '\n'
    decreases |s| - i
  {
    if i == |s| || s[i] == '\n' then i else LineFeedAt(s, i + 1)
  }

  /** str::lines().next(). */
  function FirstLine(s: string): Option<string> {
    if s == "" then None
    else
      var n := LineFeedAt(s, 0);
      if n == |s| then Some(s)
      else if n > 0 && s[n - 1] == '\r' then Some(s[..n - 1])
      else Some(s[..n])
  }

  function WordEnd(s: string, i: nat): (n: nat)
    requires i <= |s|
    ensures i <= n <= |s| && (n < |s| ==> Text.IsWhitespace(s[n])) && forall k | i <= k < n :: !Text.IsWhitespace(s[k])
    decreases |s| - i
  {
    if i == |s| || Text.IsWhitespace(s[i]) then i else WordEnd(s, i + 1)
  }

  /** The next item of split_whitespace, with what is left. */
  function NextWord(s: string): Option<(string, string)> {
    var i := Text.SkipFrom(Text.Whitespace, s, 0);
    if i == |s| then None else Some((s[i..WordEnd(s, i)], s[WordEnd(s, i)..]))
  }

  /** The parameters of a query, each key's last value winning. */
  function Collect(pairs: seq<(string, string)>): Callback {
    if pairs == [] then Callback(None, None, None)
    else
      var c := Collect(pairs[..|pairs| - 1]);
      var (key, value) := pairs[|pairs| - 1];
      if key == "state" then c.(state := Some(value))
      else if key == "code" then c.(code := Some(value))
      else if key == "error" then c.(error := Some(value))
      else c
  }

  /** The target of a GET request line. */
  function TargetOf(line: string): Option<string> {
    match NextWord(line)
    case None => None
    case Some((verb, rest)) =>
      if verb != "GET" then None
      else match NextWord(rest)
        case None => None
        case Some((target, _)) => Some(target)
  }

  function ParseLine(urls: UrlLibrary, line: string): Option<Callback> {
    match TargetOf(line)
    case None => None
    case Some(target) =>
      match urls.parse("http://127.0.0.1" + target)
      case None => None
      case Some(url) => if url.path != urls.callbackPath then None else Some(Collect(url.pairs))
  }

  /** What the bytes read so far amount to. */
  function ParseHead(urls: UrlLibrary, head: seq<byte>): Option<Callback> {
    if !Valid(head) then None
    else match FirstLine(Decode(head))
      case None => None
      case Some(line) => ParseLine(urls, line)
  }

  /** A parameter is the value of the last pair with its name, or missing when no pair has it. */
  lemma {:induction false} LastPairWins(pairs: seq<(string, string)>, i: nat)
    requires i < |pairs| && forall j | i < j < |pairs| :: pairs[j].0 != pairs[i].0
    ensures pairs[i].0 == "state" ==> Collect(pairs).state == Some(pairs[i].1)
    ensures pairs[i].0 == "code" ==> Collect(pairs).code == Some(pairs[i].1)
    ensures pairs[i].0 == "error" ==> Collect(pairs).error == Some(pairs[i].1)
  {
    if i < |pairs| - 1 { LastPairWins(pairs[..|pairs| - 1], i); }
  }

  lemma {:induction false} MissingPair(pairs: seq<(string, string)>, name: string)
    requires forall j | 0 <= j < |pairs| :: pairs[j].0 != name
    ensures name == "state" ==> Collect(pairs).state.None?
    ensures name == "code" ==> Collect(pairs).code.None?
    ensures name == "error" ==> Collect(pairs).error.None?
  {
    if pairs != [] { MissingPair(pairs[..|pairs| - 1], name); }
  }

  // ---- reading -------------------------------------------------------------------------

  /** The part of the stream that can reach the buffer. */
  function Window(bytes: seq<byte>): seq<byte> {
    bytes[..if |bytes| < CAPACITY then |bytes| else CAPACITY]
  }

  /** The read loop may stop after n bytes: a CR LF is there, or nothing more can be read. */
  predicate StopAt(bytes: seq<byte>, n: nat) {
    n <= |Window(bytes)| && (HasCrlf(bytes[..n]) || n == |Window(bytes)|)
  }

  /**
  Where the read loop stops, from n bytes on, when the peer hands out its bytes
  in portions of the scheduled sizes, none of them empty; after the last
  scheduled one it hands out all it has.
  */
  function StopOf(bytes: seq<byte>, schedule: seq<nat>, n: nat): (stop: nat)
    requires n <= |Window(bytes)|
    ensures StopAt(bytes, stop)
    decreases |Window(bytes)| - n
  {
    var most := |Window(bytes)| - n;
    if HasCrlf(bytes[..n]) || most == 0 then n
    else if schedule == [] then StopOf(bytes, [], n + most)
    else StopOf(bytes, schedule[1..], n + (if 1 <= schedule[0] <= most then schedule[0] else most))
  }

  /** The stopping points are exactly where some schedule of reads stops. */
  lemma StopIsReachedIff(bytes: seq<byte>, n: nat)
    ensures StopAt(bytes, n) <==> exists schedule: seq<nat> :: StopOf(bytes, schedule, 0) == n
  {
    if StopAt(bytes, n) { OneReadStops(bytes, n); }
  }

  lemma OneReadStops(bytes: seq<byte>, n: nat)
    requires StopAt(bytes, n)
    ensures StopOf(bytes, [n], 0) == n
  {
    if n > 0 {
      assert !HasCrlf(bytes[..0]);
      assert [n][1..] == [];
      assert StopOf(bytes, [], n) == n;
    }
  }

  /** A peer that sends `bytes` and closes. How much one read returns is up to it. */
  class Stream {
    const bytes: seq<byte>
    var pos: nat
    var failed: bool

    ghost predicate OK()
      reads this
    {
      pos <= |bytes|
    }

    constructor (bytes: seq<byte>)
      ensures OK() && this.bytes == bytes && pos == 0 && !failed
    {
      this.bytes, pos, failed := bytes, 0, false;
    }

    /** Fill part of buf[from..]; 0 at the end of the stream. May time out or fail. */
    method Read(buf: array<byte>, from: nat) returns (n: nat)
      requires OK() && from < buf.Length
      modifies this, buf
      ensures OK() && pos == old(pos) + n && from + n <= buf.Length
      ensures old(failed) ==> failed
      ensures !failed && n == 0 ==> old(pos) == |bytes|
      ensures buf[..from] == old(buf[..from]) && buf[from..from + n] == bytes[old(pos)..pos]
    {
      n := 0;
      var broken: bool := *;
      if broken {
        failed := true;
      } else if pos < |bytes| {
        var most := if |bytes| - pos < buf.Length - from then |bytes| - pos else buf.Length - from;
        var some: nat := *;
        n := if 1 <= some <= most then some else most;
        for i := 0 to n
          invariant pos == old(pos) && failed == old(failed)
          invariant buf[..from] == old(buf[..from]) && buf[from..from + i] == bytes[pos..pos + i]
        {
          ghost var filled := buf[from..from + i];
          buf[from + i] := bytes[pos + i];
          assert buf[from..from + i + 1] == filled + [bytes[pos + i]];
          assert bytes[pos..pos + i + 1] == bytes[pos..pos + i] + [bytes[pos + i]];
        }
        pos := pos + n;
      }
    }
  }

  /** The request read from a stream is what parsing some stopping point of it gives, whatever sizes the reads had. */
  method ReadCallback(stream: Stream, urls: UrlLibrary) returns (r: Option<Callback>)
    requires stream.OK() && stream.pos == 0 && !stream.failed
    modifies stream
    ensures stream.OK() && stream.pos <= CAPACITY
    ensures stream.failed ==> r.None?
    ensures !stream.failed ==> StopAt(stream.bytes, stream.pos) && r == ParseHead(urls, stream.bytes[..stream.pos])
  {
    var buf := new byte[CAPACITY];
    var len := 0;
    while !HasCrlf(buf[..len]) && len < CAPACITY
      invariant 0 <= len <= CAPACITY && buf.Length == CAPACITY && fresh(buf)
      invariant stream.OK() && stream.pos == len && !stream.failed && buf[..len] == stream.bytes[..len]
      decreases CAPACITY - len
    {
      var n := stream.Read(buf, len);
      if stream.failed { return None; }
      if n == 0 { break; }
      assert buf[..len + n] == buf[..len] + buf[len..len + n];
      assert stream.bytes[..len + n] == stream.bytes[..len] + stream.bytes[len..len + n];
      len := len + n;
    }
    assert buf[..len] == stream.bytes[..len];
    if !Valid(buf[..len]) { return None; }
    var line := FirstLine(Decode(buf[..len]));
    if line.None? { return None; }
    var target := TargetOf(line.value);
    if target.None? { return None; }
    var url := urls.parse("http://127.0.0.1" + target.value);
    if url.None? || url.value.path != urls.callbackPath { return None; }
    var callback := Callback(None, None, None);
    var pairs := url.value.pairs;
    for i := 0 to |pairs|
      invariant callback == Collect(pairs[..i])
    {
      assert pairs[..i + 1][..i] == pairs[..i];
      match pairs[i].0 {
        case "state" => callback := callback.(state := Some(pairs[i].1));
        case "code" => callback := callback.(code := Some(pairs[i].1));
        case "error" => callback := callback.(error := Some(pairs[i].1));
        case _ =>
      }
    }
    assert pairs[..|pairs|] == pairs;
    return Some(callback);
  }

  // ---- independence of how the stream is cut -------------------------------------------

  /** Text after the first line feed never changes the first line. */
  lemma FirstLineLocal(a: string, b: string)
    requires '\n' in a
    ensures FirstLine(a + b) == FirstLine(a)
  {
    var n, m := LineFeedAt(a, 0), LineFeedAt(a + b, 0);
    var k :| 0 <= k < |a| && a[k] == '\n';
    assert n < |a| && (a + b)[n] == '\n';
    assert n == m;
    assert (a + b)[..n] == a[..n];
    if n > 0 { assert (a + b)[..n - 1] == a[..n - 1]; }
  }

  lemma {:induction false} LineFeedDecoded(s: seq<byte>)
    requires Valid(s) && s != [] && s[|s| - 1] == 0x0A
    ensures '\n' in Decode(s)
    decreases |s|
  {
    var n := CharLength(s);
    if n == |s| {
      assert Decode(s)[0] == '\n';
    } else {
      LineFeedDecoded(s[n..]);
    }
  }

  /** Every stopping point at or past the first CR LF gives the first line the same text, if it is valid at all. */
  lemma SameLine(urls: UrlLibrary, head: seq<byte>, more: seq<byte>)
    requires Valid(head) && Valid(more) && head != [] && head[|head| - 1] == 0x0A
    ensures ParseHead(urls, head + more) == ParseHead(urls, head)
  {
    ValidConcat(head, more);
    LineFeedDecoded(head);
    FirstLineLocal(Decode(head), Decode(more));
  }

  /** The shortest stopping point of a stream with a CR LF in the window. */
  function ShortestStop(bytes: seq<byte>): (n: nat)
    requires HasCrlf(Window(bytes))
    ensures 2 <= n <= |Window(bytes)| && bytes[n - 1] == 0x0A
  {
    CrlfEnd(Window(bytes), 0)
  }

  lemma StopsAreLonger(bytes: seq<byte>, n: nat)
    requires HasCrlf(Window(bytes)) && StopAt(bytes, n)
    ensures ShortestStop(bytes) <= n
    ensures bytes[..n] == bytes[..ShortestStop(bytes)] + bytes[ShortestStop(bytes)..n]
  {
    var w, m := Window(bytes), ShortestStop(bytes);
    if HasCrlf(bytes[..n]) {
      var i :| 0 <= i < n - 1 && bytes[..n][i] == 0x0D && bytes[..n][i + 1] == 0x0A;
      assert w[i] == 0x0D && w[i + 1] == 0x0A;
    }
  }

  /** Every point from the first CR LF to the end of the window is a stopping point. */
  lemma LongerStops(bytes: seq<byte>, n: nat)
    requires HasCrlf(Window(bytes)) && ShortestStop(bytes) <= n <= |Window(bytes)|
    ensures StopAt(bytes, n)
  {
    var m := ShortestStop(bytes);
    assert bytes[..n][m - 2] == 0x0D && bytes[..n][m - 1] == 0x0A;
  }

  /** What is read of a stream that arrives in these portions. */
  function ReadIn(urls: UrlLibrary, bytes: seq<byte>, schedule: seq<nat>): Option<Callback> {
    ParseHead(urls, bytes[..StopOf(bytes, schedule, 0)])
  }

  /** However the stream is split into reads, the same request is read. */
  ghost predicate ChunkingIndependent(urls: UrlLibrary, bytes: seq<byte>) {
    forall s: seq<nat>, s': seq<nat> :: ReadIn(urls, bytes, s) == ReadIn(urls, bytes, s')
  }

  /** A GET line whose target is a URL with the callback path. */
  predicate IsCallbackLine(urls: UrlLibrary, line: string) {
    && TargetOf(line).Some?
    && var url := urls.parse("http://127.0.0.1" + TargetOf(line).value);
       url.Some? && url.value.path == urls.callbackPath
  }

  /** The bytes are text, and its first line is a callback request. */
  predicate AsksForCallback(urls: UrlLibrary, head: seq<byte>) {
    Valid(head) && head != [] && IsCallbackLine(urls, FirstLine(Decode(head)).value)
  }

  lemma CallbackIsParsedIff(urls: UrlLibrary, head: seq<byte>)
    ensures ParseHead(urls, head).Some? <==> AsksForCallback(urls, head)
  {
  }

  lemma CallbacksAreText(urls: UrlLibrary, head: seq<byte>)
    requires AsksForCallback(urls, head)
    ensures Valid(head)
  {
  }

  /**
  There is no request line in the window, or it is no callback request, or
  everything in the window behind it is ASCII.
  */
  ghost predicate TailIsHarmless(urls: UrlLibrary, bytes: seq<byte>) {
    || !HasCrlf(Window(bytes))
    || !AsksForCallback(urls, bytes[..ShortestStop(bytes)])
    || Ascii(Window(bytes)[ShortestStop(bytes)..])
  }

  lemma HarmlessTail(urls: UrlLibrary, bytes: seq<byte>, n: nat)
    requires TailIsHarmless(urls, bytes) && HasCrlf(Window(bytes)) && StopAt(bytes, n)
    ensures ParseHead(urls, bytes[..n]) == ParseHead(urls, bytes[..ShortestStop(bytes)])
  {
    var m := ShortestStop(bytes);
    var head, more := bytes[..m], bytes[m..n];
    CallbackIsParsedIff(urls, head);
    StopsAreLonger(bytes, n);
    if !Valid(head) {
      InvalidStays(head, more);
    } else {
      ValidConcat(head, more);
      if Ascii(Window(bytes)[m..]) {
        forall i | 0 <= i < |more|
          ensures more[i] < 0x80
        {
          assert more[i] == Window(bytes)[m..][i];
        }
        AsciiValid(more);
      }
      if Valid(more) { SameLine(urls, head, more); }
    }
  }

  /** A byte beyond ASCII behind a good request line spoils the request when the read stops right after it. */
  lemma HarmfulTail(urls: UrlLibrary, bytes: seq<byte>)
    requires !TailIsHarmless(urls, bytes)
    ensures !ChunkingIndependent(urls, bytes)
  {
    hide ParseHead, AsksForCallback, StopAt, HasCrlf, ChunkingIndependent, CrlfEnd;
    var w, m := Window(bytes), ShortestStop(bytes);
    var k := FirstBeyond(w, m);
    CallbackIsParsedIff(urls, bytes[..m]);
    CallbacksAreText(urls, bytes[..m]);
    LongerStops(bytes, m);
    LongerStops(bytes, k + 1);
    SpoiltStop(urls, bytes[..m], w[m..k], w[k]);
    assert bytes[..k + 1] == bytes[..m] + w[m..k] + [w[k]];
    TwoReadings(urls, bytes, m, k + 1);
  }

  lemma TwoReadings(urls: UrlLibrary, bytes: seq<byte>, n: nat, n': nat)
    requires StopAt(bytes, n) && StopAt(bytes, n') && ParseHead(urls, bytes[..n]) != ParseHead(urls, bytes[..n'])
    ensures !ChunkingIndependent(urls, bytes)
  {
    hide ParseHead, StopAt;
    OneReadStops(bytes, n);
    OneReadStops(bytes, n');
    assert ReadIn(urls, bytes, [n]) != ReadIn(urls, bytes, [n']);
  }

  lemma SpoiltStop(urls: UrlLibrary, head: seq<byte>, plain: seq<byte>, lead: byte)
    requires Valid(head) && Ascii(plain) && lead >= 0x80
    ensures ParseHead(urls, head + plain + [lead]).None?
  {
    AsciiValid(plain);
    ValidConcat(head, plain);
    StopsInsideCharacter(head + plain, lead);
  }

  lemma FirstBeyond(w: seq<byte>, m: nat) returns (k: nat)
    requires m <= |w| && !Ascii(w[m..])
    ensures m <= k < |w| && w[k] >= 0x80 && Ascii(w[m..k])
    decreases |w| - m
  {
    if w[m] >= 0x80 {
      k := m;
    } else {
      var i :| 0 <= i < |w[m..]| && w[m..][i] >= 0x80;
      assert w[m + 1..][i - 1] >= 0x80;
      k := FirstBeyond(w, m + 1);
      forall j | 0 <= j < k - m
        ensures w[m..k][j] < 0x80
      {
        if j > 0 { assert w[m..k][j] == w[m + 1..k][j - 1]; }
      }
    }
  }

  /**
  The request read is the same however the stream is cut into reads exactly
  when the window has no CR LF, or its request line is no callback anyway, or
  everything in the window behind that line is ASCII.
  */
  lemma ChunkingIndependentIff(urls: UrlLibrary, bytes: seq<byte>)
    ensures ChunkingIndependent(urls, bytes) <==> TailIsHarmless(urls, bytes)
  {
    if TailIsHarmless(urls, bytes) {
      forall s: seq<nat>, s': seq<nat>
        ensures ReadIn(urls, bytes, s) == ReadIn(urls, bytes, s')
      {
        var n, n' := StopOf(bytes, s, 0), StopOf(bytes, s', 0);
        if HasCrlf(Window(bytes)) {
          HarmlessTail(urls, bytes, n);
          HarmlessTail(urls, bytes, n');
        } else {
          StopOnlyAtEnd(bytes, n);
          StopOnlyAtEnd(bytes, n');
        }
      }
    } else {
      HarmfulTail(urls, bytes);
    }
  }

  lemma StopOnlyAtEnd(bytes: seq<byte>, n: nat)
    requires !HasCrlf(Window(bytes)) && StopAt(bytes, n)
    ensures n == |Window(bytes)|
  {
    CrlfGrows(bytes[..n], Window(bytes));
  }

  lemma CrlfGrows(a: seq<byte>, b: seq<byte>)
    requires a <= b
    ensures HasCrlf(a) ==> HasCrlf(b)
  {
    if HasCrlf(a) {
      var i :| 0 <= i < |a| - 1 && a[i] == 0x0D && a[i + 1] == 0x0A;
      assert b[i] == 0x0D && b[i + 1] == 0x0A;
    }
  }

  /** For an ASCII stream every cut gives what parsing its first 8192 bytes in one go gives. */
  lemma AsciiStreamsParseTheSame(urls: UrlLibrary, bytes: seq<byte>, n: nat)
    requires Ascii(Window(bytes)) && StopAt(bytes, n)
    ensures ParseHead(urls, bytes[..n]) == ParseHead(urls, Window(bytes))
  {
    ChunkingIndependentIff(urls, bytes);
    var w := |Window(bytes)|;
    assert bytes[..w] == Window(bytes);
    assert StopAt(bytes, w);
    if HasCrlf(Window(bytes)) {
      var m := ShortestStop(bytes);
      assert forall i | 0 <= i < |Window(bytes)[m..]| :: Window(bytes)[m..][i] == Window(bytes)[m + i];
    }
    OneReadStops(bytes, n);
    OneReadStops(bytes, w);
    assert ReadIn(urls, bytes, [n]) == ReadIn(urls, bytes, [w]);
  }

  // ---- a stream that is spoilt by a cut ------------------------------------------------

  function Encoded(s: string): (r: seq<byte>)
    requires forall i | 0 <= i < |s| :: s[i] < '\U{80}'
    ensures |r| == |s| && forall i | 0 <= i < |s| :: r[i] == s[i] as int
  {
    if s == "" then [] else [s[0] as int] + Encoded(s[1..])
  }

  lemma DecodedAscii(s: string)
    requires forall i | 0 <= i < |s| :: s[i] < '\U{80}'
    ensures Valid(Encoded(s)) && Decode(Encoded(s)) == s
  {
    AsciiValid(Encoded(s));
  }

  /** A target as a browser sends it: ASCII without spaces. */
  predicate IsPlainTarget(target: string) {
    target != "" && |target| <= 4096 && forall i | 0 <= i < |target| :: '!' <= target[i] < '\U{7f}'
  }

  function Request(target: string): (r: string)
    requires IsPlainTarget(target)
    ensures |r| == |target| + 15 && forall i | 0 <= i < |r| :: r[i] < '\U{80}'
  {
    "GET " + target + " HTTP/1.1\r\n"
  }

  lemma WordOf(s: string, word: string, after: string)
    requires word != "" && s == word + " " + after && forall i | 0 <= i < |word| :: !Text.IsWhitespace(word[i])
    ensures NextWord(s) == Some((word, " " + after))
  {
    assert s[0] == word[0];
    assert Text.SkipFrom(Text.Whitespace, s, 0) == 0;
    assert forall i | 0 <= i < |word| :: s[i] == word[i];
    assert s[|word|] == ' ';
    assert WordEnd(s, 0) == |word|;
    assert s[0..|word|] == word && s[|word|..] == " " + after;
  }

  lemma SpacedWordOf(s: string, word: string, after: string)
    requires word != "" && s == " " + word + " " + after && forall i | 0 <= i < |word| :: !Text.IsWhitespace(word[i])
    ensures NextWord(s) == Some((word, " " + after))
  {
    assert s[0] == ' ' && s[1] == word[0];
    assert Text.SkipFrom(Text.Whitespace, s, 0) == 1;
    assert forall i | 0 <= i < |word| :: s[i + 1] == word[i];
    assert s[|word| + 1] == ' ';
    assert WordEnd(s, 1) == |word| + 1;
    assert s[1..|word| + 1] == word && s[|word| + 1..] == " " + after;
  }

  lemma TargetOfRequest(target: string)
    requires IsPlainTarget(target)
    ensures FirstLine(Request(target)) == Some("GET " + target + " HTTP/1.1")
    ensures TargetOf("GET " + target + " HTTP/1.1") == Some(target)
  {
    var line := "GET " + target + " HTTP/1.1";
    var s := Request(target);
    var n := |line|;
    assert s == line + "\r\n" && s[n] == '\r' && s[n + 1] == '\n';
    assert forall i | 0 <= i < n :: line[i] != '\n';
    assert forall i | 0 <= i < n :: s[i] == line[i];
    assert LineFeedAt(s, 0) == n + 1;
    assert s[..n] == line;
    var rest := " " + target + " " + "HTTP/1.1";
    assert line == "GET" + " " + (target + " HTTP/1.1");
    WordOf(line, "GET", target + " HTTP/1.1");
    assert " " + (target + " HTTP/1.1") == rest;
    SpacedWordOf(rest, target, "HTTP/1.1");
  }

  /** A request line of three words: another verb than GET, no URL or another path is no callback. */
  lemma RequestLineIs(urls: UrlLibrary, verb: string, target: string, after: string)
    requires verb != "" && forall i | 0 <= i < |verb| :: !Text.IsWhitespace(verb[i])
    requires target != "" && forall i | 0 <= i < |target| :: !Text.IsWhitespace(target[i])
    ensures var url := urls.parse("http://127.0.0.1" + target);
            ParseLine(urls, verb + " " + target + " " + after) ==
            if verb == "GET" && url.Some? && url.value.path == urls.callbackPath
            then Some(Collect(url.value.pairs)) else None
  {
    hide NextWord, Collect;
    var line := verb + " " + target + " " + after;
    assert line == verb + " " + (target + " " + after);
    WordOf(line, verb, target + " " + after);
    assert " " + (target + " " + after) == " " + target + " " + after;
    SpacedWordOf(" " + target + " " + after, target, after);
  }

  /**
  Any callback request with an accented letter right behind its line: read in
  one go it is answered, and so it is when the first read ends with the line,
  but not when a read ends inside the letter.
  */
  lemma CutInsideALetter(urls: UrlLibrary, target: string, url: Target)
    requires IsPlainTarget(target)
    requires urls.parse("http://127.0.0.1" + target) == Some(url) && url.path == urls.callbackPath
    ensures var head := Encoded(Request(target));
            var bytes := head + [0xC3, 0xA9];
            && StopAt(bytes, |head|) && StopAt(bytes, |head| + 1) && StopAt(bytes, |bytes|)
            && ParseHead(urls, bytes[..|head|]) == ParseHead(urls, bytes) == Some(Collect(url.pairs))
            && ParseHead(urls, bytes[..|head| + 1]) == None
  {
    hide ParseHead, Valid, Decode, IsPlainTarget, Request, StopAt;
    var head := Encoded(Request(target));
    var letter: seq<byte> := [0xC3, 0xA9];
    var bytes := head + letter;
    PlainRequestParses(urls, target, url);
    EndsInCrlf(target, head);
    CrlfStops(bytes, |head|);
    assert bytes[..|head|] == head && bytes[..|head| + 1] == head + [0xC3];
    LetterIsValid();
    SameLine(urls, head, letter);
    SpoiltByLead(urls, head, 0xC3);
  }

  lemma PlainRequestParses(urls: UrlLibrary, target: string, url: Target)
    requires IsPlainTarget(target)
    requires urls.parse("http://127.0.0.1" + target) == Some(url) && url.path == urls.callbackPath
    ensures Valid(Encoded(Request(target))) && ParseHead(urls, Encoded(Request(target))) == Some(Collect(url.pairs))
  {
    hide IsPlainTarget, Valid, Decode, FirstLine, TargetOf, Request;
    DecodedAscii(Request(target));
    TargetOfRequest(target);
  }

  lemma EndsInCrlf(target: string, head: seq<byte>)
    requires IsPlainTarget(target) && |head| == |Request(target)|
    requires forall i | 0 <= i < |head| :: head[i] == Request(target)[i] as int
    ensures |head| > 2 && head[|head| - 2] == 0x0D && head[|head| - 1] == 0x0A && |head| + 2 <= CAPACITY
  {
    var s := Request(target);
    assert s == "GET " + target + " HTTP/1.1" + "\r\n";
    assert s[|s| - 2] == '\r' && s[|s| - 1] == '\n';
  }

  lemma CrlfStops(bytes: seq<byte>, m: nat)
    requires 2 <= m <= |bytes| <= CAPACITY && bytes[m - 2] == 0x0D && bytes[m - 1] == 0x0A
    ensures forall n: nat | m <= n <= |bytes| :: StopAt(bytes, n)
  {
    forall n: nat | m <= n <= |bytes|
      ensures StopAt(bytes, n)
    {
      assert bytes[..n][m - 2] == 0x0D && bytes[..n][m - 2 + 1] == 0x0A;
    }
  }

  lemma LetterIsValid()
    ensures Valid([0xC3, 0xA9])
  {
    assert CharLength([0xC3, 0xA9]) == 2;
    assert [0xC3, 0xA9][2..] == [];
  }

  lemma SpoiltByLead(urls: UrlLibrary, head: seq<byte>, lead: byte)
    requires Valid(head) && lead >= 0x80
    ensures ParseHead(urls, head + [lead]) == None
  {
    StopsInsideCharacter(head, lead);
  }
}
