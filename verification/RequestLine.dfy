/** Parsing of a request (Request.c:76-194, 225-252, 380-444). */
module RequestLine {
  import opened CStrings

  const CR: char := '\r'
  const HTTP_MESSAGE_SIZE: nat := 512
  const IMAGE_NAME_PREALLOCATION: nat := 64

  /** How parse_name ends. Overrun stands for an access outside a buffer, where C
      leaves the behaviour undefined. */
  datatype Parsed =
    | ImageRequested(name: string, ext: string)
    | MessageNotCorrect
    | EmptyPath
    | IconRequested
    | Overrun

  /** The character at `i` of a C string, its terminator included. */
  function CharAt(line: string, i: nat): char {
    if i < |line| then line[i] else NUL
  }

  /** The first position from `i` on of a stop character, |line| when there is none. */
  function ScanTo(line: string, i: nat, stops: string): (k: nat)
    requires i <= |line|
    ensures i <= k <= |line|
    ensures forall m | i <= m < k :: line[m] !in stops
    ensures k < |line| ==> line[k] in stops
    decreases |line| - i
  {
    if i == |line| || line[i] in stops then i else ScanTo(line, i + 1, stops)
  }

  /** The image name and extension in what follows "/?". */
  function Target(t: string): Parsed {
    var k := ScanTo(t, 0, ". ");
    if k == |t| || k > 2 * IMAGE_NAME_PREALLOCATION then Overrun
    else if t[k] == ' ' then MessageNotCorrect
    else if k == 2 * IMAGE_NAME_PREALLOCATION then Overrun
    else
      var m := ScanTo(t, k, " ");
      if m == |t| || m - k > 5 then Overrun
      else ImageRequested(t[..k], t[k..if m - k == 5 then m - 1 else m])
  }

  /** parse_name: everything is decided at the first slash. */
  function ParsedName(line: string): Parsed {
    var i := IndexOf(line, '/');
    if i == |line| then ImageRequested("", "")
    else if CharAt(line, i + 1) == '?' then Target(line[i + 2..])
    else if CharAt(line, i + 1) == ' ' then EmptyPath
    else if Contains(line, "favicon") then IconRequested
    else MessageNotCorrect
  }

  /** The first occurrence of `pattern`, |s| + 1 when there is none. */
  function Find(s: string, pattern: string, i: nat): (k: nat)
    requires i <= |s| + 1
    ensures i <= k <= |s| + 1
    ensures forall m | i <= m < k :: !OccursAt(s, pattern, m)
    ensures k <= |s| ==> OccursAt(s, pattern, k)
    decreases |s| + 1 - i
  {
    if i > |s| || OccursAt(s, pattern, i) then i else Find(s, pattern, i + 1)
  }

  lemma {:induction false} FindFrom(s: string, pattern: string, i: nat, k: nat)
    requires i <= k && OccursAt(s, pattern, k) && forall m | i <= m < k :: !OccursAt(s, pattern, m)
    ensures Find(s, pattern, i) == k
    decreases k - i
  {
    if i == k {
    } else {
      FindFrom(s, pattern, i + 1, k);
    }
  }

  datatype Command = Get | Head | NoCommand

  /** parse_command from position i on. */
  function CommandFrom(line: string, i: nat): (cmd: Command)
    requires i <= |line|
    decreases |line| - i
  {
    if i == |line| then NoCommand
    else if OccursAt(line, "GET", i) then Get
    else if OccursAt(line, "HEAD", i) then Head
    else CommandFrom(line, i + 1)
  }

  predicate NamesCommand(line: string, k: nat) {
    OccursAt(line, "GET", k) || OccursAt(line, "HEAD", k)
  }

  /** The command is decided by the earliest GET or HEAD anywhere in the line, and
      there is none exactly when the line has neither. */
  lemma {:induction false} CommandIsEarliest(line: string, i: nat) returns (k: nat)
    requires i <= |line|
    ensures i <= k <= |line| && forall m | i <= m < k :: !NamesCommand(line, m)
    ensures k == |line| <==> CommandFrom(line, i) == NoCommand
    ensures k < |line| ==> NamesCommand(line, k)
    ensures CommandFrom(line, i) == Get <==> k < |line| && OccursAt(line, "GET", k)
    decreases |line| - i
  {
    if i == |line| || NamesCommand(line, i) {
      k := i;
    } else {
      k := CommandIsEarliest(line, i + 1);
    }
  }

  // Printing, and reading back.

  function PrintLine(verb: string, name: string, ext: string): string {
    verb + " /?" + name + ext + " HTTP/1.1"
  }

  /** A name that parse_name can return in one piece, and an extension after it. */
  predicate Printable(verb: string, name: string, ext: string) {
    && Free(verb, '/')
    && Free(name, '.') && Free(name, ' ') && |name| < 2 * IMAGE_NAME_PREALLOCATION
    && ext != "" && ext[0] == '.' && Free(ext, ' ')
  }

  /** ScanTo stops at the first stop character. */
  lemma {:induction false} ScanToIs(line: string, i: nat, stops: string, k: nat)
    requires i <= k < |line| && line[k] in stops && forall m | i <= m < k :: line[m] !in stops
    ensures ScanTo(line, i, stops) == k
    decreases k - i
  {
    if i == k {
    } else {
      ScanToIs(line, i + 1, stops, k);
    }
  }

  lemma TargetRoundTrip(name: string, ext: string)
    requires Printable("", name, ext)
    ensures Target(name + ext + " HTTP/1.1")
         == if |ext| <= 4 then ImageRequested(name, ext)
            else if |ext| == 5 then ImageRequested(name, ext[..4])
            else Overrun
  {
    var t, n, m := name + ext + " HTTP/1.1", |name|, |name| + |ext|;
    assert t[..n] == name && t[n..m] == ext && t[m] == ' ' && t[n] == '.';
    ScanToIs(t, 0, ". ", n);
    forall i | n <= i < m
      ensures t[i] !in " "
    {
      assert t[i] == ext[i - n];
    }
    ScanToIs(t, n, " ", m);
    if |ext| == 5 {
      assert t[n..m - 1] == ext[..4];
    }
  }

  /** The request line round trip: up to four bytes of extension come back whole, a
      fifth is cut off, and a longer extension does not fit its buffer. */
  lemma LineRoundTrip(verb: string, name: string, ext: string)
    requires Printable(verb, name, ext)
    ensures ParsedName(PrintLine(verb, name, ext))
         == if |ext| <= 4 then ImageRequested(name, ext)
            else if |ext| == 5 then ImageRequested(name, ext[..4])
            else Overrun
  {
    var line, rest := PrintLine(verb, name, ext), name + ext + " HTTP/1.1";
    assert line == verb + " /?" + rest;
    SplitAtSlash(verb + " ", "?" + rest);
    assert line == (verb + " ") + "/" + ("?" + rest);
    assert ("?" + rest)[1..] == rest;
    TargetRoundTrip(name, ext);
  }

  lemma SplitAtSlash(a: string, rest: string)
    requires Free(a, '/')
    ensures var line := a + "/" + rest;
            && IndexOf(line, '/') == |a| < |line|
            && CharAt(line, |a| + 1) == CharAt(rest, 0)
            && (rest != "" ==> line[|a| + 2..] == rest[1..])
  {
    var line := a + "/" + rest;
    assert line[..|a|] == a;
    IndexOfIs(line, '/', |a|);
  }

  /** The empty path is the icon's, and so is a path without "?" when the line names
      "favicon"; every other path without "?" is not correct. */
  lemma PathWithoutQuery(verb: string, after: string)
    requires Free(verb, '/') && (after == "" || after[0] != '?')
    ensures var line := verb + " /" + after;
            && (after != "" && after[0] == ' ' ==> ParsedName(line) == EmptyPath)
            && (after == "" || after[0] != ' ' ==>
                  && (ParsedName(line) == IconRequested <==> Contains(line, "favicon"))
                  && (ParsedName(line) == MessageNotCorrect <==> !Contains(line, "favicon")))
  {
    SplitAtSlash(verb + " ", after);
    assert verb + " /" + after == (verb + " ") + "/" + after;
  }

  lemma FaviconIsIcon(verb: string, rest: string)
    requires Free(verb, '/')
    ensures ParsedName(verb + " /favicon.ico" + rest) == IconRequested
  {
    var line, k := verb + " /favicon.ico" + rest, |verb| + 2;
    assert line == verb + " /" + ("favicon.ico" + rest);
    assert line[k..k + 7] == "favicon";
    assert OccursAt(line, "favicon", k);
    PathWithoutQuery(verb, "favicon.ico" + rest);
  }

  /** What follows "/?" decides the rest. */
  lemma QueryPath(verb: string, t: string)
    requires Free(verb, '/')
    ensures ParsedName(verb + " /?" + t) == Target(t)
  {
    SplitAtSlash(verb + " ", "?" + t);
    assert verb + " /?" + t == (verb + " ") + "/" + ("?" + t);
    assert ("?" + t)[1..] == t;
  }

  /** A name without an extension is not correct, up to the size of its buffer. */
  lemma NameWithoutExtension(verb: string, name: string, rest: string)
    requires Free(verb, '/') && Free(name, '.') && Free(name, ' ')
    ensures ParsedName(verb + " /?" + name + " " + rest)
         == if |name| <= 128 then MessageNotCorrect else Overrun
  {
    var t, n := name + " " + rest, |name|;
    assert verb + " /?" + name + " " + rest == verb + " /?" + t;
    assert t[..n] == name && t[n] == ' ';
    ScanToIs(t, 0, ". ", n);
    QueryPath(verb, t);
  }

  /** A name of 128 bytes or more does not fit its buffer. */
  lemma LongNameOverruns(verb: string, name: string, ext: string, rest: string)
    requires Free(verb, '/') && Free(name, '.') && Free(name, ' ') && |name| >= 128
    ensures ParsedName(verb + " /?" + name + "." + ext + rest) == Overrun
  {
    var t, n := name + "." + ext + rest, |name|;
    assert verb + " /?" + name + "." + ext + rest == verb + " /?" + t;
    assert t[..n] == name && t[n] == '.';
    ScanToIs(t, 0, ". ", n);
    QueryPath(verb, t);
  }

  /** Without a blank after "/?" the line is left. */
  lemma LineWithoutBlankOverruns(verb: string, t: string)
    requires Free(verb, '/') && Free(t, ' ')
    ensures ParsedName(verb + " /?" + t) == Overrun
  {
    QueryPath(verb, t);
  }

  /** A line without a slash is taken for a request of an image without name. */
  lemma LineWithoutSlash(line: string)
    requires Free(line, '/')
    ensures ParsedName(line) == ImageRequested("", "")
  {
  }

  /** Apart from the favicon test, what stands before the first slash is irrelevant. */
  lemma DecidedAtFirstSlash(a: string, b: string, rest: string)
    requires Free(a, '/') && Free(b, '/')
    requires Contains(a + "/" + rest, "favicon") <==> Contains(b + "/" + rest, "favicon")
    ensures ParsedName(a + "/" + rest) == ParsedName(b + "/" + rest)
  {
    SplitAtSlash(a, rest);
    SplitAtSlash(b, rest);
  }

  /** GET and HEAD lines are recognised, whatever name follows. */
  lemma CommandRoundTrip(name: string, ext: string)
    ensures CommandFrom(PrintLine("GET", name, ext), 0) == Get
    ensures CommandFrom(PrintLine("HEAD", name, ext), 0) == Head
  {
    assert PrintLine("GET", name, ext)[..3] == "GET";
    assert PrintLine("HEAD", name, ext)[..4] == "HEAD";
    assert OccursAt(PrintLine("GET", name, ext), "GET", 0);
    assert OccursAt(PrintLine("HEAD", name, ext), "HEAD", 0);
    OccursLetter(PrintLine("HEAD", name, ext), "HEAD", 0, 0);
  }

  /** Any other method is taken for GET when the name says GET. */
  lemma PostCanBeTakenForGet()
    ensures CommandFrom(PrintLine("POST", "GET", ".jpg"), 0) == Get
  {
    var line := PrintLine("POST", "GET", ".jpg");
    assert line == "POST /?GET.jpg HTTP/1.1";
    assert line[7..10] == "GET";
    assert OccursAt(line, "GET", 7);
    var k := CommandIsEarliest(line, 0);
    assert NamesCommand(line, 7);
    if OccursAt(line, "HEAD", k) {
      OccursLetter(line, "HEAD", k, 0);
    }
  }

  // A whole request.

  const CRLF := "\r\n"
  const AGENT := "User-Agent: "

  predicate HasCommandLine(message: string) {
    IndexOf(message, CR) < |message| && IndexOf(message, CR) < HTTP_MESSAGE_SIZE
  }

  function CommandLine(message: string): string {
    message[..IndexOf(message, CR)]
  }

  /** The text after the first "User-Agent: ", and its length up to the carriage return. */
  function AgentText(message: string): string {
    var f := Find(message, AGENT, 0);
    if f > |message| then "" else message[f + |AGENT|..]
  }

  /** The carriage return is within the 255 bytes that get_user_agent copies. */
  predicate HasUserAgent(message: string) {
    var t := AgentText(message);
    IndexOf(t, CR) < |t| && IndexOf(t, CR) + |AGENT| < 255
  }

  function UserAgent(message: string): string {
    AgentText(message)[..IndexOf(AgentText(message), CR)]
  }

  function PrintRequest(verb: string, name: string, ext: string, ua: string, rest: string): string {
    PrintLine(verb, name, ext) + CRLF + AGENT + ua + CRLF + rest
  }

  /** The agent header is found where it was printed exactly when the line before it
      does not contain its name; it is never found across the end of that line. */
  lemma AgentAfterLine(line: string, tail: string)
    ensures Find(line + CRLF + AGENT + tail, AGENT, 0) == |line| + 2 <==> !Contains(line, AGENT)
  {
    var s := line + CRLF + AGENT + tail;
    assert s[|line| + 2..|line| + 14] == AGENT;
    forall m | 0 <= m < |line| + 2
      ensures OccursAt(s, AGENT, m) <==> OccursAt(line, AGENT, m)
    {
      if m + 12 <= |line| {
        assert s[m..m + 12] == line[m..m + 12];
      } else if m <= |line| {
        AgentLetters(|line| - m);
        DiffersAt(s, AGENT, m, |line| - m);
      } else {
        DiffersAt(s, AGENT, m, 0);
      }
    }
    if Contains(line, AGENT) {
      var m :| 0 <= m <= |line| && OccursAt(line, AGENT, m);
      assert OccursAt(s, AGENT, m);
    } else {
      FindFrom(s, AGENT, 0, |line| + 2);
    }
  }

  lemma AgentLetters(k: nat)
    requires k < 12
    ensures |AGENT| == 12 && AGENT[k] != CR
  {
  }

  lemma CommandLineIs(line: string, tail: string)
    requires Free(line, CR)
    ensures IndexOf(line + CRLF + tail, CR) == |line|
  {
    var s := line + CRLF + tail;
    assert s[..|line|] == line;
    IndexOfIs(s, CR, |line|);
  }

  /** Printing a request and reading it back gives its line and its user agent. */
  lemma RequestRoundTrip(verb: string, name: string, ext: string, ua: string, rest: string)
    requires !Contains(PrintLine(verb, name, ext), AGENT) && Free(PrintLine(verb, name, ext), CR)
    requires |PrintLine(verb, name, ext)| < HTTP_MESSAGE_SIZE && Free(ua, CR) && |ua| < 243
    ensures var message := PrintRequest(verb, name, ext, ua, rest);
            && HasCommandLine(message) && CommandLine(message) == PrintLine(verb, name, ext)
            && HasUserAgent(message) && UserAgent(message) == ua
  {
    HeadersRoundTrip(PrintLine(verb, name, ext), ua, rest);
  }

  lemma HeadersRoundTrip(line: string, ua: string, rest: string)
    requires !Contains(line, AGENT) && Free(line, CR) && |line| < HTTP_MESSAGE_SIZE && Free(ua, CR) && |ua| < 243
    ensures var message := line + CRLF + AGENT + ua + CRLF + rest;
            && HasCommandLine(message) && CommandLine(message) == line
            && HasUserAgent(message) && UserAgent(message) == ua
  {
    var tail := ua + CRLF + rest;
    var message := line + CRLF + AGENT + tail;
    assert line + CRLF + AGENT + ua + CRLF + rest == message;
    assert message == line + CRLF + (AGENT + tail);
    CommandLineIs(line, AGENT + tail);
    AgentAfterLine(line, tail);
    assert message[|line| + 2 + |AGENT|..] == tail;
    CommandLineIs(ua, rest);
  }

  // The functions of Request.c.

  /** get_command_line: the bytes before the first carriage return. */
  method GetCommandLine(message: string) returns (firstline: string)
    requires HasCommandLine(message)
    ensures firstline == CommandLine(message)
  {
    var tmpFirstline := new char[HTTP_MESSAGE_SIZE];
    var i := 0;
    while message[i] != CR
      invariant 0 <= i <= IndexOf(message, CR)
      invariant tmpFirstline[..i] == message[..i]
      decreases IndexOf(message, CR) - i
    {
      tmpFirstline[i] := message[i];
      i := i + 1;
    }
    FirstIs(message, CR, i);
    tmpFirstline[i] := NUL;
    firstline := tmpFirstline[..i];
  }

  /** get_user_agent. The bytes that its memcpy takes from behind the message are
      never looked at. */
  method GetUserAgent(message: string) returns (userAgent: string)
    requires HasUserAgent(message)
    ensures userAgent == UserAgent(message)
  {
    var tmp := AgentText(message);
    var tmpUserAgent := new char[256];
    var i := 0;
    while tmp[i] != CR
      invariant 0 <= i <= IndexOf(tmp, CR)
      invariant tmpUserAgent[..i] == tmp[..i]
      decreases IndexOf(tmp, CR) - i
    {
      tmpUserAgent[i] := tmp[i];
      i := i + 1;
    }
    FirstIs(tmp, CR, i);
    tmpUserAgent[i] := NUL;
    userAgent := tmpUserAgent[..i];
  }

  method ParseCommand(firstLine: string) returns (cmd: Command)
    ensures cmd == CommandFrom(firstLine, 0)
  {
    var i := 0;
    while i < |firstLine|
      invariant 0 <= i <= |firstLine|
      invariant CommandFrom(firstLine, 0) == CommandFrom(firstLine, i)
    {
      if OccursAt(firstLine, "GET", i) {
        return Get;
      } else if OccursAt(firstLine, "HEAD", i) {
        return Head;
      }
      i := i + 1;
    }
    cmd := NoCommand;
  }

  /** parse_name. The buffer of the name grows once, when it holds 64 bytes. */
  method ParseName(line: string) returns (result: Parsed)
    requires Free(line, NUL)
    ensures result == ParsedName(line)
  {
    var i := 0;
    while i < |line|
      invariant 0 <= i <= IndexOf(line, '/')
    {
      if line[i] == '/' {
        FirstIs(line, '/', i);
        if CharAt(line, i + 1) == '?' {
          result := ParseTarget(line[i + 2..]);
          return;
        } else if CharAt(line, i + 1) == ' ' {
          return EmptyPath;
        } else if Contains(line, "favicon") {
          return IconRequested;
        } else {
          return MessageNotCorrect;
        }
      }
      i := i + 1;
    }
    result := ImageRequested("", "");
  }

  /** The two copying loops of parse_name. */
  method ParseTarget(t: string) returns (result: Parsed)
    ensures result == Target(t)
  {
    var inside, i, name := CopyName(t);
    if !inside {
      return Overrun;
    }
    if t[i] == ' ' {
      return MessageNotCorrect;
    }
    if i == 2 * IMAGE_NAME_PREALLOCATION {
      return Overrun;
    }
    var fits, ext := CopyExt(t, i);
    result := if fits then ImageRequested(name, ext) else Overrun;
  }

  /** The loop at Request.c:134-146: up to the first dot or blank. It leaves the
      line when there is none, and its buffer after 128 bytes. */
  method CopyName(t: string) returns (inside: bool, i: nat, name: string)
    ensures inside <==> ScanTo(t, 0, ". ") < |t| && ScanTo(t, 0, ". ") <= 2 * IMAGE_NAME_PREALLOCATION
    ensures inside ==> i == ScanTo(t, 0, ". ") && name == t[..i]
  {
    var p := new char[IMAGE_NAME_PREALLOCATION];
    i := 0;
    while CharAt(t, i) != '.' && CharAt(t, i) != ' '
      invariant fresh(p) && 0 <= i <= |t| && i <= p.Length
      invariant p.Length == if i < IMAGE_NAME_PREALLOCATION then IMAGE_NAME_PREALLOCATION
                            else 2 * IMAGE_NAME_PREALLOCATION
      invariant forall c | 0 <= c < i :: p[c] == t[c]
      invariant ScanTo(t, 0, ". ") == ScanTo(t, i, ". ")
      decreases |t| - i
    {
      if i == |t| || i == p.Length {
        return false, i, "";
      }
      p[i] := t[i];
      i := i + 1;
      if i == IMAGE_NAME_PREALLOCATION {
        p := Realloc(p, IMAGE_NAME_PREALLOCATION + IMAGE_NAME_PREALLOCATION);
      }
    }
    inside, name := true, p[..i];
  }

  /** The loop at Request.c:153-159: up to the next blank, into five bytes of which
      the last becomes the terminator. */
  method CopyExt(t: string, k: nat) returns (fits: bool, ext: string)
    requires k <= |t|
    ensures var m := ScanTo(t, k, " ");
            && (fits <==> m < |t| && m - k <= 5)
            && (fits ==> ext == t[k..if m - k == 5 then m - 1 else m])
  {
    var e := new char[5](_ => NUL);
    var i, j := k, 0;
    while CharAt(t, i) != ' '
      invariant 0 <= j <= 5 && i == k + j && i <= |t|
      invariant forall c | 0 <= c < j :: e[c] == t[k + c]
      invariant ScanTo(t, k, " ") == ScanTo(t, i, " ")
      decreases |t| - i
    {
      if i == |t| || j == 5 {
        return false, "";
      }
      e[j] := t[i];
      j := j + 1;
      i := i + 1;
    }
    e[4] := NUL;
    fits, ext := true, e[..if j == 5 then 4 else j];
  }

  method Realloc(p: array<char>, size: nat) returns (q: array<char>)
    requires size >= p.Length
    ensures fresh(q) && q.Length == size && q[..p.Length] == p[..]
  {
    q := new char[size];
    forall c | 0 <= c < p.Length {
      q[c] := p[c];
    }
  }
}
