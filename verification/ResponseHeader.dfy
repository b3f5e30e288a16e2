/** The response header (Strings.c:106-214) and how a client reads it: lines ended
    by CRLF, the last of them empty. */
module ResponseHeader {
  import opened CStrings
  import opened Decimal

  const CRLF := "\r\n"
  const LENGTH_FIELD := "Content-Length: "

  /** The size of the buffer of every caller. */
  const MESSAGE_BUFFER: nat := 512

  predicate IsLine(s: string) {
    Free(s, '\r') && Free(s, '\n')
  }

  /** Lines one after the other, each with its end. */
  function Join(lines: seq<string>): string {
    if lines == [] then "" else lines[0] + CRLF + Join(lines[1..])
  }

  /** A client's view: the text up to each CRLF. */
  function Split(s: string): seq<string>
    decreases |s|
  {
    var k := IndexOf(s, '\r');
    if k + 1 < |s| && s[k + 1] == '\n' then [s[..k]] + Split(s[k + 2..]) else []
  }

  lemma {:induction false} SplitJoin(lines: seq<string>)
    requires forall i | 0 <= i < |lines| :: IsLine(lines[i])
    ensures Split(Join(lines)) == lines
    decreases |lines|
  {
    if lines == [] {
    } else {
      var s := Join(lines);
      assert s[..|lines[0]|] == lines[0];
      IndexOfIs(s, '\r', |lines[0]|);
      assert s[|lines[0]| + 2..] == Join(lines[1..]);
      SplitJoin(lines[1..]);
    }
  }

  /** The value of the Content-Length field, read from the lines of a header. */
  function ContentLength(lines: seq<string>): (v: string) {
    if lines == [] then ""
    else if LENGTH_FIELD <= lines[0] then lines[0][|LENGTH_FIELD|..]
    else ContentLength(lines[1..])
  }

  const STATUS_OK := "HTTP/1.1 200 OK"
  const STATUS_BAD := "HTTP/1.1 400 Bad Request"
  const SERVER := "Server: 127.0.0.1"
  const TYPE_IMAGE := "Content-Type: image/jpeg"
  const TYPE_HTML := "Content-Type: text/html"
  const ENCODING := "Content-Transfer-Encoding: binary"
  const KEEP_ALIVE := "Keep-Alive: timeout=5, max=10"
  const CLOSED := "Connection: Closed"

  function LinesOk(size: int): seq<string> {
    [STATUS_OK, SERVER, TYPE_IMAGE, ENCODING, LENGTH_FIELD + Printed(size), KEEP_ALIVE, ""]
  }

  function LinesBad(size: int): seq<string> {
    [STATUS_BAD, SERVER, TYPE_HTML, LENGTH_FIELD + Printed(size), CLOSED, ""]
  }

  /** What build_message writes: a 200 header for an image, a 400 header when the
      size is that of the error page with its terminator, and nothing otherwise. */
  function Header(fileSize: int, image: bool, errorPage: string): string {
    if image then Join(LinesOk(fileSize))
    else if fileSize == |errorPage| + 1 then Join(LinesBad(fileSize))
    else ""
  }

  lemma FixedLines()
    ensures IsLine(STATUS_OK) && IsLine(STATUS_BAD) && IsLine(SERVER) && IsLine(TYPE_IMAGE)
    ensures IsLine(TYPE_HTML) && IsLine(ENCODING) && IsLine(KEEP_ALIVE) && IsLine(CLOSED) && IsLine("")
  {
  }

  lemma LengthLine(size: int)
    ensures IsLine(LENGTH_FIELD + Printed(size))
  {
    var digits := Printed(size);
    assert IsLine(LENGTH_FIELD) && IsLine(digits);
  }

  lemma AllLines(size: int, image: bool)
    ensures var lines := if image then LinesOk(size) else LinesBad(size);
            forall i | 0 <= i < |lines| :: IsLine(lines[i])
  {
    FixedLines();
    LengthLine(size);
  }

  /** The header is well formed: read back line by line it is the intended text, with
      an empty line at the end, and the Content-Length field is the printed size. */
  lemma HeaderReadsBack(fileSize: int, image: bool, errorPage: string)
    requires image || fileSize == |errorPage| + 1
    ensures var lines := Split(Header(fileSize, image, errorPage));
            && lines == (if image
                         then ["HTTP/1.1 200 OK", "Server: 127.0.0.1", "Content-Type: image/jpeg",
                               "Content-Transfer-Encoding: binary", "Content-Length: " + Printed(fileSize),
                               "Keep-Alive: timeout=5, max=10", ""]
                         else ["HTTP/1.1 400 Bad Request", "Server: 127.0.0.1", "Content-Type: text/html",
                               "Content-Length: " + Printed(fileSize), "Connection: Closed", ""])
            && lines[|lines| - 1] == ""
            && ContentLength(lines) == Printed(fileSize)
  {
    AllLines(fileSize, image);
    SplitJoin(if image then LinesOk(fileSize) else LinesBad(fileSize));
    LengthFound(fileSize);
  }

  /** Nothing is written for an error page of another size. */
  lemma NoHeaderOtherwise(fileSize: int, errorPage: string)
    ensures Header(fileSize, false, errorPage) == "" <==> fileSize != |errorPage| + 1
  {
    if fileSize == |errorPage| + 1 {
      LengthOfBad(fileSize);
    }
  }

  lemma NotLengthField(line: string, rest: seq<string>, k: nat)
    requires k < |LENGTH_FIELD| && k < |line| && line[k] != LENGTH_FIELD[k]
    ensures ContentLength([line] + rest) == ContentLength(rest)
  {
    assert ([line] + rest)[1..] == rest;
  }

  lemma LengthFirst(size: int, rest: seq<string>)
    ensures ContentLength([LENGTH_FIELD + Printed(size)] + rest) == Printed(size)
  {
  }

  lemma LengthFound(size: int)
    ensures ContentLength(LinesOk(size)) == Printed(size)
    ensures ContentLength(LinesBad(size)) == Printed(size)
  {
    var field := [LENGTH_FIELD + Printed(size)];
    LengthFirst(size, [KEEP_ALIVE, ""]);
    var ok := field + [KEEP_ALIVE, ""];
    NotLengthField(ENCODING, ok, 8);
    NotLengthField(TYPE_IMAGE, [ENCODING] + ok, 8);
    NotLengthField(SERVER, [TYPE_IMAGE] + ([ENCODING] + ok), 0);
    NotLengthField(STATUS_OK, [SERVER] + ([TYPE_IMAGE] + ([ENCODING] + ok)), 0);
    assert LinesOk(size) == [STATUS_OK] + ([SERVER] + ([TYPE_IMAGE] + ([ENCODING] + ok)));
    LengthFirst(size, [CLOSED, ""]);
    var bad := field + [CLOSED, ""];
    NotLengthField(TYPE_HTML, bad, 8);
    NotLengthField(SERVER, [TYPE_HTML] + bad, 0);
    NotLengthField(STATUS_BAD, [SERVER] + ([TYPE_HTML] + bad), 0);
    assert LinesBad(size) == [STATUS_BAD] + ([SERVER] + ([TYPE_HTML] + bad));
  }

  /** For a positive size the field is a decimal number, the size itself; a size of
      zero leaves the field empty. */
  lemma LengthFieldExact(size: nat)
    ensures AllDigits(Printed(size)) && Value(Printed(size)) == size
    ensures Printed(size) != "" <==> size > 0
  {
    ValueOfDigits(size);
  }

  /** Header and terminator fit the callers' buffers, for every file size. */
  lemma HeaderFits(fileSize: int, image: bool, errorPage: string)
    requires fileSize <= LONG_MAX
    ensures |Header(fileSize, image, errorPage)| < MESSAGE_BUFFER
  {
    LongDigits(fileSize);
    LengthOfOk(fileSize);
    LengthOfBad(fileSize);
  }

  lemma JoinCons(line: string, rest: seq<string>)
    ensures Join([line] + rest) == line + CRLF + Join(rest)
  {
    assert ([line] + rest)[1..] == rest;
  }

  lemma {:induction false} JoinSnoc(lines: seq<string>, line: string)
    ensures Join(lines + [line]) == Join(lines) + line + CRLF
    decreases |lines|
  {
    if lines == [] {
      assert [] + [line] == [line] + [];
      JoinCons(line, []);
    } else {
      assert lines + [line] == [lines[0]] + (lines[1..] + [line]);
      JoinCons(lines[0], lines[1..] + [line]);
      JoinSnoc(lines[1..], line);
    }
  }

  lemma LengthOfOk(size: int)
    ensures |Join(LinesOk(size))| == 148 + |Printed(size)|
  {
    var length := LENGTH_FIELD + Printed(size);
    JoinCons("", []);
    JoinCons(KEEP_ALIVE, [""]);
    JoinCons(length, [KEEP_ALIVE] + [""]);
    var ok := [length] + ([KEEP_ALIVE] + [""]);
    JoinCons(ENCODING, ok);
    JoinCons(TYPE_IMAGE, [ENCODING] + ok);
    JoinCons(SERVER, [TYPE_IMAGE] + ([ENCODING] + ok));
    JoinCons(STATUS_OK, [SERVER] + ([TYPE_IMAGE] + ([ENCODING] + ok)));
    assert LinesOk(size) == [STATUS_OK] + ([SERVER] + ([TYPE_IMAGE] + ([ENCODING] + ok)));
  }

  lemma LengthOfBad(size: int)
    ensures |Join(LinesBad(size))| == 110 + |Printed(size)|
  {
    var length := LENGTH_FIELD + Printed(size);
    JoinCons("", []);
    JoinCons(CLOSED, [""]);
    JoinCons(length, [CLOSED] + [""]);
    var bad := [length] + ([CLOSED] + [""]);
    JoinCons(TYPE_HTML, bad);
    JoinCons(SERVER, [TYPE_HTML] + bad);
    JoinCons(STATUS_BAD, [SERVER] + ([TYPE_HTML] + bad));
    assert LinesBad(size) == [STATUS_BAD] + ([SERVER] + ([TYPE_HTML] + bad));
  }

  lemma LongDigits(size: int)
    requires size <= LONG_MAX
    ensures |Printed(size)| <= 19
  {
    assert Pow10(6) == 100_0000;
    assert Pow10(12) == 10000_0000_0000;
    assert Pow10(18) == 100_0000_0000_0000_0000;
    if size > 0 {
      DigitCount(size, 19);
    }
  }

  /** Two memcpy calls: a line, then its end. */
  method AppendLine(msg: array<char>, len: nat, line: string, ghost sofar: seq<string>) returns (len': nat)
    requires len + |line| + 2 <= msg.Length && msg[..len] == Join(sofar)
    modifies msg
    ensures len' == len + |line| + 2
    ensures msg[..len'] == Join(sofar + [line])
  {
    len' := Append(msg, len, line);
    len' := Append(msg, len', CRLF);
    JoinSnoc(sofar, line);
  }

  /** build_message; the 503 branch repeats the condition of the 400 branch. */
  method BuildMessage(fileSize: int, msg: array<char>, image: bool, errorPage: string) returns (len: nat)
    requires fileSize <= LONG_MAX && msg.Length == MESSAGE_BUFFER
    modifies msg
    ensures len == |Header(fileSize, image, errorPage)| < MESSAGE_BUFFER
    ensures msg[..len] == Header(fileSize, image, errorPage) && msg[len] == NUL
  {
    LongDigits(fileSize);
    var number, _ := ConvertToString(fileSize);
    var charSize := number[..number.Length - 1];
    assert charSize == Printed(fileSize);
    len := 0;
    if image {
      len := BuildOk(charSize, msg, fileSize);
    } else if fileSize == |errorPage| + 1 {
      len := BuildBad(charSize, msg, fileSize);
    }
    msg[len] := NUL;
  }

  /** The three lines that both headers begin with. */
  method BuildHead(msg: array<char>, status: string, mime: string) returns (len: nat)
    requires |status| + |SERVER| + |mime| + 6 <= msg.Length
    modifies msg
    ensures len == |status| + |SERVER| + |mime| + 6
    ensures msg[..len] == Join([status, SERVER, mime])
  {
    len := AppendLine(msg, 0, status, []);
    len := AppendLine(msg, len, SERVER, [] + [status]);
    len := AppendLine(msg, len, mime, [] + [status] + [SERVER]);
    assert [] + [status] + [SERVER] + [mime] == [status, SERVER, mime];
  }

  method BuildOk(charSize: string, msg: array<char>, ghost size: int) returns (len: nat)
    requires charSize == Printed(size) && |charSize| <= 19 && msg.Length == MESSAGE_BUFFER
    modifies msg
    ensures len == |Join(LinesOk(size))| < MESSAGE_BUFFER && msg[..len] == Join(LinesOk(size))
  {
    ghost var head, length := [STATUS_OK, SERVER, TYPE_IMAGE], LENGTH_FIELD + charSize;
    len := BuildHead(msg, STATUS_OK, TYPE_IMAGE);
    len := AppendLine(msg, len, ENCODING, head);
    len := AppendLine(msg, len, LENGTH_FIELD + charSize, head + [ENCODING]);
    len := AppendLine(msg, len, KEEP_ALIVE, head + [ENCODING] + [length]);
    len := AppendLine(msg, len, "", head + [ENCODING] + [length] + [KEEP_ALIVE]);
    assert LinesOk(size) == head + [ENCODING] + [length] + [KEEP_ALIVE] + [""];
    LengthOfOk(size);
  }

  method BuildBad(charSize: string, msg: array<char>, ghost size: int) returns (len: nat)
    requires charSize == Printed(size) && |charSize| <= 19 && msg.Length == MESSAGE_BUFFER
    modifies msg
    ensures len == |Join(LinesBad(size))| < MESSAGE_BUFFER && msg[..len] == Join(LinesBad(size))
  {
    ghost var head, length := [STATUS_BAD, SERVER, TYPE_HTML], LENGTH_FIELD + charSize;
    len := BuildHead(msg, STATUS_BAD, TYPE_HTML);
    len := AppendLine(msg, len, LENGTH_FIELD + charSize, head);
    len := AppendLine(msg, len, CLOSED, head + [length]);
    len := AppendLine(msg, len, "", head + [length] + [CLOSED]);
    assert LinesBad(size) == head + [length] + [CLOSED] + [""];
    LengthOfBad(size);
  }
}
