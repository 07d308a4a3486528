/** The framing of language-server messages, per the Base Protocol section (Header Part)
    of the Language Server Protocol specification 3.17. Bodies are opaque bytes. */
module Framing {
  import opened Text

  const MAX_INT := 0x7fff_ffff_ffff_ffff
  const MIN_INT := -0x8000_0000_0000_0000

  // ---------------------------------------------------------------- numbers

  predicate IsDigit(c: char) {
    '0' <= c <= '9'
  }

  function Digit(d: nat): char
    requires d < 10
  {
    '0' + (d as char)
  }

  /** `strconv.Itoa` on the lengths that occur. */
  function Itoa(n: nat): string {
    if n < 10 then [Digit(n)] else Itoa(n / 10) + [Digit(n % 10)]
  }

  function Digits(s: string): Option<nat> {
    if s == "" then Some(0)
    else
      var high, c := Digits(s[..|s| - 1]), s[|s| - 1];
      if high.None? || !IsDigit(c) then None else Some(high.value * 10 + (c as int - '0' as int))
  }

  /** `strconv.Atoi`: an optional sign, digits, and a value that fits an int. */
  function Atoi(s: string): Option<int> {
    var negative := s != "" && s[0] == '-';
    var unsigned := if s != "" && (s[0] == '-' || s[0] == '+') then s[1..] else s;
    var magnitude := if unsigned == "" then None else Digits(unsigned);
    if magnitude.None? then None
    else
      var n: int := if negative then -(magnitude.value as int) else magnitude.value;
      if MIN_INT <= n <= MAX_INT then Some(n) else None
  }

  // ---------------------------------------------------------------- trimming

  predicate IsSpace(c: char) {
    c == ' ' || c == '\t' || c == '\n' || c == '\r' || c == 11 as char || c == 12 as char
  }

  function TrimLineEnd(s: string): (t: string)
    ensures |t| <= |s|
  {
    if s != "" && (s[|s| - 1] == '\r' || s[|s| - 1] == '\n') then TrimLineEnd(s[..|s| - 1]) else s
  }

  function TrimLeft(s: string): string {
    if s != "" && IsSpace(s[0]) then TrimLeft(s[1..]) else s
  }

  function TrimRight(s: string): string {
    if s != "" && IsSpace(s[|s| - 1]) then TrimRight(s[..|s| - 1]) else s
  }

  function TrimSpace(s: string): string {
    TrimRight(TrimLeft(s))
  }

  // ---------------------------------------------------------------- frames

  const LENGTH_FIELD := "Content-Length:"
  const HEADER_END := "\r\n\r\n"

  function Frame(body: string): string {
    (LENGTH_FIELD + " " + Itoa(|body|)) + HEADER_END + body
  }

  /** Everything written for a list of bodies. */
  function Stream(bodies: seq<string>): string {
    if bodies == [] then "" else Frame(bodies[0]) + Stream(bodies[1..])
  }

  function LineBreak(s: string): (i: nat)
    ensures i <= |s| && '\n' !in s[..i]
    ensures i < |s| ==> s[i] == '\n'
  {
    if s == "" || s[0] == '\n' then 0 else 1 + LineBreak(s[1..])
  }

  /** The header lines of the next message: its length, what follows them, or why not. */
  datatype Headers = NoLine | BadLength(after: string) | Length(n: int, after: string)

  function ReadHeaders(s: string, length: int): Headers
    decreases |s|
  {
    var i := LineBreak(s);
    if i == |s| then NoLine
    else
      var line, after := TrimLineEnd(s[..i + 1]), s[i + 1..];
      if line == "" then Length(length, after)
      else if HasPrefix(line, LENGTH_FIELD) then
        var n := Atoi(TrimSpace(TrimPrefix(line, LENGTH_FIELD)));
        if n.None? then BadLength(after) else ReadHeaders(after, n.value)
      else ReadHeaders(after, length)
  }

  datatype ReadResult = Message(body: string) | EndOfFile | UnexpectedEndOfFile | BadLengthError | MissingLengthError

  /** One message off the front of the stream, and what is left of it. */
  function ReadFrame(s: string): (ReadResult, string) {
    match ReadHeaders(s, -1)
    case NoLine => (EndOfFile, "")
    case BadLength(after) => (BadLengthError, after)
    case Length(n, after) =>
      if n < 0 then (MissingLengthError, after)
      else if n <= |after| then (Message(after[..n]), after[n..])
      else if after == "" then (EndOfFile, "")
      else (UnexpectedEndOfFile, "")
  }

  // ---------------------------------------------------------------- reader and writer

  class Writer {
    var written: string

    constructor ()
      ensures written == ""
    {
      written := "";
    }

    /** Header first, then the body. */
    method Send(body: string)
      modifies this
      ensures written == old(written) + Frame(body)
    {
      var header := LENGTH_FIELD + " " + Itoa(|body|) + HEADER_END;
      written := written + header;
      written := written + body;
    }
  }

  class Reader {
    var rest: string

    constructor (stream: string)
      ensures rest == stream
    {
      rest := stream;
    }

    /** `ReadString('\n')`: the line with its newline, or nothing at the end of the stream. */
    method ReadLine() returns (line: Option<string>)
      modifies this
      ensures
        var i := LineBreak(old(rest));
        if i == |old(rest)| then line == None && rest == ""
        else line == Some(old(rest)[..i + 1]) && rest == old(rest)[i + 1..]
    {
      var i := 0;
      assert rest[0..] == rest;
      while i < |rest| && rest[i] != '\n'
        invariant i <= |rest| && rest == old(rest)
        invariant LineBreak(rest) == i + LineBreak(rest[i..])
      {
        assert rest[i..][1..] == rest[i + 1..];
        i := i + 1;
      }
      if i == |rest| {
        rest := "";
        return None;
      }
      line := Some(rest[..i + 1]);
      rest := rest[i + 1..];
    }

    /** Reads header lines until a blank one, then as many bytes as they announce. */
    method ReadMessage() returns (result: ReadResult)
      modifies this
      ensures (result, rest) == ReadFrame(old(rest))
    {
      var contentLength := -1;
      while true
        invariant ReadHeaders(rest, contentLength) == ReadHeaders(old(rest), -1)
        decreases |rest|
      {
        var read := ReadLine();
        if read.None? {
          return EndOfFile;
        }
        var line := TrimLineEnd(read.value);
        if line == "" {
          break;
        }
        if HasPrefix(line, LENGTH_FIELD) {
          var n := Atoi(TrimSpace(TrimPrefix(line, LENGTH_FIELD)));
          if n.None? {
            return BadLengthError;
          }
          contentLength := n.value;
        }
      }
      if contentLength < 0 {
        return MissingLengthError;
      }
      if contentLength <= |rest| {
        result := Message(rest[..contentLength]);
        rest := rest[contentLength..];
        return;
      }
      result := if rest == "" then EndOfFile else UnexpectedEndOfFile;
      rest := "";
    }
  }

  // ---------------------------------------------------------------- the round trip

  lemma {:induction false} ItoaDigits(n: nat)
    ensures Digits(Itoa(n)) == Some(n)
    ensures Itoa(n) != "" && forall i :: 0 <= i < |Itoa(n)| ==> IsDigit(Itoa(n)[i])
  {
    if n < 10 {
      assert Itoa(n)[..0] == "";
    } else {
      ItoaDigits(n / 10);
      assert Itoa(n)[..|Itoa(n)| - 1] == Itoa(n / 10);
    }
  }

  /** Every length is read back from its decimal form. */
  lemma AtoiItoa(n: nat)
    requires n <= MAX_INT
    ensures Atoi(Itoa(n)) == Some(n)
  {
    ItoaDigits(n);
  }

  predicate AllDigits(s: string) {
    forall i :: 0 <= i < |s| ==> IsDigit(s[i])
  }

  /** The value of a decimal numeral. */
  function Value(s: string): nat
    requires AllDigits(s)
  {
    if s == "" then 0 else 10 * Value(s[..|s| - 1]) + (s[|s| - 1] as int - '0' as int)
  }

  lemma {:induction false} ItoaIsDecimal(n: nat)
    ensures Itoa(n) != "" && AllDigits(Itoa(n)) && Value(Itoa(n)) == n
    ensures n > 0 ==> Itoa(n)[0] != '0'
  {
    if n < 10 {
      assert Itoa(n)[..0] == "";
    } else {
      ItoaIsDecimal(n / 10);
      assert Itoa(n)[..|Itoa(n)| - 1] == Itoa(n / 10);
    }
  }

  /** The bytes on the wire: the header field, the length of the body as a decimal numeral
      without leading zeros, two line ends of carriage return and newline, and the body. */
  lemma FrameBytes(body: string) returns (numeral: string)
    ensures Frame(body) == "Content-Length: " + numeral + "\r\n\r\n" + body
    ensures numeral != "" && AllDigits(numeral) && Value(numeral) == |body|
    ensures body != "" ==> numeral[0] != '0'
  {
    numeral := Itoa(|body|);
    ItoaIsDecimal(|body|);
    assert LENGTH_FIELD + " " == "Content-Length: ";
  }

  lemma TrimPadded(digits: string)
    requires digits != "" && forall i :: 0 <= i < |digits| ==> IsDigit(digits[i])
    ensures TrimSpace(" " + digits) == digits
  {
    assert (" " + digits)[1..] == digits;
    assert TrimLeft(digits) == digits && TrimRight(digits) == digits;
  }

  lemma TrimEnding(s: string)
    requires s != "" && s[|s| - 1] != '\r' && s[|s| - 1] != '\n'
    ensures TrimLineEnd(s + "\r\n") == s
  {
    var long, short := s + "\r\n", s + "\r";
    assert long[..|long| - 1] == short && short[..|short| - 1] == s;
    assert TrimLineEnd(long) == TrimLineEnd(short) == TrimLineEnd(s) == s;
  }

  lemma {:induction false} LineBreakAt(s: string, rest: string)
    requires '\n' !in s
    ensures LineBreak(s + "\n" + rest) == |s|
  {
    var all := s + "\n" + rest;
    if s != "" {
      LineBreakAt(s[1..], rest);
      assert all[1..] == s[1..] + "\n" + rest;
    }
  }

  /** The header line of a frame announces the length of its body. */
  lemma ReadLengthLine(n: nat, rest: string, length: int)
    requires n <= MAX_INT
    ensures ReadHeaders((LENGTH_FIELD + " " + Itoa(n)) + "\r\n" + rest, length) == ReadHeaders(rest, n)
  {
    var field := LENGTH_FIELD + " " + Itoa(n);
    var s := field + "\r\n" + rest;
    ItoaDigits(n);
    FieldShape(n);
    assert s == (field + "\r") + "\n" + rest;
    LineBreakAt(field + "\r", rest);
    assert s[..|field| + 2] == field + "\r\n" && s[|field| + 2..] == rest;
    TrimEnding(field);
    TrimPadded(Itoa(n));
    AtoiItoa(n);
  }

  lemma FieldShape(n: nat)
    ensures
      var field := LENGTH_FIELD + " " + Itoa(n);
      && '\n' !in field && '\r' !in field && field != ""
      && HasPrefix(field, LENGTH_FIELD) && TrimPrefix(field, LENGTH_FIELD) == " " + Itoa(n)
  {
    ItoaDigits(n);
    var field := LENGTH_FIELD + " " + Itoa(n);
    assert field == LENGTH_FIELD + (" " + Itoa(n));
    assert '\n' !in LENGTH_FIELD && '\r' !in LENGTH_FIELD;
    assert '\n' !in Itoa(n) && '\r' !in Itoa(n);
  }

  lemma ReadBlankLine(rest: string, length: int)
    ensures ReadHeaders("\r\n" + rest, length) == Length(length, rest)
  {
    var s := "\r\n" + rest;
    assert s == "\r" + "\n" + rest;
    LineBreakAt("\r", rest);
    assert s[..2] == "\r\n" && s[2..] == rest;
    assert TrimLineEnd("\r\n") == TrimLineEnd("\r\n"[..1]) == TrimLineEnd("\r") == TrimLineEnd("\r"[..0]) == "";
  }

  /** Reading a frame gives back its body and leaves exactly the rest of the stream. */
  lemma ReadsFrame(body: string, rest: string)
    requires |body| <= MAX_INT
    ensures ReadFrame(Frame(body) + rest) == (Message(body), rest)
  {
    var field := LENGTH_FIELD + " " + Itoa(|body|);
    assert Frame(body) + rest == field + "\r\n" + ("\r\n" + (body + rest));
    ReadLengthLine(|body|, "\r\n" + (body + rest), -1);
    ReadBlankLine(body + rest, |body|);
    assert (body + rest)[..|body|] == body && (body + rest)[|body|..] == rest;
  }

  /** What `n` successive reads return. */
  function Reads(s: string, n: nat): seq<ReadResult>
    decreases n
  {
    if n == 0 then [] else var (result, rest) := ReadFrame(s); [result] + Reads(rest, n - 1)
  }

  /** For any sequence of bodies, what was written is read back as the same bodies in the
      same order, and then the end of the stream. */
  lemma {:induction false} RoundTrip(bodies: seq<string>)
    requires forall i :: 0 <= i < |bodies| ==> |bodies[i]| <= MAX_INT
    ensures Reads(Stream(bodies), |bodies| + 1) == Messages(bodies) + [EndOfFile]
  {
    if bodies == [] {
      assert ReadFrame("") == (EndOfFile, "");
      assert Reads("", 1) == [EndOfFile] + Reads("", 0);
    } else {
      ReadsFrame(bodies[0], Stream(bodies[1..]));
      RoundTrip(bodies[1..]);
    }
  }

  function Messages(bodies: seq<string>): seq<ReadResult> {
    if bodies == [] then [] else [Message(bodies[0])] + Messages(bodies[1..])
  }

  /** Header fields other than the length are skipped, wherever they stand. */
  lemma OtherHeadersSkipped(field: string, rest: string, length: int)
    requires field != "" && '\n' !in field && field[|field| - 1] != '\r' && !HasPrefix(field, LENGTH_FIELD)
    ensures ReadHeaders(field + "\r\n" + rest, length) == ReadHeaders(rest, length)
  {
    var s := field + "\r\n" + rest;
    assert s == (field + "\r") + "\n" + rest;
    LineBreakAt(field + "\r", rest);
    assert s[..|field| + 2] == field + "\r\n" && s[|field| + 2..] == rest;
    TrimEnding(field);
  }
}
