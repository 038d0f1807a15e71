/** The STOMP frames the websocket exchanges (section "STOMP Frames" of the STOMP
    1.2 specification): a command line, header lines, a blank line, the body and
    a NUL octet. The decoder searches with C string functions, so it sees the
    message only up to its first NUL. */
module Stomp {
  import opened Wrappers
  import opened Strings

  datatype Frame = Frame(command: string, headers: string, body: string)

  predicate EndsWithNewline(s: string) {
    |s| > 0 && s[|s| - 1] == '\n'
  }

  /** Whether the text holds a blank line, that is "\n\n". */
  predicate HasBlankLine(s: string) {
    exists j :: 0 <= j < |s| && PairAt(s, j, '\n', '\n')
  }

  /** A command the decoder gives back unchanged: one line, no NUL, no white
      space at either end. */
  predicate IsCommand(command: string) {
    '\n' !in command && '\0' !in command
    && (|command| > 0 ==> !IsSpace(command[0]) && !IsSpace(command[|command| - 1]))
  }

  /** `_encode_stomp_message`: the command and "\n", the headers, a "\n" if the
      headers do not already end in one, the blank line "\n", the body and one NUL. */
  function Encode(command: string, headers: string, body: string): (m: string)
    ensures |m| == |command| + |headers| + |body| + (if EndsWithNewline(headers) then 3 else 4)
    ensures m[..|command|] == command && m[|command|] == '\n'
    ensures m[|command| + 1..|command| + 1 + |headers|] == headers
    ensures !EndsWithNewline(headers) ==> m[|command| + 1 + |headers|] == '\n'
    ensures m[|m| - 1] == '\0' && m[|m| - 1 - |body|..|m| - 1] == body
    ensures m[|m| - 2 - |body|] == '\n' && m[|m| - 3 - |body|] == '\n'
  {
    command + "\n" + headers + (if EndsWithNewline(headers) then "" else "\n") + "\n" + body + "\0"
  }

  /** `_decode_stomp_message`: the first "\n\n" ends the headers and the first
      "\n" ends the command; without a blank line it fails. */
  function Decode(message: string): (r: Option<Frame>)
    ensures r.None? <==> !HasBlankLine(CPrefix(message))
  {
    var c := CPrefix(message);
    var headerEnd := IndexOfPair(c, '\n', '\n');
    if headerEnd.None? then None
    else
      var commandEnd := IndexOf(c, '\n');
      if commandEnd.None? || commandEnd.value > headerEnd.value then None
      else Some(FrameAt(message, commandEnd.value, headerEnd.value))
  }

  /** The fields cut out of `message` once the command ends at `ce` and the
      headers at `he`. */
  function FrameAt(message: string, ce: nat, he: nat): Frame
    requires ce <= he && he + 2 <= |message|
  {
    Frame(Trim(message[..ce]), HeadersAt(message, ce, he), BodyAt(message, he + 2))
  }

  /** The headers run from after the command's newline to the blank line. */
  function HeadersAt(message: string, ce: nat, he: nat): string
    requires ce <= he <= |message|
  {
    if ce + 1 < he then message[ce + 1..he] else ""
  }

  /** The body runs from `from` up to the first NUL (`indexOf('\x00', body_start)`),
      or to the end of the message. */
  function BodyAt(message: string, from: nat): string
    requires from <= |message|
  {
    var nul := IndexOfFrom(message, '\0', from);
    var bodyEnd := if nul.Some? then nul.value else |message|;
    if bodyEnd > from then message[from..bodyEnd] else ""
  }

  /** Searching for NUL from inside the text before the first NUL finds the end of that text. */
  lemma NulFrom(message: string, from: nat)
    requires from <= |CPrefix(message)|
    ensures var c := CPrefix(message);
      IndexOfFrom(message, '\0', from) == if |c| < |message| then Some(|c|) else None
  {
  }

  /** From inside the text before the first NUL, the body is the rest of that text. */
  lemma BodyAtPrefix(message: string, from: nat)
    requires from <= |CPrefix(message)|
    ensures BodyAt(message, from) == CPrefix(message)[from..]
  {
    var c := CPrefix(message);
    NulFrom(message, from);
    assert message[from..|c|] == c[from..];
  }

  /** Cut points before the first NUL cut the same headers from the message and from that text. */
  lemma HeadersAtPrefix(message: string, ce: nat, he: nat)
    requires ce <= he <= |CPrefix(message)|
    ensures HeadersAt(message, ce, he) == HeadersAt(CPrefix(message), ce, he)
  {
    var c := CPrefix(message);
    assert ce + 1 < he ==> message[ce + 1..he] == c[ce + 1..he];
  }

  /** When the cut points lie before the first NUL, the body is the rest of
      the text before that NUL. */
  lemma FrameAtFields(message: string, ce: nat, he: nat)
    requires ce <= he && he + 2 <= |CPrefix(message)|
    ensures var c := CPrefix(message);
      FrameAt(message, ce, he) == Frame(Trim(c[..ce]), HeadersAt(c, ce, he), c[he + 2..])
  {
    var c := CPrefix(message);
    BodyAtPrefix(message, he + 2);
    HeadersAtPrefix(message, ce, he);
    assert message[..ce] == c[..ce];
  }

  lemma FirstPair(c: string, he: nat)
    requires PairAt(c, he, '\n', '\n') && forall j :: 0 <= j < he ==> !PairAt(c, j, '\n', '\n')
    ensures IndexOfPair(c, '\n', '\n') == Some(he)
  {
  }

  lemma FirstNewline(c: string, ce: nat)
    requires ce < |c| && c[ce] == '\n' && '\n' !in c[..ce]
    ensures IndexOf(c, '\n') == Some(ce)
  {
  }

  /** The decoded fields, from the first newline `ce` and the first blank line
      `he` of the text before the first NUL: the command is the trimmed text
      before `ce`, the headers lie between `ce` and `he`, and the body runs from
      after the blank line to the first NUL or the end of the message. */
  lemma DecodeFields(message: string, ce: nat, he: nat)
    requires var c := CPrefix(message);
      PairAt(c, he, '\n', '\n') && (forall j :: 0 <= j < he ==> !PairAt(c, j, '\n', '\n'))
      && ce < |c| && c[ce] == '\n' && '\n' !in c[..ce]
    ensures ce <= he
    ensures var c := CPrefix(message);
      Decode(message) == Some(Frame(Trim(c[..ce]), HeadersAt(c, ce, he), c[he + 2..]))
  {
    var c := CPrefix(message);
    FirstPair(c, he);
    FirstNewline(c, ce);
    FrameAtFields(message, ce, he);
  }

  /** A text without NUL followed by one NUL: C string functions see the text. */
  lemma CPrefixNul(c: string)
    requires '\0' !in c
    ensures CPrefix(c + "\0") == c
  {
    var m := c + "\0";
    assert m[|c|] == '\0';
  }

  /** The first blank line of `command + "\n" + headers + rest` is where the headers end. */
  lemma HeadersEndAtBlankLine(command: string, headers: string, rest: string)
    requires '\n' !in command && !HasBlankLine("\n" + headers)
    requires EndsWithNewline(headers) && |rest| > 0 && rest[0] == '\n'
    ensures var c := command + "\n" + headers + rest; var he := |command| + |headers|;
      PairAt(c, he, '\n', '\n') && forall j :: 0 <= j < he ==> !PairAt(c, j, '\n', '\n')
  {
    var c := command + "\n" + headers + rest;
    var ce, he := |command|, |command| + |headers|;
    var h := "\n" + headers;
    assert c == command + h + rest;
    forall j | 0 <= j < he
      ensures !PairAt(c, j, '\n', '\n')
    {
      if j < ce {
        assert c[j] == command[j];
      } else {
        assert c[j] == h[j - ce] && c[j + 1] == h[j - ce + 1];
        assert !PairAt(h, j - ce, '\n', '\n');
      }
    }
    assert c[he] == h[|headers|] && c[he + 1] == rest[0];
  }

  /** Decoding the text of an encoded frame, in terms of that text. */
  lemma DecodeJoined(command: string, headers: string, body: string)
    requires '\n' !in command && '\0' !in command
    requires EndsWithNewline(headers) && '\0' !in headers && !HasBlankLine("\n" + headers)
    requires '\0' !in body
    ensures var c := command + "\n" + headers + ("\n" + body);
      var ce, he := |command|, |command| + |headers|;
      Decode(c + "\0") == Some(Frame(Trim(c[..ce]), HeadersAt(c, ce, he), c[he + 2..]))
  {
    var c := command + "\n" + headers + ("\n" + body);
    CPrefixNul(c);
    HeadersEndAtBlankLine(command, headers, "\n" + body);
    var ce, he := |command|, |command| + |headers|;
    assert c[ce] == '\n';
    assert c[..ce] == command;
    DecodeFields(c + "\0", ce, he);
  }

  lemma SliceOfJoin(x: string, y: string, i: nat, j: nat)
    requires i <= j <= |y|
    ensures (x + y)[|x| + i..|x| + j] == y[i..j]
  {
  }

  // The three fields of a decoded encoding, one lemma each.

  lemma CommandField(command: string, headers: string, body: string)
    requires |command| > 0 ==> !IsSpace(command[0]) && !IsSpace(command[|command| - 1])
    ensures var c := command + "\n" + headers + ("\n" + body);
      Trim(c[..|command|]) == command
  {
    var c := command + "\n" + headers + ("\n" + body);
    assert c[..|command|] == command;
    TrimUnspaced(command);
  }

  lemma CommandLine(command: string, rest: string)
    requires |command| > 0 ==> !IsSpace(command[0]) && !IsSpace(command[|command| - 1])
    ensures Trim((command + "\n" + rest)[..|command|]) == command
  {
    assert (command + "\n" + rest)[..|command|] == command;
    TrimUnspaced(command);
  }

  lemma HeadersField(command: string, headers: string, body: string)
    requires EndsWithNewline(headers)
    ensures var c := command + "\n" + headers + ("\n" + body);
      var ce, he := |command|, |command| + |headers|;
      HeadersAt(c, ce, he) == headers[..|headers| - 1]
  {
    var c := command + "\n" + headers + ("\n" + body);
    var lead := command + "\n";
    var tail := headers + ("\n" + body);
    assert c == lead + tail;
    SliceOfJoin(lead, tail, 0, |headers| - 1);
    assert tail[..|headers| - 1] == headers[..|headers| - 1];
  }

  lemma BodyField(command: string, headers: string, body: string)
    ensures var c := command + "\n" + headers + ("\n" + body);
      c[|command| + |headers| + 2..] == body
  {
    var c := command + "\n" + headers + ("\n" + body);
    var lead := command + "\n" + headers + "\n";
    assert c == lead + body;
  }

  /** Decoding undoes encoding when the command is one trimmed line, the headers
      are non-empty header lines ending in "\n" with no blank line among them,
      and nothing holds a NUL; the headers come back without their final "\n". */
  lemma DecodeEncode(command: string, headers: string, body: string)
    requires IsCommand(command)
    requires EndsWithNewline(headers) && '\0' !in headers && !HasBlankLine("\n" + headers)
    requires '\0' !in body
    ensures Decode(Encode(command, headers, body)) == Some(Frame(command, headers[..|headers| - 1], body))
  {
    var c := command + "\n" + headers + ("\n" + body);
    assert Encode(command, headers, body) == c + "\0";
    DecodeJoinedFields(command, headers, body);
  }

  lemma DecodeJoinedFields(command: string, headers: string, body: string)
    requires '\n' !in command && '\0' !in command
    requires |command| > 0 ==> !IsSpace(command[0]) && !IsSpace(command[|command| - 1])
    requires EndsWithNewline(headers) && '\0' !in headers && !HasBlankLine("\n" + headers)
    requires '\0' !in body
    ensures Decode(command + "\n" + headers + ("\n" + body) + "\0") == Some(Frame(command, headers[..|headers| - 1], body))
  {
    DecodeJoined(command, headers, body);
    CommandField(command, headers, body);
    HeadersField(command, headers, body);
    BodyField(command, headers, body);
  }

  /** With empty headers a frame carries one "\n" more than the STOMP grammar
      allows: the decoder reads it as the first character of the body. */
  lemma EmptyHeadersBody(command: string, body: string)
    requires IsCommand(command)
    requires '\0' !in body
    ensures Encode(command, "", body) == command + "\n\n\n" + body + "\0"
    ensures Decode(Encode(command, "", body)) == Some(Frame(command, "", "\n" + body))
  {
    var rest := "\n\n" + body;
    var c := command + "\n" + rest;
    assert Encode(command, "", body) == c + "\0";
    assert c == command + "\n\n\n" + body;
    DecodeAfterCommand(command, rest);
    CommandLine(command, rest);
    EmptyHeadersRest(command, body);
  }

  lemma EmptyHeadersRest(command: string, body: string)
    ensures (command + "\n" + ("\n\n" + body))[|command| + 2..] == "\n" + body
  {
    assert command + "\n" + ("\n\n" + body) == (command + "\n\n") + ("\n" + body);
  }

  /** A frame whose blank line directly follows the command line has no headers. */
  lemma DecodeAfterCommand(command: string, rest: string)
    requires '\n' !in command && '\0' !in command
    requires |rest| > 0 && rest[0] == '\n' && '\0' !in rest
    ensures var c := command + "\n" + rest;
      Decode(c + "\0") == Some(Frame(Trim(c[..|command|]), "", c[|command| + 2..]))
  {
    var c := command + "\n" + rest;
    CPrefixNul(c);
    var ce := |command|;
    forall j | 0 <= j < ce
      ensures !PairAt(c, j, '\n', '\n')
    {
      assert c[j] == command[j];
    }
    assert c[..ce] == command;
    DecodeFields(c + "\0", ce, ce);
  }

  /** Header lines as the websocket builds them: each line followed by "\n". */
  function HeaderBlock(lines: seq<string>): (h: string)
    ensures |lines| > 0 ==> EndsWithNewline(h)
  {
    if lines == [] then "" else HeaderBlock(lines[..|lines| - 1]) + lines[|lines| - 1] + "\n"
  }

  /** Lines that are non-empty and hold neither "\n" nor NUL. */
  predicate HeaderLines(lines: seq<string>) {
    forall i :: 0 <= i < |lines| ==> |lines[i]| > 0 && '\n' !in lines[i] && '\0' !in lines[i]
  }

  /** Appending one header line to text that ends in "\n" adds no blank line. */
  lemma AppendHeaderLine(h: string, line: string)
    requires EndsWithNewline(h) && !HasBlankLine(h)
    requires |line| > 0 && '\n' !in line
    ensures !HasBlankLine(h + line + "\n")
  {
    var t := h + line + "\n";
    forall j | 0 <= j < |t|
      ensures !PairAt(t, j, '\n', '\n')
    {
      if j + 1 < |h| {
        assert t[j] == h[j] && t[j + 1] == h[j + 1];
        assert !PairAt(h, j, '\n', '\n');
      } else if j + 1 < |h| + |line| {
        assert t[j + 1] == line[j + 1 - |h|];
      } else if j < |h| + |line| {
        assert t[j] == line[|line| - 1];
      }
    }
  }

  /** A block of header lines holds no NUL and, behind the command's "\n", no blank line. */
  lemma {:induction false} HeaderBlockWellFormed(lines: seq<string>)
    requires HeaderLines(lines)
    ensures '\0' !in HeaderBlock(lines) && !HasBlankLine("\n" + HeaderBlock(lines))
  {
    if lines != [] {
      var init, last := lines[..|lines| - 1], lines[|lines| - 1];
      assert HeaderLines(init) by {
        forall i | 0 <= i < |init| ensures |init[i]| > 0 && '\n' !in init[i] && '\0' !in init[i] {
          assert init[i] == lines[i];
        }
      }
      HeaderBlockWellFormed(init);
      var h := "\n" + HeaderBlock(init);
      assert EndsWithNewline(h);
      AppendHeaderLine(h, last);
      assert "\n" + HeaderBlock(lines) == h + last + "\n";
    }
  }

  /** A frame of well-formed header lines decodes to its command, its header
      lines without the final "\n", and its body. */
  lemma FrameOfLines(command: string, lines: seq<string>, body: string)
    requires IsCommand(command)
    requires |lines| > 0 && HeaderLines(lines) && '\0' !in body
    ensures var h := HeaderBlock(lines);
      Decode(Encode(command, h, body)) == Some(Frame(command, h[..|h| - 1], body))
  {
    HeaderBlockWellFormed(lines);
    DecodeEncode(command, HeaderBlock(lines), body);
  }
}
