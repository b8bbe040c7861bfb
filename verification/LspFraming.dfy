/** Message framing over a byte stream (engineering/lsp_runtime.py): the Base Protocol of the Language
    Server Protocol 3.17, Header Part and Content Part. A byte is a char below 256; what the body must
    look like as JSON is a parameter. */
module LspFraming {
  import Decimal
  import PyText
  import opened Wrappers

  // ---- Writing ----

  function Frame(body: string): string {
    "Content-Length: " + Decimal.Digits(|body|) + "\r\n\r\n" + body
  }

  // ---- Reading ----

  /** How many bytes the next line takes, its newline included; all that is left if there is none. */
  function LineLength(s: string): (n: nat)
    ensures n <= |s| && (s != "" ==> n > 0)
  {
    if s == "" then 0 else if s[0] == '\n' then 1 else 1 + LineLength(s[1..])
  }

  function Colon(s: string): (n: nat)
    ensures n <= |s|
    ensures n < |s| ==> s[n] == ':'
    ensures forall i | 0 <= i < n :: s[i] != ':'
  {
    if s == "" || s[0] == ':' then 0 else 1 + Colon(s[1..])
  }

  predicate IsAscii(s: string) {
    forall i | 0 <= i < |s| :: s[i] as int < 128
  }

  function LowerChar(c: char): char {
    if 'A' <= c <= 'Z' then (c as int + 32) as char else c
  }

  function Lower(s: string): string {
    if s == "" then "" else [LowerChar(s[0])] + Lower(s[1..])
  }

  /** line.decode("ascii").split(":", 1), each part stripped and the key in lower case. */
  function ParseHeader(line: string): Option<(string, string)> {
    var n := Colon(line);
    if !IsAscii(line) || n == |line| then None
    else Some((Lower(PyText.Strip(line[..n])), PyText.Strip(line[n + 1..])))
  }

  /** The digits of int(text), single underscores between digits allowed; seen: a digit comes before. */
  function DigitsValue(s: string, value: nat, seen: bool): Option<nat> {
    if s == "" then (if seen then Some(value) else None)
    else if Decimal.IsDigit(s[0]) then DigitsValue(s[1..], 10 * value + Decimal.DigitValue(s[0]), true)
    else if s[0] == '_' && seen && |s| > 1 && Decimal.IsDigit(s[1]) then DigitsValue(s[1..], value, false)
    else None
  }

  /** int(text) for stripped ASCII text. */
  function PyInt(s: string): Option<int> {
    if s != "" && (s[0] == '+' || s[0] == '-') then
      var v := DigitsValue(s[1..], 0, false);
      if v == None then None
      else
        var n: int := v.value;
        Some(if s[0] == '-' then -n else n)
    else
      var v := DigitsValue(s, 0, false);
      if v == None then None else Some(v.value)
  }

  datatype HeaderResult = Headers(fields: map<string, string>, rest: string) | HeadersClosed | HeadersMalformed

  function ReadHeaders(s: string, fields: map<string, string>): HeaderResult
    decreases |s|
  {
    if s == "" then HeadersClosed
    else
      var n := LineLength(s);
      var line := s[..n];
      if line == "\r\n" || line == "\n" then Headers(fields, s[n..])
      else match ParseHeader(line)
        case None => HeadersMalformed
        case Some((k, v)) => ReadHeaders(s[n..], fields[k := v])
  }

  /** What is left of the stream when the header loop stops: at the blank line, at a malformed line, at the end. */
  function HeadersUnread(s: string): string
    decreases |s|
  {
    if s == "" then ""
    else
      var n := LineLength(s);
      var line := s[..n];
      if line == "\r\n" || line == "\n" || ParseHeader(line) == None then s[n..] else HeadersUnread(s[n..])
  }

  lemma {:induction false} HeadersEndWhereUnread(s: string, fields: map<string, string>)
    ensures ReadHeaders(s, fields).Headers? ==> ReadHeaders(s, fields).rest == HeadersUnread(s)
    decreases |s|
  {
    if s != "" {
      var n := LineLength(s);
      match ParseHeader(s[..n])
      case None =>
      case Some((k, v)) => HeadersEndWhereUnread(s[n..], fields[k := v]);
    }
  }

  datatype ReadResult =
    | Message(body: string, rest: string)
    | ClosedEarly          // end of stream before the header part ends
    | Malformed            // a header line that is not ASCII or has no colon
    | NoContentLength      // missing, or not an integer
    | NegativeLength
    | Incomplete           // end of stream before the content part ends
    | NotAnObject          // the body is not a JSON object in UTF-8

  function ReadContent(h: HeaderResult, isObject: string -> bool): ReadResult {
    match h
    case HeadersClosed => ClosedEarly
    case HeadersMalformed => Malformed
    case Headers(fields, rest) =>
      if "content-length" !in fields then NoContentLength
      else match PyInt(fields["content-length"])
        case None => NoContentLength
        case Some(n) =>
          if n < 0 then NegativeLength
          else if n > |rest| then Incomplete
          else if !isObject(rest[..n]) then NotAnObject
          else Message(rest[..n], rest[n..])
  }

  function Read(s: string, isObject: string -> bool): ReadResult {
    ReadContent(ReadHeaders(s, map[]), isObject)
  }

  /** What is left of the stream after one message or error: a content part is taken whole, even if it turns out
      to be no JSON object, and a cut one takes the rest. */
  function Unread(s: string, isObject: string -> bool): string {
    match Read(s, isObject)
    case Message(_, rest) => rest
    case Incomplete => ""
    case NotAnObject =>
      var h := ReadHeaders(s, map[]);
      h.rest[PyInt(h.fields["content-length"]).value..]
    case _ => HeadersUnread(s)
  }

  // ---- A header part with any fields is read field by field ----

  datatype Field = Field(key: string, value: string)

  /** Fits on one header line: ASCII, no newline, no colon in the key. */
  ghost predicate WellFormed(f: Field) {
    && IsAscii(f.key) && IsAscii(f.value) && '\n' !in f.key && '\n' !in f.value && ':' !in f.key
  }

  function Line(f: Field): string {
    f.key + ": " + f.value + "\r\n"
  }

  function Lines(fields: seq<Field>): string {
    if fields == [] then "" else Line(fields[0]) + Lines(fields[1..])
  }

  function Key(f: Field): string {
    Lower(PyText.Strip(f.key))
  }

  function Value(f: Field): string {
    PyText.Strip(" " + f.value + "\r\n")
  }

  /** Later fields win. */
  function Collected(fields: seq<Field>, m: map<string, string>): map<string, string> {
    if fields == [] then m else Collected(fields[1..], m[Key(fields[0]) := Value(fields[0])])
  }

  lemma {:induction false} LineEndsAtNewline(a: string, rest: string)
    requires '\n' !in a
    ensures LineLength(a + "\n" + rest) == |a| + 1
    decreases |a|
  {
    var s := a + "\n" + rest;
    if a != "" {
      assert s[1..] == a[1..] + "\n" + rest;
      assert a[0] in a && forall c | c in a[1..] :: c in a;
      LineEndsAtNewline(a[1..], rest);
    }
  }

  lemma {:induction false} ColonAfterKey(key: string, rest: string)
    requires ':' !in key
    ensures Colon(key + ":" + rest) == |key|
    decreases |key|
  {
    var s := key + ":" + rest;
    if key != "" {
      assert s[1..] == key[1..] + ":" + rest;
      assert key[0] in key && forall c | c in key[1..] :: c in key;
      ColonAfterKey(key[1..], rest);
    }
  }

  lemma LineParses(f: Field)
    requires WellFormed(f)
    ensures ParseHeader(Line(f)) == Some((Key(f), Value(f)))
    ensures Line(f) != "\r\n" && Line(f) != "\n"
  {
    var line, tail := Line(f), " " + f.value + "\r\n";
    assert line == f.key + ":" + tail;
    ColonAfterKey(f.key, tail);
    assert line[..|f.key|] == f.key && line[|f.key| + 1..] == tail;
    assert line[|f.key|] == ':';
  }

  lemma LineIsRead(f: Field, rest: string)
    requires WellFormed(f)
    ensures LineLength(Line(f) + rest) == |Line(f)| && (Line(f) + rest)[..|Line(f)|] == Line(f)
    ensures (Line(f) + rest)[|Line(f)|..] == rest
  {
    var a := f.key + ": " + f.value + "\r";
    assert Line(f) + rest == a + "\n" + rest;
    LineEndsAtNewline(a, rest);
  }

  lemma {:induction false} HeaderPartIsRead(fields: seq<Field>, rest: string, m: map<string, string>)
    requires forall f | f in fields :: WellFormed(f)
    ensures ReadHeaders(Lines(fields) + "\r\n" + rest, m) == Headers(Collected(fields, m), rest)
    decreases |fields|
  {
    var s := Lines(fields) + "\r\n" + rest;
    if fields == [] {
      assert s == "\r" + "\n" + rest;
      LineEndsAtNewline("\r", rest);
      assert s[..2] == "\r\n" && s[2..] == rest;
    } else {
      var f, more := fields[0], Lines(fields[1..]) + "\r\n" + rest;
      assert s == Line(f) + more;
      LineIsRead(f, more);
      LineParses(f);
      HeaderPartIsRead(fields[1..], rest, m[Key(f) := Value(f)]);
    }
  }

  /** A header part with a line that is not ASCII, or that has no colon and is not the blank line, is refused. */
  lemma {:induction false} BadLineIsRefused(fields: seq<Field>, line: string, rest: string, m: map<string, string>)
    requires (forall f | f in fields :: WellFormed(f)) && '\n' !in line && line != "" && line != "\r"
    requires !IsAscii(line) || ':' !in line
    ensures ReadHeaders(Lines(fields) + line + "\n" + rest, m) == HeadersMalformed
    decreases |fields|
  {
    var s := Lines(fields) + line + "\n" + rest;
    if fields == [] {
      assert s == line + "\n" + rest;
      LineEndsAtNewline(line, rest);
      var first := s[..|line| + 1];
      assert first == line + "\n" && first[0] == line[0];
      assert !IsAscii(line) ==> !IsAscii(first) by {
        assert forall i | 0 <= i < |line| :: first[i] == line[i];
      }
      assert ':' !in line ==> Colon(first) == |first|;
    } else {
      var f, more := fields[0], Lines(fields[1..]) + line + "\n" + rest;
      assert s == Line(f) + more;
      LineIsRead(f, more);
      LineParses(f);
      BadLineIsRefused(fields[1..], line, rest, m[Key(f) := Value(f)]);
    }
  }

  // ---- Content-Length: printing and parsing a number are inverse ----

  ghost function Shifted(value: nat, digits: string): nat
    requires Decimal.AllDigits(digits)
    decreases |digits|
  {
    if digits == "" then value else Shifted(10 * value + Decimal.DigitValue(digits[0]), digits[1..])
  }

  lemma {:induction false} DigitsConcat(a: string, b: string, value: nat, seen: bool)
    requires Decimal.AllDigits(a)
    requires a != "" || seen
    ensures DigitsValue(a + b, value, seen) == DigitsValue(b, Shifted(value, a), true)
    decreases |a|
  {
    if a == "" {
      assert a + b == b;
    } else {
      assert (a + b)[1..] == a[1..] + b;
      DigitsConcat(a[1..], b, 10 * value + Decimal.DigitValue(a[0]), true);
    }
  }

  lemma {:induction false} ShiftedAppend(value: nat, a: string, c: char)
    requires Decimal.AllDigits(a) && Decimal.IsDigit(c)
    ensures Shifted(value, a + [c]) == 10 * Shifted(value, a) + Decimal.DigitValue(c)
    decreases |a|
  {
    if a == "" {
      assert a + [c] == [c] && [c][1..] == "";
      assert Shifted(10 * value + Decimal.DigitValue(c), "") == 10 * value + Decimal.DigitValue(c);
    } else {
      assert (a + [c])[1..] == a[1..] + [c];
      ShiftedAppend(10 * value + Decimal.DigitValue(a[0]), a[1..], c);
    }
  }

  lemma {:induction false} ShiftedIsValue(s: string)
    requires Decimal.AllDigits(s)
    ensures Shifted(0, s) == Decimal.Value(s)
    decreases |s|
  {
    if s != "" {
      var init, c := s[..|s| - 1], s[|s| - 1];
      assert s == init + [c];
      ShiftedIsValue(init);
      ShiftedAppend(0, init, c);
    }
  }

  /** int(str(n)) == n */
  lemma PrintedNumberIsParsed(n: nat)
    ensures PyInt(Decimal.Digits(n)) == Some(n)
  {
    var d := Decimal.Digits(n);
    Decimal.DigitsStandForNumber(n);
    assert Decimal.IsDigit(d[0]);
    DigitsConcat(d, "", 0, false);
    assert d + "" == d;
    ShiftedIsValue(d);
  }

  lemma SignedNumberIsParsed(n: nat)
    ensures var v: int := n; PyInt("-" + Decimal.Digits(n)) == Some(-v) && PyInt("+" + Decimal.Digits(n)) == Some(v)
  {
    var d := Decimal.Digits(n);
    Decimal.DigitsStandForNumber(n);
    DigitsConcat(d, "", 0, false);
    assert d + "" == d && ("-" + d)[1..] == d && ("+" + d)[1..] == d;
    ShiftedIsValue(d);
  }

  /** Digits, with single underscores between them; comesAfterDigit: a digit stands before. */
  ghost predicate Grouped(s: string, comesAfterDigit: bool) {
    && (forall i | 0 <= i < |s| :: Decimal.IsDigit(s[i]) || s[i] == '_')
    && (forall i | 0 <= i < |s| - 1 :: Decimal.IsDigit(s[i]) || Decimal.IsDigit(s[i + 1]))
    && (s != "" ==> Decimal.IsDigit(s[|s| - 1]))
    && (comesAfterDigit || (s != "" && Decimal.IsDigit(s[0])))
  }

  lemma GroupedTail(s: string, seen: bool)
    requires s != ""
    ensures Decimal.IsDigit(s[0]) ==> (Grouped(s, seen) <==> Grouped(s[1..], true))
    ensures !Decimal.IsDigit(s[0]) ==>
      (Grouped(s, seen) <==> s[0] == '_' && seen && |s| > 1 && Decimal.IsDigit(s[1]) && Grouped(s[1..], false))
  {
    var t := s[1..];
    assert forall i | 0 <= i < |t| :: t[i] == s[i + 1];
    if Grouped(s, seen) && |s| > 1 {
      assert t[|t| - 1] == s[|s| - 1];
      forall i | 0 <= i < |t| - 1
        ensures Decimal.IsDigit(t[i]) || Decimal.IsDigit(t[i + 1])
      {
        var j := i + 1;
        assert Decimal.IsDigit(s[j]) || Decimal.IsDigit(s[j + 1]);
      }
    }
    if Grouped(t, false) || (Grouped(t, true) && Decimal.IsDigit(s[0])) {
      forall i | 0 <= i < |s| - 1
        ensures Decimal.IsDigit(s[i]) || Decimal.IsDigit(s[i + 1])
      {
        if i > 0 {
          var j := i - 1;
          assert Decimal.IsDigit(t[j]) || Decimal.IsDigit(t[j + 1]);
        } else {
          assert Decimal.IsDigit(s[0]) || Decimal.IsDigit(t[0]);
        }
      }
      forall i | 0 <= i < |s| && (Decimal.IsDigit(s[0]) || s[0] == '_')
        ensures Decimal.IsDigit(s[i]) || s[i] == '_'
      {
        if i > 0 {
          var j := i - 1;
          assert t[j] == s[i];
        }
      }
    }
  }

  lemma {:induction false} DigitsAreGrouped(s: string, value: nat, seen: bool)
    ensures DigitsValue(s, value, seen).Some? <==> Grouped(s, seen)
    decreases |s|
  {
    if s != "" {
      GroupedTail(s, seen);
      if Decimal.IsDigit(s[0]) {
        DigitsAreGrouped(s[1..], 10 * value + Decimal.DigitValue(s[0]), true);
      } else if s[0] == '_' && seen && |s| > 1 && Decimal.IsDigit(s[1]) {
        DigitsAreGrouped(s[1..], value, false);
      }
    }
  }

  /** What int accepts: digits with single underscores between them, after at most one sign. */
  lemma IntAcceptsExactly(s: string)
    ensures PyInt(s).Some? <==>
            Grouped(if s != "" && (s[0] == '+' || s[0] == '-') then s[1..] else s, false)
  {
    DigitsAreGrouped(if s != "" && (s[0] == '+' || s[0] == '-') then s[1..] else s, 0, false);
  }

  /** Surrounding white space is all that strip removes from a number. */
  lemma NumberIsStripped(d: string)
    requires d != "" && Decimal.AllDigits(d)
    ensures PyText.Strip(" " + d + "\r\n") == d
  {
    var s := " " + d + "\r\n";
    assert s[1..] == d + "\r\n" && !PyText.IsSpace(d[0]);
    assert PyText.StripLeft(s) == PyText.StripLeft(d + "\r\n") == d + "\r\n";
    var t := d + "\r\n";
    assert t[..|t| - 1] == d + "\r" && (d + "\r")[..|d|] == d && !PyText.IsSpace(d[|d| - 1]);
    assert PyText.StripRight(t) == PyText.StripRight(d + "\r") == PyText.StripRight(d) == d;
  }

  function LengthField(body: string): Field {
    Field("Content-Length", Decimal.Digits(|body|))
  }

  lemma {:induction false} LowerIsPointwise(s: string)
    ensures |Lower(s)| == |s| && forall i | 0 <= i < |s| :: Lower(s)[i] == LowerChar(s[i])
  {
    if s != "" {
      LowerIsPointwise(s[1..]);
    }
  }

  lemma KeyReads(key: string, lower: string)
    requires key != "" && !PyText.IsSpace(key[0]) && !PyText.IsSpace(key[|key| - 1])
    requires |lower| == |key| && forall i | 0 <= i < |key| :: LowerChar(key[i]) == lower[i]
    ensures Lower(PyText.Strip(key)) == lower
  {
    LowerIsPointwise(key);
    assert Lower(key) == lower;
  }

  lemma LengthFieldFits(body: string)
    ensures WellFormed(LengthField(body))
  {
    var key, d := "Content-Length", Decimal.Digits(|body|);
    Decimal.DigitsStandForNumber(|body|);
    assert forall i | 0 <= i < |d| :: Decimal.IsDigit(d[i]);
    assert forall i | 0 <= i < |key| :: key[i] as int < 128 && key[i] != '\n' && key[i] != ':';
  }

  lemma LengthKeyReads(key: string, lower: string)
    requires key == "Content-Length" && lower == "content-length"
    ensures Lower(PyText.Strip(key)) == lower
  {
    assert forall i | 0 <= i < |key| :: LowerChar(key[i]) == lower[i];
    KeyReads(key, lower);
  }

  lemma LengthFieldReads(body: string)
    ensures Key(LengthField(body)) == "content-length"
    ensures Value(LengthField(body)) == Decimal.Digits(|body|)
  {
    var f := LengthField(body);
    var key := f.key;
    LengthKeyReads(key, "content-length");
    Decimal.DigitsStandForNumber(|body|);
    NumberIsStripped(f.value);
  }

  lemma {:induction false} OtherFieldsDoNotMatter(fields: seq<Field>, m: map<string, string>, k: string)
    requires forall f | f in fields :: Key(f) != k
    ensures (k in Collected(fields, m) <==> k in m) && (k in m ==> Collected(fields, m)[k] == m[k])
    decreases |fields|
  {
    if fields != [] {
      OtherFieldsDoNotMatter(fields[1..], m[Key(fields[0]) := Value(fields[0])], k);
    }
  }

  lemma {:induction false} CollectedConcat(a: seq<Field>, b: seq<Field>, m: map<string, string>)
    ensures Collected(a + b, m) == Collected(b, Collected(a, m))
    decreases |a|
  {
    if a == [] {
      assert a + b == b;
    } else {
      assert (a + b)[1..] == a[1..] + b;
      CollectedConcat(a[1..], b, m[Key(a[0]) := Value(a[0])]);
    }
  }

  /** Only the length field decides the content length, wherever it stands. */
  lemma LengthIsCollected(before: seq<Field>, after: seq<Field>, body: string)
    requires forall f | f in before + after :: Key(f) != "content-length"
    ensures var m := Collected(before + [LengthField(body)] + after, map[]);
            "content-length" in m && m["content-length"] == Decimal.Digits(|body|)
  {
    var rest := [LengthField(body)] + after;
    LengthFieldReads(body);
    CollectedConcat(before, rest, map[]);
    assert before + rest == before + [LengthField(body)] + after;
    assert rest[1..] == after;
    forall f | f in after ensures Key(f) != "content-length" { assert f in before + after; }
    OtherFieldsDoNotMatter(after, Collected(before, map[])["content-length" := Decimal.Digits(|body|)],
                           "content-length");
  }

  lemma ContentIsRead(fields: map<string, string>, body: string, rest: string, isObject: string -> bool)
    requires "content-length" in fields && fields["content-length"] == Decimal.Digits(|body|)
    requires isObject(body)
    ensures ReadContent(Headers(fields, body + rest), isObject) == Message(body, rest)
  {
    PrintedNumberIsParsed(|body|);
    assert (body + rest)[..|body|] == body && (body + rest)[|body|..] == rest;
  }

  /** A frame is read back whatever other header fields surround the length (Content-Type, say). */
  lemma AnyHeaderPartIsAccepted(before: seq<Field>, after: seq<Field>, body: string, rest: string,
                                isObject: string -> bool)
    requires forall f | f in before + after :: WellFormed(f) && Key(f) != "content-length"
    requires isObject(body)
    ensures Read(Lines(before + [LengthField(body)] + after) + "\r\n" + (body + rest), isObject) == Message(body, rest)
  {
    var fields := before + [LengthField(body)] + after;
    LengthFieldFits(body);
    forall f | f in fields
      ensures WellFormed(f)
    {
      assert f in before + after || f == LengthField(body);
    }
    HeaderPartIsRead(fields, body + rest, map[]);
    LengthIsCollected(before, after, body);
    ContentIsRead(Collected(fields, map[]), body, rest, isObject);
  }

  // ---- Round trip ----

  lemma FrameParts(body: string, f: Field)
    requires f == LengthField(body)
    ensures Frame(body) == Line(f) + "\r\n" + body && Lines([f]) == Line(f)
  {
    assert [f][1..] == [] && Lines([f]) == Line(f) + Lines([f][1..]);
  }

  lemma FollowedBy(a: string, b: string, c: string)
    ensures a + b + c == a + (b + c)
  {}

  lemma FrameIsRead(body: string, rest: string, isObject: string -> bool)
    requires isObject(body)
    ensures Read(Frame(body) + rest, isObject) == Message(body, rest)
  {
    var f := LengthField(body);
    FrameParts(body, f);
    AnyHeaderPartIsAccepted([], [], body, rest, isObject);
    assert [] + [f] + [] == [f];
    FollowedBy(Line(f) + "\r\n", body, rest);
  }

  function Frames(bodies: seq<string>): string {
    if bodies == [] then "" else Frame(bodies[0]) + Frames(bodies[1..])
  }

  datatype ReadAllResult = AllRead(bodies: seq<string>, rest: string) | Failed(after: nat, why: ReadResult)

  /** count messages, one after the other. */
  function ReadAll(s: string, count: nat, isObject: string -> bool): ReadAllResult
    decreases count
  {
    if count == 0 then AllRead([], s)
    else match Read(s, isObject)
      case Message(body, rest) =>
        (match ReadAll(rest, count - 1, isObject)
         case AllRead(bodies, left) => AllRead([body] + bodies, left)
         case Failed(n, why) => Failed(n + 1, why))
      case why => Failed(0, why)
  }

  /** The stream s holds a message and what follows it. */
  lemma NextIsRead(s: string, body: string, left: string, count: nat, bodies: seq<string>, rest: string,
                   isObject: string -> bool)
    requires Read(s, isObject) == Message(body, left) && count >= 1
    requires ReadAll(left, count - 1, isObject) == AllRead(bodies, rest)
    ensures ReadAll(s, count, isObject) == AllRead([body] + bodies, rest)
  {
  }

  /** Reading what was written gives the same bodies in the same order, and consumes exactly their
      frames. */
  lemma {:induction false} FramesRoundTrip(bodies: seq<string>, rest: string, isObject: string -> bool)
    requires forall b | b in bodies :: isObject(b)
    ensures ReadAll(Frames(bodies) + rest, |bodies|, isObject) == AllRead(bodies, rest)
    decreases |bodies|
  {
    if bodies == [] {
      assert Frames(bodies) + rest == rest;
    } else {
      var body, left := bodies[0], Frames(bodies[1..]) + rest;
      FollowedBy(Frame(body), Frames(bodies[1..]), rest);
      FrameIsRead(body, left, isObject);
      FramesRoundTrip(bodies[1..], rest, isObject);
      NextIsRead(Frames(bodies) + rest, body, left, |bodies|, bodies[1..], rest, isObject);
      assert [body] + bodies[1..] == bodies;
    }
  }

  lemma TooShort(fields: map<string, string>, body: string, rest: string, isObject: string -> bool)
    requires "content-length" in fields && fields["content-length"] == Decimal.Digits(|body|)
    requires |rest| < |body|
    ensures ReadContent(Headers(fields, rest), isObject) == Incomplete
  {
    PrintedNumberIsParsed(|body|);
  }

  /** A stream that breaks off inside a content part is reported as incomplete. */
  lemma TruncatedContentIsIncomplete(body: string, cut: nat, isObject: string -> bool)
    requires cut < |body|
    ensures Read(Lines([LengthField(body)]) + "\r\n" + body[..cut], isObject) == Incomplete
  {
    var fields := [LengthField(body)];
    LengthFieldFits(body);
    HeaderPartIsRead(fields, body[..cut], map[]);
    LengthIsCollected([], [], body);
    assert [] + fields + [] == fields;
    TooShort(Collected(fields, map[]), body, body[..cut], isObject);
  }

  lemma {:induction false} LineWithoutNewline(s: string)
    requires '\n' !in s
    ensures LineLength(s) == |s|
    decreases |s|
  {
    if s != "" {
      assert s[0] in s && forall c | c in s[1..] :: c in s;
      LineWithoutNewline(s[1..]);
    }
  }

  lemma NoNewlineNoHeaders(s: string, m: map<string, string>)
    requires '\n' !in s
    ensures !ReadHeaders(s, m).Headers?
  {
    LineWithoutNewline(s);
    if s != "" {
      assert s[..|s|] == s && s[|s|..] == "";
      assert s[|s| - 1] in s;
    }
  }

  lemma CutHeaderPartIsNoHeaders(f: Field, cut: nat, m: map<string, string>)
    requires WellFormed(f) && cut < |Line(f)| + 2
    ensures !ReadHeaders((Line(f) + "\r\n")[..cut], m).Headers?
  {
    var s := Line(f) + "\r\n";
    if cut < |Line(f)| {
      var a := f.key + ": " + f.value + "\r";
      assert s == a + "\n\r\n" && s[..cut] == a[..cut];
      assert '\n' !in a;
      assert forall c | c in a[..cut] :: c in a;
      NoNewlineNoHeaders(s[..cut], m);
    } else {
      var rest := s[|Line(f)|..cut];
      assert rest == "" || rest == "\r";
      assert s[..cut] == Line(f) + rest;
      LineIsRead(f, rest);
      LineParses(f);
      NoNewlineNoHeaders(rest, m[Key(f) := Value(f)]);
    }
  }

  lemma CutHeaderIsNoMessage(f: Field, s: string, cut: nat, isObject: string -> bool)
    requires WellFormed(f) && cut < |Line(f)| + 2 && s == (Line(f) + "\r\n")[..cut]
    ensures !Read(s, isObject).Message?
  {
    CutHeaderPartIsNoHeaders(f, cut, map[]);
  }

  lemma CutContentIsNoMessage(s: string, body: string, cut: nat, isObject: string -> bool)
    requires cut < |body| && s == Lines([LengthField(body)]) + "\r\n" + body[..cut]
    ensures !Read(s, isObject).Message?
  {
    TruncatedContentIsIncomplete(body, cut, isObject);
  }

  lemma Taken(a: string, b: string, cut: nat)
    requires cut <= |a + b|
    ensures (a + b)[..cut] == if cut < |a| then a[..cut] else a + b[..cut - |a|]
  {}

  /** No part of a frame passes for a message: wherever the stream breaks off, the reader notices. */
  lemma CutFrameIsNoMessage(body: string, cut: nat, isObject: string -> bool)
    requires cut < |Frame(body)|
    ensures !Read(Frame(body)[..cut], isObject).Message?
  {
    var f := LengthField(body);
    FrameParts(body, f);
    LengthFieldFits(body);
    var head := Line(f) + "\r\n";
    var s := Frame(body)[..cut];
    Taken(head, body, cut);
    if cut < |head| {
      CutHeaderIsNoMessage(f, s, cut, isObject);
    } else {
      CutContentIsNoMessage(s, body, cut - |head|, isObject);
    }
  }

  // ---- The reader and the writer ----

  class StdioStreams {
    var incoming: string   // what the language server has written and nobody has read
    var outgoing: string   // what has been written to the language server

    constructor (incoming: string)
      ensures this.incoming == incoming && outgoing == ""
    {
      this.incoming := incoming;
      this.outgoing := "";
    }

    method WriteMessage(body: string)
      modifies this
      ensures outgoing == old(outgoing) + Frame(body) && incoming == old(incoming)
      ensures outgoing == old(outgoing) + ("Content-Length: " + Decimal.Digits(|body|) + "\r\n\r\n" + body)
    {
      outgoing := outgoing + ("Content-Length: " + Decimal.Digits(|body|) + "\r\n\r\n" + body);
    }

    method ReadLine() returns (line: string)
      modifies this
      ensures line == old(incoming)[..LineLength(old(incoming))]
      ensures incoming == old(incoming)[LineLength(old(incoming))..]
      ensures outgoing == old(outgoing)
    {
      var n := LineLength(incoming);
      line := incoming[..n];
      incoming := incoming[n..];
    }

    /** The loop over header lines. */
    method ReadHeaderPart() returns (h: HeaderResult)
      modifies this
      ensures h == ReadHeaders(old(incoming), map[]) && outgoing == old(outgoing)
      ensures incoming == HeadersUnread(old(incoming)) && (h.Headers? ==> incoming == h.rest)
    {
      var headers: map<string, string> := map[];
      ghost var whole, unread := ReadHeaders(incoming, map[]), HeadersUnread(incoming);
      while true
        invariant ReadHeaders(incoming, headers) == whole && HeadersUnread(incoming) == unread
        invariant outgoing == old(outgoing)
        decreases |incoming|
      {
        if incoming == "" {
          return HeadersClosed;
        }
        var line := ReadLine();
        if line == "\r\n" || line == "\n" {
          return Headers(headers, incoming);
        }
        match ParseHeader(line)
        case None => return HeadersMalformed;
        case Some((k, v)) => headers := headers[k := v];
      }
    }

    method ReadMessage(isObject: string -> bool) returns (r: ReadResult)
      modifies this
      ensures r == Read(old(incoming), isObject) && outgoing == old(outgoing)
      ensures incoming == Unread(old(incoming), isObject)
      ensures var h := ReadHeaders(old(incoming), map[]);
        && (r == ClosedEarly <==> h.HeadersClosed?) && (r == Malformed <==> h.HeadersMalformed?)
        && (h.Headers? ==>
              var length := if "content-length" in h.fields then PyInt(h.fields["content-length"]) else None;
              && (r == NoContentLength <==> length == None)
              && (r == NegativeLength <==> length.Some? && length.value < 0)
              && (r == Incomplete <==> length.Some? && length.value > |h.rest|)
              && (length.Some? && 0 <= length.value <= |h.rest| ==>
                    var body, left := h.rest[..length.value], h.rest[length.value..];
                    r == (if isObject(body) then Message(body, left) else NotAnObject) && incoming == left)
              && (r == Incomplete ==> incoming == "")
              && (r == NoContentLength || r == NegativeLength ==> incoming == h.rest))
    {
      HeadersEndWhereUnread(incoming, map[]);
      var h := ReadHeaderPart();
      if !h.Headers? {
        return if h.HeadersClosed? then ClosedEarly else Malformed;
      }
      if "content-length" !in h.fields || PyInt(h.fields["content-length"]) == None {
        return NoContentLength;
      }
      var n := PyInt(h.fields["content-length"]).value;
      if n < 0 {
        return NegativeLength;
      }
      if n > |incoming| {
        incoming := "";
        return Incomplete;
      }
      var body := incoming[..n];
      incoming := incoming[n..];
      if !isObject(body) {
        return NotAnObject;
      }
      return Message(body, incoming);
    }
  }
}
