/**
 The fixture's server-sent events against the interpretation that the WHATWG HTML standard
 gives to an event stream (sections 9.2.5 and 9.2.6). Streams are sequences of characters;
 UTF-8 is not modelled.
 */
module EventStream {
  import opened Common

  const CR: char := '\r'
  const LF: char := '\n'

  predicate Break(c: char) {
    c == CR || c == LF
  }

  predicate NoBreak(s: string) {
    forall i :: 0 <= i < |s| ==> !Break(s[i])
  }

  // ----- the printer -----

  datatype Profile = CommentFlood | CrComments | Other

  const COMMENT_LINE_BYTES := 2048
  const EVENT_LIMIT_BYTES := 8 * 1024 * 1024
  const COMMENT_LINE_COUNT: nat := EVENT_LIMIT_BYTES / COMMENT_LINE_BYTES + 1

  function Repeat(c: char, n: nat): (s: string)
    ensures |s| == n && forall i :: 0 <= i < n ==> s[i] == c
  {
    seq(n, i => c)
  }

  function FloodComment(): string {
    ": reviewer keepalive " + Repeat('x', COMMENT_LINE_BYTES - |": reviewer keepalive "| - 1)
  }

  /** `comment * n` for a comment line ended by CR. */
  function Comments(comment: string, n: nat): string {
    if n == 0 then "" else comment + [CR] + Comments(comment, n - 1)
  }

  function Prefix(profile: Profile): string {
    match profile
    case CommentFlood => Comments(FloodComment(), COMMENT_LINE_COUNT)
    case CrComments => Comments(": reviewer keepalive", 1)
    case Other => ""
  }

  function Separator(profile: Profile): string {
    if profile.Other? then [LF, LF] else [CR, CR]
  }

  function Events(texts: seq<string>, separator: string): string {
    if texts == [] then "" else "data: " + texts[0] + separator + Events(texts[1..], separator)
  }

  /** _encode_sse_messages, for messages already printed as JSON texts. */
  function Encode(texts: seq<string>, profile: Profile): string {
    Prefix(profile) + Events(texts, Separator(profile))
  }

  // ----- the standard's interpretation -----

  datatype Event = Event(kind: string, data: string, lastId: string)

  datatype Reader = Reader(data: string, kind: string, lastId: string, retry: string, out: seq<Event>)

  const Start: Reader := Reader("", "", "", "", [])

  function Dispatch(r: Reader): Reader {
    if r.data == "" then r.(kind := "")
    else
      var data := if r.data[|r.data| - 1] == LF then r.data[..|r.data| - 1] else r.data;
      var kind := if r.kind == "" then "message" else r.kind;
      r.(data := "", kind := "", out := r.out + [Event(kind, data, r.lastId)])
  }

  predicate IsDigits(s: string) {
    forall i :: 0 <= i < |s| ==> '0' <= s[i] <= '9'
  }

  function Field(r: Reader, field: string, value: string): Reader {
    if field == "event" then r.(kind := value)
    else if field == "data" then r.(data := r.data + value + [LF])
    else if field == "id" then (if '\0' in value then r else r.(lastId := value))
    else if field == "retry" then (if IsDigits(value) then r.(retry := value) else r)
    else r
  }

  /** The position of the first `c` in `s`, or the length of `s`. */
  function FirstOf(s: string, c: char): (i: nat)
    ensures i <= |s| && (i < |s| ==> s[i] == c)
    ensures forall k :: 0 <= k < i ==> s[k] != c
  {
    CharFrom(s, c, 0)
  }

  function CharFrom(s: string, c: char, from: nat): (i: nat)
    requires from <= |s|
    ensures from <= i <= |s| && (i < |s| ==> s[i] == c)
    ensures forall k :: from <= k < i ==> s[k] != c
    decreases |s| - from
  {
    if from == |s| || s[from] == c then from else CharFrom(s, c, from + 1)
  }

  function DropSpace(s: string): string {
    if s != "" && s[0] == ' ' then s[1..] else s
  }

  function Line(r: Reader, line: string): Reader {
    if line == "" then Dispatch(r)
    else
      var colon := FirstOf(line, ':');
      if colon == 0 then r
      else if colon < |line| then Field(r, line[..colon], DropSpace(line[colon + 1..]))
      else Field(r, line, "")
  }

  /** The length of the first line: up to a CR, an LF or the end. */
  function LineEnd(s: string): (i: nat)
    ensures i <= |s| && (i < |s| ==> Break(s[i]))
    ensures forall k :: 0 <= k < i ==> !Break(s[k])
  {
    BreakFrom(s, 0)
  }

  function BreakFrom(s: string, from: nat): (i: nat)
    requires from <= |s|
    ensures from <= i <= |s| && (i < |s| ==> Break(s[i]))
    ensures forall k :: from <= k < i ==> !Break(s[k])
    decreases |s| - from
  {
    if from == |s| || Break(s[from]) then from else BreakFrom(s, from + 1)
  }

  /** What follows the first line; a CR and an LF together end one line. */
  function AfterLine(s: string): string
    requires LineEnd(s) < |s|
  {
    var i := LineEnd(s);
    if s[i] == CR && i + 1 < |s| && s[i + 1] == LF then s[i + 2..] else s[i + 1..]
  }

  /** The lines of a stream; an unfinished last line is discarded. */
  function Lines(s: string): seq<string>
    decreases |s|
  {
    if LineEnd(s) == |s| then [] else [s[..LineEnd(s)]] + Lines(AfterLine(s))
  }

  function ReadLines(r: Reader, lines: seq<string>): Reader
    decreases |lines|
  {
    if lines == [] then r else ReadLines(Line(r, lines[0]), lines[1..])
  }

  function Interpret(stream: string): seq<Event> {
    ReadLines(Start, Lines(if stream != "" && stream[0] == '\U{feff}' then stream[1..] else stream)).out
  }

  function Messages(texts: seq<string>): (events: seq<Event>)
    ensures |events| == |texts|
  {
    seq(|texts|, i requires 0 <= i < |texts| => Event("message", texts[i], ""))
  }

  // ----- reading line by line -----

  lemma {:induction false} LineEndAt(line: string, c: char, rest: string)
    requires NoBreak(line) && Break(c)
    ensures LineEnd(line + [c] + rest) == |line|
  {
    var s := line + [c] + rest;
    var i := LineEnd(s);
    assert s[|line|] == c;
    assert forall k :: 0 <= k < |line| ==> s[k] == line[k];
  }

  lemma SplitLine(line: string, c: char, rest: string)
    requires NoBreak(line) && Break(c)
    requires c == CR ==> rest == "" || rest[0] != LF
    ensures Lines(line + [c] + rest) == [line] + Lines(rest)
  {
    var s := line + [c] + rest;
    LineEndAt(line, c, rest);
    assert s[..|line|] == line;
    assert s[|line| + 1..] == rest;
    assert |line| + 1 < |s| ==> s[|line| + 1] == rest[0];
  }

  function CommentLines(comment: string, n: nat): seq<string> {
    if n == 0 then [] else [comment] + CommentLines(comment, n - 1)
  }

  lemma SplitComments(comment: string, n: nat, rest: string)
    requires NoBreak(comment) && comment != "" && comment[0] == ':'
    requires rest == "" || rest[0] != LF
    ensures Lines(Comments(comment, n) + rest) == CommentLines(comment, n) + Lines(rest)
  {
    forall k: nat | 0 < k <= n ensures Lines(Comments(comment, k) + rest) == [comment] + Lines(Comments(comment, k - 1) + rest) {
      SplitOneComment(comment, k, rest);
    }
    CommentsByStep(Lines, comment, n, rest);
  }

  /** Induction over the comment lines, for any way `f` of splitting that takes them one by one. */
  lemma {:induction false} CommentsByStep(f: string -> seq<string>, comment: string, n: nat, rest: string)
    requires forall k: nat :: 0 < k <= n ==> f(Comments(comment, k) + rest) == [comment] + f(Comments(comment, k - 1) + rest)
    ensures f(Comments(comment, n) + rest) == CommentLines(comment, n) + f(rest)
  {
    if n == 0 {
      NoComments(comment, rest);
    } else {
      CommentsByStep(f, comment, n - 1, rest);
      Reassociate(comment, CommentLines(comment, n - 1), f(rest));
    }
  }

  lemma NoComments(comment: string, rest: string)
    ensures Comments(comment, 0) + rest == rest
    ensures forall lines: seq<string> :: CommentLines(comment, 0) + lines == lines
  {
  }

  lemma SplitOneComment(comment: string, n: nat, rest: string)
    requires n > 0 && NoBreak(comment) && comment != "" && comment[0] == ':'
    requires rest == "" || rest[0] != LF
    ensures Lines(Comments(comment, n) + rest) == [comment] + Lines(Comments(comment, n - 1) + rest)
  {
    CommentsHead(comment, n - 1, rest);
    SplitLine(comment, CR, Comments(comment, n - 1) + rest);
    CommentsUnfold(comment, n, rest);
  }

  lemma CommentsUnfold(comment: string, n: nat, rest: string)
    requires n > 0
    ensures Comments(comment, n) + rest == comment + [CR] + (Comments(comment, n - 1) + rest)
  {
  }

  lemma CommentsHead(comment: string, n: nat, rest: string)
    requires comment != "" && comment[0] == ':'
    requires rest == "" || rest[0] != LF
    ensures var s := Comments(comment, n) + rest; s == "" || s[0] != LF
  {
    if n > 0 { assert (Comments(comment, n) + rest)[0] == comment[0]; }
  }

  lemma {:induction false} SkipComments(r: Reader, comment: string, n: nat, rest: seq<string>)
    requires comment != "" && comment[0] == ':'
    ensures ReadLines(r, CommentLines(comment, n) + rest) == ReadLines(r, rest)
    decreases n
  {
    if n == 0 {
      assert CommentLines(comment, 0) + rest == rest;
    } else {
      assert CommentLines(comment, n) + rest == [comment] + (CommentLines(comment, n - 1) + rest);
      IgnoredLine(r, comment);
      SkipComments(r, comment, n - 1, rest);
    }
  }

  lemma IgnoredLine(r: Reader, comment: string)
    requires comment != "" && comment[0] == ':'
    ensures Line(r, comment) == r
  {
  }

  lemma DataLine(r: Reader, text: string)
    ensures Line(r, "data: " + text) == r.(data := r.data + text + [LF])
  {
    var line := "data: " + text;
    assert line[..4] == "data" && line[4] == ':' && line[5..] == " " + text;
    assert FirstOf(line, ':') == 4;
    assert line[4 + 1..] == " " + text;
    assert DropSpace(" " + text) == text;
  }

  lemma EventsStart(texts: seq<string>, separator: string)
    ensures Events(texts, separator) == "" || Events(texts, separator)[0] == 'd'
  {
  }

  function EventLines(texts: seq<string>): seq<string> {
    if texts == [] then [] else ["data: " + texts[0], ""] + EventLines(texts[1..])
  }

  lemma {:induction false} SplitEvents(texts: seq<string>, c: char)
    requires Break(c) && forall i :: 0 <= i < |texts| ==> NoBreak(texts[i])
    ensures Lines(Events(texts, [c, c])) == EventLines(texts)
  {
    if texts != [] {
      EventsStart(texts[1..], [c, c]);
      SplitEvents(texts[1..], c);
      assert NoBreak("data: " + texts[0]);
      SplitEvent("data: " + texts[0], c, Events(texts[1..], [c, c]));
      EventsUnfold(texts, c);
    }
  }

  lemma EventsUnfold(texts: seq<string>, c: char)
    requires texts != []
    ensures Events(texts, [c, c]) == ("data: " + texts[0]) + [c, c] + Events(texts[1..], [c, c])
  {
  }

  lemma SplitEvent(line: string, c: char, rest: string)
    requires NoBreak(line) && Break(c) && (rest == "" || rest[0] != LF)
    ensures Lines(line + [c, c] + rest) == [line, ""] + Lines(rest)
  {
    SplitLine("", c, rest);
    SplitLine(line, c, "" + [c] + rest);
    SplitTwice(Lines, line, c, rest);
  }

  lemma SplitTwice(f: string -> seq<string>, line: string, c: char, rest: string)
    requires f(line + [c] + ("" + [c] + rest)) == [line] + f("" + [c] + rest)
    requires f("" + [c] + rest) == [""] + f(rest)
    ensures f(line + [c, c] + rest) == [line, ""] + f(rest)
  {
    assert line + [c, c] + rest == line + [c] + ("" + [c] + rest);
  }

  predicate Idle(r: Reader) {
    r.data == "" && r.kind == "" && r.lastId == ""
  }

  /** One data line and a blank line are one dispatched event. */
  lemma ReadEvent(r: Reader, text: string, rest: seq<string>)
    requires Idle(r)
    ensures ReadLines(r, ["data: " + text, ""] + rest) == ReadLines(r.(out := r.out + [Event("message", text, "")]), rest)
  {
    var lines := ["data: " + text, ""] + rest;
    DataLine(r, text);
    DispatchText(r, text);
    assert lines[1..][0] == "" && lines[1..][1..] == rest;
  }

  lemma DispatchText(r: Reader, text: string)
    requires Idle(r)
    ensures Line(r.(data := r.data + text + [LF]), "") == r.(out := r.out + [Event("message", text, "")])
  {
    assert "" + text + [LF] == text + [LF];
    assert (text + [LF])[..|text|] == text;
  }

  lemma ReadEvents(r: Reader, texts: seq<string>)
    requires Idle(r)
    ensures ReadLines(r, EventLines(texts)).out == r.out + Messages(texts)
  {
    var f := (r: Reader, ts: seq<string>) => ReadLines(r, EventLines(ts)).out;
    forall r, ts | At(r, ts) ensures f(r, ts) == f(r.(out := r.out + [Event("message", ts[0], "")]), ts[1..]) {
      ReadEvent(r, ts[0], EventLines(ts[1..]));
    }
    ReadByStep(f, r, texts);
  }

  /** Names a reader and a list of texts, so that the facts below are used only where asked for. */
  predicate At(r: Reader, ts: seq<string>) {
    Idle(r) && ts != []
  }

  /** Induction over the texts, for any way `f` of reading that takes them one by one. */
  lemma {:induction false} ReadByStep(f: (Reader, seq<string>) -> seq<Event>, r: Reader, texts: seq<string>)
    requires Idle(r) && forall r :: f(r, []) == r.out
    requires forall r, ts {:trigger At(r, ts)} :: At(r, ts) ==> f(r, ts) == f(r.(out := r.out + [Event("message", ts[0], "")]), ts[1..])
    ensures f(r, texts) == r.out + Messages(texts)
    decreases |texts|
  {
    if texts == [] {
      assert r.out + Messages(texts) == r.out;
    } else {
      assert At(r, texts);
      ReadByStep(f, r.(out := r.out + [Event("message", texts[0], "")]), texts[1..]);
      assert Messages(texts) == [Event("message", texts[0], "")] + Messages(texts[1..]);
    }
  }

  lemma SkipPrefix(r: Reader, profile: Profile, rest: string)
    requires rest == "" || rest[0] != LF
    ensures ReadLines(r, Lines(Prefix(profile) + rest)) == ReadLines(r, Lines(rest))
  {
    match profile
    case CommentFlood =>
      SplitComments(FloodComment(), COMMENT_LINE_COUNT, rest);
      SkipComments(r, FloodComment(), COMMENT_LINE_COUNT, Lines(rest));
    case CrComments =>
      SplitComments(": reviewer keepalive", 1, rest);
      SkipComments(r, ": reviewer keepalive", 1, Lines(rest));
    case Other => assert Prefix(profile) + rest == rest;
  }

  lemma {:induction false} NoByteOrderMark(texts: seq<string>, profile: Profile)
    ensures var s := Encode(texts, profile); s == "" || s[0] != '\U{feff}'
  {
    EventsStart(texts, Separator(profile));
    if !profile.Other? {
      assert Encode(texts, profile)[0] == ':';
    }
  }

  lemma InterpretEncoded(texts: seq<string>, profile: Profile)
    ensures Interpret(Encode(texts, profile)) == ReadLines(Start, Lines(Events(texts, Separator(profile)))).out
  {
    NoByteOrderMark(texts, profile);
    EventsStart(texts, Separator(profile));
    SkipPrefix(Start, profile, Events(texts, Separator(profile)));
  }

  /** A client that follows the standard receives exactly the messages, in order, whatever the
      framing, comments and line endings of the profile. */
  lemma EncodedIsDelivered(texts: seq<string>, profile: Profile)
    requires forall i :: 0 <= i < |texts| ==> NoBreak(texts[i])
    ensures Interpret(Encode(texts, profile)) == Messages(texts)
  {
    InterpretEncoded(texts, profile);
    SplitEvents(texts, if profile.Other? then LF else CR);
    ReadEvents(Start, texts);
    assert [] + Messages(texts) == Messages(texts);
  }

  // ----- and only then -----

  lemma LineOut(r: Reader, line: string)
    ensures r.out <= Line(r, line).out
  {
  }

  lemma {:induction false} OutGrows(r: Reader, lines: seq<string>)
    ensures r.out <= ReadLines(r, lines).out
    decreases |lines|
  {
    if lines != [] {
      LineOut(r, lines[0]);
      OutGrows(Line(r, lines[0]), lines[1..]);
    }
  }

  predicate Pending(r: Reader) {
    r.data != "" && r.data[|r.data| - 1] == LF
  }

  /** A line adds no more characters to the data buffer than it has itself. */
  lemma LineAddsLittle(r: Reader, line: string)
    requires line != "" && Pending(r)
    ensures var r' := Line(r, line); r'.out == r.out && |r'.data| <= |r.data| + |line| && Pending(r')
  {
    var colon := FirstOf(line, ':');
    if colon < |line| && line[..colon] == "data" {
      assert colon == 4;
    } else if line == "data" {
      assert |line| == 4;
    }
  }

  function TotalLength(lines: seq<string>): nat {
    if lines == [] then 0 else |lines[0]| + TotalLength(lines[1..])
  }

  /** The next dispatched event is shorter than the buffer and the lines before the next blank one. */
  lemma {:induction false} NextEventIsShort(r: Reader, lines: seq<string>, b: nat)
    requires Pending(r) && b < |lines| && lines[b] == "" && forall k :: 0 <= k < b ==> lines[k] != ""
    ensures var out := ReadLines(r, lines).out;
            |out| > |r.out| && r.out == out[..|r.out|] && |out[|r.out|].data| < |r.data| + TotalLength(lines[..b])
    decreases b
  {
    if b == 0 {
      OutGrows(Dispatch(r), lines[1..]);
    } else {
      LineAddsLittle(r, lines[0]);
      NextEventIsShort(Line(r, lines[0]), lines[1..], b - 1);
      assert lines[..b][1..] == lines[1..][..b - 1];
    }
  }

  /** If a doubled line end follows `n` characters, a blank line follows lines of no more than `n`. */
  lemma {:induction false} BlankFollows(s: string, n: nat) returns (b: nat)
    requires n < |s| && Break(s[n]) && (n > 0 ==> n + 1 < |s| && s[n + 1] == s[n])
    ensures BlankAfter(Lines(s), b, n)
    decreases |s|
  {
    var i := LineEnd(s);
    if i == 0 {
      b := 0;
    } else {
      var n' := if i == n then 0 else if s[i] == CR && s[i + 1] == LF then (if i + 1 == n then 0 else n - i - 2) else n - i - 1;
      var b' := BlankFollows(AfterLine(s), n');
      b := b' + 1;
      BlankLater(s[..i], Lines(AfterLine(s)), b', n');
    }
  }

  ghost predicate BlankAfter(lines: seq<string>, b: nat, n: nat) {
    && b < |lines| && lines[b] == "" && (forall k :: 0 <= k < b ==> lines[k] != "")
    && TotalLength(lines[..b]) <= n
  }

  lemma BlankLater(line: string, lines: seq<string>, b: nat, n: nat)
    requires line != "" && BlankAfter(lines, b, n)
    ensures BlankAfter([line] + lines, b + 1, |line| + n)
  {
    assert ([line] + lines)[..b + 1][1..] == lines[..b];
  }

  /** Where the doubled separator lies once the first line of a broken text is gone. */
  lemma RestOfBroken(s: string, m: nat, c: char) returns (n: nat)
    requires Break(c) && m + 1 < |s| && s[m] == s[m + 1] == c && LineEnd(s) < m
    ensures var after := AfterLine(s);
            && n < |after| && Break(after[n]) && (n > 0 ==> n + 1 < |after| && after[n + 1] == after[n])
            && LineEnd(s) + n < m
  {
    var i := LineEnd(s);
    var skip := if s[i] == CR && s[i + 1] == LF then 2 else 1;
    n := if i + skip <= m then m - i - skip else 0;
  }

  /** A text with a line break inside is not delivered: the first event that follows is shorter. */
  lemma BrokenEventIsShort(r: Reader, text: string, c: char, rest: string)
    requires Idle(r) && Break(c) && !NoBreak(text)
    ensures var out := ReadLines(r, Lines("data: " + text + [c, c] + rest)).out;
            |out| > |r.out| && r.out == out[..|r.out|] && |out[|r.out|].data| < |text|
  {
    var full := "data: " + text;
    var s := full + [c, c] + rest;
    var head := FirstLineOfBroken(text, c, rest);
    var n := RestOfBroken(s, |full|, c);
    var b := BlankFollows(AfterLine(s), n);
    DataLine(r, head);
    var r1 := r.(data := r.data + head + [LF]);
    assert |r1.data| == |head| + 1;
    NextEventIsShort(r1, Lines(AfterLine(s)), b);
    FirstLineRead(r, s, "data: " + head);
  }

  lemma FirstLineRead(r: Reader, s: string, line: string)
    requires LineEnd(s) < |s| && line == s[..LineEnd(s)]
    ensures ReadLines(r, Lines(s)) == ReadLines(Line(r, line), Lines(AfterLine(s)))
  {
    assert ([line] + Lines(AfterLine(s)))[1..] == Lines(AfterLine(s));
  }

  lemma FirstLineOfBroken(text: string, c: char, rest: string) returns (head: string)
    requires Break(c) && !NoBreak(text)
    ensures var s := ("data: " + text) + [c, c] + rest;
            LineEnd(s) < 6 + |text| && s[..LineEnd(s)] == "data: " + head && LineEnd(s) == 6 + |head|
  {
    var full := "data: " + text;
    var s := full + [c, c] + rest;
    var k :| 0 <= k < |text| && Break(text[k]);
    assert s[k + 6] == full[k + 6] == text[k];
    var i := LineEnd(s);
    assert forall j :: 0 <= j < 6 ==> s[j] == "data: "[j];
    assert 6 <= i <= k + 6;
    head := full[6..i];
    assert s[..i] == full[..i] == "data: " + head;
  }

  /** A first text without a line break is delivered; the rest is read after it. */
  lemma ReadFirst(r: Reader, texts: seq<string>, c: char)
    requires Idle(r) && Break(c) && texts != [] && NoBreak(texts[0])
    ensures ReadLines(r, Lines(Events(texts, [c, c]))) ==
            ReadLines(r.(out := r.out + [Event("message", texts[0], "")]), Lines(Events(texts[1..], [c, c])))
  {
    var rest := Events(texts[1..], [c, c]);
    EventsUnfold(texts, c);
    EventsStart(texts[1..], [c, c]);
    assert NoBreak("data: " + texts[0]);
    SplitEvent("data: " + texts[0], c, rest);
    ReadEvent(r, texts[0], Lines(rest));
  }

  /** A first text with a line break is not delivered. */
  lemma BrokenFirst(r: Reader, texts: seq<string>, c: char)
    requires Idle(r) && Break(c) && texts != [] && !NoBreak(texts[0])
    ensures var out := ReadLines(r, Lines(Events(texts, [c, c]))).out; |out| > |r.out| && |out[|r.out|].data| < |texts[0]|
  {
    EventsUnfold(texts, c);
    BrokenEventIsShort(r, texts[0], c, Events(texts[1..], [c, c]));
  }

  ghost predicate DeliversFirst(f: (Reader, seq<string>) -> seq<Event>) {
    forall r, ts {:trigger At(r, ts)} :: At(r, ts) && NoBreak(ts[0]) ==> f(r, ts) == f(r.(out := r.out + [Event("message", ts[0], "")]), ts[1..])
  }

  ghost predicate ShortensBroken(f: (Reader, seq<string>) -> seq<Event>) {
    forall r, ts {:trigger At(r, ts)} :: At(r, ts) && !NoBreak(ts[0]) ==> |f(r, ts)| > |r.out| && |f(r, ts)[|r.out|].data| < |ts[0]|
  }

  /** Reading the events printed with the separator `c`. */
  function Reading(c: char): (Reader, seq<string>) -> seq<Event> {
    (r: Reader, ts: seq<string>) => ReadLines(r, Lines(Events(ts, [c, c]))).out
  }

  lemma ReadingDeliversFirst(c: char)
    requires Break(c)
    ensures DeliversFirst(Reading(c))
  {
    forall r, ts | At(r, ts) && NoBreak(ts[0])
      ensures Reading(c)(r, ts) == Reading(c)(r.(out := r.out + [Event("message", ts[0], "")]), ts[1..])
    {
      ReadFirst(r, ts, c);
    }
  }

  lemma ReadingShortensBroken(c: char)
    requires Break(c)
    ensures ShortensBroken(Reading(c))
  {
    forall r, ts | At(r, ts) && !NoBreak(ts[0])
      ensures |Reading(c)(r, ts)| > |r.out| && |Reading(c)(r, ts)[|r.out|].data| < |ts[0]|
    {
      BrokenFirst(r, ts, c);
    }
  }

  lemma BrokenIsNotDelivered(texts: seq<string>, c: char)
    requires Break(c) && exists i :: 0 <= i < |texts| && !NoBreak(texts[i])
    ensures Reading(c)(Start, texts) != Messages(texts)
  {
    ReadingDeliversFirst(c);
    ReadingShortensBroken(c);
    BrokenByStep(Reading(c), Start, texts);
    assert [] + Messages(texts) == Messages(texts);
  }

  /** Induction over the texts, for any way `f` of reading that behaves so on the first one. */
  lemma {:induction false} BrokenByStep(f: (Reader, seq<string>) -> seq<Event>, r: Reader, texts: seq<string>)
    requires DeliversFirst(f) && ShortensBroken(f)
    requires Idle(r) && exists i :: 0 <= i < |texts| && !NoBreak(texts[i])
    ensures f(r, texts) != r.out + Messages(texts)
    decreases |texts|
  {
    assert At(r, texts);
    if NoBreak(texts[0]) {
      BrokenByStep(f, r.(out := r.out + [Event("message", texts[0], "")]), texts[1..]);
      assert Messages(texts) == [Event("message", texts[0], "")] + Messages(texts[1..]);
    } else {
      assert (r.out + Messages(texts))[|r.out|].data == texts[0];
    }
  }

  /** The messages arrive exactly as sent if and only if no text contains a line break. */
  lemma DeliveredIffNoBreak(texts: seq<string>, profile: Profile)
    ensures Interpret(Encode(texts, profile)) == Messages(texts) <==> forall i :: 0 <= i < |texts| ==> NoBreak(texts[i])
  {
    if forall i :: 0 <= i < |texts| ==> NoBreak(texts[i]) {
      EncodedIsDelivered(texts, profile);
    } else {
      InterpretEncoded(texts, profile);
      BrokenIsNotDelivered(texts, if profile.Other? then LF else CR);
    }
  }
}
