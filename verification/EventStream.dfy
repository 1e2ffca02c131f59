/**
 The line parser of src/eventsource.c (HTML Standard, section 9.2.6): the bytes of a response, in whatever
 chunks they arrive, become lines, and the lines become messages.
 */
module EventStream {
  import opened Common
  import opened Strings

  const MAX_LINE := 0x10_0000
  const MAX_EVENT := 0x80_0000
  const MAX_RETRY := 86_400_000
  const NUL := 0 as char

  datatype Message = Message(event: string, data: string, lastId: string)

  /** What the parser and the object behind it remember between two bytes.  `posted` are the messages
      handed to ns_es_post so far. */
  datatype Parse = Parse(line: string, cr: bool, data: string, event: Option<string>, fatal: bool,
                         lastId: string, retry: int, posted: seq<Message>)

  // ---------- lines ----------

  /** The bytes before the first NUL: what the string functions see of a line. */
  function CString(s: string): (r: string)
    ensures NUL !in r && r <= s && (|r| < |s| ==> s[|r|] == NUL)
  {
    if s == "" || s[0] == NUL then "" else [s[0]] + CString(s[1..])
  }

  function Field(line: string): string {
    line[..Find(line, ':')]
  }

  function Value(line: string): string {
    var i := Find(line, ':');
    if i == |line| then ""
    else if i + 1 < |line| && line[i + 1] == ' ' then line[i + 2..]
    else line[i + 1..]
  }

  function Decimal(s: string): nat
    requires AllDigits(s)
  {
    if s == "" then 0 else 10 * Decimal(s[..|s| - 1]) + (s[|s| - 1] as int - '0' as int)
  }

  /** ns_es_dispatch_event */
  function Dispatch(p: Parse): Parse {
    if p.data == "" then p.(event := None)
    else
      var text := if p.data[|p.data| - 1] == '\n' then p.data[..|p.data| - 1] else p.data;
      p.(event := None, data := "",
         posted := p.posted + [Message(if p.event.Some? then p.event.value else "message", text, p.lastId)])
  }

  /** What a field of a line does. */
  function SetField(p: Parse, field: string, value: string): Parse {
    if field == "data" then
      if |p.data| + |value| + 1 > MAX_EVENT then p.(fatal := true) else p.(data := p.data + value + "\n")
    else if field == "event" then p.(event := if value == "" then None else Some(value))
    else if field == "id" then p.(lastId := value)
    else if field == "retry" then SetRetry(p, value)
    else p
  }

  function SetRetry(p: Parse, value: string): Parse {
    if value != "" && AllDigits(value) && Decimal(value) > 0
    then p.(retry := if Decimal(value) < MAX_RETRY then Decimal(value) else MAX_RETRY)
    else p
  }

  /** ns_es_process_line on the bytes of one line */
  function Line(p: Parse, bytes: string): Parse {
    var line := CString(bytes);
    if line == "" then Dispatch(p)
    else if line[0] == ':' then p
    else SetField(p, Field(line), Value(line))
  }

  // ---------- bytes ----------

  /** One byte of ns_es_feed. */
  function Byte(p: Parse, c: char): Parse {
    if c == '\n' && p.cr then p.(cr := false)
    else if c == '\r' || c == '\n' then Line(p.(cr := c == '\r'), p.line).(line := "")
    else if |p.line| >= MAX_LINE then p.(cr := false, fatal := true)
    else p.(cr := false, line := p.line + [c])
  }

  /** The byte does not fit into the line any more, and feeding stops. */
  predicate Overflows(p: Parse, c: char) {
    c != '\r' && c != '\n' && |p.line| >= MAX_LINE
  }

  /** ns_es_feed */
  function Feed(p: Parse, buf: string): Parse
    decreases buf
  {
    if buf == "" then p
    else if Overflows(p, buf[0]) then Byte(p, buf[0])
    else Feed(Byte(p, buf[0]), buf[1..])
  }

  /** ns_es_write_cb, as far as the parser goes: nothing is fed after a fatal error. */
  function Write(p: Parse, buf: string): Parse {
    if p.fatal then p else Feed(p, buf)
  }

  // ---------- the parser object ----------

  class Parser {
    var line: string
    var lastWasCr: bool
    var data: string
    var eventType: Option<string>
    var fatal: bool
    var lastEventId: string
    var reconnectMs: int
    var posted: seq<Message>

    constructor (lastEventId: string)
      ensures State() == Fresh(lastEventId)
    {
      line, lastWasCr, data, eventType, fatal := "", false, "", None, false;
      this.lastEventId, reconnectMs, posted := lastEventId, 3000, [];
    }

    ghost function State(): Parse
      reads this
    {
      Parse(line, lastWasCr, data, eventType, fatal, lastEventId, reconnectMs, posted)
    }

    /** ns_es_dispatch_event */
    method DispatchEvent()
      modifies this
      ensures State() == Dispatch(old(State()))
    {
      if |data| == 0 && eventType.None? { return; }
      if |data| == 0 {
        eventType := None;
        return;
      }
      if data[|data| - 1] == '\n' { data := data[..|data| - 1]; }
      var m := Message(if eventType.Some? then eventType.value else "message", data, lastEventId);
      eventType := None;
      data := "";
      posted := posted + [m];
    }

    /** ns_es_process_line */
    method ProcessLine(text: string)
      requires NUL !in text
      modifies this
      ensures State() == Line(old(State()), text)
    {
      CStringWhole(text);
      if text == "" {
        DispatchEvent();
        return;
      }
      if text[0] == ':' { return; }
      var colon := Find(text, ':');
      var field, value := text, "";
      if colon < |text| {
        field := text[..colon];
        var v := colon + 1;
        if v < |text| && text[v] == ' ' { v := v + 1; }
        value := text[v..];
      }
      ProcessField(field, value);
    }

    /** The second half of ns_es_process_line */
    method ProcessField(field: string, value: string)
      modifies this
      ensures State() == SetField(old(State()), field, value)
    {
      if field == "data" {
        if |data| + |value| + 1 > MAX_EVENT {
          fatal := true;
        } else {
          data := data + value + "\n";
        }
      } else if field == "event" {
        eventType := if value != "" then Some(value) else None;
      } else if field == "id" {
        lastEventId := value;
      } else if field == "retry" {
        var digits := OnlyDigits(value);
        if digits {
          var ms := Decimal(value);
          if ms > 0 { reconnectMs := if ms < MAX_RETRY then ms else MAX_RETRY; }
        }
      }
    }

    method OnlyDigits(value: string) returns (digits: bool)
      ensures digits <==> value != "" && AllDigits(value)
    {
      digits := value != "";
      var i := 0;
      while i < |value|
        invariant 0 <= i <= |value| && digits == (value != "")
        invariant forall k :: 0 <= k < i ==> '0' <= value[k] <= '9'
      {
        if value[i] < '0' || value[i] > '9' { return false; }
        i := i + 1;
      }
    }

    /** ns_es_feed */
    method FeedBytes(buf: string)
      modifies this
      ensures State() == Feed(old(State()), buf)
    {
      var i := 0;
      while i < |buf|
        invariant 0 <= i <= |buf|
        invariant Feed(State(), buf[i..]) == Feed(old(State()), buf)
      {
        var c := buf[i];
        assert buf[i..][0] == c && buf[i..][1..] == buf[i + 1..];
        var more := FeedByte(c);
        if !more { return; }
        i := i + 1;
      }
    }

    method FeedByte(c: char) returns (more: bool)
      modifies this
      ensures State() == Byte(old(State()), c) && more == !Overflows(old(State()), c)
    {
      if c == '\n' && lastWasCr {
        lastWasCr := false;
        return true;
      }
      lastWasCr := false;
      if c == '\r' || c == '\n' {
        if c == '\r' { lastWasCr := true; }
        LineIgnoresItself(State(), line);
        ProcessLine(CString(line));
        line := "";
      } else {
        if |line| >= MAX_LINE {
          fatal := true;
          return false;
        }
        line := line + [c];
      }
      return true;
    }
  }

  function Fresh(lastEventId: string): Parse {
    Parse("", false, "", None, false, lastEventId, 3000, [])
  }

  lemma {:induction false} CStringWhole(s: string)
    requires NUL !in s
    ensures CString(s) == s
  {
    if s != "" {
      assert s[0] in s;
      assert forall c :: c in s[1..] ==> c in s;
      CStringWhole(s[1..]);
    }
  }

  lemma CStringTwice(s: string)
    ensures CString(CString(s)) == CString(s)
  {
    CStringWhole(CString(s));
  }

  lemma LineIgnoresItself(p: Parse, bytes: string)
    ensures Line(p, CString(bytes)) == Line(p, bytes)
  {
    CStringTwice(bytes);
    assert CString(CString(bytes)) == CString(bytes);
  }

  // ---------- chunks ----------

  /** How many chunks the bytes come in makes no difference while no line overflows. */
  lemma {:induction false} FeedSplits(p: Parse, a: string, b: string)
    requires !Stopped(p, a)
    ensures Feed(p, a + b) == Feed(Feed(p, a), b)
    decreases a
  {
    if a == "" {
      assert a + b == b;
    } else {
      assert (a + b)[1..] == a[1..] + b;
      FeedSplits(Byte(p, a[0]), a[1..], b);
    }
  }

  /** Feeding ended before the last byte because a line overflowed. */
  predicate Stopped(p: Parse, buf: string)
    decreases buf
  {
    buf != "" && (Overflows(p, buf[0]) || Stopped(Byte(p, buf[0]), buf[1..]))
  }

  lemma {:induction false} StoppedIsFatal(p: Parse, buf: string)
    requires Stopped(p, buf)
    ensures Feed(p, buf).fatal && forall more :: Feed(p, buf + more) == Feed(p, buf)
    decreases buf
  {
    if !Overflows(p, buf[0]) { StoppedIsFatal(Byte(p, buf[0]), buf[1..]); }
    forall more ensures Feed(p, buf + more) == Feed(p, buf) {
      assert (buf + more)[1..] == buf[1..] + more;
    }
  }

  /** Two writes are one write, unless the first one already failed: the chunk that makes an event too long
      is still fed to its end, the next one is not. */
  lemma WriteSplits(p: Parse, a: string, b: string)
    requires p.fatal || !Feed(p, a).fatal || Stopped(p, a)
    ensures Write(Write(p, a), b) == Write(p, a + b)
  {
    if !p.fatal {
      if Stopped(p, a) { StoppedIsFatal(p, a); } else { FeedSplits(p, a, b); }
    }
  }

  /** This byte ends an empty line while data have been collected. */
  predicate PostsAt(p: Parse, c: char) {
    (c == '\r' || (c == '\n' && !p.cr)) && CString(p.line) == "" && p.data != ""
  }

  predicate Posts(p: Parse, buf: string)
    decreases buf
  {
    buf != "" && !Overflows(p, buf[0]) && (PostsAt(p, buf[0]) || Posts(Byte(p, buf[0]), buf[1..]))
  }

  lemma BytePosts(p: Parse, c: char)
    ensures p.posted <= Byte(p, c).posted && (Byte(p, c).posted == p.posted <==> !PostsAt(p, c))
  {
    if c == '\r' || (c == '\n' && !p.cr) { LinePosts(p.(cr := c == '\r'), p.line); }
  }

  lemma LinePosts(p: Parse, bytes: string)
    ensures p.posted <= Line(p, bytes).posted
    ensures Line(p, bytes).posted == p.posted <==> CString(bytes) != "" || p.data == ""
  {
    var text := CString(bytes);
    if text == "" { DispatchPosts(p); } else if text[0] != ':' { FieldPosts(p, Field(text), Value(text)); }
  }

  lemma DispatchPosts(p: Parse)
    ensures p.posted <= Dispatch(p).posted && (Dispatch(p).posted == p.posted <==> p.data == "")
  {
  }

  lemma FieldPosts(p: Parse, field: string, value: string)
    ensures SetField(p, field, value).posted == p.posted
  {
  }

  /** Messages are only ever added, and none is added exactly if no byte ends an empty line behind data. */
  lemma {:induction false} FeedPosts(p: Parse, buf: string)
    ensures p.posted <= Feed(p, buf).posted && (Feed(p, buf).posted == p.posted <==> !Posts(p, buf))
    decreases buf
  {
    if buf != "" {
      BytePosts(p, buf[0]);
      if !Overflows(p, buf[0]) { FeedPosts(Byte(p, buf[0]), buf[1..]); }
    }
  }

  /** The messages do not depend on where a stream is cut exactly if the first chunk has not failed, or has
      stopped at a line that is too long, or the second chunk would post nothing. */
  lemma ChunksMatter(p: Parse, a: string, b: string)
    requires !p.fatal
    ensures Write(Write(p, a), b).posted == Write(p, a + b).posted <==>
            !Feed(p, a).fatal || Stopped(p, a) || !Posts(Feed(p, a), b)
  {
    if !Feed(p, a).fatal || Stopped(p, a) {
      WriteSplits(p, a, b);
    } else {
      FeedSplits(p, a, b);
      FeedPosts(Feed(p, a), b);
    }
  }

  // ---------- the stream as lines ----------

  /** Complete lines, and what is left behind the last line end. */
  datatype Split = Split(lines: seq<string>, rest: string)

  function LineEnd(s: string): (i: nat)
    ensures i <= |s| && (i < |s| ==> s[i] == '\r' || s[i] == '\n')
    ensures forall k :: 0 <= k < i ==> s[k] != '\r' && s[k] != '\n'
  {
    if s == "" || s[0] == '\r' || s[0] == '\n' then 0 else 1 + LineEnd(s[1..])
  }

  /** Lines end at a carriage return and line feed pair, a single line feed or a single carriage return. */
  function Lines(s: string): Split
    decreases |s|
  {
    var i := LineEnd(s);
    if i == |s| then Split([], s)
    else
      var more := Lines(s[i + EndLength(s, i)..]);
      Split([s[..i]] + more.lines, more.rest)
  }

  function LineFold(p: Parse, lines: seq<string>): Parse
    decreases lines
  {
    if lines == [] then p else LineFold(Line(p, lines[0]), lines[1..])
  }

  predicate Fits(s: Split) {
    |s.rest| <= MAX_LINE && forall l :: l in s.lines ==> |l| <= MAX_LINE
  }

  /** Processing a line neither reads nor changes the line buffer and the carriage-return note. */
  lemma LineForgets(p: Parse, bytes: string, line: string, cr: bool)
    ensures Line(p.(line := line, cr := cr), bytes) == Line(p, bytes).(line := line, cr := cr)
    ensures Line(p, bytes).line == p.line && Line(p, bytes).cr == p.cr
  {
    var text := CString(bytes);
    if text != "" && text[0] != ':' { FieldForgets(p, Field(text), Value(text), line, cr); }
  }

  lemma FieldForgets(p: Parse, field: string, value: string, line: string, cr: bool)
    ensures SetField(p.(line := line, cr := cr), field, value) == SetField(p, field, value).(line := line, cr := cr)
    ensures SetField(p, field, value).line == p.line && SetField(p, field, value).cr == p.cr
  {
  }

  /** Bytes without a line end collect in the line. */
  lemma {:induction false} Collects(p: Parse, text: string, more: string)
    requires forall i :: 0 <= i < |text| ==> text[i] != '\r' && text[i] != '\n'
    requires |p.line| + |text| <= MAX_LINE && !p.cr
    ensures Feed(p, text + more) == Feed(p.(line := p.line + text), more)
    decreases text
  {
    if text == "" {
      assert text + more == more && p.line + text == p.line;
    } else {
      assert (text + more)[1..] == text[1..] + more;
      var q := Byte(p, text[0]);
      assert q == p.(line := p.line + [text[0]]);
      Collects(q, text[1..], more);
      assert q.line + text[1..] == p.line + text;
    }
  }

  /** How many bytes the line end at `i` takes. */
  function EndLength(s: string, i: nat): nat
    requires i < |s|
  {
    if s[i] == '\r' && i + 1 < |s| && s[i + 1] == '\n' then 2 else 1
  }

  /** The byte machine does to a whole stream what processing its lines one by one does. */
  lemma {:induction false} FeedIsLines(p: Parse, s: string)
    requires p.line == "" && !p.cr && Fits(Lines(s))
    ensures Feed(p, s).(cr := false) == LineFold(p, Lines(s).lines).(line := Lines(s).rest)
    decreases |s|
  {
    var i := LineEnd(s);
    assert s[..i] + s[i..] == s;
    if i == |s| {
      assert s[..i] == s && s[i..] == "";
      Collects(p, s[..i], "");
    } else {
      var l := Lines(s);
      var rest := s[i + EndLength(s, i)..];
      assert l.lines[0] == s[..i] && l.lines[0] in l.lines && l.lines[1..] == Lines(rest).lines;
      RestFits(l, Lines(rest), s[..i]);
      FirstLine(p, s, i);
      LineForgets(p, s[..i], "", false);
      FeedIsLines(Line(p, s[..i]), rest);
    }
  }

  lemma FirstLine(p: Parse, s: string, i: nat)
    requires p.line == "" && !p.cr && i == LineEnd(s) < |s| && i <= MAX_LINE
    ensures Feed(p, s).(cr := false) == Feed(Line(p, s[..i]), s[i + EndLength(s, i)..]).(cr := false)
  {
    var n := EndLength(s, i);
    assert s[..i] + s[i..] == s;
    Collects(p, s[..i], s[i..]);
    assert p.line + s[..i] == s[..i];
    EndOfLine(p, s[..i], s[i..], n, Line(p, s[..i]));
    assert s[i..][n..] == s[i + n..];
  }

  lemma RestFits(all: Split, more: Split, first: string)
    requires all == Split([first] + more.lines, more.rest) && Fits(all)
    ensures Fits(more)
  {
    forall x | x in more.lines ensures |x| <= MAX_LINE { assert x in all.lines; }
  }

  /** At a line end: the line is processed, and feeding goes on behind the line end as if the carriage
      return had not been noted. */
  lemma EndOfLine(p: Parse, line: string, s: string, n: nat, r: Parse)
    requires p.line == "" && !p.cr && s != "" && (s[0] == '\r' || s[0] == '\n')
    requires n == if s[0] == '\r' && 1 < |s| && s[1] == '\n' then 2 else 1
    requires r == Line(p, line)
    ensures Feed(p.(line := line), s).(cr := false) == Feed(r, s[n..]).(cr := false)
  {
    LineForgets(p, line, line, s[0] == '\r');
    var after := Byte(p.(line := line), s[0]);
    assert after == r.(cr := s[0] == '\r');
    if n == 2 {
      assert s[1..][0] == '\n' && s[1..][1..] == s[2..];
      assert Byte(after, '\n') == r;
    } else if s[0] == '\r' {
      LineForgets(p, line, "", false);
      CrBeforeOther(r, s[1..]);
    }
  }

  lemma CrBeforeOther(r: Parse, s: string)
    requires !r.cr && (s == "" || s[0] != '\n')
    ensures Feed(r.(cr := true), s).(cr := false) == Feed(r, s).(cr := false)
  {
    if s != "" {
      assert Byte(r.(cr := true), s[0]) == Byte(r, s[0]);
    }
  }

  // ---------- what holds in every state ----------

  predicate Sound(p: Parse) {
    && |p.line| <= MAX_LINE && |p.data| <= MAX_EVENT && 0 < p.retry <= MAX_RETRY
    && (p.data != "" ==> p.data[|p.data| - 1] == '\n')
    && forall m :: m in p.posted ==> |m.data| < MAX_EVENT && m.event != ""
  }

  lemma {:induction false} FeedSound(p: Parse, buf: string)
    requires Sound(p) && (p.event.Some? ==> p.event.value != "")
    ensures Sound(Feed(p, buf)) && (Feed(p, buf).event.Some? ==> Feed(p, buf).event.value != "")
    decreases buf
  {
    if buf != "" {
      ByteSound(p, buf[0]);
      FeedSound(Byte(p, buf[0]), buf[1..]);
    }
  }

  lemma ByteSound(p: Parse, c: char)
    requires Sound(p) && (p.event.Some? ==> p.event.value != "")
    ensures Sound(Byte(p, c)) && (Byte(p, c).event.Some? ==> Byte(p, c).event.value != "")
  {
    if c == '\r' || (c == '\n' && !p.cr) {
      LineSound(p.(cr := c == '\r'), p.line);
      EmptyLineSound(Line(p.(cr := c == '\r'), p.line));
    } else if c != '\n' && |p.line| < MAX_LINE {
      LongerLineSound(p, c);
    }
  }

  lemma EmptyLineSound(p: Parse)
    requires Sound(p)
    ensures Sound(p.(line := ""))
  {
  }

  lemma LongerLineSound(p: Parse, c: char)
    requires Sound(p) && |p.line| < MAX_LINE
    ensures Sound(p.(cr := false, line := p.line + [c]))
  {
  }

  lemma LineSound(p: Parse, bytes: string)
    requires Sound(p) && (p.event.Some? ==> p.event.value != "")
    ensures Sound(Line(p, bytes)) && (Line(p, bytes).event.Some? ==> Line(p, bytes).event.value != "")
  {
    var text := CString(bytes);
    if text != "" && text[0] != ':' { FieldSound(p, Field(text), Value(text)); }
  }

  lemma FieldSound(p: Parse, field: string, value: string)
    requires Sound(p) && (p.event.Some? ==> p.event.value != "")
    ensures var q := SetField(p, field, value); Sound(q) && (q.event.Some? ==> q.event.value != "")
  {
  }

  // ---------- a stream whose messages depend on the chunks ----------

  /** A line as long as a line may be. */
  function LongLine(): (r: string)
    ensures |r| == MAX_LINE
  {
    "data: " + LongValue()
  }

  function LongValue(): (r: string)
    ensures |r| == MAX_LINE - 6
  {
    seq(MAX_LINE - 6, _ => 'x')
  }

  function LongLines(n: nat): string {
    if n == 0 then "" else LongLines(n - 1) + (LongLine() + "\n")
  }

  lemma OneLongLine(p: Parse, more: string)
    requires p.line == "" && !p.cr
    ensures Feed(p, LongLine() + ("\n" + more)) == Feed(Line(p, LongLine()), more)
  {
    var line, s := LongLine(), "\n" + more;
    assert forall i :: 0 <= i < |line| ==> line[i] != '\r' && line[i] != '\n';
    Collects(p, line, s);
    assert p.line + line == line && s[0] == '\n' && s[1..] == more;
    LineForgets(p, line, line, false);
    assert Byte(p.(line := line), '\n') == Line(p, line).(line := "");
  }

  lemma LongLineIs(p: Parse)
    ensures Line(p, LongLine()) == if |p.data| + MAX_LINE - 5 > MAX_EVENT then p.(fatal := true)
                                   else p.(data := p.data + LongValue() + "\n")
  {
    assert forall i :: 0 <= i < |LongValue()| ==> LongValue()[i] != NUL;
    DataField(LongValue());
  }

  lemma DataField(value: string)
    requires NUL !in value
    ensures var line := "data: " + value; CString(line) == line && Field(line) == "data" && Value(line) == value
  {
    var line := "data: " + value;
    CStringWhole(line);
    assert line[4] == ':' && line[..4] == "data" && Find(line, ':') == 4 by {
      assert forall k :: 0 <= k < 4 ==> line[k] == "data"[k];
    }
    assert line[6..] == value;
  }

  /** Eight such lines fit into one event. */
  lemma {:induction false} LongLinesFit(id: string, n: nat, more: string) returns (q: Parse)
    requires n <= 8
    ensures Feed(Fresh(id), LongLines(n) + more) == Feed(q, more)
    ensures q.line == "" && !q.cr && !q.fatal && q.posted == [] && |q.data| == 0xF_FFFB * n
    decreases n
  {
    if n == 0 {
      q := Fresh(id);
      assert LongLines(0) + more == more;
    } else {
      var next := LongLine() + ("\n" + more);
      Glue(LongLines(n - 1), LongLine(), more);
      var r := LongLinesFit(id, n - 1, next);
      OneLongLine(r, more);
      LongLineIs(r);
      q := Line(r, LongLine());
    }
  }

  /** The ninth does not.  If the empty line comes in the same chunk, a message with the first eight lines is
      posted; in the next chunk it is ignored. */
  lemma CutMakesADifference(id: string)
    ensures var a, b := LongLines(9), "\n";
            Write(Write(Fresh(id), a), b).posted == [] && |Write(Fresh(id), a + b).posted| == 1
  {
    var a, b := LongLines(9), "\n";
    NineLines(id, "");
    NineLines(id, b);
    assert a + "" == a && b[1..] == "";
  }

  lemma Glue(a: string, line: string, more: string)
    ensures a + (line + "\n") + more == a + (line + ("\n" + more))
  {
  }

  lemma NineLines(id: string, more: string)
    requires more == "" || more == "\n"
    ensures Feed(Fresh(id), LongLines(9) + more).fatal
    ensures |Feed(Fresh(id), LongLines(9) + more).posted| == |more|
  {
    var next := LongLine() + ("\n" + more);
    Glue(LongLines(8), LongLine(), more);
    var q := LongLinesFit(id, 8, next);
    OneLongLine(q, more);
    LongLineIs(q);
    LastByte(q.(fatal := true), more);
  }

  lemma LastByte(q: Parse, more: string)
    requires q.line == "" && !q.cr && q.fatal && q.data != "" && q.posted == [] && (more == "" || more == "\n")
    ensures Feed(q, more).fatal && |Feed(q, more).posted| == |more|
  {
    if more != "" { assert more[0] == '\n' && more[1..] == "" && Feed(q, more) == Byte(q, '\n'); }
  }
}
