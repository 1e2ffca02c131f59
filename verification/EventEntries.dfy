/**
 What the lines of an event stream mean (HTML Standard, section 9.2.6), read from their text: which name and
 value a line gives, and which message the lines before an empty line make, in whatever order they come.
 */
module EventEntries {
  import opened Common
  import opened Strings
  import opened EventStream

  // ---------- one line ----------

  /** The line gives the field `name` this value: behind a colon and maybe a space, or the empty value without a
      colon.  A comment gives the empty name. */
  predicate Gives(line: string, name: string, value: string) {
    && ':' !in name
    && (line == name + ": " + value || (line == name + ":" + value && (value == "" || value[0] != ' ')) ||
        (line == name && value == ""))
  }

  /** Every line gives one name and one value. */
  lemma LineGives(line: string, name: string, value: string)
    ensures Gives(line, name, value) <==> name == Field(line) && value == Value(line)
  {
    GivesOwn(line);
    if Gives(line, name, value) {
      if line == name { ColonAt(line, |name|); } else { ColonAfter(line, name, value); }
    }
  }

  lemma ColonAt(line: string, i: nat)
    requires i <= |line| && (forall k :: 0 <= k < i ==> line[k] != ':') && (i < |line| ==> line[i] == ':')
    ensures Find(line, ':') == i
  {
  }

  lemma ColonAfter(line: string, name: string, value: string)
    requires Gives(line, name, value) && line != name
    ensures Field(line) == name && Value(line) == value
  {
    var i := |name|;
    assert line[..i] == name && line[i] == ':' && forall k :: 0 <= k < i ==> line[k] == name[k];
    ColonAt(line, i);
    if line == name + ": " + value {
      assert line[i + 1] == ' ' && line[i + 2..] == value;
    } else {
      assert line[i + 1..] == value;
    }
  }

  lemma GivesOwn(line: string)
    ensures Gives(line, Field(line), Value(line))
  {
    var i := Find(line, ':');
    if i < |line| {
      assert line == line[..i] + ":" + line[i + 1..];
      if i + 1 < |line| && line[i + 1] == ' ' { assert line == line[..i] + ": " + line[i + 2..]; }
    } else {
      assert line[..i] == line;
    }
  }

  /** A line and what it gives */
  datatype Entry = Entry(line: string, name: string, value: string)

  predicate IsEntry(e: Entry) {
    e.line != "" && NUL !in e.line && Gives(e.line, e.name, e.value)
  }

  lemma EntryRead(p: Parse, e: Entry)
    requires IsEntry(e)
    ensures Line(p, e.line) == SetField(p, e.name, e.value)
  {
    LineGives(e.line, e.name, e.value);
    CStringWhole(e.line);
    if e.line[0] == ':' { assert Find(e.line, ':') == 0; }
  }

  // ---------- the lines of an event ----------

  function LinesOf(entries: seq<Entry>): seq<string> {
    if entries == [] then [] else LinesOf(entries[..|entries| - 1]) + [entries[|entries| - 1].line]
  }

  /** The values that the lines give a field, in order. */
  function Values(entries: seq<Entry>, name: string): seq<string> {
    if entries == [] then []
    else
      var e := entries[|entries| - 1];
      Values(entries[..|entries| - 1], name) + if e.name == name then [e.value] else []
  }

  function Last(values: seq<string>, otherwise: string): string {
    if values == [] then otherwise else values[|values| - 1]
  }

  /** The values of data lines, each with a line feed behind it */
  function Terminated(values: seq<string>): string {
    if values == [] then "" else Terminated(values[..|values| - 1]) + (values[|values| - 1] + "\n")
  }

  function Join(values: seq<string>): string
    requires values != []
  {
    if |values| == 1 then values[0] else Join(values[..|values| - 1]) + "\n" + values[|values| - 1]
  }

  lemma {:induction false} JoinTerminated(values: seq<string>)
    requires values != []
    ensures Terminated(values) == Join(values) + "\n"
    decreases |values|
  {
    if |values| == 1 {
      assert Terminated(values[..0]) == "";
    } else {
      JoinTerminated(values[..|values| - 1]);
    }
  }

  /** The reconnection time after some retry lines: the last one that is a positive number counts. */
  function Reconnect(values: seq<string>, before: int): int {
    if values == [] then before
    else
      var v := values[|values| - 1];
      if v != "" && AllDigits(v) && Decimal(v) > 0 then (if Decimal(v) < MAX_RETRY then Decimal(v) else MAX_RETRY)
      else Reconnect(values[..|values| - 1], before)
  }

  function EventAfter(values: seq<string>, before: Option<string>): Option<string> {
    if values == [] then before
    else if values[|values| - 1] == "" then None else Some(values[|values| - 1])
  }

  /** What lines leave behind that give these values to the four fields */
  function Sum(p: Parse, data: seq<string>, event: seq<string>, id: seq<string>, retry: seq<string>): Parse {
    p.(data := p.data + Terminated(data), event := EventAfter(event, p.event), lastId := Last(id, p.lastId),
       retry := Reconnect(retry, p.retry))
  }

  function After(p: Parse, entries: seq<Entry>): Parse {
    Sum(p, Values(entries, "data"), Values(entries, "event"), Values(entries, "id"), Values(entries, "retry"))
  }

  lemma ValuesGrow(init: seq<Entry>, e: Entry, name: string)
    ensures Values(init + [e], name) == if e.name == name then Values(init, name) + [e.value] else Values(init, name)
  {
    assert (init + [e])[..|init|] == init && Values(init, name) + [] == Values(init, name);
  }

  lemma TerminatedGrows(values: seq<string>, value: string)
    ensures Terminated(values + [value]) == Terminated(values) + (value + "\n")
  {
    assert (values + [value])[..|values|] == values;
  }

  lemma SumData(p: Parse, data: seq<string>, event: seq<string>, id: seq<string>, retry: seq<string>, v: string)
    requires |p.data| + |Terminated(data + [v])| <= MAX_EVENT
    ensures |p.data| + |Terminated(data)| <= MAX_EVENT
    ensures SetField(Sum(p, data, event, id, retry), "data", v) == Sum(p, data + [v], event, id, retry)
  {
    TerminatedGrows(data, v);
    assert p.data + (Terminated(data) + (v + "\n")) == p.data + Terminated(data) + v + "\n";
  }

  lemma SumOther(p: Parse, data: seq<string>, event: seq<string>, id: seq<string>, retry: seq<string>, v: string)
    ensures SetField(Sum(p, data, event, id, retry), "event", v) == Sum(p, data, event + [v], id, retry)
    ensures SetField(Sum(p, data, event, id, retry), "id", v) == Sum(p, data, event, id + [v], retry)
    ensures SetField(Sum(p, data, event, id, retry), "retry", v) == Sum(p, data, event, id, retry + [v])
  {
    assert (retry + [v])[..|retry|] == retry;
  }

  lemma SumIgnored(p: Parse, name: string, v: string)
    requires name != "data" && name != "event" && name != "id" && name != "retry"
    ensures SetField(p, name, v) == p
  {
  }

  /** One more line */
  lemma AfterOne(p: Parse, init: seq<Entry>, e: Entry)
    requires |p.data| + |Terminated(Values(init + [e], "data"))| <= MAX_EVENT
    ensures |p.data| + |Terminated(Values(init, "data"))| <= MAX_EVENT
    ensures SetField(After(p, init), e.name, e.value) == After(p, init + [e])
  {
    var data, event, id, retry := Values(init, "data"), Values(init, "event"), Values(init, "id"), Values(init, "retry");
    ValuesGrow(init, e, "data");
    ValuesGrow(init, e, "event");
    ValuesGrow(init, e, "id");
    ValuesGrow(init, e, "retry");
    if e.name == "data" {
      SumData(p, data, event, id, retry, e.value);
    } else if e.name == "event" || e.name == "id" || e.name == "retry" {
      SumOther(p, data, event, id, retry, e.value);
    } else {
      SumIgnored(After(p, init), e.name, e.value);
    }
  }

  /** Each kind of line sets what it is for and nothing else, and of several of a kind the last one counts. */
  lemma {:induction false} EntriesRead(p: Parse, entries: seq<Entry>)
    requires (forall e :: e in entries ==> IsEntry(e)) && |p.data| + |Terminated(Values(entries, "data"))| <= MAX_EVENT
    ensures LineFold(p, LinesOf(entries)) == After(p, entries)
    decreases |entries|
  {
    if entries == [] {
      assert p.data + "" == p.data;
    } else {
      var init, e := entries[..|entries| - 1], entries[|entries| - 1];
      assert entries == init + [e];
      AfterOne(p, init, e);
      EntriesRead(p, init);
      FoldJoins(p, LinesOf(init), [e.line]);
      assert LineFold(After(p, init), [e.line]) == Line(After(p, init), e.line);
      EntryRead(After(p, init), e);
    }
  }

  /** The message that lines make, if an empty line follows them. */
  function Told(entries: seq<Entry>, lastId: string): seq<Message> {
    var data, event := Values(entries, "data"), Last(Values(entries, "event"), "");
    if data == [] then []
    else [Message(if event == "" then "message" else event, Join(data), Last(Values(entries, "id"), lastId))]
  }

  /** Lines and an empty line post one message if there is a data line among them, and none otherwise: its data
      are the values of the data lines joined by line feeds, its type is that of the last event line, its id that
      of the last id line, of whichever event. */
  lemma OneEvent(p: Parse, entries: seq<Entry>)
    requires p.data == "" && p.event == None && forall e :: e in entries ==> IsEntry(e)
    requires |Terminated(Values(entries, "data"))| <= MAX_EVENT
    ensures LineFold(p, LinesOf(entries) + [""]) ==
            p.(lastId := Last(Values(entries, "id"), p.lastId), retry := Reconnect(Values(entries, "retry"), p.retry),
               posted := p.posted + Told(entries, p.lastId))
  {
    var data, q := Values(entries, "data"), After(p, entries);
    EntriesRead(p, entries);
    FoldJoins(p, LinesOf(entries), [""]);
    assert LineFold(q, [""]) == Dispatch(q);
    EventEnds(q, data, Values(entries, "event"));
    if data == [] { assert p.posted + [] == p.posted; }
  }

  /** What an empty line posts */
  lemma EventEnds(q: Parse, data: seq<string>, events: seq<string>)
    requires q.data == Terminated(data) && q.event == EventAfter(events, None)
    ensures Dispatch(q) ==
            if data == [] then q.(event := None)
            else q.(event := None, data := "",
                    posted := q.posted + [Message(if Last(events, "") == "" then "message" else Last(events, ""),
                                                  Join(data), q.lastId)])
  {
    if data != [] {
      JoinTerminated(data);
      assert q.data[..|q.data| - 1] == Join(data);
    }
  }

  /** The bytes of some lines */
  function StreamOf(lines: seq<string>): string {
    if lines == [] then "" else lines[0] + "\n" + StreamOf(lines[1..])
  }

  lemma {:induction false} LinesOfStream(lines: seq<string>)
    requires forall l :: l in lines ==> '\n' !in l && '\r' !in l
    ensures Lines(StreamOf(lines)) == Split(lines, "")
    decreases lines
  {
    if lines != [] {
      var l, rest := lines[0], StreamOf(lines[1..]);
      var s := l + "\n" + rest;
      LinesOfStream(lines[1..]);
      FirstOfStream(l, rest, s);
      assert [l] + lines[1..] == lines;
    }
  }

  lemma FirstOfStream(l: string, rest: string, s: string)
    requires '\n' !in l && '\r' !in l && s == l + "\n" + rest
    ensures LineEnd(s) == |l| && |l| < |s| && s[..|l|] == l && s[|l| + EndLength(s, |l|)..] == rest
  {
    var i := LineEnd(s);
    assert s[|l|] == '\n';
    assert forall k :: 0 <= k < |l| ==> s[k] == l[k] && l[k] in l;
    assert i >= |l|;
  }

  lemma {:induction false} FoldJoins(p: Parse, a: seq<string>, b: seq<string>)
    ensures LineFold(p, a + b) == LineFold(LineFold(p, a), b)
    decreases a
  {
    if a == [] {
      assert a + b == b;
    } else {
      assert (a + b)[1..] == a[1..] + b;
      FoldJoins(Line(p, a[0]), a[1..], b);
    }
  }

  lemma {:induction false} LinesOfAre(entries: seq<Entry>, l: string)
    requires l in LinesOf(entries)
    ensures exists e :: e in entries && l == e.line
    decreases |entries|
  {
    if l == entries[|entries| - 1].line {
    } else {
      LinesOfAre(entries[..|entries| - 1], l);
    }
  }

  /** And so do their bytes. */
  lemma BytesPostOneEvent(p: Parse, entries: seq<Entry>)
    requires p.data == "" && p.event == None && p.line == "" && !p.cr && |Terminated(Values(entries, "data"))| <= MAX_EVENT
    requires forall e :: e in entries ==> IsEntry(e) && '\n' !in e.line && '\r' !in e.line && |e.line| <= MAX_LINE
    ensures Feed(p, StreamOf(LinesOf(entries) + [""])).posted == p.posted + Told(entries, p.lastId)
  {
    var lines := LinesOf(entries) + [""];
    forall l | l in lines ensures '\n' !in l && '\r' !in l && |l| <= MAX_LINE {
      if l in LinesOf(entries) { LinesOfAre(entries, l); }
    }
    LinesOfStream(lines);
    FeedIsLines(p, StreamOf(lines));
    OneEvent(p, entries);
    assert Feed(p, StreamOf(lines)).posted == Feed(p, StreamOf(lines)).(cr := false).posted;
  }
}
