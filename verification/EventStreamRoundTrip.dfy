/** Reading undoes printing, and exactly when it does. */
module EventStreamRoundTrip {
  import opened Wrappers
  import opened PythonText
  import opened EventStream

  // ---------------------------------------------------------------------------
  // Splitting a text at a known line break
  // ---------------------------------------------------------------------------

  lemma {:induction false} LineEndIs(s: string, i: nat, r: nat)
    requires i <= r <= |s| && forall k :: i <= k < r ==> !IsLineBreak(s[k])
    requires r < |s| ==> IsLineBreak(s[r])
    ensures LineEnd(s, i) == r
    decreases r - i
  {
    if i < r {
      LineEndIs(s, i + 1, r);
    }
  }

  lemma SplitOneLine(line: string)
    requires OneLine(line) && line != ""
    ensures SplitLines(line) == [line]
  {
    LineEndIs(line, 0, |line|);
  }

  lemma SplitAtNewline(line: string, rest: string)
    requires OneLine(line)
    ensures SplitLines(line + "\n" + rest) == [line] + SplitLines(rest)
  {
    var s := line + "\n" + rest;
    LineEndIs(s, 0, |line|);
    assert s[..|line|] == line && s[|line| + 1..] == rest;
  }

  lemma StripBehindSpace(s: string)
    ensures Strip(" " + s) == Strip(s)
  {
    assert (" " + s)[1..] == s;
  }

  lemma DataLinesCons(line: string, lines: seq<string>)
    ensures DataLines([line] + lines) ==
            (if StartsWith(line, DATA_FIELD) then [Strip(line[5..])] else []) + DataLines(lines)
  {
    var all := [line] + lines;
    if lines == [] {
      assert all[..0] == [];
    } else {
      DataLinesCons(line, lines[..|lines| - 1]);
      assert all[..|all| - 1] == [line] + lines[..|lines| - 1];
      Associative(if StartsWith(line, DATA_FIELD) then [Strip(line[5..])] else [],
                  DataLines(lines[..|lines| - 1]),
                  if StartsWith(lines[|lines| - 1], DATA_FIELD) then [Strip(lines[|lines| - 1][5..])] else []);
    }
  }

  lemma {:induction false} EventNameCons(line: string, lines: seq<string>)
    requires forall l :: l in lines ==> !StartsWith(l, EVENT_FIELD)
    requires StartsWith(line, EVENT_FIELD)
    ensures EventName([line] + lines) == NameOf(line)
  {
    if lines != [] {
      var front, last := lines[..|lines| - 1], lines[|lines| - 1];
      EventNameCons(line, front);
      assert [line] + lines == [line] + front + [last];
      OtherLineBehind([line] + front, last);
    }
  }

  lemma OtherLineBehind(lines: seq<string>, last: string)
    requires !StartsWith(last, EVENT_FIELD)
    ensures EventName(lines + [last]) == EventName(lines)
  {
    assert (lines + [last])[..|lines|] == lines;
  }

  // ---------------------------------------------------------------------------
  // One printed event
  // ---------------------------------------------------------------------------

  function EventLine(name: string): string {
    "event: " + name
  }

  function DataLine(data: string): string {
    "data: " + data
  }

  /** The block that a printed event with a one-line name starts with. */
  lemma PrintedBlock(name: string, data: string, more: string, j: nat)
    requires OneLine(name) && j <= |data|
    requires BlankLineAt(data + "\n\n", j) && forall k :: 0 <= k < j ==> !BlankLineAt(data + "\n\n", k)
    ensures BlockEnd(PrintEvent(Event(name, data)) + more, 0) == Some(14 + |name| + j)
    ensures (PrintEvent(Event(name, data)) + more)[..14 + |name| + j] == EventLine(name) + "\n" + DataLine(data[..j])
  {
    var front := EventLine(name) + "\n" + "data: ";
    var text := PrintEvent(Event(name, data)) + more;
    assert text == front + (data + "\n\n") + more;
    forall k | 0 <= k < 14 + |name| + j ensures !BlankLineAt(text, k) {
      if k >= |front| {
        assert !BlankLineAt(data + "\n\n", k - |front|);
      } else {
        FrontHasNoBlankLine(name, k);
        assert text[k] == front[k];
        assert k + 1 < |front| ==> text[k + 1] == front[k + 1];
      }
    }
    assert BlankLineAt(text, 14 + |name| + j);
    BlockEndIs(text, 14 + |name| + j);
  }

  lemma FrontHasNoBlankLine(name: string, k: nat)
    requires OneLine(name)
    requires k < 14 + |name|
    ensures var front := EventLine(name) + "\n" + "data: ";
            |front| == 14 + |name| && (front[k] == '\n' ==> k + 1 < |front| && front[k + 1] == 'd')
  {
    var front := EventLine(name) + "\n" + "data: ";
    if 7 <= k < 7 + |name| {
      assert front[k] == name[k - 7];
    }
  }

  lemma LineKinds(name: string, data: string)
    ensures StartsWith(EventLine(name), EVENT_FIELD) && !StartsWith(EventLine(name), DATA_FIELD)
    ensures StartsWith(DataLine(data), DATA_FIELD) && !StartsWith(DataLine(data), EVENT_FIELD)
    ensures EventLine(name)[6..] == " " + name && DataLine(data)[5..] == " " + data
    ensures OneLine(name) ==> OneLine(EventLine(name))
  {
    assert EventLine(name)[0] == 'e' && DATA_FIELD[0] == 'd';
    assert DataLine(data)[0] == 'd' && EVENT_FIELD[0] == 'e';
  }

  lemma SplitAtBreak(s: string, n: nat, w: nat)
    requires n < |s| && OneLine(s[..n]) && IsLineBreak(s[n]) && w == BreakWidth(s, n)
    ensures SplitLines(s) == [s[..n]] + SplitLines(s[n + w..])
  {
    forall k | 0 <= k < n ensures !IsLineBreak(s[k]) {
      assert s[k] == s[..n][k];
    }
    LineEndIs(s, 0, n);
    SplitWhereLineEnds(s, n, w);
  }

  lemma SplitWhereLineEnds(s: string, n: nat, w: nat)
    requires n < |s| && LineEnd(s, 0) == n && w == BreakWidth(s, n)
    ensures SplitLines(s) == [s[..n]] + SplitLines(s[n + w..])
  {
  }

  lemma BehindBreak(front: string, x: string, i: nat, s: string, n: nat)
    requires i < |x| && s == front + x && n == |front| + i
    ensures n < |s| && s[n] == x[i] && BreakWidth(s, n) == BreakWidth(x, i)
    ensures s[n + BreakWidth(x, i)..] == x[i + BreakWidth(x, i)..]
    ensures s[..n] == front + x[..i]
  {
    assert i + 1 < |x| ==> s[n + 1] == x[i + 1];
  }

  function FirstLine(x: string): string {
    x[..LineEnd(x, 0)]
  }

  function LaterLines(x: string): seq<string> {
    var i := LineEnd(x, 0);
    if i == |x| then [] else SplitLines(x[i + BreakWidth(x, i)..])
  }

  /** A text with something unbroken in front of it splits like the text, the front joined
      to the first line. */
  lemma SplitBehind(front: string, x: string)
    requires front != "" && OneLine(front)
    ensures SplitLines(front + x) == [front + FirstLine(x)] + LaterLines(x)
  {
    assert OneLine(front + FirstLine(x));
    if LineEnd(x, 0) == |x| {
      assert FirstLine(x) == x;
      SplitOneLine(front + x);
      assert SplitLines(front + x) == [front + x] + [];
    } else {
      SplitBrokenBehind(front, x, LineEnd(x, 0));
    }
  }

  lemma SplitBrokenBehind(front: string, x: string, i: nat)
    requires i < |x| && OneLine(front + x[..i]) && IsLineBreak(x[i])
    ensures SplitLines(front + x) == [front + x[..i]] + SplitLines(x[i + BreakWidth(x, i)..])
  {
    var s, n, w := front + x, |front| + i, BreakWidth(x, i);
    BehindBreak(front, x, i, s, n);
    SplitInto(s, n, w, front + x[..i], x[i + w..]);
  }

  lemma SplitInto(s: string, n: nat, w: nat, line: string, rest: string)
    requires n < |s| && OneLine(line) && IsLineBreak(s[n]) && w == BreakWidth(s, n) && s[..n] == line && s[n + w..] == rest
    ensures SplitLines(s) == [line] + SplitLines(rest)
  {
    SplitAtBreak(s, n, w);
  }

  /** The data lines of `data: x`: the first is what stands before the first line break. */
  lemma FirstDataLine(x: string)
    ensures DataLines(SplitLines(DataLine(x))) == [Strip(FirstLine(x))] + DataLines(LaterLines(x))
  {
    SplitBehind("data: ", x);
    LineKinds("", FirstLine(x));
    StripBehindSpace(FirstLine(x));
    DataLinesCons(DataLine(FirstLine(x)), LaterLines(x));
  }

  /** What that block is parsed to. */
  lemma PrintedBlockParses(name: string, x: string)
    requires OneLine(name)
    ensures var e := ParseBlock(EventLine(name) + "\n" + DataLine(x));
            e.Some? && e.value.data == JoinLines([Strip(FirstLine(x))] + DataLines(LaterLines(x)))
  {
    LineKinds(name, x);
    SplitAtNewline(EventLine(name), DataLine(x));
    var lines := SplitLines(DataLine(x));
    DataLinesCons(EventLine(name), lines);
    assert [] + DataLines(lines) == DataLines(lines);
    FirstDataLine(x);
  }

  lemma CleanBlockParses(name: string, x: string)
    requires CleanName(name) && CleanData(x)
    ensures ParseBlock(EventLine(name) + "\n" + DataLine(x)) == Some(Event(name, x))
  {
    LineKinds(name, x);
    CleanNameSurvives(name);
    var lines := [DataLine(x)];
    assert OneLine(DataLine(x));
    SplitOneLine(DataLine(x));
    SplitAtNewline(EventLine(name), DataLine(x));
    DataLinesCons(EventLine(name), lines);
    DataLinesCons(DataLine(x), []);
    assert lines + [] == lines;
    StripBehindSpace(x);
    assert DataLines([EventLine(name)] + lines) == [x];
    forall l | l in lines ensures !StartsWith(l, EVENT_FIELD) { assert l == DataLine(x); }
    EventNameCons(EventLine(name), lines);
  }

  lemma CleanNameSurvives(name: string)
    requires CleanName(name)
    ensures NameOf(EventLine(name)) == name
  {
    LineKinds(name, "");
    StripBehindSpace(name);
  }

  lemma CleanEventEnds(e: Event, more: string)
    requires CleanName(e.name) && CleanData(e.data)
    ensures BlockEnd(PrintEvent(e) + more, 0) == Some(14 + |e.name| + |e.data|)
    ensures (PrintEvent(e) + more)[..14 + |e.name| + |e.data|] == EventLine(e.name) + "\n" + DataLine(e.data)
  {
    var x := e.data + "\n\n";
    forall k | 0 <= k < |e.data| ensures !BlankLineAt(x, k) {
      assert x[k] == e.data[k];
    }
    PrintedBlock(e.name, e.data, more, |e.data|);
    assert e.data[..|e.data|] == e.data;
  }

  /** Reading goes on behind the first block. */
  lemma ReadStep(text: string, i: nat, block: string, e: Event, more: string)
    requires BlockEnd(text, 0) == Some(i) && text[..i] == block && text[i + 2..] == more
    requires ParseBlock(block) == Some(e)
    ensures Read(text) == Reading([e] + Read(more).events, Read(more).rest)
  {
  }

  lemma CleanEventRead(e: Event, more: string)
    requires CleanName(e.name) && CleanData(e.data)
    ensures Read(PrintEvent(e) + more) == Reading([e] + Read(more).events, Read(more).rest)
  {
    CleanEventEnds(e, more);
    BehindPrinted(e, more);
    ReadClean(PrintEvent(e) + more, 14 + |e.name| + |e.data|, e, more);
  }

  lemma ReadClean(text: string, i: nat, e: Event, more: string)
    requires CleanName(e.name) && CleanData(e.data)
    requires BlockEnd(text, 0) == Some(i) && text[..i] == EventLine(e.name) + "\n" + DataLine(e.data) && text[i + 2..] == more
    ensures Read(text) == Reading([e] + Read(more).events, Read(more).rest)
  {
    CleanBlockParses(e.name, e.data);
    ReadStep(text, i, EventLine(e.name) + "\n" + DataLine(e.data), e, more);
  }

  lemma BehindPrinted(e: Event, more: string)
    ensures |PrintEvent(e)| == 14 + |e.name| + |e.data| + 2
    ensures (PrintEvent(e) + more)[14 + |e.name| + |e.data| + 2..] == more
  {
  }

  lemma KeepaliveIsSkipped(more: string)
    ensures Read(PrintItem(Keepalive) + more) == Read(more)
  {
    var text := ": keepalive\n\n" + more;
    forall k | 0 <= k < 11 ensures !BlankLineAt(text, k) {
      assert text[k] == ": keepalive"[k];
    }
    assert BlankLineAt(text, 11);
    BlockEndIs(text, 11);
    assert text[..11] == ": keepalive" && text[13..] == more;
    var line := ": keepalive";
    assert line[0] == ':' && DATA_FIELD[0] == 'd';
    SplitOneLine(line);
    DataLinesCons(line, []);
    assert [line] + [] == [line];
    assert ParseBlock(line) == None;
    assert [] + Read(more).events == Read(more).events;
  }

  /** Whatever clean events and keepalives were printed, reading gives the events back, in
      order, and nothing is left over. */
  lemma {:induction false} PrintedItemsAreRead(items: seq<Item>)
    requires forall i :: 0 <= i < |items| ==> Clean(items[i])
    ensures Read(Print(items)) == Reading(Messages(items), "")
  {
    if items == [] {
      assert Read("") == Reading([], "");
    } else {
      var more := Print(items[1..]);
      PrintedItemsAreRead(items[1..]);
      assert Print(items) == PrintItem(items[0]) + more;
      match items[0]
      case Message(e) => CleanEventRead(e, more);
      case Keepalive =>
        KeepaliveIsSkipped(more);
        assert [] + Messages(items[1..]) == Messages(items[1..]);
    }
  }

  // ---------------------------------------------------------------------------
  // Exactly when one event survives
  // ---------------------------------------------------------------------------

  /** The length of the joined data lines, with one line break behind each. */
  function Weight(ds: seq<string>): nat {
    if ds == [] then 0 else |ds[0]| + 1 + Weight(ds[1..])
  }

  lemma {:induction false} WeightConcat(a: seq<string>, b: seq<string>)
    ensures Weight(a + b) == Weight(a) + Weight(b)
  {
    if a == [] {
      assert a + b == b;
    } else {
      assert (a + b)[1..] == a[1..] + b;
      WeightConcat(a[1..], b);
    }
  }

  lemma {:induction false} JoinLength(ds: seq<string>)
    requires ds != []
    ensures |JoinLines(ds)| + 1 == Weight(ds)
  {
    if |ds| > 1 {
      var init, last := ds[..|ds| - 1], ds[|ds| - 1];
      JoinLength(init);
      assert ds == init + [last];
      WeightConcat(init, [last]);
    }
  }

  lemma SplitUnfolds(t: string)
    requires t != ""
    ensures SplitLines(t) == [FirstLine(t)] + LaterLines(t)
  {
    if LineEnd(t, 0) == |t| {
      assert FirstLine(t) == t;
      assert [t] + [] == [t];
    }
  }

  lemma {:induction false} DataFitsText(t: string)
    ensures Weight(DataLines(SplitLines(t))) <= |t|
    decreases |t|
  {
    if t != "" {
      SplitUnfolds(t);
      DataLinesCons(FirstLine(t), LaterLines(t));
      var first := if StartsWith(FirstLine(t), DATA_FIELD) then [Strip(FirstLine(t)[5..])] else [];
      WeightConcat(first, DataLines(LaterLines(t)));
      LaterDataFits(t);
      assert Weight(first) <= |FirstLine(t)|;
    }
  }

  lemma {:induction false} LaterDataFits(t: string)
    ensures FirstLine(t) == t || |FirstLine(t)| + 1 + Weight(DataLines(LaterLines(t))) <= |t|
    ensures FirstLine(t) == t ==> LaterLines(t) == []
    decreases |t|, 0
  {
    var i := LineEnd(t, 0);
    if i == |t| {
      assert FirstLine(t) == t;
    } else {
      var rest := LinesGoOn(t, i);
      DataFitsText(rest);
    }
  }

  lemma LinesGoOn(t: string, i: nat) returns (rest: string)
    requires i == LineEnd(t, 0) && i < |t|
    ensures |FirstLine(t)| + 1 + |rest| <= |t| && LaterLines(t) == SplitLines(rest)
    ensures FirstLine(t) != t
  {
    rest := t[i + BreakWidth(t, i)..];
  }

  predicate CleanNames(events: seq<Event>) {
    forall i :: 0 <= i < |events| ==> CleanName(events[i].name)
  }

  lemma CleanNamesConcat(a: seq<Event>, b: seq<Event>)
    requires CleanNames(a) && CleanNames(b)
    ensures CleanNames(a + b)
  {
  }

  lemma ParsedNameIsClean(raw: string)
    ensures CleanNames(Yielded(ParseBlock(raw)))
  {
  }

  lemma {:induction false} NamesReadAreClean(text: string)
    ensures CleanNames(Read(text).events)
    decreases |text|
  {
    match BlockEnd(text, 0)
    case None =>
    case Some(i) =>
      NamesReadAreClean(text[i + 2..]);
      ParsedNameIsClean(text[..i]);
      CleanNamesConcat(Yielded(ParseBlock(text[..i])), Read(text[i + 2..]).events);
  }

  /** The data read back from the first block is shorter than the data printed, unless the
      data printed was clean. */
  lemma DataLosesLength(y: string)
    ensures var read := JoinLines([Strip(FirstLine(y))] + DataLines(LaterLines(y)));
            |read| <= |y| && (|read| == |y| ==> CleanData(y))
  {
    var ds := [Strip(FirstLine(y))] + DataLines(LaterLines(y));
    JoinLength(ds);
    WeightConcat([Strip(FirstLine(y))], DataLines(LaterLines(y)));
    LaterDataFits(y);
    if FirstLine(y) == y {
      assert OneLine(y);
    }
  }

  lemma HeadRead(text: string, i: nat, block: string)
    requires BlockEnd(text, 0) == Some(i) && text[..i] == block && ParseBlock(block).Some?
    ensures Read(text).events != [] && Read(text).events[0] == ParseBlock(block).value
  {
  }

  lemma PrintedBlockRead(text: string, i: nat, name: string, y: string)
    requires OneLine(name) && BlockEnd(text, 0) == Some(i) && text[..i] == EventLine(name) + "\n" + DataLine(y)
    ensures Read(text).events != []
    ensures Read(text).events[0].data == JoinLines([Strip(FirstLine(y))] + DataLines(LaterLines(y)))
  {
    PrintedBlockParses(name, y);
    HeadRead(text, i, EventLine(name) + "\n" + DataLine(y));
  }

  /** The event that the first block of a printed event with a one-line name reads as. */
  lemma FirstEventRead(e: Event) returns (y: string)
    requires OneLine(e.name)
    ensures |y| <= |e.data| && (|y| == |e.data| ==> y == e.data)
    ensures Read(PrintEvent(e) + "").events != []
    ensures Read(PrintEvent(e) + "").events[0].data == JoinLines([Strip(FirstLine(y))] + DataLines(LaterLines(y)))
  {
    var x := e.data + "\n\n";
    assert BlankLineAt(x, |e.data|);
    var j := BlockEnd(x, 0).value;
    y := e.data[..j];
    PrintedBlock(e.name, e.data, "", j);
    PrintedBlockRead(PrintEvent(e) + "", 14 + |e.name| + j, e.name, y);
  }

  /** A printed event is read back as itself if and only if its name is a nonempty trimmed
      line and its data is a trimmed line, by the line breaks that `splitlines` honours. */
  lemma RoundTripExactly(e: Event)
    ensures Read(PrintEvent(e)).events == [e] <==> CleanName(e.name) && CleanData(e.data)
  {
    assert PrintEvent(e) + "" == PrintEvent(e);
    assert Read("") == Reading([], "");
    if CleanName(e.name) && CleanData(e.data) {
      CleanEventRead(e, "");
      assert [e] + [] == [e];
    }
    if Read(PrintEvent(e)).events == [e] {
      NamesReadAreClean(PrintEvent(e));
      assert CleanName(Read(PrintEvent(e)).events[0].name);
      var y := FirstEventRead(e);
      DataLosesLength(y);
    }
  }

  /** JSON text may hold U+2028 raw, and then the event comes back cut. */
  lemma LineSeparatorCutsData()
    ensures Read(PrintEvent(Event("log.line", "{\"line\": \"a\U{2028}b\"}"))).events
         != [Event("log.line", "{\"line\": \"a\U{2028}b\"}")]
  {
    var data := "{\"line\": \"a\U{2028}b\"}";
    assert IsLineBreak(data[11]);
    RoundTripExactly(Event("log.line", data));
  }

  // ---------------------------------------------------------------------------
  // Blocks that were not printed here
  // ---------------------------------------------------------------------------

  predicate LineEnding(ending: string) {
    ending in {"\n", "\r", "\r\n", "\U{B}", "\U{C}", "\U{1C}", "\U{1D}", "\U{1E}", "\U{85}", "\U{2028}", "\U{2029}"}
  }

  lemma EndingBreaks(ending: string)
    requires LineEnding(ending)
    ensures ending != "" && IsLineBreak(ending[0])
    ensures ending == "\r\n" || |ending| == 1
  {
  }

  /** Each of these ends a line, CR LF as one, and what follows is split on its own. */
  lemma BreakEndsLine(line: string, ending: string, rest: string)
    requires OneLine(line) && LineEnding(ending)
    requires ending == "\r" ==> rest == "" || rest[0] != '\n'
    ensures SplitLines(line + (ending + rest)) == [line] + SplitLines(rest)
  {
    EndingBreaks(ending);
    var s := ending + rest;
    assert s[|ending|..] == rest && s[..0] == "";
    assert line + s[..0] == line;
    assert BreakWidth(s, 0) == |ending| by {
      if |ending| == 1 && rest != "" { assert s[1] == rest[0]; }
    }
    SplitBrokenBehind(line, s, 0);
  }

  /** The name is `message` unless an `event:` line gives another. */
  lemma {:induction false} UnnamedIsMessage(lines: seq<string>)
    requires forall i :: 0 <= i < |lines| && StartsWith(lines[i], "event:") ==> Strip(lines[i][6..]) == ""
    ensures EventName(lines) == "message"
  {
    if lines != [] {
      UnnamedIsMessage(lines[..|lines| - 1]);
    }
  }

  /** Text added to the last of some pieces. */
  function WithLast(pieces: seq<string>, text: string): seq<string>
    requires pieces != []
  {
    pieces[..|pieces| - 1] + [pieces[|pieces| - 1] + text]
  }

  lemma WithLastTwice(pieces: seq<string>, a: string, b: string)
    requires pieces != []
    ensures WithLast(WithLast(pieces, a), b) == WithLast(pieces, a + b)
  {
    var n := |pieces| - 1;
    assert WithLast(pieces, a)[..n] == pieces[..n];
    assert (pieces[n] + a) + b == pieces[n] + (a + b);
  }

  /** A text cut at its line feeds. */
  function Pieces(s: string): (r: seq<string>)
    ensures r != []
  {
    if s == "" then [""] else
    var rest, last := Pieces(s[..|s| - 1]), s[|s| - 1];
    if last == '\n' then rest + [""] else WithLast(rest, [last])
  }

  lemma PiecesSnoc(s: string, c: char)
    ensures Pieces(s + [c]) == if c == '\n' then Pieces(s) + [""] else WithLast(Pieces(s), [c])
  {
    assert (s + [c])[..|s|] == s;
  }

  lemma {:induction false} PieceBehind(s: string, piece: string)
    requires '\n' !in piece
    ensures Pieces(s + piece) == WithLast(Pieces(s), piece)
  {
    if piece == "" {
      var front := Pieces(s);
      assert s + piece == s && front[|front| - 1] + piece == front[|front| - 1];
    } else {
      var init, last := piece[..|piece| - 1], piece[|piece| - 1];
      PieceBehind(s, init);
      assert init + [last] == piece;
      OneMoreBehind(s, init, last);
    }
  }

  lemma OneMoreBehind(s: string, init: string, last: char)
    requires Pieces(s + init) == WithLast(Pieces(s), init) && last != '\n'
    ensures Pieces(s + (init + [last])) == WithLast(Pieces(s), init + [last])
  {
    assert s + (init + [last]) == s + init + [last];
    PiecesSnoc(s + init, last);
    WithLastTwice(Pieces(s), init, [last]);
  }

  /** The data of a block, cut at its line feeds, are its data lines. */
  lemma {:induction false} DataLinesComeBack(ds: seq<string>)
    requires ds != [] && forall i :: 0 <= i < |ds| ==> '\n' !in ds[i]
    ensures Pieces(JoinLines(ds)) == ds
  {
    var init, last := ds[..|ds| - 1], ds[|ds| - 1];
    if init == [] {
      PieceBehind("", last);
      assert "" + last == last && WithLast([""], last) == ds;
    } else {
      DataLinesComeBack(init);
      assert ds == init + [last];
      OneMoreDataLine(init, last);
    }
  }

  lemma OneMoreDataLine(init: seq<string>, last: string)
    requires init != [] && Pieces(JoinLines(init)) == init && '\n' !in last
    ensures Pieces(JoinLines(init + [last])) == init + [last]
  {
    var front := JoinLines(init);
    assert (init + [last])[..|init|] == init;
    assert JoinLines(init + [last]) == front + ['\n'] + last;
    PiecesSnoc(front, '\n');
    PieceBehind(front + ['\n'], last);
    LastAdded(init, last);
  }

  lemma LastAdded(init: seq<string>, last: string)
    ensures WithLast(init + [""], last) == init + [last]
  {
    assert (init + [""])[..|init|] == init && "" + last == last;
  }
}
