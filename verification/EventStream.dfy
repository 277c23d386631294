/** Server-sent events as the gateway prints and reads them (WHATWG HTML, section 9.2.6):
    the printers, and what a text means when it is read as a whole. */
module EventStream {
  import opened Wrappers
  import opened PythonText

  datatype Event = Event(name: string, data: string)

  /** What the gateway writes to a stream. */
  datatype Item = Message(event: Event) | Keepalive

  /** `sse_event`, with the payload already rendered as JSON text. */
  function PrintEvent(e: Event): string {
    "event: " + e.name + "\ndata: " + e.data + "\n\n"
  }

  function PrintItem(item: Item): string {
    match item
    case Message(e) => PrintEvent(e)
    case Keepalive => ": keepalive\n\n"
  }

  function Print(items: seq<Item>): string {
    if items == [] then "" else PrintItem(items[0]) + Print(items[1..])
  }

  function Messages(items: seq<Item>): seq<Event> {
    if items == [] then [] else
    (if items[0].Message? then [items[0].event] else []) + Messages(items[1..])
  }

  // ---------------------------------------------------------------------------
  // Lines
  // ---------------------------------------------------------------------------

  /** The first line break at or after `i`, or the length if there is none. */
  function LineEnd(s: string, i: nat): (r: nat)
    requires i <= |s|
    ensures i <= r <= |s|
    ensures forall k :: i <= k < r ==> !IsLineBreak(s[k])
    ensures r < |s| ==> IsLineBreak(s[r])
    decreases |s| - i
  {
    if i == |s| || IsLineBreak(s[i]) then i else LineEnd(s, i + 1)
  }

  function BreakWidth(s: string, i: nat): (w: nat)
    requires i < |s|
    ensures 1 <= w && i + w <= |s|
  {
    if s[i] == '\r' && i + 1 < |s| && s[i + 1] == '\n' then 2 else 1
  }

  /** `str.splitlines()` */
  function SplitLines(s: string): (lines: seq<string>)
    ensures forall l :: l in lines ==> OneLine(l)
    decreases |s|
  {
    if s == "" then [] else
    var i := LineEnd(s, 0);
    if i == |s| then [s] else [s[..i]] + SplitLines(s[i + BreakWidth(s, i)..])
  }

  // ---------------------------------------------------------------------------
  // One block
  // ---------------------------------------------------------------------------

  const EVENT_FIELD := "event:"
  const DATA_FIELD := "data:"
  const DEFAULT_NAME := "message"

  function NameOf(line: string): (r: string)
    requires StartsWith(line, EVENT_FIELD)
    ensures OneLine(line) ==> CleanName(r)
  {
    var name := Strip(line[6..]);
    assert OneLine(line) ==> OneLine(name) by { if OneLine(line) { StripOneLine(line[6..]); } }
    if name == "" then DEFAULT_NAME else name
  }

  /** The name that the last `event:` line gives. */
  function EventName(lines: seq<string>): (r: string)
    ensures (forall l :: l in lines ==> OneLine(l)) ==> CleanName(r)
  {
    if lines == [] then DEFAULT_NAME else
    var last := lines[|lines| - 1];
    if StartsWith(last, EVENT_FIELD) then NameOf(last) else EventName(lines[..|lines| - 1])
  }

  /** The trimmed values of the `data:` lines. */
  function DataLines(lines: seq<string>): seq<string> {
    if lines == [] then [] else
    var last := lines[|lines| - 1];
    DataLines(lines[..|lines| - 1]) + (if StartsWith(last, DATA_FIELD) then [Strip(last[5..])] else [])
  }

  /** `"\n".join(parts)` */
  function JoinLines(parts: seq<string>): string {
    if parts == [] then ""
    else if |parts| == 1 then parts[0]
    else JoinLines(parts[..|parts| - 1]) + "\n" + parts[|parts| - 1]
  }

  function ParseLines(lines: seq<string>): Option<Event> {
    if DataLines(lines) == [] then None else Some(Event(EventName(lines), JoinLines(DataLines(lines))))
  }

  function ParseBlock(raw: string): Option<Event> {
    ParseLines(SplitLines(raw))
  }

  function Yielded(e: Option<Event>): seq<Event> {
    if e.Some? then [e.value] else []
  }

  // ---------------------------------------------------------------------------
  // A whole text
  // ---------------------------------------------------------------------------

  predicate BlankLineAt(s: string, i: int) {
    0 <= i && i + 1 < |s| && s[i] == '\n' && s[i + 1] == '\n'
  }

  /** Where the first complete block ends, looking from `i` on. */
  function BlockEnd(s: string, i: nat): (r: Option<nat>)
    requires i <= |s|
    ensures r.Some? ==> i <= r.value && BlankLineAt(s, r.value)
    ensures r.Some? ==> forall k :: i <= k < r.value ==> !BlankLineAt(s, k)
    ensures r.None? ==> forall k :: i <= k ==> !BlankLineAt(s, k)
    decreases |s| - i
  {
    if i + 1 >= |s| then None
    else if BlankLineAt(s, i) then Some(i)
    else BlockEnd(s, i + 1)
  }

  /** The events of the complete blocks of a text, and what is left after the last of them. */
  datatype Reading = Reading(events: seq<Event>, rest: string)

  function Read(text: string): (r: Reading)
    ensures BlockEnd(r.rest, 0).None?
    decreases |text|
  {
    match BlockEnd(text, 0)
    case None => Reading([], text)
    case Some(i) =>
      var tail := Read(text[i + 2..]);
      Reading(Yielded(ParseBlock(text[..i])) + tail.events, tail.rest)
  }

  lemma BlockEndIs(s: string, i: nat)
    requires BlankLineAt(s, i) && forall k :: 0 <= k < i ==> !BlankLineAt(s, k)
    ensures BlockEnd(s, 0) == Some(i)
  {
  }

  /** Reading can stop anywhere and go on from what was left. */
  lemma {:induction false} ReadInTwoParts(a: string, b: string)
    ensures Read(a + b).events == Read(a).events + Read(Read(a).rest + b).events
    ensures Read(a + b).rest == Read(Read(a).rest + b).rest
    decreases |a|
  {
    match BlockEnd(a, 0)
    case None =>
      assert Read(a) == Reading([], a);
      assert [] + Read(a + b).events == Read(a + b).events;
    case Some(i) =>
      var tail := a[i + 2..];
      FirstBlock(a, b, i);
      ReadInTwoParts(tail, b);
      Associative(Yielded(ParseBlock(a[..i])), Read(tail).events, Read(Read(tail).rest + b).events);
  }

  lemma Associative<T>(x: seq<T>, y: seq<T>, z: seq<T>)
    ensures (x + y) + z == x + (y + z)
  {
  }

  /** More text behind it does not change the first complete block. */
  lemma FirstBlock(a: string, b: string, i: nat)
    requires BlockEnd(a, 0) == Some(i)
    ensures Read(a + b).events == Yielded(ParseBlock(a[..i])) + Read(a[i + 2..] + b).events
    ensures Read(a + b).rest == Read(a[i + 2..] + b).rest
  {
    forall k | 0 <= k < i ensures !BlankLineAt(a + b, k) {
      assert !BlankLineAt(a, k);
    }
    BlockEndIs(a + b, i);
    assert (a + b)[..i] == a[..i] && (a + b)[i + 2..] == a[i + 2..] + b;
  }

  // ---------------------------------------------------------------------------
  // Reading what was printed
  // ---------------------------------------------------------------------------

  /** The names that survive printing and reading. */
  predicate CleanName(name: string) {
    name != "" && OneLine(name) && Trimmed(name)
  }

  /** The data that survives it. */
  predicate CleanData(data: string) {
    OneLine(data) && Trimmed(data)
  }

  predicate Clean(item: Item) {
    item.Message? ==> CleanName(item.event.name) && CleanData(item.event.data)
  }
}
