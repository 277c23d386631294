/** `iter_runtime_sse_events`: the incremental reader. It keeps a buffer, appends each
    chunk to it, and cuts complete blocks off its front. */
module SseReader {
  import opened Wrappers
  import opened PythonText
  import opened EventStream

  function Flatten(parts: seq<seq<Event>>): seq<Event> {
    if parts == [] then [] else Flatten(parts[..|parts| - 1]) + parts[|parts| - 1]
  }

  /** The line loop: a later `event:` line replaces the name, `data:` lines pile up. */
  method ReadBlock(raw: string) returns (e: Option<Event>)
    ensures e == ParseBlock(raw)
  {
    var lines := SplitLines(raw);
    var name := DEFAULT_NAME;
    var data: seq<string> := [];
    for i := 0 to |lines|
      invariant name == EventName(lines[..i]) && data == DataLines(lines[..i])
    {
      var line := lines[i];
      assert lines[..i + 1][..i] == lines[..i];
      if StartsWith(line, ":") {
        assert line[0] == ':' && EVENT_FIELD[0] == 'e' && DATA_FIELD[0] == 'd';
        continue;
      }
      if StartsWith(line, EVENT_FIELD) {
        name := NameOf(line);
      } else if StartsWith(line, DATA_FIELD) {
        data := data + [Strip(line[5..])];
      }
    }
    assert lines[..|lines|] == lines;
    if data == [] {
      return None;
    }
    return Some(Event(name, JoinLines(data)));
  }

  /** Cuts the complete blocks off a buffer. */
  method Drain(buffer0: string) returns (events: seq<Event>, buffer: string)
    ensures Reading(events, buffer) == Read(buffer0)
  {
    events, buffer := [], buffer0;
    while BlockEnd(buffer, 0).Some?
      invariant events + Read(buffer).events == Read(buffer0).events
      invariant Read(buffer).rest == Read(buffer0).rest
      decreases |buffer|
    {
      var i := BlockEnd(buffer, 0).value;
      var e := ReadBlock(buffer[..i]);
      Associative(events, Yielded(e), Read(buffer[i + 2..]).events);
      events, buffer := events + Yielded(e), buffer[i + 2..];
    }
    assert Read(buffer) == Reading([], buffer);
    assert events + [] == events;
  }

  /** What has been yielded after `n` chunks is exactly what the text received so far contains. */
  ghost predicate Prompt(chunks: seq<string>, perChunk: seq<seq<Event>>, n: nat)
    requires n <= |chunks| == |perChunk|
  {
    Flatten(perChunk[..n]) == Read(Concat(chunks[..n])).events
  }

  ghost predicate AllPrompt(chunks: seq<string>, perChunk: seq<seq<Event>>) {
    |perChunk| == |chunks| && forall n :: 0 <= n <= |chunks| ==> Prompt(chunks, perChunk, n)
  }

  /** The events yielded after each chunk, however the text was cut. */
  method IterRuntimeSseEvents(chunks: seq<string>) returns (perChunk: seq<seq<Event>>)
    ensures AllPrompt(chunks, perChunk)
    ensures Flatten(perChunk) == Read(Concat(chunks)).events
  {
    perChunk := [];
    var buffer := "";
    assert Read("") == Reading([], "");
    for i := 0 to |chunks|
      invariant buffer == Read(Concat(chunks[..i])).rest
      invariant AllPrompt(chunks[..i], perChunk)
    {
      var events, rest := Drain(buffer + chunks[i]);
      NextChunk(chunks, perChunk, i, events, rest);
      perChunk, buffer := perChunk + [events], rest;
    }
    assert chunks[..|chunks|] == chunks && perChunk[..|chunks|] == perChunk;
    assert Prompt(chunks, perChunk, |chunks|);
  }

  lemma NextChunk(chunks: seq<string>, perChunk: seq<seq<Event>>, i: nat, events: seq<Event>, rest: string)
    requires i < |chunks| && AllPrompt(chunks[..i], perChunk)
    requires Reading(events, rest) == Read(Read(Concat(chunks[..i])).rest + chunks[i])
    ensures rest == Read(Concat(chunks[..i + 1])).rest
    ensures AllPrompt(chunks[..i + 1], perChunk + [events])
  {
    ReadInTwoParts(Concat(chunks[..i]), chunks[i]);
    assert chunks[..i + 1] == chunks[..i] + [chunks[i]];
    ConcatSnoc(chunks[..i], chunks[i]);
    FlattenSnoc(perChunk, events);
    var next, more := perChunk + [events], chunks[..i + 1];
    forall n | 0 <= n <= |more| ensures Prompt(more, next, n) {
      if n <= i {
        assert Prompt(chunks[..i], perChunk, n);
        assert next[..n] == perChunk[..n] && more[..n] == chunks[..i][..n];
      } else {
        assert Prompt(chunks[..i], perChunk, i);
        assert perChunk[..i] == perChunk && chunks[..i][..i] == chunks[..i];
        assert next[..n] == next && more[..n] == more;
      }
    }
  }

  lemma FlattenSnoc(parts: seq<seq<Event>>, last: seq<Event>)
    ensures Flatten(parts + [last]) == Flatten(parts) + last
  {
    assert (parts + [last])[..|parts|] == parts;
  }
}
