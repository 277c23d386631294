/** Which memory records are put into a prompt: the eligible ones in order of score, as many as
    fit. How a record is scored and which contents are blocked are parameters. */
module MemorySelection {
  import opened PythonText
  import opened Wording

  datatype Record = Record(topic: string, memoryType: string, content: string)

  datatype Policy = Policy(maxMemories: nat, maxChars: nat, allowedTypes: set<string>)

  datatype Scored = Scored(score: real, record: Record)

  predicate Eligible(r: Record, blocked: Record -> bool, p: Policy) {
    && !blocked(r)
    && Strip(r.content) != ""
    && (p.allowedTypes == {} || Strip(OrElse(OrElse(r.topic, r.memoryType), "memory")) in p.allowedTypes ||
        r.memoryType in p.allowedTypes)
  }

  /** The eligible records with their scores, in the order given. */
  function Candidates(records: seq<Record>, score: Record -> real, blocked: Record -> bool, p: Policy): seq<Scored> {
    if records == [] then [] else
    var last := records[|records| - 1];
    var front := Candidates(records[..|records| - 1], score, blocked, p);
    if Eligible(last, blocked, p) then front + [Scored(score(last), last)] else front
  }

  // ---------------------------------------------------------------------------
  // Ranking
  // ---------------------------------------------------------------------------

  /** Highest score first. */
  predicate Descending(s: seq<Scored>) {
    forall i, j :: 0 <= i < j < |s| ==> s[i].score >= s[j].score
  }

  /** The candidates of one score, in order. */
  function OfScore(s: seq<Scored>, v: real): seq<Scored> {
    if s == [] then [] else (if s[0].score == v then [s[0]] else []) + OfScore(s[1..], v)
  }

  /** The same candidates, those of equal score in the same order. */
  ghost predicate StablyPermutes(s: seq<Scored>, t: seq<Scored>) {
    forall v :: OfScore(s, v) == OfScore(t, v)
  }

  /** Puts `x` before the first candidate that is not better. */
  function Insert(x: Scored, s: seq<Scored>): seq<Scored> {
    if s == [] || s[0].score <= x.score then [x] + s else [s[0]] + Insert(x, s[1..])
  }

  /** `list.sort(key=score, reverse=True)` */
  function Ranked(s: seq<Scored>): seq<Scored> {
    if s == [] then [] else Insert(s[0], Ranked(s[1..]))
  }

  lemma {:induction false} InsertDescends(x: Scored, s: seq<Scored>)
    requires Descending(s)
    ensures Descending(Insert(x, s))
    ensures forall y :: y in Insert(x, s) <==> y == x || y in s
  {
    if s != [] && s[0].score > x.score {
      InsertDescends(x, s[1..]);
      var t := Insert(x, s[1..]);
      forall j | 0 <= j < |t| ensures s[0].score >= t[j].score {
        assert t[j] in t;
        if t[j] != x { assert t[j] in s[1..]; }
      }
    }
  }

  lemma {:induction false} InsertIsStable(x: Scored, s: seq<Scored>, v: real)
    requires Descending(s)
    ensures OfScore(Insert(x, s), v) == OfScore([x] + s, v)
  {
    if s != [] && s[0].score > x.score {
      InsertIsStable(x, s[1..], v);
      var t := Insert(x, s);
      assert t[1..] == Insert(x, s[1..]) && ([x] + s)[1..] == s && ([x] + s[1..])[1..] == s[1..];
    }
  }

  lemma {:induction false} RankedIsStableSort(s: seq<Scored>)
    ensures Descending(Ranked(s)) && StablyPermutes(s, Ranked(s))
  {
    if s != [] {
      RankedIsStableSort(s[1..]);
      InsertDescends(s[0], Ranked(s[1..]));
      forall v ensures OfScore(s, v) == OfScore(Ranked(s), v) {
        InsertIsStable(s[0], Ranked(s[1..]), v);
        assert ([s[0]] + Ranked(s[1..]))[1..] == Ranked(s[1..]);
      }
    }
  }

  lemma {:induction false} OfScoreMembers(s: seq<Scored>, v: real)
    ensures OfScore(s, v) == [] <==> forall x :: x in s ==> x.score != v
    ensures OfScore(s, v) != [] ==> OfScore(s, v)[0] in s
  {
    if s != [] { OfScoreMembers(s[1..], v); }
  }

  /** In descending sequences with the same candidates the same one comes first. */
  lemma SameHead(s: seq<Scored>, t: seq<Scored>)
    requires s != [] && Descending(s) && Descending(t) && StablyPermutes(s, t)
    ensures t != [] && s[0] == t[0]
  {
    var v := s[0].score;
    OfScoreMembers(s, v);
    OfScoreMembers(t, v);
    assert OfScore(s, v) == OfScore(t, v);
    assert s[0] in s;
    var w := t[0].score;
    OfScoreMembers(s, w);
    OfScoreMembers(t, w);
    assert OfScore(s, w) == OfScore(t, w);
    assert t[0] in t;
    assert v <= w && w <= v;
    assert OfScore(s, v)[0] == s[0] && OfScore(t, v)[0] == t[0];
  }

  /** Only one descending sequence has the same candidates in the same order of equals: the
      ranking is determined by the scores and the order given. */
  lemma {:induction false} StableSortIsUnique(s: seq<Scored>, t: seq<Scored>)
    requires Descending(s) && Descending(t) && StablyPermutes(s, t)
    ensures s == t
  {
    if s == [] {
      if t != [] {
        SameHead(t, s);
      }
    } else {
      SameHead(s, t);
      forall v ensures OfScore(s[1..], v) == OfScore(t[1..], v) {
        assert OfScore(s, v) == OfScore(t, v);
        var head := if s[0].score == v then [s[0]] else [];
        assert OfScore(s, v)[|head|..] == OfScore(s[1..], v) && OfScore(t, v)[|head|..] == OfScore(t[1..], v);
      }
      StableSortIsUnique(s[1..], t[1..]);
    }
  }

  // ---------------------------------------------------------------------------
  // Selection
  // ---------------------------------------------------------------------------

  /** How much room a record is taken to need. */
  type Size = Record -> nat

  function Estimate(r: Record): nat {
    |Strip(r.content)| + |r.topic| + 12
  }

  function Room(records: seq<Record>, size: Size): nat {
    if records == [] then 0 else Room(records[..|records| - 1], size) + size(records[|records| - 1])
  }

  predicate Fits(chosen: seq<Record>, r: Record, size: Size, p: Policy) {
    |chosen| < p.maxMemories && Room(chosen, size) + size(r) <= p.maxChars
  }

  /** Those marked among the first `i` candidates. */
  function Marked(s: seq<Scored>, flags: seq<bool>, i: nat): seq<Record>
    requires |flags| == |s| && i <= |s|
  {
    if i == 0 then [] else Marked(s, flags, i - 1) + (if flags[i - 1] then [s[i - 1].record] else [])
  }

  ghost predicate MarkedIffFits(s: seq<Scored>, flags: seq<bool>, size: Size, p: Policy, i: nat)
    requires |flags| == |s| && i < |s|
  {
    flags[i] <==> Fits(Marked(s, flags, i), s[i].record, size, p)
  }

  /** A candidate is marked exactly when it fits beside those marked before it. */
  ghost predicate Greedy(s: seq<Scored>, flags: seq<bool>, size: Size, p: Policy) {
    |flags| == |s| && forall i :: 0 <= i < |s| ==> MarkedIffFits(s, flags, size, p, i)
  }

  /** What the loop has selected once it has gone through the first `i` candidates. */
  function SelectedBefore(s: seq<Scored>, size: Size, p: Policy, i: nat): (r: seq<Record>)
    requires i <= |s|
    ensures |r| <= i
  {
    if i == 0 then [] else
    var chosen := SelectedBefore(s, size, p, i - 1);
    if Fits(chosen, s[i - 1].record, size, p) then chosen + [s[i - 1].record] else chosen
  }

  function Selected(s: seq<Scored>, size: Size, p: Policy): seq<Record> {
    SelectedBefore(s, size, p, |s|)
  }

  predicate Taken(s: seq<Scored>, size: Size, p: Policy, i: nat)
    requires i < |s|
  {
    Fits(SelectedBefore(s, size, p, i), s[i].record, size, p)
  }

  lemma RoomSnoc(r: seq<Record>, size: Size, x: Record)
    ensures Room(r + [x], size) == Room(r, size) + size(x)
  {
    assert (r + [x])[..|r|] == r;
  }

  lemma SelectedStep(s: seq<Scored>, size: Size, p: Policy, i: nat)
    requires i < |s|
    ensures Taken(s, size, p, i) ==>
              SelectedBefore(s, size, p, i + 1) == SelectedBefore(s, size, p, i) + [s[i].record] &&
              Room(SelectedBefore(s, size, p, i + 1), size) == Room(SelectedBefore(s, size, p, i), size) + size(s[i].record)
    ensures !Taken(s, size, p, i) ==> SelectedBefore(s, size, p, i + 1) == SelectedBefore(s, size, p, i)
  {
    RoomSnoc(SelectedBefore(s, size, p, i), size, s[i].record);
  }

  lemma {:induction false} GreedyMarks(s: seq<Scored>, flags: seq<bool>, size: Size, p: Policy, i: nat)
    requires Greedy(s, flags, size, p) && i <= |s|
    ensures Marked(s, flags, i) == SelectedBefore(s, size, p, i)
  {
    if i > 0 {
      GreedyMarks(s, flags, size, p, i - 1);
      assert MarkedIffFits(s, flags, size, p, i - 1);
      SelectedStep(s, size, p, i - 1);
    }
  }

  lemma {:induction false} TakenMarks(s: seq<Scored>, flags: seq<bool>, size: Size, p: Policy, i: nat)
    requires |flags| == |s| && i <= |s|
    requires forall j :: 0 <= j < i ==> flags[j] == Taken(s, size, p, j)
    ensures Marked(s, flags, i) == SelectedBefore(s, size, p, i)
  {
    if i > 0 {
      TakenMarks(s, flags, size, p, i - 1);
      SelectedStep(s, size, p, i - 1);
    }
  }

  /** A record is taken exactly when it fits beside those taken before it: the marks of the
      loop are greedy, and they give its selection. */
  lemma SelectionIsGreedy(s: seq<Scored>, flags: seq<bool>, size: Size, p: Policy)
    requires |flags| == |s|
    ensures Greedy(s, flags, size, p) <==> forall i :: 0 <= i < |s| ==> flags[i] == Taken(s, size, p, i)
    ensures Greedy(s, flags, size, p) ==> Marked(s, flags, |s|) == Selected(s, size, p)
  {
    if forall i :: 0 <= i < |s| ==> flags[i] == Taken(s, size, p, i) {
      forall i | 0 <= i < |s| ensures MarkedIffFits(s, flags, size, p, i) {
        TakenMarks(s, flags, size, p, i);
      }
    }
    if Greedy(s, flags, size, p) {
      GreedyMarks(s, flags, size, p, |s|);
      forall i | 0 <= i < |s| ensures flags[i] == Taken(s, size, p, i) {
        GreedyMarks(s, flags, size, p, i);
        assert MarkedIffFits(s, flags, size, p, i);
      }
    }
  }

  lemma {:induction false} WithinLimits(s: seq<Scored>, size: Size, p: Policy, i: nat)
    requires i <= |s|
    ensures |SelectedBefore(s, size, p, i)| <= p.maxMemories && Room(SelectedBefore(s, size, p, i), size) <= p.maxChars
  {
    if i > 0 {
      WithinLimits(s, size, p, i - 1);
      SelectedStep(s, size, p, i - 1);
    }
  }

  lemma {:induction false} SelectionGrows(s: seq<Scored>, size: Size, p: Policy, i: nat, j: nat)
    requires i <= j <= |s|
    ensures SelectedBefore(s, size, p, i) <= SelectedBefore(s, size, p, j)
    ensures Room(SelectedBefore(s, size, p, i), size) <= Room(SelectedBefore(s, size, p, j), size)
  {
    if i < j {
      SelectionGrows(s, size, p, i, j - 1);
      SelectedStep(s, size, p, j - 1);
    }
  }

  /** If the number of memories was not reached, no candidate left out could be added. */
  lemma NoRejectedRecordFits(s: seq<Scored>, size: Size, p: Policy, i: nat)
    requires i < |s| && !Taken(s, size, p, i) && |Selected(s, size, p)| < p.maxMemories
    ensures Room(Selected(s, size, p), size) + size(s[i].record) > p.maxChars
  {
    SelectionGrows(s, size, p, i, |s|);
  }

  lemma {:induction false} FullStaysFull(s: seq<Scored>, size: Size, p: Policy, i: nat, j: nat)
    requires i <= j <= |s| && |SelectedBefore(s, size, p, i)| >= p.maxMemories
    ensures SelectedBefore(s, size, p, j) == SelectedBefore(s, size, p, i)
  {
    if i < j {
      FullStaysFull(s, size, p, i, j - 1);
      SelectedStep(s, size, p, j - 1);
    }
  }

  lemma NothingWithoutLimits(s: seq<Scored>, p: Policy)
    requires p.maxMemories == 0 || p.maxChars == 0
    ensures Selected(s, Estimate, p) == []
  {
    WithinLimits(s, Estimate, p, |s|);
    RoomIsPositive(Selected(s, Estimate, p), Estimate);
  }

  lemma RoomIsPositive(r: seq<Record>, size: Size)
    requires forall x :: size(x) > 0
    ensures r != [] ==> Room(r, size) > 0
  {
  }

  // ---------------------------------------------------------------------------
  // The records themselves
  // ---------------------------------------------------------------------------

  /** How a record is labelled: by its topic, or else by its type. */
  function Label(r: Record): string {
    if r.topic != "" then r.topic else if r.memoryType != "" then r.memoryType else "memory"
  }

  /** A record is used if it says something, is not blocked, and is of an allowed type: by its label
      without the spaces around it, or by its type as it stands. Without allowed types all are. */
  predicate MayBeUsed(r: Record, blocked: Record -> bool, p: Policy) {
    && !blocked(r) && !AllSpace(r.content)
    && (p.allowedTypes == {} || r.memoryType in p.allowedTypes || exists t :: t in p.allowedTypes && MeansName(Label(r), t))
  }

  lemma MayBeUsedIff(r: Record, blocked: Record -> bool, p: Policy)
    ensures Eligible(r, blocked, p) <==> MayBeUsed(r, blocked, p)
  {
    BlankIff(r.content);
    forall t ensures Strip(Label(r)) == t <==> MeansName(Label(r), t) {
      NameIff(Label(r), t);
    }
  }

  lemma {:induction false} CandidateIff(records: seq<Record>, score: Record -> real, blocked: Record -> bool, p: Policy, x: Scored)
    ensures x in Candidates(records, score, blocked, p) <==>
            x.record in records && Eligible(x.record, blocked, p) && x.score == score(x.record)
  {
    if records != [] {
      CandidateIff(records[..|records| - 1], score, blocked, p, x);
      assert records == records[..|records| - 1] + [records[|records| - 1]];
    }
  }

  lemma {:induction false} RankedIff(s: seq<Scored>, x: Scored)
    ensures x in Ranked(s) <==> x in s
  {
    if s != [] {
      RankedIff(s[1..], x);
      RankedIsStableSort(s[1..]);
      InsertDescends(s[0], Ranked(s[1..]));
      assert s == [s[0]] + s[1..];
    }
  }

  lemma {:induction false} SelectedFrom(s: seq<Scored>, size: Size, p: Policy, i: nat, r: Record)
    requires i <= |s| && r in SelectedBefore(s, size, p, i)
    ensures exists x :: x in s && x.record == r
  {
    var chosen := SelectedBefore(s, size, p, i - 1);
    if r in chosen {
      SelectedFrom(s, size, p, i - 1, r);
    } else {
      assert s[i - 1] in s && s[i - 1].record == r;
    }
  }

  lemma SelectionIsFromRecords(records: seq<Record>, score: Record -> real, blocked: Record -> bool, p: Policy)
    ensures forall r :: r in Selected(Ranked(Candidates(records, score, blocked, p)), Estimate, p) ==>
              r in records && MayBeUsed(r, blocked, p)
  {
    var all := Candidates(records, score, blocked, p);
    forall r | r in Selected(Ranked(all), Estimate, p) ensures r in records && MayBeUsed(r, blocked, p) {
      SelectedFrom(Ranked(all), Estimate, p, |Ranked(all)|, r);
      var x :| x in Ranked(all) && x.record == r;
      RankedIff(all, x);
      CandidateIff(records, score, blocked, p, x);
      MayBeUsedIff(r, blocked, p);
    }
  }

  lemma TakenIsSelected(s: seq<Scored>, size: Size, p: Policy, i: nat)
    requires i < |s| && Taken(s, size, p, i)
    ensures s[i].record in Selected(s, size, p)
  {
    SelectedStep(s, size, p, i);
    SelectionGrows(s, size, p, i + 1, |s|);
    var short := SelectedBefore(s, size, p, i + 1);
    assert short[|short| - 1] == s[i].record;
    assert Selected(s, size, p)[|short| - 1] == s[i].record;
  }

  /** Below the number of memories, every usable record that was left out is too long. */
  lemma NothingElseFits(records: seq<Record>, score: Record -> real, blocked: Record -> bool, p: Policy)
    requires |Selected(Ranked(Candidates(records, score, blocked, p)), Estimate, p)| < p.maxMemories
    ensures var selected := Selected(Ranked(Candidates(records, score, blocked, p)), Estimate, p);
            forall r :: r in records && MayBeUsed(r, blocked, p) && r !in selected ==>
              Room(selected, Estimate) + Estimate(r) > p.maxChars
  {
    var all := Candidates(records, score, blocked, p);
    var selected := Selected(Ranked(all), Estimate, p);
    forall r | r in records && MayBeUsed(r, blocked, p) && r !in selected
      ensures Room(selected, Estimate) + Estimate(r) > p.maxChars
    {
      var x := Scored(score(r), r);
      MayBeUsedIff(r, blocked, p);
      CandidateIff(records, score, blocked, p, x);
      RankedIff(all, x);
      var i :| 0 <= i < |Ranked(all)| && Ranked(all)[i] == x;
      if Taken(Ranked(all), Estimate, p, i) { TakenIsSelected(Ranked(all), Estimate, p, i); }
      NoRejectedRecordFits(Ranked(all), Estimate, p, i);
    }
  }

  // ---------------------------------------------------------------------------
  // The note that is made of them
  // ---------------------------------------------------------------------------

  /** The line of `build_memory_context_system_note` for a record, with its line break. */
  function NoteLine(r: Record): string {
    var content := Strip(r.content);
    "- [" + OrElse(Strip(Label(r)), "memory") + "] " + (if |content| <= 280 then content else content[..280]) + "\n"
  }

  /** The room estimated for a record covers its line exactly when its label is at most six
      characters longer than its topic: always with a topic, and without one if the type is short.
      For a content that the note cuts off it may cover more. */
  lemma LineFitsIff(r: Record)
    requires |Strip(r.content)| <= 280
    ensures |NoteLine(r)| <= Estimate(r) <==> |OrElse(Strip(Label(r)), "memory")| <= |r.topic| + 6
  {
  }

  lemma LabelFits(r: Record)
    requires !AllSpace(r.topic) || (r.topic == "" && |r.memoryType| <= 6)
    ensures |NoteLine(r)| <= Estimate(r)
  {
    BlankIff(r.topic);
    assert |OrElse(Strip(Label(r)), "memory")| <= |r.topic| + 6;
  }

  function NoteLength(records: seq<Record>): nat {
    if records == [] then 0 else NoteLength(records[..|records| - 1]) + |NoteLine(records[|records| - 1])|
  }

  /** The lines of selected records with topics fit the characters that the policy allows. */
  lemma {:induction false} NoteFits(records: seq<Record>)
    requires forall r :: r in records ==> !AllSpace(r.topic) || (r.topic == "" && |r.memoryType| <= 6)
    ensures NoteLength(records) <= Room(records, Estimate)
  {
    if records != [] {
      NoteFits(records[..|records| - 1]);
      LabelFits(records[|records| - 1]);
    }
  }

  // ---------------------------------------------------------------------------
  // The loops
  // ---------------------------------------------------------------------------

  method Score(records: seq<Record>, score: Record -> real, blocked: Record -> bool, p: Policy)
    returns (ranked: seq<Scored>)
    ensures ranked == Candidates(records, score, blocked, p)
  {
    ranked := [];
    var i := 0;
    while i < |records|
      invariant i <= |records|
      invariant ranked == Candidates(records[..i], score, blocked, p)
    {
      assert records[..i + 1][..i] == records[..i];
      if Eligible(records[i], blocked, p) {
        ranked := ranked + [Scored(score(records[i]), records[i])];
      }
      i := i + 1;
    }
    assert records[..i] == records;
  }

  /** `rank_promoted_memory_records` */
  method RankPromotedMemoryRecords(records: seq<Record>, score: Record -> real, blocked: Record -> bool, p: Policy)
    returns (selected: seq<Record>)
    ensures selected == Selected(Ranked(Candidates(records, score, blocked, p)), Estimate, p)
    ensures |selected| <= p.maxMemories && Room(selected, Estimate) <= p.maxChars
    ensures forall r :: r in selected ==> r in records && MayBeUsed(r, blocked, p)
    ensures |selected| < p.maxMemories ==>
              forall r :: r in records && MayBeUsed(r, blocked, p) && r !in selected ==>
                Room(selected, Estimate) + |Strip(r.content)| + |r.topic| + 12 > p.maxChars
  {
    SelectionIsFromRecords(records, score, blocked, p);
    if |Selected(Ranked(Candidates(records, score, blocked, p)), Estimate, p)| < p.maxMemories {
      NothingElseFits(records, score, blocked, p);
    }
    ghost var all := Ranked(Candidates(records, score, blocked, p));
    WithinLimits(all, Estimate, p, |all|);
    if p.maxMemories == 0 || p.maxChars == 0 {
      NothingWithoutLimits(all, p);
      return [];
    }
    var candidates := Score(records, score, blocked, p);
    selected := SelectInOrder(Ranked(candidates), Estimate, p);
  }

  method SelectInOrder(ranked: seq<Scored>, size: Size, p: Policy) returns (selected: seq<Record>)
    ensures selected == Selected(ranked, size, p)
  {
    selected := [];
    var total, i := 0, 0;
    while i < |ranked|
      invariant i <= |ranked|
      invariant selected == SelectedBefore(ranked, size, p, i) && total == Room(selected, size)
    {
      if |selected| >= p.maxMemories {
        FullStaysFull(ranked, size, p, i, |ranked|);
        return;
      }
      SelectedStep(ranked, size, p, i);
      var estimated := size(ranked[i].record);
      if total + estimated <= p.maxChars {
        selected := selected + [ranked[i].record];
        total := total + estimated;
      }
      i := i + 1;
    }
  }
}
