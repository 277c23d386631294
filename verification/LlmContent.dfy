/** The texts of LLM calls: short ones are kept in the row of the call, long calls in a store
    that keeps equal contents once. Contents are equal when their hashes are; the hash is taken
    as free of collisions, so that it is the hashed text itself. */
module LlmContent {
  import opened Wrappers

  datatype Texts = Texts(prompt: string, response: string, reasoning: string, system: string)

  datatype Part = Prompt | Response | Reasoning | System

  function TextOf(t: Texts, p: Part): string {
    match p
    case Prompt => t.prompt
    case Response => t.response
    case Reasoning => t.reasoning
    case System => t.system
  }

  datatype Config = Config(enabled: bool, maxChars: nat, threshold: nat)

  const SUFFIX := "...[content truncated]"

  /** `_truncate_content` */
  function Truncate(c: Config, text: string): string {
    if |text| <= c.maxChars then text else text[..c.maxChars] + SUFFIX
  }

  function Truncated(c: Config, t: Texts): Texts {
    Texts(Truncate(c, t.prompt), Truncate(c, t.response), Truncate(c, t.reasoning), Truncate(c, t.system))
  }

  function Size(t: Texts): nat {
    |t.prompt| + |t.response| + |t.reasoning| + |t.system|
  }

  /** The text that is hashed. */
  function Combined(t: Texts): string {
    t.prompt + ("|" + (t.response + ("|" + (t.reasoning + ("|" + t.system)))))
  }

  // ---------------------------------------------------------------------------
  // Rows
  // ---------------------------------------------------------------------------

  /** What a row of a call or of the content store holds for each text. */
  datatype Held = Held(prompt: Option<string>, response: Option<string>, reasoning: Option<string>, system: Option<string>)

  function HeldOf(h: Held, p: Part): Option<string> {
    match p
    case Prompt => h.prompt
    case Response => h.response
    case Reasoning => h.reasoning
    case System => h.system
  }

  datatype CallRow = CallRow(id: string, inline: Held, contentRef: Option<string>)
  datatype ContentRow = ContentRow(owner: string, texts: Held)
  datatype Store = Store(calls: seq<CallRow>, contents: map<string, ContentRow>)

  const EMPTY := Store([], map[])

  /** A call to be recorded. `accepted` tells whether the transaction that writes the content
      store commits: it runs while the row of the call is still uncommitted, which a database
      that enforces the reference from the content row refuses. */
  datatype Call = Call(id: string, texts: Texts, accepted: bool)

  function Short(c: Config, text: string): Option<string> {
    if |text| <= c.threshold then Some(text) else None
  }

  function Inline(c: Config, t: Texts): Held {
    Held(Short(c, t.prompt), Short(c, t.response), Short(c, t.reasoning), Short(c, t.system))
  }

  function NonEmpty(text: string): Option<string> {
    if text != "" then Some(text) else None
  }

  function Packed(t: Texts): Held {
    Held(NonEmpty(t.prompt), NonEmpty(t.response), NonEmpty(t.reasoning), NonEmpty(t.system))
  }

  predicate Large(c: Config, t: Texts) {
    c.enabled && Size(Truncated(c, t)) > c.threshold
  }

  predicate GoesToStore(c: Config, call: Call) {
    call.accepted && Large(c, call.texts)
  }

  function HashOf(c: Config, t: Texts): string {
    Combined(Truncated(c, t))
  }

  /** The content store after `_store_llm_content`: a row with the same hash is kept and only
      repointed. */
  function Deposit(c: Config, contents: map<string, ContentRow>, call: Call): map<string, ContentRow> {
    if !GoesToStore(c, call) then contents else
    var h := HashOf(c, call.texts);
    contents[h := ContentRow(call.id, if h in contents then contents[h].texts else Packed(Truncated(c, call.texts)))]
  }

  function RowOf(c: Config, call: Call): CallRow {
    CallRow(call.id, Inline(c, call.texts), if GoesToStore(c, call) then Some(HashOf(c, call.texts)) else None)
  }

  function Record(c: Config, s: Store, call: Call): Store {
    Store(s.calls + [RowOf(c, call)], Deposit(c, s.contents, call))
  }

  function Run(c: Config, calls: seq<Call>): Store {
    if calls == [] then EMPTY else Record(c, Run(c, calls[..|calls| - 1]), calls[|calls| - 1])
  }

  /** What the detail of a call shows. */
  function Detail(contents: map<string, ContentRow>, row: CallRow): Held {
    match row.contentRef
    case Some(h) => if h in contents then contents[h].texts else row.inline
    case None => row.inline
  }

  // ---------------------------------------------------------------------------
  // The store in place
  // ---------------------------------------------------------------------------

  class ContentStore {
    const config: Config
    var calls: seq<CallRow>
    var contents: map<string, ContentRow>

    function View(): Store
      reads this
    {
      Store(calls, contents)
    }

    constructor (c: Config)
      ensures config == c && View() == EMPTY
    {
      config, calls, contents := c, [], map[];
    }

    /** The hash under which the content was stored, or nothing. */
    method StoreLlmContent(call: Call) returns (ref: Option<string>)
      modifies this`contents
      ensures contents == Deposit(config, old(contents), call)
      ensures ref == RowOf(config, call).contentRef
    {
      if !config.enabled { return None; }
      var kept := Truncated(config, call.texts);
      if Size(kept) <= config.threshold { return None; }
      if !call.accepted { return None; }
      var h := Combined(kept);
      if h in contents {
        contents := contents[h := contents[h].(owner := call.id)];
      } else {
        contents := contents[h := ContentRow(call.id, Packed(kept))];
      }
      return Some(h);
    }

    method RecordCall(call: Call)
      modifies this
      ensures View() == Record(config, old(View()), call)
    {
      var row := CallRow(call.id, Inline(config, call.texts), None);
      var ref := StoreLlmContent(call);
      calls := calls + [row.(contentRef := ref)];
    }

    method GetLlmCallDetail(id: string) returns (detail: Option<Held>)
      ensures detail.None? <==> forall row :: row in calls ==> row.id != id
      ensures detail.Some? ==> exists row :: row in calls && row.id == id && detail.value == Detail(contents, row)
    {
      var i := 0;
      while i < |calls| && calls[i].id != id
        invariant i <= |calls|
        invariant forall j :: 0 <= j < i ==> calls[j].id != id
      {
        i := i + 1;
      }
      if i == |calls| { return None; }
      assert calls[i] in calls;
      return Some(Detail(contents, calls[i]));
    }
  }

  // ---------------------------------------------------------------------------
  // When the hashed text determines the four texts
  // ---------------------------------------------------------------------------

  /** How many separators a text contains. */
  function Bars(s: string): nat {
    if s == "" then 0 else (if s[0] == '|' then 1 else 0) + Bars(s[1..])
  }

  lemma {:induction false} BarsConcat(s: string, t: string)
    ensures Bars(s + t) == Bars(s) + Bars(t)
  {
    if s == "" {
      assert s + t == t;
    } else {
      assert (s + t)[1..] == s[1..] + t;
      BarsConcat(s[1..], t);
    }
  }

  lemma {:induction false} SomeBar(s: string) returns (before: string, behind: string)
    requires Bars(s) > 0
    ensures s == before + ("|" + behind)
  {
    if s[0] == '|' {
      before, behind := "", s[1..];
      assert s == ['|'] + s[1..];
    } else {
      var b;
      b, behind := SomeBar(s[1..]);
      before := [s[0]] + b;
      assert s == [s[0]] + s[1..] == before + ("|" + behind);
    }
  }

  lemma {:induction false} BarCounted(s: string, k: nat)
    requires k < |s| && s[k] == '|'
    ensures Bars(s) > 0
  {
    if k > 0 { BarCounted(s[1..], k - 1); }
  }

  /** The first separator ends a part without separators. */
  lemma FirstPart(p: string, s: string, q: string, t: string)
    requires p + ("|" + s) == q + ("|" + t)
    requires Bars(p) == 0 && Bars(q) == 0
    ensures p == q && s == t
  {
    var whole := p + ("|" + s);
    assert whole[|p|] == '|' && whole[|q|] == '|';
    if |p| < |q| {
      assert whole[..|q|] == q;
      BarCounted(q, |p|);
    } else if |q| < |p| {
      assert whole[..|p|] == p;
      BarCounted(p, |q|);
    } else {
      assert p == whole[..|p|] == q;
      assert s == whole[|p| + 1..] == t;
    }
  }

  /** Only the last text may contain the separator. */
  predicate Separable(t: Texts) {
    Bars(t.prompt) == 0 && Bars(t.response) == 0 && Bars(t.reasoning) == 0
  }

  lemma SameHashSameTexts(a: Texts, b: Texts)
    requires Separable(a) && Separable(b) && Combined(a) == Combined(b)
    ensures a == b
  {
    FirstPart(a.prompt, a.response + ("|" + (a.reasoning + ("|" + a.system))),
              b.prompt, b.response + ("|" + (b.reasoning + ("|" + b.system))));
    FirstPart(a.response, a.reasoning + ("|" + a.system), b.response, b.reasoning + ("|" + b.system));
    FirstPart(a.reasoning, a.system, b.reasoning, b.system);
  }

  lemma BarsOfCombined(t: Texts)
    ensures Bars(Combined(t)) == 3 + Bars(t.prompt) + Bars(t.response) + Bars(t.reasoning) + Bars(t.system)
  {
    BarsConcat("|", t.system);
    BarsConcat(t.reasoning, "|" + t.system);
    BarsConcat("|", t.reasoning + ("|" + t.system));
    BarsConcat(t.response, "|" + (t.reasoning + ("|" + t.system)));
    BarsConcat("|", t.response + ("|" + (t.reasoning + ("|" + t.system))));
    BarsConcat(t.prompt, "|" + (t.response + ("|" + (t.reasoning + ("|" + t.system)))));
  }

  lemma Regrouped(a: string, b: string, c: string)
    ensures (a + ("|" + b)) + ("|" + c) == a + ("|" + (b + ("|" + c)))
  {
  }

  /** With a separator inside any of the texts, other texts have the same hash. */
  lemma AnotherReading(a: Texts) returns (b: Texts)
    requires Bars(a.prompt) + Bars(a.response) + Bars(a.reasoning) + Bars(a.system) > 0
    ensures Combined(b) == Combined(a) && b != a
  {
    if Bars(a.prompt) > 0 {
      var x, y := SomeBar(a.prompt);
      b := Texts(x, y, a.response, a.reasoning + ("|" + a.system));
      Regrouped(x, y, a.response + ("|" + (a.reasoning + ("|" + a.system))));
    } else if Bars(a.response) > 0 {
      var x, y := SomeBar(a.response);
      b := Texts(a.prompt, x, y, a.reasoning + ("|" + a.system));
      Regrouped(x, y, a.reasoning + ("|" + a.system));
    } else if Bars(a.reasoning) > 0 {
      var x, y := SomeBar(a.reasoning);
      b := Texts(a.prompt, a.response, x, y + ("|" + a.system));
      Regrouped(x, y, a.system);
    } else {
      var x, y := SomeBar(a.system);
      b := Texts(a.prompt + ("|" + a.response), a.reasoning, x, y);
      Regrouped(a.prompt, a.response, a.reasoning + ("|" + a.system));
      assert |b.prompt| > |a.prompt|;
    }
  }

  /** The hash identifies four texts exactly when none of them contains the separator. */
  lemma HashIdentifiesIff(a: Texts)
    ensures (forall b :: Combined(b) == Combined(a) ==> b == a) <==>
            Bars(a.prompt) + Bars(a.response) + Bars(a.reasoning) + Bars(a.system) == 0
  {
    if Bars(a.prompt) + Bars(a.response) + Bars(a.reasoning) + Bars(a.system) == 0 {
      forall b | Combined(b) == Combined(a) ensures b == a {
        BarsOfCombined(a);
        BarsOfCombined(b);
        SameHashSameTexts(a, b);
      }
    } else {
      var b := AnotherReading(a);
    }
  }

  // ---------------------------------------------------------------------------
  // What is read back
  // ---------------------------------------------------------------------------

  predicate Deposits(c: Config, call: Call, h: string) {
    GoesToStore(c, call) && HashOf(c, call.texts) == h
  }

  /** The first call that put a content with this hash into the store. */
  function FirstWith(c: Config, calls: seq<Call>, h: string): (i: nat)
    ensures i <= |calls|
    ensures i < |calls| ==> Deposits(c, calls[i], h)
    ensures forall j :: 0 <= j < i ==> !Deposits(c, calls[j], h)
  {
    if calls == [] || Deposits(c, calls[0], h) then 0
    else 1 + FirstWith(c, calls[1..], h)
  }

  lemma FirstWithSnoc(c: Config, calls: seq<Call>, call: Call, h: string)
    ensures var before := FirstWith(c, calls, h);
            var now := FirstWith(c, calls + [call], h);
            if before < |calls| then now == before
            else if Deposits(c, call, h) then now == |calls|
            else now == |calls| + 1
  {
    var all := calls + [call];
    var before := FirstWith(c, calls, h);
    var now := FirstWith(c, all, h);
    assert forall j :: 0 <= j < |calls| ==> all[j] == calls[j];
    assert all[|calls|] == call;
    if before < |calls| {
      assert all[before] == calls[before];
    }
  }

  /** The store holds, for each hash, the texts of the first call with that hash. */
  lemma {:induction false} StoreHoldsTheFirst(c: Config, calls: seq<Call>, h: string)
    ensures var i := FirstWith(c, calls, h);
            var s := Run(c, calls);
            (h in s.contents <==> i < |calls|) &&
            (h in s.contents ==> s.contents[h].texts == Packed(Truncated(c, calls[i].texts)))
  {
    if calls != [] {
      var rest := calls[..|calls| - 1];
      var call := calls[|calls| - 1];
      assert calls == rest + [call];
      StoreHoldsTheFirst(c, rest, h);
      FirstWithSnoc(c, rest, call, h);
    }
  }

  /** The id of the last call that put or found a content with this hash in the store. */
  function LastOwner(c: Config, calls: seq<Call>, h: string): Option<string> {
    if calls == [] then None
    else if Deposits(c, calls[|calls| - 1], h) then Some(calls[|calls| - 1].id)
    else LastOwner(c, calls[..|calls| - 1], h)
  }

  /** A content refers to the last call that had it. */
  lemma {:induction false} ContentRefersToTheLast(c: Config, calls: seq<Call>, h: string)
    ensures h in Run(c, calls).contents <==> LastOwner(c, calls, h).Some?
    ensures h in Run(c, calls).contents ==> LastOwner(c, calls, h) == Some(Run(c, calls).contents[h].owner)
  {
    if calls != [] {
      ContentRefersToTheLast(c, calls[..|calls| - 1], h);
    }
  }

  lemma {:induction false} RowsOfRun(c: Config, calls: seq<Call>)
    ensures |Run(c, calls).calls| == |calls|
    ensures forall i :: 0 <= i < |calls| ==> Run(c, calls).calls[i] == RowOf(c, calls[i])
  {
    if calls != [] {
      RowsOfRun(c, calls[..|calls| - 1]);
    }
  }

  /** The detail of the i-th recorded call once all calls are recorded. */
  function DetailOf(c: Config, calls: seq<Call>, i: nat): Held
    requires i < |calls|
  {
    RowsOfRun(c, calls);
    Detail(Run(c, calls).contents, Run(c, calls).calls[i])
  }

  /** The text a reader sees: nothing is kept for an empty text in the store. */
  function Shown(o: Option<string>): string {
    match o
    case Some(text) => text
    case None => ""
  }

  /** What is shown of a text: all of it, or the first `maxChars` characters and a remark. */
  predicate WholeOrCut(c: Config, text: string, shown: string) {
    shown == text || (|text| > c.maxChars && shown == text[..c.maxChars] + "...[content truncated]")
  }

  /** How many characters of a text are kept, the remark of 22 characters included. */
  function KeptLength(c: Config, text: string): nat {
    if |text| <= c.maxChars then |text| else c.maxChars + 22
  }

  /** A call goes to the store if and only if that is on, it is accepted, and what is kept of its
      four texts together is longer than a row may hold. */
  lemma GoesToStoreIff(c: Config, call: Call)
    ensures GoesToStore(c, call) <==>
            c.enabled && call.accepted &&
            KeptLength(c, call.texts.prompt) + KeptLength(c, call.texts.response) +
              KeptLength(c, call.texts.reasoning) + KeptLength(c, call.texts.system) > c.threshold
  {
  }

  /** Every text is shown, whole or cut at the configured length. */
  predicate ShowsAll(c: Config, detail: Held, t: Texts) {
    forall p :: WholeOrCut(c, TextOf(t, p), Shown(HeldOf(detail, p)))
  }

  /** A call in the store shows the texts of the first call with the same hash: its own
      exactly when that call had the same texts. */
  lemma StoredCallShowsTheFirst(c: Config, calls: seq<Call>, i: nat)
    requires i < |calls| && GoesToStore(c, calls[i])
    ensures var first := FirstWith(c, calls, HashOf(c, calls[i].texts));
            first <= i &&
            DetailOf(c, calls, i) == Packed(Truncated(c, calls[first].texts)) &&
            (DetailOf(c, calls, i) == Packed(Truncated(c, calls[i].texts)) <==>
             Truncated(c, calls[first].texts) == Truncated(c, calls[i].texts))
  {
    RowsOfRun(c, calls);
    StoreHoldsTheFirst(c, calls, HashOf(c, calls[i].texts));
    var first := FirstWith(c, calls, HashOf(c, calls[i].texts));
    PackedInjective(Truncated(c, calls[first].texts), Truncated(c, calls[i].texts));
  }

  lemma PackedInjective(a: Texts, b: Texts)
    ensures Packed(a) == Packed(b) <==> a == b
  {
  }

  lemma {:induction false} NoBarInside(s: string)
    requires forall k :: 0 <= k < |s| ==> s[k] != '|'
    ensures Bars(s) == 0
  {
    if s != "" { NoBarInside(s[1..]); }
  }

  lemma TruncateAddsNoBar(c: Config, text: string)
    requires Bars(text) == 0
    ensures Bars(Truncate(c, text)) == 0
  {
    var kept := Truncate(c, text);
    forall k | 0 <= k < |kept| ensures kept[k] != '|' {
      if k < |text| && text[k] == '|' { BarCounted(text, k); }
      if |text| > c.maxChars && c.maxChars <= k { assert kept[k] == SUFFIX[k - c.maxChars]; }
    }
    NoBarInside(kept);
  }

  lemma TruncatedSeparable(c: Config, t: Texts)
    requires Separable(t)
    ensures Separable(Truncated(c, t))
  {
    TruncateAddsNoBar(c, t.prompt);
    TruncateAddsNoBar(c, t.response);
    TruncateAddsNoBar(c, t.reasoning);
  }

  predicate AllSeparable(calls: seq<Call>) {
    forall call :: call in calls ==> Separable(call.texts)
  }

  /** The store is never skipped for a call with a text too long to be kept in its row. */
  predicate CoversLongTexts(c: Config) {
    c.enabled && c.threshold < c.maxChars + 22
  }

  lemma LongTextIsLarge(c: Config, t: Texts, p: Part)
    requires CoversLongTexts(c) && |TextOf(t, p)| > c.threshold
    ensures Large(c, t)
  {
    assert |Truncate(c, TextOf(t, p))| > c.threshold;
  }

  lemma StoredCallReadsBack(c: Config, calls: seq<Call>, i: nat)
    requires AllSeparable(calls) && i < |calls| && GoesToStore(c, calls[i])
    ensures DetailOf(c, calls, i) == Packed(Truncated(c, calls[i].texts))
  {
    var t := calls[i].texts;
    StoredCallShowsTheFirst(c, calls, i);
    var first := FirstWith(c, calls, HashOf(c, t));
    assert Deposits(c, calls[first], HashOf(c, t));
    assert calls[first] in calls && calls[i] in calls;
    TruncatedSeparable(c, calls[first].texts);
    TruncatedSeparable(c, t);
    SameHashSameTexts(Truncated(c, calls[first].texts), Truncated(c, t));
  }

  lemma PackedShowsAll(c: Config, t: Texts)
    ensures ShowsAll(c, Packed(Truncated(c, t)), t)
  {
    forall p ensures Shown(HeldOf(Packed(Truncated(c, t)), p)) == Truncate(c, TextOf(t, p)) {
    }
  }

  /** Every text fits the row of the call. */
  predicate FitsRow(c: Config, t: Texts) {
    forall p :: |TextOf(t, p)| <= c.threshold
  }

  lemma InlineShowsAllIff(c: Config, t: Texts)
    ensures ShowsAll(c, Inline(c, t), t) <==> FitsRow(c, t)
  {
    forall p ensures |TextOf(t, p)| <= c.threshold <==> WholeOrCut(c, TextOf(t, p), Shown(HeldOf(Inline(c, t), p))) {
    }
  }

  /** In every run of separable calls a call, accepted or refused, shows all its texts exactly
      if it went to the store or all of them fit its row. */
  lemma ShowsAllIff(c: Config, calls: seq<Call>, i: nat)
    requires AllSeparable(calls) && i < |calls|
    ensures ShowsAll(c, DetailOf(c, calls, i), calls[i].texts) <==> GoesToStore(c, calls[i]) || FitsRow(c, calls[i].texts)
  {
    if GoesToStore(c, calls[i]) {
      StoredCallReadsBack(c, calls, i);
      PackedShowsAll(c, calls[i].texts);
    } else {
      RowsOfRun(c, calls);
      InlineShowsAllIff(c, calls[i].texts);
    }
  }

  /** So if the store takes every call with a text too long for its row, each accepted call
      reads back its own four texts, however many calls share a content. */
  lemma EachCallReadsBackItsTexts(c: Config, calls: seq<Call>, i: nat)
    requires CoversLongTexts(c) && AllSeparable(calls)
    requires i < |calls| && calls[i].accepted
    ensures ShowsAll(c, DetailOf(c, calls, i), calls[i].texts)
  {
    ShowsAllIff(c, calls, i);
    if p :| |TextOf(calls[i].texts, p)| > c.threshold {
      LongTextIsLarge(c, calls[i].texts, p);
    }
  }

  /** Settings under which a recorded call always shows all its texts. */
  ghost predicate LosesNothing(c: Config) {
    forall call: Call :: call.accepted && Separable(call.texts) ==> ShowsAll(c, DetailOf(c, [call], 0), call.texts)
  }

  /** A text of `n` letters. */
  function Letters(n: nat): (s: string)
    ensures |s| == n && Bars(s) == 0
  {
    if n == 0 then "" else
    var rest := Letters(n - 1);
    assert ("x" + rest)[1..] == rest;
    "x" + rest
  }

  /** No text is lost exactly when the store is on and a cut text is still too long for the row. */
  lemma LosesNothingIff(c: Config)
    ensures LosesNothing(c) <==> CoversLongTexts(c)
  {
    if CoversLongTexts(c) {
      forall call: Call | call.accepted && Separable(call.texts)
        ensures ShowsAll(c, DetailOf(c, [call], 0), call.texts)
      {
        EachCallReadsBackItsTexts(c, [call], 0);
      }
    } else {
      LongPromptIsLost(c);
    }
  }

  lemma LongPromptIsLost(c: Config)
    requires !CoversLongTexts(c)
    ensures !LosesNothing(c)
  {
    var n := c.threshold + 1;
    var call := Call("llm-1", Texts(Letters(n), "", "", ""), true);
    RowsOfRun(c, [call]);
    assert !Large(c, call.texts);
    var d := DetailOf(c, [call], 0);
    assert Shown(HeldOf(d, Prompt)) == "";
    assert |TextOf(call.texts, Prompt)| > 0 && |Truncate(c, TextOf(call.texts, Prompt))| > 0;
    assert !ShowsAll(c, d, call.texts);
    assert Separable(call.texts);
  }

  /** When the store refuses, exactly the texts that fit the row are kept. */
  lemma RefusedCallKeepsShortTexts(c: Config, calls: seq<Call>, i: nat, p: Part)
    requires i < |calls| && !calls[i].accepted
    ensures HeldOf(DetailOf(c, calls, i), p) ==
            if |TextOf(calls[i].texts, p)| <= c.threshold then Some(TextOf(calls[i].texts, p)) else None
  {
    RowsOfRun(c, calls);
  }

  /** With a separator in a long text the second of two different calls shows the texts of the
      first. */
  lemma SeparatorMixesUpCalls(c: Config, n: nat, first: Call, second: Call)
    requires c.enabled && c.threshold < n && n + 2 <= c.maxChars
    requires first == Call("llm-1", Texts(Letters(n) + "|", "", "", ""), true)
    requires second == Call("llm-2", Texts(Letters(n), "", "", "|"), true)
    ensures !ShowsAll(c, DetailOf(c, [first, second], 1), second.texts)
  {
    var calls := [first, second];
    var h := HashOf(c, second.texts);
    assert Truncated(c, first.texts) == first.texts && Truncated(c, second.texts) == second.texts;
    assert Combined(first.texts) == Letters(n) + "||||" == Combined(second.texts);
    assert Large(c, first.texts) && Large(c, second.texts);
    StoredCallShowsTheFirst(c, calls, 1);
    assert Deposits(c, calls[0], h);
    assert FirstWith(c, calls, h) == 0;
    assert Shown(HeldOf(DetailOf(c, calls, 1), System)) == "";
    assert TextOf(second.texts, System) == "|";
  }
}
