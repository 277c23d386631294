/** Words in the texts that callers send: which texts `strip()` and `lower()` turn into a word. */
module Wording {
  import opened PythonText

  predicate AllSpace(s: string) {
    forall i :: 0 <= i < |s| ==> IsSpace(s[i])
  }

  lemma {:induction false} TrimLeftCuts(s: string) returns (before: string)
    ensures s == before + TrimLeft(s) && AllSpace(before)
  {
    if s != "" && IsSpace(s[0]) {
      var rest := TrimLeftCuts(s[1..]);
      before := [s[0]] + rest;
      assert s == [s[0]] + s[1..];
    } else {
      before := "";
    }
  }

  lemma {:induction false} TrimRightCuts(s: string) returns (behind: string)
    ensures s == TrimRight(s) + behind && AllSpace(behind)
  {
    if s != "" && IsSpace(s[|s| - 1]) {
      var rest := TrimRightCuts(s[..|s| - 1]);
      behind := rest + [s[|s| - 1]];
      assert s == s[..|s| - 1] + [s[|s| - 1]];
    } else {
      behind := "";
    }
  }

  lemma {:induction false} TrimLeftSkips(before: string, s: string)
    requires AllSpace(before)
    ensures TrimLeft(before + s) == TrimLeft(s)
  {
    if before == "" {
      assert before + s == s;
    } else {
      assert (before + s)[1..] == before[1..] + s;
      TrimLeftSkips(before[1..], s);
    }
  }

  lemma {:induction false} TrimRightSkips(s: string, behind: string)
    requires AllSpace(behind)
    ensures TrimRight(s + behind) == TrimRight(s)
  {
    if behind == "" {
      assert s + behind == s;
    } else {
      var n := |behind| - 1;
      assert (s + behind)[..|s| + n] == s + behind[..n];
      TrimRightSkips(s, behind[..n]);
    }
  }

  lemma {:induction false} OnlySpace(s: string)
    requires AllSpace(s)
    ensures TrimLeft(s) == ""
  {
    if s != "" { OnlySpace(s[1..]); }
  }

  /** `core` between spaces. */
  ghost predicate Surrounds(s: string, core: string) {
    exists before, behind :: s == before + (core + behind) && AllSpace(before) && AllSpace(behind)
  }

  lemma StripSkips(before: string, core: string, behind: string)
    requires AllSpace(before) && AllSpace(behind) && Trimmed(core)
    ensures Strip(before + (core + behind)) == core
  {
    TrimLeftSkips(before, core + behind);
    if core == "" {
      assert core + behind == behind;
      OnlySpace(behind);
    } else {
      assert (core + behind)[0] == core[0];
      TrimRightSkips(core, behind);
    }
  }

  /** `strip()` cuts off exactly the spaces around the text. */
  lemma StripIff(s: string, core: string)
    ensures Strip(s) == core <==> Trimmed(core) && Surrounds(s, core)
  {
    var before := TrimLeftCuts(s);
    var behind := TrimRightCuts(TrimLeft(s));
    assert s == before + (Strip(s) + behind);
    if Trimmed(core) && Surrounds(s, core) {
      var a, b :| s == a + (core + b) && AllSpace(a) && AllSpace(b);
      StripSkips(a, core, b);
    }
  }

  lemma BlankIff(s: string)
    ensures Strip(s) == "" <==> AllSpace(s)
  {
    if AllSpace(s) {
      OnlySpace(s);
    } else {
      var before := TrimLeftCuts(s);
      var behind := TrimRightCuts(TrimLeft(s));
      assert s == before + (Strip(s) + behind);
    }
  }

  /** A namespace as it is kept. */
  function NamespaceOf(text: string): string {
    OrElse(Strip(OrElse(text, "default")), "default")
  }

  /** Blank names stand for the default namespace, others for themselves without the spaces. */
  predicate MeansNamespace(text: string, namespace: string) {
    if AllSpace(text) then namespace == "default" else MeansName(text, namespace)
  }

  predicate MeansName(text: string, name: string) {
    Trimmed(name) && exists i :: 0 <= i <= |text| - |name| && BetweenSpaces(text, i, name)
  }

  /** The name stands at `i`, with nothing but spaces around it. */
  predicate BetweenSpaces(text: string, i: nat, name: string)
    requires i + |name| <= |text|
  {
    text[i..i + |name|] == name && AllSpace(text[..i]) && AllSpace(text[i + |name|..])
  }

  lemma SurroundedStands(text: string, name: string)
    requires Surrounds(text, name)
    ensures exists i :: 0 <= i <= |text| - |name| && BetweenSpaces(text, i, name)
  {
    var a, b :| text == a + (name + b) && AllSpace(a) && AllSpace(b);
    assert text[..|a|] == a && text[|a|..|a| + |name|] == name && text[|a| + |name|..] == b;
    assert BetweenSpaces(text, |a|, name);
  }

  lemma StandsSurrounded(text: string, i: nat, name: string)
    requires i + |name| <= |text| && BetweenSpaces(text, i, name)
    ensures Surrounds(text, name)
  {
    assert text == text[..i] + (name + text[i + |name|..]);
  }

  lemma NameIff(text: string, name: string)
    ensures Strip(text) == name <==> MeansName(text, name)
  {
    StripIff(text, name);
    if Surrounds(text, name) {
      SurroundedStands(text, name);
    }
    if i :| 0 <= i <= |text| - |name| && BetweenSpaces(text, i, name) {
      StandsSurrounded(text, i, name);
    }
  }

  lemma NamespaceIff(text: string, namespace: string)
    ensures NamespaceOf(text) == namespace <==> MeansNamespace(text, namespace)
  {
    BlankIff(text);
    NameIff(text, namespace);
    assert Strip("default") == "default";
  }

  /** The letter itself, its capital, or for k the Kelvin sign. */
  predicate SameLetter(c: char, w: char) {
    c == w || ('a' <= w <= 'z' && c as int + 32 == w as int) || (w == 'k' && c == '\U{212A}')
  }

  predicate SameLetters(core: string, word: string) {
    |core| == |word| && forall i :: 0 <= i < |word| ==> SameLetter(core[i], word[i])
  }

  predicate PlainLetter(c: char) {
    'a' <= c <= 'z' || c == '_'
  }

  predicate PlainWord(word: string) {
    word != "" && forall i :: 0 <= i < |word| ==> PlainLetter(word[i])
  }

  lemma LowerLetter(c: char, w: char)
    requires PlainLetter(w)
    ensures LowerChar(c) == w <==> SameLetter(c, w)
    ensures SameLetter(c, w) ==> !IsSpace(c)
  {
  }

  lemma LowerIff(core: string, word: string)
    requires PlainWord(word)
    ensures Lower(core) == word <==> SameLetters(core, word)
    ensures SameLetters(core, word) ==> core != "" && Trimmed(core)
  {
    if |core| == |word| {
      forall i | 0 <= i < |word|
        ensures Lower(core)[i] == word[i] <==> SameLetter(core[i], word[i])
        ensures SameLetter(core[i], word[i]) ==> !IsSpace(core[i])
      {
        LowerLetter(core[i], word[i]);
      }
    }
  }

  /** The text is the word, in any case and with any spaces around it. */
  ghost predicate Spells(text: string, word: string) {
    exists core :: SameLetters(core, word) && Surrounds(text, core)
  }

  /** What `strip().lower()` takes for a word. */
  lemma ReadsAsIff(text: string, word: string)
    requires PlainWord(word)
    ensures Lower(Strip(text)) == word <==> Spells(text, word)
  {
    var core := Strip(text);
    LowerIff(core, word);
    StripIff(text, core);
    if Spells(text, word) {
      var other :| SameLetters(other, word) && Surrounds(text, other);
      LowerIff(other, word);
      StripIff(text, other);
    }
  }
}
