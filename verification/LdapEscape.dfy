/** Escaping of values in LDAP filters, section 3 of RFC 4515. */
module LdapEscape {
  import opened Wrappers

  /** The two hexadecimal digits that stand for a special character. */
  function Code(c: char): Option<string> {
    if c == '\\' then Some("5c")
    else if c == '*' then Some("2a")
    else if c == '(' then Some("28")
    else if c == ')' then Some("29")
    else if c == '\0' then Some("00")
    else None
  }

  predicate Special(c: char) {
    Code(c).Some?
  }

  function EscapeChar(c: char): string {
    match Code(c)
    case Some(digits) => "\\" + digits
    case None => [c]
  }

  function Escaped(value: string): string {
    if value == "" then "" else Escaped(value[..|value| - 1]) + EscapeChar(value[|value| - 1])
  }

  /** `_ldap_escape` */
  method LdapEscape(value: string) returns (result: string)
    ensures result == Escaped(value)
  {
    result := "";
    var i := 0;
    while i < |value|
      invariant i <= |value|
      invariant result == Escaped(value[..i])
    {
      assert value[..i + 1][..i] == value[..i];
      var ch := value[i];
      if ch == '\\' {
        result := result + "\\5c";
      } else if ch == '*' {
        result := result + "\\2a";
      } else if ch == '(' {
        result := result + "\\28";
      } else if ch == ')' {
        result := result + "\\29";
      } else if ch == '\0' {
        result := result + "\\00";
      } else {
        result := result + [ch];
      }
      i := i + 1;
    }
    assert value[..i] == value;
  }

  // ---------------------------------------------------------------------------
  // Reading a filter value
  // ---------------------------------------------------------------------------

  /** The value of a hexadecimal digit. */
  function HexValue(c: char): Option<nat> {
    if '0' <= c <= '9' then Some(c as int - '0' as int)
    else if 'a' <= c <= 'f' then Some(c as int - 'a' as int + 10)
    else if 'A' <= c <= 'F' then Some(c as int - 'A' as int + 10)
    else None
  }

  predicate IsEscape(s: string) {
    |s| >= 3 && s[0] == '\\' && HexValue(s[1]).Some? && HexValue(s[2]).Some?
  }

  /** What RFC 4515 lets stand for itself. */
  predicate Plain(c: char) {
    c != '\0' && c != '(' && c != ')' && c != '*' && c != '\\'
  }

  /** A value as the grammar of RFC 4515 has it: plain characters and escapes. */
  predicate WellFormed(s: string) {
    s == "" || (if IsEscape(s) then WellFormed(s[3..]) else Plain(s[0]) && WellFormed(s[1..]))
  }

  /** The characters that a well-formed value stands for; an escape stands for the character
      with that code. */
  function Unescaped(s: string): string {
    if s == "" then ""
    else if IsEscape(s) then [((HexValue(s[1]).value * 16 + HexValue(s[2]).value) as char)] + Unescaped(s[3..])
    else [s[0]] + Unescaped(s[1..])
  }

  lemma {:induction false} ReadEscapedChar(c: char, rest: string)
    ensures Unescaped(EscapeChar(c) + rest) == [c] + Unescaped(rest)
    ensures WellFormed(EscapeChar(c) + rest) <==> WellFormed(rest)
  {
    var s := EscapeChar(c) + rest;
    if Special(c) {
      assert s[3..] == rest && IsEscape(s);
    } else {
      assert s[1..] == rest && s[0] == c;
    }
  }

  lemma Joined(a: string, b: string, c: string)
    ensures a + b + c == a + (b + c)
  {
  }

  lemma {:induction false} ReadEscaped(value: string, rest: string)
    ensures Unescaped(Escaped(value) + rest) == value + Unescaped(rest)
    ensures WellFormed(Escaped(value) + rest) <==> WellFormed(rest)
  {
    if value == "" {
      assert Escaped(value) + rest == rest;
    } else {
      var front, last := value[..|value| - 1], value[|value| - 1];
      ReadEscaped(front, EscapeChar(last) + rest);
      ReadEscapedChar(last, rest);
      Joined(Escaped(front), EscapeChar(last), rest);
      Joined(front, [last], Unescaped(rest));
      assert front + [last] == value;
    }
  }

  /** Every string is read back from its escaped form, which the grammar accepts. */
  lemma EscapingIsUndone(value: string)
    ensures Unescaped(Escaped(value)) == value && WellFormed(Escaped(value))
  {
    ReadEscaped(value, "");
    assert Escaped(value) + "" == Escaped(value);
    assert value + "" == value;
  }

  lemma EscapingIsInjective(a: string, b: string)
    ensures Escaped(a) == Escaped(b) <==> a == b
  {
    EscapingIsUndone(a);
    EscapingIsUndone(b);
  }

  /** No character that a filter would take for its own syntax. */
  predicate NoSyntax(s: string) {
    forall i :: 0 <= i < |s| ==> s[i] != '*' && s[i] != '(' && s[i] != ')' && s[i] != '\0'
  }

  /** Every backslash starts an escape of two digits. */
  predicate BackslashesEscape(s: string) {
    forall i :: 0 <= i < |s| && s[i] == '\\' ==> IsEscape(s[i..])
  }

  lemma {:induction false} WellFormedText(s: string)
    requires WellFormed(s)
    ensures NoSyntax(s) && BackslashesEscape(s)
  {
    if s != "" {
      var k := if IsEscape(s) then 3 else 1;
      WellFormedText(s[k..]);
      forall i | 0 <= i < |s| ensures s[i] != '*' && s[i] != '(' && s[i] != ')' && s[i] != '\0'
        ensures s[i] == '\\' ==> IsEscape(s[i..])
      {
        if i >= k {
          assert s[i] == s[k..][i - k] && s[i..] == s[k..][i - k..];
        } else {
          assert s[i..] == if i == 0 then s else s[i..];
        }
      }
    }
  }

  /** An escaped value has no raw special character, and each backslash in it starts an escape. */
  lemma EscapedHasNoSyntax(value: string)
    ensures NoSyntax(Escaped(value)) && BackslashesEscape(Escaped(value))
  {
    EscapingIsUndone(value);
    WellFormedText(Escaped(value));
  }

  lemma {:induction false} EscapingLengthens(value: string)
    ensures |Escaped(value)| >= |value|
    ensures (exists i :: 0 <= i < |value| && Special(value[i])) ==> |Escaped(value)| > |value|
  {
    if value != "" {
      var front := value[..|value| - 1];
      EscapingLengthens(front);
      if i :| 0 <= i < |value| && Special(value[i]) {
        assert i < |front| ==> Special(front[i]);
      }
    }
  }

  lemma {:induction false} PlainIsKept(value: string)
    requires forall i :: 0 <= i < |value| ==> !Special(value[i])
    ensures Escaped(value) == value
  {
    if value != "" {
      PlainIsKept(value[..|value| - 1]);
    }
  }

  /** Only values without special characters are left as they are. */
  lemma UnchangedIff(value: string)
    ensures Escaped(value) == value <==> forall i :: 0 <= i < |value| ==> !Special(value[i])
  {
    EscapingLengthens(value);
    if forall i :: 0 <= i < |value| ==> !Special(value[i]) {
      PlainIsKept(value);
    }
  }
}
