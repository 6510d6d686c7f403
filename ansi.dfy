/** `strip_ansi_codes`: `re.sub` of `\x1B(?:[@-Z\\-_]|\[[0-?]*[ -/]*[@-~])` with the empty
    string. The pattern is the two-character escape ESC Fe of ECMA-48 section 5.3 (ESC followed
    by one character from 0x40 to 0x5F other than `[`) and the control sequence of ECMA-48
    section 5.4 (ESC `[`, parameter bytes 0x30-0x3F, intermediate bytes 0x20-0x2F, one final
    byte 0x40-0x7E). */
module Ansi {
  import Patterns

  const Esc: char := '\U{1B}'

  /** `[@-Z\\-_]`: 0x40-0x5A and 0x5C-0x5F. */
  predicate IsFe(c: char) { '@' <= c <= 'Z' || '\\' <= c <= '_' }
  /** `[0-?]` */
  predicate IsParameter(c: char) { '0' <= c <= '?' }
  /** `[ -/]` */
  predicate IsIntermediate(c: char) { ' ' <= c <= '/' }
  /** `[@-~]` */
  predicate IsFinal(c: char) { '@' <= c <= '~' }

  /** The length of the match the pattern finds at the start of `s`, 0 when there is none. The
      three classes of the control sequence are disjoint, so the greedy runs are the only split
      the regular expression engine can find. */
  function EscapeLength(s: string): (n: nat)
    ensures n <= |s|
    ensures n > 0 ==> n >= 2 && s[0] == Esc
  {
    if |s| < 2 || s[0] != Esc then 0
    else if IsFe(s[1]) then 2
    else if s[1] == '[' then
      var p := Patterns.Run(s, 2, IsParameter);
      var q := Patterns.Run(s, 2 + p, IsIntermediate);
      if 2 + p + q < |s| && IsFinal(s[2 + p + q]) then 3 + p + q else 0
    else 0
  }

  /** `ansi_escape.sub('', text)`: matches are removed left to right, never overlapping; where
      no match starts, the character is kept. */
  function StripAnsi(s: string): (r: string)
    ensures |r| <= |s|
    ensures forall i :: 0 <= i < |r| ==> r[i] in s
    decreases |s|
  {
    if |s| == 0 then ""
    else
      var n := EscapeLength(s);
      if n > 0 then StripAnsi(s[n..])
      else
        var rest := StripAnsi(s[1..]);
        assert forall i :: 0 <= i < |rest| ==> rest[i] in s by {
          forall i | 0 <= i < |rest| ensures rest[i] in s { assert rest[i] in s[1..]; }
        }
        [s[0]] + rest
  }

  /** A text that holds no ESC is returned unchanged. */
  lemma {:induction false} StripAnsiWithoutEsc(s: string)
    requires Esc !in s
    ensures StripAnsi(s) == s
    decreases |s|
  {
    if |s| > 0 {
      StripAnsiWithoutEsc(s[1..]);
      assert [s[0]] + s[1..] == s;
    }
  }

  /** A first character other than ESC is kept. */
  lemma StripPlainHead(s: string)
    requires |s| > 0 && s[0] != Esc
    ensures StripAnsi(s) == [s[0]] + StripAnsi(s[1..])
  {
    assert EscapeLength(s) == 0;
  }

  /** Text without ESC in front of the rest is kept as it is. */
  lemma {:induction false} StripAnsiKeepsPlainPrefix(a: string, b: string)
    requires Esc !in a
    ensures StripAnsi(a + b) == a + StripAnsi(b)
    decreases |a|
  {
    if |a| > 0 {
      var s := a + b;
      assert s[0] == a[0] && s[1..] == a[1..] + b;
      StripPlainHead(s);
      StripAnsiKeepsPlainPrefix(a[1..], b);
      assert [a[0]] + (a[1..] + StripAnsi(b)) == a + StripAnsi(b);
    } else {
      assert a + b == b;
    }
  }

  /** ESC followed by a character of the Fe class is removed. */
  lemma FeEscapeRemoved(c: char, rest: string)
    requires IsFe(c)
    ensures StripAnsi([Esc, c] + rest) == StripAnsi(rest)
  {
    var s := [Esc, c] + rest;
    assert s[2..] == rest;
  }

  /** A complete control sequence, ESC `[` parameters, intermediates and a final byte, is removed,
      whatever follows it. */
  lemma ControlSequenceRemoved(params: string, inter: string, fin: char, rest: string)
    requires forall i :: 0 <= i < |params| ==> IsParameter(params[i])
    requires forall i :: 0 <= i < |inter| ==> IsIntermediate(inter[i])
    requires IsFinal(fin)
    ensures StripAnsi([Esc, '['] + params + inter + [fin] + rest) == StripAnsi(rest)
  {
    var s := [Esc, '['] + params + inter + [fin] + rest;
    var p, q := |params|, |inter|;
    assert forall i :: 2 <= i < 2 + p ==> s[i] == params[i - 2];
    assert forall i :: 2 + p <= i < 2 + p + q ==> s[i] == inter[i - 2 - p];
    assert s[2 + p] == (if q > 0 then inter[0] else fin);
    Patterns.RunUnique(s, 2, p, IsParameter);
    assert s[2 + p + q] == fin;
    Patterns.RunUnique(s, 2 + p, q, IsIntermediate);
    assert EscapeLength(s) == 3 + p + q;
    assert s[3 + p + q..] == rest;
  }

  /** A select-graphic-rendition sequence (final byte `m`, no intermediates) in front of plain
      text is removed and the text kept. */
  lemma SgrThenPlain(params: string, x: string, rest: string)
    requires forall i :: 0 <= i < |params| ==> IsParameter(params[i])
    requires Esc !in x
    ensures StripAnsi([Esc, '['] + params + ['m'] + x + rest) == x + StripAnsi(rest)
  {
    var s := [Esc, '['] + params + ['m'] + x + rest;
    assert s == [Esc, '['] + params + "" + ['m'] + (x + rest);
    ControlSequenceRemoved(params, "", 'm', x + rest);
    StripAnsiKeepsPlainPrefix(x, rest);
  }

  /** Stripping is not idempotent: removing one sequence can bring an ESC next to characters that
      then form a sequence of their own. */
  lemma StripAnsiNotIdempotent()
    ensures var s := [Esc, Esc, '@', '@'];
      StripAnsi(s) == [Esc, '@'] && StripAnsi(StripAnsi(s)) == ""
  {
    var s := [Esc, Esc, '@', '@'];
    assert EscapeLength(s) == 0;
    assert s[1..] == [Esc, '@'] + ['@'];
    FeEscapeRemoved('@', ['@']);
    assert StripAnsi(['@']) == ['@'] by { StripAnsiWithoutEsc(['@']); }
    assert StripAnsi(s) == [Esc] + ['@'];
    FeEscapeRemoved('@', "");
    assert [Esc, '@'] + "" == [Esc, '@'];
  }
}
