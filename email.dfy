/**
 * The e-mail test both registration forms apply: the regular expression
 * `^[^\s@]+@[^\s@]+\.[^\s@]+$` (JavaScript syntax), stated once as the set of
 * strings it accepts and once as a left-to-right scan, with a proof that the two agree.
 */
module Email {
  import opened Common


  /** JavaScript's `\s` class: the ECMAScript white-space and line-terminator code points. */
  predicate IsJsSpace(c: char)
  {
    var n := c as int;
    n == 0x09 || n == 0x0A || n == 0x0B || n == 0x0C || n == 0x0D || n == 0x20
    || n == 0xA0 || n == 0x1680 || (0x2000 <= n <= 0x200A)
    || n == 0x2028 || n == 0x2029 || n == 0x202F || n == 0x205F || n == 0x3000 || n == 0xFEFF
  }

  /** One character of the class `[^\s@]`. */
  predicate Plain(c: char)
  {
    c != '@' && !IsJsSpace(c)
  }

  /** Every character of `s` belongs to `[^\s@]`. */
  predicate AllPlain(s: string)
  {
    forall i :: 0 <= i < |s| ==> Plain(s[i])
  }

  /**
   * The language of the pattern: `s` is `L @ A . B` with `L`, `A`, `B` non-empty
   * runs of `[^\s@]`. `A` may contain dots itself, since `[^\s@]` admits them.
   */
  ghost predicate MatchesPattern(s: string)
  {
    exists at, dot ::
      0 < at && at + 1 < dot && dot + 1 < |s| && s[at] == '@' && s[dot] == '.'
      && AllPlain(s[..at]) && AllPlain(s[at + 1..dot]) && AllPlain(s[dot + 1..])
  }

  /** The part after `@` holds a `.` with at least one character on either side. */
  predicate HasInnerDot(rest: string)
  {
    exists p :: 0 < p < |rest| - 1 && rest[p] == '.'
  }

  /**
   * `emailRegex.test(s)`: split at the first `@`; the part before must be a
   * non-empty run of `[^\s@]`, the part after a run of `[^\s@]` with an inner dot.
   */
  function EmailValid(s: string): (ok: bool)
    ensures ok <==> MatchesPattern(s)
  {
    var at := FirstIndexOf(s, '@');
    var ok := at > 0 && AllPlain(s[..at]) && AllPlain(s[at + 1..]) && HasInnerDot(s[at + 1..]);
    ScanAgreesWithPattern(s, at);
    ok
  }

  /** The scan from the first `@` agrees with the pattern, in both directions. */
  lemma ScanAgreesWithPattern(s: string, at: int)
    requires at >= -1 && (at == -1 <==> '@' !in s)
    requires at >= 0 ==> at < |s| && s[at] == '@' && '@' !in s[..at]
    ensures (at > 0 && AllPlain(s[..at]) && AllPlain(s[at + 1..]) && HasInnerDot(s[at + 1..]))
            <==> MatchesPattern(s)
  {
    if at > 0 && AllPlain(s[..at]) && AllPlain(s[at + 1..]) && HasInnerDot(s[at + 1..]) {
      ScanGivesPattern(s, at);
    }
    if MatchesPattern(s) {
      var a, dot :|
        0 < a && a + 1 < dot && dot + 1 < |s| && s[a] == '@' && s[dot] == '.'
        && AllPlain(s[..a]) && AllPlain(s[a + 1..dot]) && AllPlain(s[dot + 1..]);
      FirstAtIsSplit(s, at, a);
      PatternGivesScan(s, a, dot);
    }
  }

  lemma ScanGivesPattern(s: string, at: int)
    requires 0 < at < |s|
    requires s[at] == '@' && AllPlain(s[..at]) && AllPlain(s[at + 1..]) && HasInnerDot(s[at + 1..])
    ensures MatchesPattern(s)
  {
    var rest := s[at + 1..];
    var p :| 0 < p < |rest| - 1 && rest[p] == '.';
    var dot := at + 1 + p;
    assert s[at + 1..dot] == rest[..p];
    assert s[dot + 1..] == rest[p + 1..];
    assert s[dot] == '.';
    assert AllPlain(s[at + 1..dot]) && AllPlain(s[dot + 1..]);
  }

  /** When the text before an `@` has no `@`, that `@` is the first one. */
  lemma FirstAtIsSplit(s: string, at: int, a: int)
    requires at >= -1 && (at == -1 <==> '@' !in s)
    requires at >= 0 ==> at < |s| && s[at] == '@' && '@' !in s[..at]
    requires 0 <= a < |s| && s[a] == '@' && AllPlain(s[..a])
    ensures at == a
  {
  }

  lemma PatternGivesScan(s: string, at: int, dot: int)
    requires 0 < at && at + 1 < dot && dot + 1 < |s| && s[at] == '@' && s[dot] == '.'
    requires AllPlain(s[..at]) && AllPlain(s[at + 1..dot]) && AllPlain(s[dot + 1..])
    ensures AllPlain(s[at + 1..]) && HasInnerDot(s[at + 1..])
  {
  }

  /** An address with no `@`, such as `bad-email`, is refused. */
  lemma BadEmailIsRefused()
    ensures !EmailValid("bad-email")
  {
  }

  /** A typical address is accepted. */
  lemma TypicalEmailIsAccepted()
    ensures EmailValid("ana@mail.ph")
  {
    assert MatchesPattern("ana@mail.ph") by {
      var s := "ana@mail.ph";
      assert s[3] == '@' && s[8] == '.';
      assert AllPlain(s[..3]) && AllPlain(s[4..8]) && AllPlain(s[9..]);
    }
  }
}
