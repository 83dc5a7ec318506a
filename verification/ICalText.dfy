/** Text escaping of internal/api/public_schedule.go against the TEXT value type of section 3.3.11 of RFC 5545. */
module ICalText {

  /** strings.ReplaceAll for a one-character pattern. */
  function ReplaceAll(s: string, c: char, with: string): string
  {
    if s == "" then "" else (if s[0] == c then with else [s[0]]) + ReplaceAll(s[1..], c, with)
  }

  /** Four passes over the whole string, backslashes first. */
  function Escape(s: string): string
  {
    var s1 := ReplaceAll(s, '\\', "\\\\");
    var s2 := ReplaceAll(s1, ';', "\\;");
    var s3 := ReplaceAll(s2, ',', "\\,");
    ReplaceAll(s3, '\n', "\\n")
  }

  /** ESCAPED-CHAR of the RFC for one character. */
  function EscapedChar(c: char): string
  {
    if c == '\\' then "\\\\" else if c == ';' then "\\;" else if c == ',' then "\\," else if c == '\n' then "\\n" else [c]
  }

  function Substituted(s: string): string
  {
    if s == "" then "" else EscapedChar(s[0]) + Substituted(s[1..])
  }

  lemma {:induction false} ReplaceConcat(a: string, b: string, c: char, r: string)
    ensures ReplaceAll(a + b, c, r) == ReplaceAll(a, c, r) + ReplaceAll(b, c, r)
    decreases |a|
  {
    if a == "" {
      assert a + b == b;
    } else {
      assert (a + b)[1..] == a[1..] + b;
      ReplaceConcat(a[1..], b, c, r);
    }
  }

  lemma ReplaceOne(x: char, c: char, r: string)
    ensures ReplaceAll([x], c, r) == if x == c then r else [x]
  {
    assert [x][1..] == "";
  }

  lemma ReplaceTwo(x: char, y: char, c: char, r: string)
    requires x != c && y != c
    ensures ReplaceAll([x, y], c, r) == [x, y]
  {
    assert [x, y] == [x] + [y];
    ReplaceConcat([x], [y], c, r);
    ReplaceOne(x, c, r);
    ReplaceOne(y, c, r);
  }

  lemma EscapeConcat(a: string, b: string)
    ensures Escape(a + b) == Escape(a) + Escape(b)
  {
    hide ReplaceAll;
    ReplaceConcat(a, b, '\\', "\\\\");
    var a1, b1 := ReplaceAll(a, '\\', "\\\\"), ReplaceAll(b, '\\', "\\\\");
    ReplaceConcat(a1, b1, ';', "\\;");
    var a2, b2 := ReplaceAll(a1, ';', "\\;"), ReplaceAll(b1, ';', "\\;");
    ReplaceConcat(a2, b2, ',', "\\,");
    ReplaceConcat(ReplaceAll(a2, ',', "\\,"), ReplaceAll(b2, ',', "\\,"), '\n', "\\n");
  }

  /** A later pass does not touch what an earlier pass wrote. */
  lemma EscapeOne(c: char)
    ensures Escape([c]) == EscapedChar(c)
  {
    hide ReplaceAll;
    ReplaceOne(c, '\\', "\\\\");
    ReplaceOne(c, ';', "\\;");
    ReplaceOne(c, ',', "\\,");
    ReplaceOne(c, '\n', "\\n");
    ReplaceTwo('\\', '\\', ';', "\\;");
    ReplaceTwo('\\', '\\', ',', "\\,");
    ReplaceTwo('\\', '\\', '\n', "\\n");
    ReplaceTwo('\\', ';', ',', "\\,");
    ReplaceTwo('\\', ';', '\n', "\\n");
    ReplaceTwo('\\', ',', '\n', "\\n");
  }

  /** The four passes are one substitution, character by character. */
  lemma {:induction false} PassesAreSubstitution(s: string)
    ensures Escape(s) == Substituted(s)
    decreases |s|
  {
    if s != "" {
      assert s == [s[0]] + s[1..];
      EscapeConcat([s[0]], s[1..]);
      EscapeOne(s[0]);
      PassesAreSubstitution(s[1..]);
    }
  }

  /** Reading TEXT back: an escape pair stands for one character, anything else for itself. */
  function Unescape(s: string): string
    decreases |s|
  {
    if s == "" then ""
    else if s[0] == '\\' && |s| > 1 && s[1] in {'\\', ';', ','} then [s[1]] + Unescape(s[2..])
    else if s[0] == '\\' && |s| > 1 && s[1] in {'n', 'N'} then ['\n'] + Unescape(s[2..])
    else [s[0]] + Unescape(s[1..])
  }

  /** CONTROL of the grammar: the ASCII control characters except the tab, which counts as white space. */
  predicate Control(c: char)
  {
    (c < ' ' && c != '\t') || c == 0x7F as char
  }

  /** A value the TEXT grammar allows: escape pairs, and characters that need none. */
  predicate IsText(s: string)
    decreases |s|
  {
    if s == "" then true
    else if s[0] == '\\' then |s| > 1 && s[1] in {'\\', ';', ',', 'n', 'N'} && IsText(s[2..])
    else s[0] !in {';', ','} && !Control(s[0]) && IsText(s[1..])
  }

  lemma {:induction false} SubstitutedReads(s: string)
    ensures Unescape(Substituted(s)) == s
    decreases |s|
  {
    if s != "" {
      SubstitutedReads(s[1..]);
      EscapedFirst(s);
    }
  }

  lemma EscapedFirst(s: string)
    requires s != ""
    ensures var e, rest := EscapedChar(s[0]), Substituted(s[1..]);
            Substituted(s) == e + rest && (e + rest)[|e|..] == rest && s == [s[0]] + s[1..]
  {
  }

  /** Every string survives escaping, and different strings stay different. */
  lemma RoundTrip(s: string, t: string)
    ensures Unescape(Escape(s)) == s
    ensures Escape(s) == Escape(t) ==> s == t
  {
    PassesAreSubstitution(s);
    PassesAreSubstitution(t);
    SubstitutedReads(s);
    SubstitutedReads(t);
  }

  /** Of the control characters, escaping takes care of the newline only. */
  predicate Clean(s: string)
  {
    forall c <- s :: c == '\n' || !Control(c)
  }

  lemma {:induction false} SubstitutedIsTextIff(s: string)
    ensures IsText(Substituted(s)) <==> Clean(s)
    decreases |s|
  {
    if s != "" {
      SubstitutedIsTextIff(s[1..]);
      EscapedFirst(s);
      TextOfOne(s[0], Substituted(s[1..]));
      assert Clean(s) <==> (s[0] == '\n' || !Control(s[0])) && Clean(s[1..]) by { CleanFirst(s); }
    }
  }

  lemma CleanFirst(s: string)
    requires s != ""
    ensures Clean(s) <==> (s[0] == '\n' || !Control(s[0])) && Clean(s[1..])
  {
    assert forall c :: c in s <==> c == s[0] || c in s[1..];
  }

  lemma TextOfOne(c: char, rest: string)
    ensures IsText(EscapedChar(c) + rest) <==> (c == '\n' || !Control(c)) && IsText(rest)
  {
    var e := EscapedChar(c);
    assert (e + rest)[|e|..] == rest;
  }

  /** The escaped form is legal TEXT if and only if the text has no control character but newlines and tabs. */
  lemma LegalTextIff(s: string)
    ensures IsText(Escape(s)) <==> forall c <- s :: c == '\n' || !Control(c)
  {
    PassesAreSubstitution(s);
    SubstitutedIsTextIff(s);
  }

  /** A line that ends in a carriage return and a newline is escaped to something that is not TEXT. */
  lemma CarriageReturnPasses(line: string)
    ensures '\r' in Escape(line + "\r\n") && !IsText(Escape(line + "\r\n"))
  {
    var s := line + "\r\n";
    assert s[|line|] == '\r' && Control('\r');
    LegalTextIff(s);
    EscapeConcat(line, "\r\n");
    PassesAreSubstitution("\r\n");
    assert "\r\n"[1..] == "\n" && "\n"[1..] == "";
    assert Substituted("\r\n") == "\r\\n";
    assert Escape(s)[|Escape(line)|] == '\r';
  }

  lemma {:induction false} SubstitutedIsOneLine(s: string)
    ensures '\n' !in Substituted(s)
    decreases |s|
  {
    if s != "" {
      SubstitutedIsOneLine(s[1..]);
    }
  }

  /** No raw newline is left. */
  lemma EscapedIsOneLine(s: string)
    ensures '\n' !in Escape(s)
  {
    PassesAreSubstitution(s);
    SubstitutedIsOneLine(s);
  }
}
