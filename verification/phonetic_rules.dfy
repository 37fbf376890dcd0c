/**
 * The aspell phonetic-rule interpreter (GenericTransformator): a parser for
 * rule files, the rewriting loop that turns a word into its phonetic code,
 * and the replace list of letters used to generate near misses.
 *
 * A rule line holds a match expression and, after white space, a
 * replacement. In the match expression '(' ... ')' is a group that matches
 * any one of its letters, '^' anchors the rule at the start of the word,
 * '$' at its end, and each '-' keeps one matched character out of the
 * replaced span. "_" stands for an empty replacement.
 */
module PhoneticRules {
  import opened JavaText

  const DefaultAlphabet: string := "ABCDEFGHIJKLMNOPQRSTUVWXYZ"
  const KeywordAlphabet: string := "alphabet"
  const AlphabetStart: char := '['
  const AlphabetEnd: char := ']'
  const StartMulti: char := '('
  const EndMulti: char := ')'
  const DigitCode: string := "0"
  const EmptyReplacement: string := "_"

  /**
   * A transformation rule. matchLength counts a group as one character;
   * takeOut is the number of characters the replacement takes out.
   */
  datatype Rule = Rule(
    matchExpression: string,
    replacement: string,
    takeOut: int,
    matchLength: int,
    start: bool,
    end: bool)

  // ---------------------------------------------------------------------
  // Reading rule lines

  /** Removes an end-of-line comment and surrounding blanks. */
  function StripComment(line: string): (r: string)
    ensures '#' !in r
    ensures '#' !in line ==> r == Trim(line)
    ensures r == [] || (r[0] > ' ' && r[|r| - 1] > ' ')
  {
    match IndexOf(line, '#')
      case None => Trim(line)
      case Some(p) =>
        TrimSubset(line[..p]);
        Trim(line[..p])
  }

  predicate StartsWithIgnoredKeyWord(s: string)
  {
    StartsWith(s, "version") || StartsWith(s, "followup") || StartsWith(s, "collapse_result")
  }

  /** Characters with a special meaning in a match expression. */
  predicate IsReservedChar(c: char)
  {
    c == '<' || c == '>' || c == '^' || c == '$' || c == '-' || IsDigit(c)
  }

  predicate IsMulti(c: char) { c == StartMulti || c == EndMulti }

  predicate IsMatchChar(c: char) { !IsReservedChar(c) }

  predicate IsReplacementChar(c: char) { !IsWhitespace(c) }

  /** The characters of s that satisfy p, in order. */
  function Keep(s: string, p: char -> bool): (r: string)
    ensures |r| <= |s|
  {
    if s == [] then [] else (if p(s[0]) then [s[0]] else []) + Keep(s[1..], p)
  }

  lemma {:induction false} KeepMembers(s: string, p: char -> bool)
    ensures forall c :: c in Keep(s, p) <==> c in s && p(c)
  {
    if s != [] {
      KeepMembers(s[1..], p);
    }
  }

  lemma {:induction false} KeepAppend(a: string, b: string, p: char -> bool)
    ensures Keep(a + b, p) == Keep(a, p) + Keep(b, p)
  {
    if a == [] {
      assert a + b == b;
    } else {
      assert (a + b)[0] == a[0];
      assert (a + b)[1..] == a[1..] + b;
      KeepAppend(a[1..], b, p);
      calc {
        Keep(a + b, p);
        (if p(a[0]) then [a[0]] else []) + Keep(a[1..] + b, p);
        (if p(a[0]) then [a[0]] else []) + (Keep(a[1..], p) + Keep(b, p));
        ((if p(a[0]) then [a[0]] else []) + Keep(a[1..], p)) + Keep(b, p);
      }
    }
  }

  lemma {:induction false} KeepAll(s: string, p: char -> bool)
    requires forall k :: 0 <= k < |s| ==> p(s[k])
    ensures Keep(s, p) == s
  {
    if s != [] {
      KeepAll(s[1..], p);
    }
  }

  function Occurrences(s: string, c: char): nat
  {
    if s == [] then 0 else (if s[0] == c then 1 else 0) + Occurrences(s[1..], c)
  }

  lemma {:induction false} OccurrencesAppend(a: string, b: string, c: char)
    ensures Occurrences(a + b, c) == Occurrences(a, c) + Occurrences(b, c)
  {
    if a == [] {
      assert a + b == b;
    } else {
      assert (a + b)[1..] == a[1..] + b;
      OccurrencesAppend(a[1..], b, c);
    }
  }

  /** The position of the first white space, or the length when there is none. */
  function FirstWhitespace(s: string): (r: nat)
    ensures r <= |s|
    ensures forall k :: 0 <= k < r ==> !IsWhitespace(s[k])
    ensures r < |s| ==> IsWhitespace(s[r])
  {
    if s == [] || IsWhitespace(s[0]) then 0 else 1 + FirstWhitespace(s[1..])
  }

  lemma {:induction false} FirstWhitespaceAppend(a: string, b: string)
    requires forall k :: 0 <= k < |a| ==> !IsWhitespace(a[k])
    ensures FirstWhitespace(a + b) == |a| + FirstWhitespace(b)
  {
    if a == [] {
      assert a + b == b;
    } else {
      assert (a + b)[1..] == a[1..] + b;
      FirstWhitespaceAppend(a[1..], b);
    }
  }

  /**
   * The counted length of a match expression: one per character outside a
   * group and one per group, charged at the character that opens it.
   */
  function CountedLength(m: string, inMulti: bool): nat
  {
    if m == [] then 0
    else (if inMulti then 0 else 1) + CountedLength(m[1..], if IsMulti(m[0]) then !inMulti else inMulti)
  }

  /** Whether a group is open after reading m. */
  function MultiAfter(m: string, inMulti: bool): bool
  {
    if m == [] then inMulti else MultiAfter(m[1..], if IsMulti(m[0]) then !inMulti else inMulti)
  }

  lemma {:induction false} CountedLengthAppend(a: string, b: string, inMulti: bool)
    ensures CountedLength(a + b, inMulti) == CountedLength(a, inMulti) + CountedLength(b, MultiAfter(a, inMulti))
    ensures MultiAfter(a + b, inMulti) == MultiAfter(b, MultiAfter(a, inMulti))
  {
    if a == [] {
      assert a + b == b;
    } else {
      assert (a + b)[1..] == a[1..] + b;
      CountedLengthAppend(a[1..], b, if IsMulti(a[0]) then !inMulti else inMulti);
    }
  }

  lemma {:induction false} CountedLengthWithoutGroups(m: string, inMulti: bool)
    requires forall k :: 0 <= k < |m| ==> !IsMulti(m[k])
    ensures CountedLength(m, inMulti) == (if inMulti then 0 else |m|)
    ensures MultiAfter(m, inMulti) == inMulti
  {
    if m != [] {
      CountedLengthWithoutGroups(m[1..], inMulti);
    }
  }

  /**
   * A group counts exactly once, whatever its size: inserting "(" + g + ")"
   * after a complete prefix adds one to the counted length.
   */
  lemma GroupCountsOnce(p: string, g: string, q: string)
    requires !MultiAfter(p, false)
    requires forall k :: 0 <= k < |g| ==> !IsMulti(g[k])
    ensures CountedLength(p + [StartMulti] + g + [EndMulti] + q, false)
         == CountedLength(p, false) + 1 + CountedLength(q, false)
  {
    CountedLengthAppend(p, [StartMulti] + g + [EndMulti] + q, false);
    assert [StartMulti] + g + [EndMulti] + q == [StartMulti] + (g + [EndMulti] + q);
    assert p + [StartMulti] + g + [EndMulti] + q == p + ([StartMulti] + (g + [EndMulti] + q));
    CountedLengthAppend(g, [EndMulti] + q, true);
    CountedLengthWithoutGroups(g, true);
    assert g + [EndMulti] + q == g + ([EndMulti] + q);
  }

  /**
   * The rule a line describes. The characters before the first white space
   * form the match part: its non-reserved characters are the match
   * expression, '^' and '$' set the anchors and each '-' lowers the
   * take-out. Every later non-white-space character belongs to the
   * replacement.
   */
  function ParseRule(s: string): Rule
  {
    var ws := FirstWhitespace(s);
    var part := s[..ws];
    var matchExpression := Keep(part, IsMatchChar);
    var replacement := Keep(s[ws..], IsReplacementChar);
    var matchLength := CountedLength(matchExpression, false);
    Rule(matchExpression,
         if replacement == EmptyReplacement then "" else replacement,
         matchLength - Occurrences(part, '-'),
         matchLength,
         '^' in part,
         '$' in part)
  }

  /** A parsed rule is consistent: its take-out never exceeds its counted match length. */
  lemma ParsedRuleShape(s: string)
    ensures ParseRule(s).matchLength == CountedLength(ParseRule(s).matchExpression, false)
    ensures ParseRule(s).takeOut <= ParseRule(s).matchLength
    ensures forall c :: c in ParseRule(s).matchExpression ==> !IsReservedChar(c)
    ensures forall c :: c in ParseRule(s).replacement ==> !IsWhitespace(c)
  {
    var ws := FirstWhitespace(s);
    KeepMembers(s[..ws], IsMatchChar);
    KeepMembers(s[ws..], IsReplacementChar);
  }

  /**
   * The layout of a rule line: a match part and a replacement separated by
   * one blank parse into the rule built from the two parts.
   */
  lemma ParseRuleLayout(part: string, replacement: string)
    requires forall k :: 0 <= k < |part| ==> !IsWhitespace(part[k])
    requires forall k :: 0 <= k < |replacement| ==> !IsWhitespace(replacement[k])
    ensures ParseRule(part + " " + replacement).matchExpression == Keep(part, IsMatchChar)
    ensures ParseRule(part + " " + replacement).replacement
         == (if replacement == EmptyReplacement then "" else replacement)
    ensures ParseRule(part + " " + replacement).matchLength == CountedLength(Keep(part, IsMatchChar), false)
    ensures ParseRule(part + " " + replacement).takeOut
         == CountedLength(Keep(part, IsMatchChar), false) - Occurrences(part, '-')
    ensures ParseRule(part + " " + replacement).start == ('^' in part)
    ensures ParseRule(part + " " + replacement).end == ('$' in part)
  {
    var s := part + " " + replacement;
    assert s == part + (" " + replacement);
    FirstWhitespaceAppend(part, " " + replacement);
    assert s[..|part|] == part;
    assert s[|part|..] == " " + replacement;
    KeepAppend(" ", replacement, IsReplacementChar);
    KeepAll(replacement, IsReplacementChar);
  }

  /** A group, a '-' and the empty replacement in one rule. */
  lemma ParseRuleExample()
    ensures ParseRule("A(EI)- _") == Rule("A(EI)", "", 1, 2, false, false)
  {
    var part, replacement := "A(EI)-", "_";
    assert "A(EI)- _" == part + " " + replacement;
    ParseRuleLayout(part, replacement);
    ExampleKeep();
    ExampleCount();
    var r := ParseRule(part + " " + replacement);
    assert r.matchExpression == "A(EI)" && r.replacement == "";
    assert r.takeOut == 1 && r.matchLength == 2 && !r.start && !r.end;
  }

  lemma ExampleKeep()
    ensures Keep("A(EI)-", IsMatchChar) == "A(EI)"
  {
    assert "A(EI)-" == "A(EI)" + "-";
    KeepAppend("A(EI)", "-", IsMatchChar);
    KeepAll("A(EI)", IsMatchChar);
  }

  lemma ExampleCount()
    ensures CountedLength("A(EI)", false) == 2
    ensures Occurrences("A(EI)-", '-') == 1
    ensures '^' !in "A(EI)-" && '$' !in "A(EI)-"
  {
    var m := "A(EI)";
    assert m[1..] == "(EI)" && m[2..] == "EI)" && m[3..] == "I)" && m[4..] == ")";
    assert CountedLength(m[4..], true) == 0;
    assert CountedLength(m[3..], true) == 0;
    assert CountedLength(m[2..], true) == 0;
    assert CountedLength(m[1..], false) == 1;
    var part := "A(EI)-";
    assert part[1..] == "(EI)-" && part[2..] == "EI)-" && part[3..] == "I)-" && part[4..] == ")-" && part[5..] == "-";
    assert Occurrences(part[5..], '-') == 1;
    assert Occurrences(part[4..], '-') == 1;
    assert Occurrences(part[3..], '-') == 1;
    assert Occurrences(part[2..], '-') == 1;
    assert Occurrences(part[1..], '-') == 1;
  }


  /** The flags and buffers of buildRule's scan of a rule line. */
  datatype Scanner = Scanner(
    matchExpression: string,
    replacementExpression: string,
    takeOutPart: int,
    matchLength: int,
    start: bool,
    end: bool,
    inMatch: bool,
    inMulti: bool)

  /** The scanner once it has read the match part `part` and, after it, `rest`. */
  function FromParts(part: string, rest: string, inMatch: bool): Scanner
  {
    var matchExpression := Keep(part, IsMatchChar);
    var matchLength := CountedLength(matchExpression, false);
    Scanner(matchExpression, Keep(rest, IsReplacementChar), matchLength - Occurrences(part, '-'), matchLength,
            '^' in part, '$' in part, inMatch, MultiAfter(matchExpression, false))
  }

  /**
   * The scanner after the first i characters of s: up to the first white
   * space everything read is match part; from it on, the rest is read as
   * replacement.
   */
  ghost function Scanned(s: string, i: nat): Scanner
    requires i <= |s|
  {
    var ws := FirstWhitespace(s);
    if i <= ws then FromParts(s[..i], [], true) else FromParts(s[..ws], s[ws..i], false)
  }

  /** Once the whole line is read, the scanner holds the parts of the rule ParseRule describes. */
  lemma ScannedLine(s: string)
    ensures var r, sc := ParseRule(s), Scanned(s, |s|);
      r.matchExpression == sc.matchExpression && r.takeOut == sc.takeOutPart && r.matchLength == sc.matchLength &&
      r.start == sc.start && r.end == sc.end &&
      r.replacement == (if sc.replacementExpression == EmptyReplacement then "" else sc.replacementExpression)
  {
    var ws := FirstWhitespace(s);
    if ws == |s| {
      assert s[..|s|] == s[..ws];
      assert s[ws..] == [];
    } else {
      assert s[ws..|s|] == s[ws..];
    }
  }

  /** The scanning part of buildRule for a rule line: one pass over the characters with the parser's flags. */
  method ScanRule(inputString: string) returns (rule: Rule)
    ensures rule == ParseRule(inputString)
  {
    var matchExpression := "";
    var replacementExpression := "";
    var start := false;
    var end := false;
    var takeOutPart := 0;
    var matchLength := 0;
    var inMatch := true;
    var inMulti := false;
    assert inputString[..0] == [];
    for i := 0 to |inputString|
      invariant Scanned(inputString, i)
        == Scanner(matchExpression, replacementExpression, takeOutPart, matchLength, start, end, inMatch, inMulti)
    {
      matchExpression, replacementExpression, takeOutPart, matchLength, start, end, inMatch, inMulti :=
        ScanCharacter(inputString, i, matchExpression, replacementExpression, takeOutPart, matchLength,
                      start, end, inMatch, inMulti);
    }
    ScannedLine(inputString);
    if replacementExpression == EmptyReplacement {
      replacementExpression := "";
    }
    rule := Rule(matchExpression, replacementExpression, takeOutPart, matchLength, start, end);
  }

  /**
   * The scanner's work on character i of a rule line: the first white space
   * ends the match part, a character of the match part goes through the
   * match-part rules, and any other character that is not white space is
   * added to the replacement.
   */
  method ScanCharacter(s: string, i: nat, matchExpression: string, replacementExpression: string, takeOutPart: int,
                       matchLength: int, start: bool, end: bool, inMatch: bool, inMulti: bool)
    returns (matchExpression': string, replacementExpression': string, takeOutPart': int,
             matchLength': int, start': bool, end': bool, inMatch': bool, inMulti': bool)
    requires i < |s|
    requires Scanned(s, i)
      == Scanner(matchExpression, replacementExpression, takeOutPart, matchLength, start, end, inMatch, inMulti)
    ensures Scanned(s, i + 1)
      == Scanner(matchExpression', replacementExpression', takeOutPart', matchLength', start', end', inMatch', inMulti')
  {
    var c := s[i];
    matchExpression', replacementExpression', takeOutPart', matchLength', start', end', inMatch', inMulti' :=
      matchExpression, replacementExpression, takeOutPart, matchLength, start, end, inMatch, inMulti;
    if IsWhitespace(c) {
      ScannedWhitespace(s, i);
      inMatch' := false;
    } else if inMatch {
      ScannedMatchCharacter(s, i);
      matchExpression', takeOutPart', matchLength', inMulti', start', end' :=
        ScanMatchCharacter(c, s[..i], matchExpression, takeOutPart, matchLength, inMulti, start, end);
    } else {
      ScannedReplacementCharacter(s, i);
      replacementExpression' := replacementExpression + [c];
    }
  }

  /** White space ends the match part and adds nothing to the replacement. */
  lemma ScannedWhitespace(s: string, i: nat)
    requires i < |s| && IsWhitespace(s[i])
    ensures Scanned(s, i + 1) == Scanned(s, i).(inMatch := false)
  {
    var ws := FirstWhitespace(s);
    if i <= ws {
      assert i == ws && s[ws..i + 1] == [s[i]];
      assert Keep([s[i]], IsReplacementChar) == [];
    } else {
      ScanReplacementStep(s, ws, i, s[ws..i]);
    }
  }

  /** A character before the first white space extends the match part. */
  lemma ScannedMatchCharacter(s: string, i: nat)
    requires i < |s| && !IsWhitespace(s[i]) && Scanned(s, i).inMatch
    ensures Scanned(s, i).inMatch && Scanned(s, i) == FromParts(s[..i], [], true)
    ensures Scanned(s, i + 1) == FromParts(s[..i] + [s[i]], [], true)
  {
    assert s[..i + 1] == s[..i] + [s[i]];
  }

  /** A character after the first white space that is not white space is added to the replacement. */
  lemma ScannedReplacementCharacter(s: string, i: nat)
    requires i < |s| && !IsWhitespace(s[i]) && !Scanned(s, i).inMatch
    ensures Scanned(s, i + 1)
         == Scanned(s, i).(replacementExpression := Scanned(s, i).replacementExpression + [s[i]])
  {
    var ws := FirstWhitespace(s);
    ScanReplacementStep(s, ws, i, s[ws..i]);
  }

  /** The scanner's work on one character of the match part. */
  method ScanMatchCharacter(c: char, ghost part: string, matchExpression: string, takeOutPart: int,
                            matchLength: int, inMulti: bool, start: bool, end: bool)
    returns (matchExpression': string, takeOutPart': int, matchLength': int, inMulti': bool, start': bool, end': bool)
    requires matchExpression == Keep(part, IsMatchChar)
    requires matchLength == CountedLength(matchExpression, false)
    requires inMulti == MultiAfter(matchExpression, false)
    requires takeOutPart == matchLength - Occurrences(part, '-')
    requires start == ('^' in part) && end == ('$' in part)
    ensures matchExpression' == Keep(part + [c], IsMatchChar)
    ensures matchLength' == CountedLength(matchExpression', false)
    ensures inMulti' == MultiAfter(matchExpression', false)
    ensures takeOutPart' == matchLength' - Occurrences(part + [c], '-')
    ensures start' == ('^' in part + [c]) && end' == ('$' in part + [c])
  {
    ScanMatchStep(part, c);
    matchExpression', takeOutPart', matchLength', inMulti', start', end' :=
      matchExpression, takeOutPart, matchLength, inMulti, start, end;
    if !IsReservedChar(c) {
      matchExpression' := matchExpression' + [c];
      if !inMulti {
        takeOutPart' := takeOutPart' + 1;
        matchLength' := matchLength' + 1;
      }
      if c == StartMulti || c == EndMulti {
        inMulti' := !inMulti';
      }
    }
    if c == '-' {
      takeOutPart' := takeOutPart' - 1;
    }
    if c == '^' {
      start' := true;
    }
    if c == '$' {
      end' := true;
    }
  }

  /** One more character of the match part, as the scanner accounts for it. */
  lemma ScanMatchStep(part: string, c: char)
    ensures Keep(part + [c], IsMatchChar) == Keep(part, IsMatchChar) + (if IsMatchChar(c) then [c] else [])
    ensures Occurrences(part + [c], '-') == Occurrences(part, '-') + (if c == '-' then 1 else 0)
    ensures CountedLength(Keep(part, IsMatchChar) + [c], false)
         == CountedLength(Keep(part, IsMatchChar), false) + (if MultiAfter(Keep(part, IsMatchChar), false) then 0 else 1)
    ensures MultiAfter(Keep(part, IsMatchChar) + [c], false)
         == (if IsMulti(c) then !MultiAfter(Keep(part, IsMatchChar), false) else MultiAfter(Keep(part, IsMatchChar), false))
  {
    KeepAppend(part, [c], IsMatchChar);
    OccurrencesAppend(part, [c], '-');
    CountedLengthAppend(Keep(part, IsMatchChar), [c], false);
  }

  /** One more character after the match part. */
  lemma ScanReplacementStep(s: string, ws: nat, i: nat, rest: string)
    requires ws <= i < |s| && rest == s[ws..i]
    ensures s[ws..i + 1] == rest + [s[i]]
    ensures Keep(rest + [s[i]], IsReplacementChar) == Keep(rest, IsReplacementChar) + (if IsReplacementChar(s[i]) then [s[i]] else [])
  {
    KeepAppend(rest, [s[i]], IsReplacementChar);
  }

  /** What one line of a rule file contributes. */
  datatype LineKind =
    | Ignored                                // empty, comment or ignored keyword
    | AlphabetLine(letters: Option<string>)  // "alphabet": the letters between the markers, if both occur
    | BadAlphabet                            // markers in the wrong order: substring throws
    | RuleLine(rule: Rule)

  /** An alphabet line: the characters strictly between the first '[' and the last ']'. */
  function AlphabetLetters(s: string): LineKind
  {
    var start := IndexOf(s, AlphabetStart);
    var end := LastIndexOf(s, AlphabetEnd);
    if start.None? || end.None? then AlphabetLine(None)
    else if start.value + 1 <= end.value then AlphabetLine(Some(s[start.value + 1..end.value]))
    else BadAlphabet
  }

  /** The kind of a line once its comment is stripped. */
  function KindOf(s: string): LineKind
  {
    if s == [] || StartsWithIgnoredKeyWord(s) then Ignored
    else if StartsWith(s, KeywordAlphabet) then AlphabetLetters(s)
    else RuleLine(ParseRule(s))
  }

  function Classify(line: string): LineKind
  {
    KindOf(StripComment(line))
  }

  /** The rules read so far, in file order, and the alphabet in force. */
  datatype RuleTable = RuleTable(rules: seq<Rule>, alphabet: string)

  const InitialTable: RuleTable := RuleTable([], DefaultAlphabet)

  /** The table after one more line: a rule is appended, a complete alphabet line replaces the alphabet. */
  function Apply(table: RuleTable, kind: LineKind): RuleTable
  {
    match kind
      case RuleLine(rule) => table.(rules := table.rules + [rule])
      case AlphabetLine(Some(letters)) => table.(alphabet := letters)
      case _ => table
  }

  /** The table a whole file builds. */
  function TableOf(lines: seq<string>): RuleTable
  {
    if lines == [] then InitialTable
    else Apply(TableOf(lines[..|lines| - 1]), Classify(lines[|lines| - 1]))
  }

  predicate HasBadAlphabet(lines: seq<string>)
  {
    exists i :: 0 <= i < |lines| && Classify(lines[i]).BadAlphabet?
  }

  /**
   * buildRule: one comment-stripped line updates the rule list or the
   * alphabet, or is skipped; an alphabet line whose ']' comes before its
   * '[' makes substring throw.
   */
  method BuildRule(inputString: string, table: RuleTable) returns (r: Attempt<RuleTable>)
    ensures r.Thrown? <==> KindOf(inputString).BadAlphabet?
    ensures r.Thrown? ==> r.exception == IndexOutOfBounds
    ensures r.Done? ==> r.value == Apply(table, KindOf(inputString))
  {
    if inputString == [] || StartsWithIgnoredKeyWord(inputString) {
      return Done(table);
    }
    if StartsWith(inputString, KeywordAlphabet) {
      var start := IndexOf(inputString, AlphabetStart);
      var end := LastIndexOf(inputString, AlphabetEnd);
      if end.Some? && start.Some? {
        if start.value + 1 > end.value {
          return Thrown(IndexOutOfBounds);
        }
        return Done(table.(alphabet := inputString[start.value + 1..end.value]));
      }
      return Done(table);
    }
    var rule := ScanRule(inputString);
    return Done(table.(rules := table.rules + [rule]));
  }

  /** buildRules: every line of the file, comment stripped, handed to buildRule in order. */
  method BuildRules(lines: seq<string>) returns (r: Attempt<RuleTable>)
    ensures r.Thrown? <==> HasBadAlphabet(lines)
    ensures r.Thrown? ==> r.exception == IndexOutOfBounds
    ensures r.Done? ==> r.value == TableOf(lines)
  {
    var table := InitialTable;
    for i := 0 to |lines|
      invariant table == TableOf(lines[..i])
      invariant !HasBadAlphabet(lines[..i])
    {
      BadAlphabetStep(lines, i);
      assert lines[..i + 1][..i] == lines[..i];
      var next := BuildRule(StripComment(lines[i]), table);
      if next.Thrown? {
        assert Classify(lines[i]).BadAlphabet?;
        return next;
      }
      table := next.value;
    }
    assert lines[..|lines|] == lines;
    return Done(table);
  }

  lemma BadAlphabetStep(lines: seq<string>, i: nat)
    requires i < |lines|
    ensures HasBadAlphabet(lines[..i + 1]) <==> HasBadAlphabet(lines[..i]) || Classify(lines[i]).BadAlphabet?
  {
    if HasBadAlphabet(lines[..i + 1]) {
      BadAlphabetInPrefix(lines, i);
    }
    if HasBadAlphabet(lines[..i]) || Classify(lines[i]).BadAlphabet? {
      BadAlphabetExtends(lines, i);
    }
  }

  /** A bad alphabet line among the first i + 1 lines is among the first i or is line i. */
  lemma BadAlphabetInPrefix(lines: seq<string>, i: nat)
    requires i < |lines| && HasBadAlphabet(lines[..i + 1])
    ensures HasBadAlphabet(lines[..i]) || Classify(lines[i]).BadAlphabet?
  {
    var k :| 0 <= k < i + 1 && Classify(lines[..i + 1][k]).BadAlphabet?;
    if k < i {
      assert lines[..i][k] == lines[k];
    }
  }

  /** A bad alphabet line among the first i lines, or line i, is among the first i + 1. */
  lemma BadAlphabetExtends(lines: seq<string>, i: nat)
    requires i < |lines| && (HasBadAlphabet(lines[..i]) || Classify(lines[i]).BadAlphabet?)
    ensures HasBadAlphabet(lines[..i + 1])
  {
    if HasBadAlphabet(lines[..i]) {
      var k :| 0 <= k < i && Classify(lines[..i][k]).BadAlphabet?;
      assert lines[..i + 1][k] == lines[k];
    } else {
      assert lines[..i + 1][i] == lines[i];
    }
  }

  lemma TableOfSnoc(lines: seq<string>, line: string)
    ensures TableOf(lines + [line]) == Apply(TableOf(lines), Classify(line))
  {
    assert (lines + [line])[..|lines|] == lines;
    assert (lines + [line])[|lines|] == line;
  }

  /** A line that strips to nothing, or starts with an ignored keyword or "alphabet", adds no rule. */
  lemma NonRuleLineAddsNoRule(lines: seq<string>, line: string)
    requires var s := StripComment(line); s == [] || StartsWithIgnoredKeyWord(s) || StartsWith(s, KeywordAlphabet)
    ensures TableOf(lines + [line]).rules == TableOf(lines).rules
  {
    TableOfSnoc(lines, line);
    NonRuleKind(StripComment(line));
    ApplyKeepsRules(TableOf(lines), Classify(line));
  }

  /** Only a line that is not empty, not an ignored keyword and not an alphabet line is a rule line. */
  lemma NonRuleKind(s: string)
    requires s == [] || StartsWithIgnoredKeyWord(s) || StartsWith(s, KeywordAlphabet)
    ensures !KindOf(s).RuleLine?
  {
    if s != [] && !StartsWithIgnoredKeyWord(s) {
      assert KindOf(s) == AlphabetLetters(s);
    }
  }

  /** Anything but a rule line leaves the rules as they were. */
  lemma ApplyKeepsRules(table: RuleTable, kind: LineKind)
    requires !kind.RuleLine?
    ensures Apply(table, kind).rules == table.rules
  {
  }

  /** An alphabet line with both markers sets the alphabet to the text between them. */
  lemma AlphabetLineSetsAlphabet(lines: seq<string>, line: string, a: nat, b: nat)
    requires var s := StripComment(line);
      s != [] && !StartsWithIgnoredKeyWord(s) && StartsWith(s, KeywordAlphabet)
      && IndexOf(s, AlphabetStart) == Some(a) && LastIndexOf(s, AlphabetEnd) == Some(b) && a + 1 <= b
    ensures TableOf(lines + [line]).alphabet == StripComment(line)[a + 1..b]
    ensures TableOf(lines + [line]).rules == TableOf(lines).rules
  {
    var s := StripComment(line);
    assert AlphabetLetters(s) == AlphabetLine(Some(s[a + 1..b]));
    assert Classify(line) == AlphabetLine(Some(s[a + 1..b]));
    TableOfSnoc(lines, line);
  }

  /** An alphabet line missing a marker changes nothing. */
  lemma AlphabetLineWithoutMarkers(lines: seq<string>, line: string)
    requires var s := StripComment(line);
      s != [] && !StartsWithIgnoredKeyWord(s) && StartsWith(s, KeywordAlphabet)
      && (AlphabetStart !in s || AlphabetEnd !in s)
    ensures TableOf(lines + [line]) == TableOf(lines)
  {
    var s := StripComment(line);
    assert AlphabetLetters(s) == AlphabetLine(None);
    assert Classify(line) == AlphabetLine(None);
    TableOfSnoc(lines, line);
  }

  /** A rule line appends exactly the rule it describes. */
  lemma RuleLineAppendsRule(lines: seq<string>, line: string)
    requires var s := StripComment(line);
      s != [] && !StartsWithIgnoredKeyWord(s) && !StartsWith(s, KeywordAlphabet)
    ensures TableOf(lines + [line]).rules == TableOf(lines).rules + [ParseRule(StripComment(line))]
    ensures TableOf(lines + [line]).alphabet == TableOf(lines).alphabet
  {
    TableOfSnoc(lines, line);
  }

  // ---------------------------------------------------------------------
  // Matching one rule

  /**
   * The loop of isMatching from one match character on, returning the final
   * value of `matching` and the final word position. A group tests the
   * current character without advancing; closing a group folds its result
   * into `matching`; a literal outside a group overwrites `matching`; the
   * loop stops at a literal or group member once `matching` is false.
   */
  function MatchLoop(m: string, word: string, pos: nat, matching: bool, inMulti: bool, multiMatch: bool): (bool, nat)
    requires pos + CountedLength(m, inMulti) + (if inMulti then 1 else 0) <= |word|
    decreases |m|
  {
    if m == [] then (matching, pos)
    else if IsMulti(m[0]) then
      if inMulti then MatchLoop(m[1..], word, pos, matching && multiMatch, false, multiMatch)
      else MatchLoop(m[1..], word, pos, matching, true, false)
    else
      var same := m[0] == word[pos];
      var matching' := if inMulti then matching else same;
      var multiMatch' := if inMulti then multiMatch || same else multiMatch;
      var pos' := if inMulti then pos else pos + 1;
      if !matching' then (false, pos')
      else MatchLoop(m[1..], word, pos', matching', inMulti, multiMatch')
  }

  /** TransformationRule.isMatching at a position from which the counted length fits. */
  function IsMatching(rule: Rule, word: string, pos: nat): bool
    requires pos + CountedLength(rule.matchExpression, false) <= |word|
  {
    var (matching, p) := MatchLoop(rule.matchExpression, word, pos, true, false, false);
    if rule.end && p != |word| then false else matching
  }

  /** isMatching as the loop the source runs. */
  method RuleIsMatching(rule: Rule, word: string, startPosition: nat) returns (result: bool)
    requires startPosition + CountedLength(rule.matchExpression, false) <= |word|
    ensures result == IsMatching(rule, word, startPosition)
  {
    var m := rule.matchExpression;
    var matching := true;
    var inMulti := false;
    var multiMatch := false;
    var wordPosition: nat := startPosition;
    var matchPosition := 0;
    while matchPosition < |m|
      invariant 0 <= matchPosition <= |m|
      invariant wordPosition + CountedLength(m[matchPosition..], inMulti) + (if inMulti then 1 else 0) <= |word|
      invariant MatchLoop(m[matchPosition..], word, wordPosition, matching, inMulti, multiMatch)
             == MatchLoop(m, word, startPosition, true, false, false)
    {
      var matchCharacter := m[matchPosition];
      assert m[matchPosition..][0] == matchCharacter;
      assert m[matchPosition..][1..] == m[matchPosition + 1..];
      if matchCharacter == StartMulti || matchCharacter == EndMulti {
        inMulti := !inMulti;
        if !inMulti {
          matching := matching && multiMatch;
        } else {
          multiMatch := false;
        }
      } else {
        if matchCharacter != word[wordPosition] {
          if inMulti {
            multiMatch := multiMatch || false;
          } else {
            matching := false;
          }
        } else {
          if inMulti {
            multiMatch := multiMatch || true;
          } else {
            matching := true;
          }
        }
        if !inMulti {
          wordPosition := wordPosition + 1;
        }
        if !matching {
          assert MatchLoop(m, word, startPosition, true, false, false) == (false, wordPosition);
          break;
        }
      }
      matchPosition := matchPosition + 1;
    }
    assert MatchLoop(m, word, startPosition, true, false, false) == (matching, wordPosition);
    if rule.end && wordPosition != |word| {
      matching := false;
    }
    result := matching;
  }

  lemma {:induction false} LiteralLoop(m: string, word: string, pos: nat)
    requires forall k :: 0 <= k < |m| ==> !IsMulti(m[k])
    requires pos + |m| <= |word|
    ensures CountedLength(m, false) == |m|
    ensures MatchLoop(m, word, pos, true, false, false).0 <==> word[pos..pos + |m|] == m
    ensures MatchLoop(m, word, pos, true, false, false).0 ==> MatchLoop(m, word, pos, true, false, false).1 == pos + |m|
  {
    CountedLengthWithoutGroups(m, false);
    if m != [] {
      LiteralLoop(m[1..], word, pos + 1);
      if m[0] == word[pos] {
        assert word[pos..pos + |m|] == [word[pos]] + word[pos + 1..pos + 1 + |m[1..]|];
      } else {
        assert word[pos..pos + |m|][0] != m[0];
      }
    }
  }

  /**
   * A rule without groups matches exactly when its match expression occurs
   * at the position, and, when end-anchored, reaches the end of the word.
   */
  lemma LiteralRuleMatches(rule: Rule, word: string, pos: nat)
    requires forall k :: 0 <= k < |rule.matchExpression| ==> !IsMulti(rule.matchExpression[k])
    requires pos + |rule.matchExpression| <= |word|
    ensures CountedLength(rule.matchExpression, false) == |rule.matchExpression|
    ensures IsMatching(rule, word, pos)
        <==> word[pos..pos + |rule.matchExpression|] == rule.matchExpression
             && (rule.end ==> pos + |rule.matchExpression| == |word|)
  {
    LiteralLoop(rule.matchExpression, word, pos);
  }

  /**
   * A failed group is overridden by a later literal that matches: "(AB)C"
   * matches "CX" at 0 although neither A nor B is there.
   */
  lemma FailedGroupOverridden()
    ensures CountedLength("(AB)C", false) == 2
    ensures IsMatching(Rule("(AB)C", "K", 2, 2, false, false), "CX", 0)
  {
    var m, w := "(AB)C", "CX";
    assert m[1..] == "AB)C" && m[2..] == "B)C" && m[3..] == ")C" && m[4..] == "C" && m[5..] == [];
    assert CountedLength(m[4..], false) == 1;
    assert CountedLength(m[3..], true) == 1;
    assert CountedLength(m[2..], true) == 1;
    assert CountedLength(m[1..], true) == 1;
    assert MatchLoop(m[4..], w, 0, false, false, false) == (true, 1);
    assert MatchLoop(m[3..], w, 0, true, true, false) == (true, 1);
    assert MatchLoop(m[2..], w, 0, true, true, false) == (true, 1);
    assert MatchLoop(m[1..], w, 0, true, true, false) == (true, 1);
  }

  /**
   * A group does not advance the position: in "(AB)B" the literal is tested
   * at the same character as the group.
   */
  lemma GroupDoesNotAdvance()
    ensures CountedLength("(AB)B", false) == 2
    ensures IsMatching(Rule("(AB)B", "K", 2, 2, false, false), "BX", 0)
    ensures !IsMatching(Rule("(AB)B", "K", 2, 2, false, false), "AB", 0)
  {
    var m := "(AB)B";
    assert m[1..] == "AB)B" && m[2..] == "B)B" && m[3..] == ")B" && m[4..] == "B" && m[5..] == [];
    assert CountedLength(m[4..], false) == 1;
    assert CountedLength(m[3..], true) == 1;
    assert CountedLength(m[2..], true) == 1;
    assert CountedLength(m[1..], true) == 1;
    var w := "BX";
    assert MatchLoop(m[4..], w, 0, true, false, true) == (true, 1);
    assert MatchLoop(m[3..], w, 0, true, true, true) == (true, 1);
    assert MatchLoop(m[2..], w, 0, true, true, false) == (true, 1);
    assert MatchLoop(m[1..], w, 0, true, true, false) == (true, 1);
    var v := "AB";
    assert MatchLoop(m[4..], v, 0, true, false, true) == (false, 1);
    assert MatchLoop(m[3..], v, 0, true, true, true) == (false, 1);
    assert MatchLoop(m[2..], v, 0, true, true, true) == (false, 1);
    assert MatchLoop(m[1..], v, 0, true, true, false) == (false, 1);
  }

  // ---------------------------------------------------------------------
  // Transforming a word

  /**
   * The rules transform terminates on: the parser's counted length and
   * take-out, with every rule taking out at least one character.
   */
  predicate WellFormed(rule: Rule)
  {
    rule.matchLength == CountedLength(rule.matchExpression, false) && 1 <= rule.takeOut <= rule.matchLength
  }

  predicate AllWellFormed(rules: seq<Rule>)
  {
    forall k :: 0 <= k < |rules| ==> WellFormed(rules[k])
  }

  /** The three checks transform makes before applying a rule at a position. */
  predicate Applicable(rule: Rule, word: string, pos: nat)
    requires WellFormed(rule)
  {
    !(rule.start && pos > 0) && pos + rule.matchLength <= |word| && IsMatching(rule, word, pos)
  }

  function FirstApplicableFrom(rules: seq<Rule>, word: string, pos: nat, k: nat): (r: Option<nat>)
    requires AllWellFormed(rules) && k <= |rules|
    ensures r.Some? ==> k <= r.value < |rules| && Applicable(rules[r.value], word, pos)
    ensures r.Some? ==> forall j :: k <= j < r.value ==> !Applicable(rules[j], word, pos)
    ensures r.None? ==> forall j :: k <= j < |rules| ==> !Applicable(rules[j], word, pos)
    decreases |rules| - k
  {
    if k == |rules| then None
    else if Applicable(rules[k], word, pos) then Some(k)
    else FirstApplicableFrom(rules, word, pos, k + 1)
  }

  /** The first rule, in table order, that applies at the position. */
  function FirstApplicable(rules: seq<Rule>, word: string, pos: nat): (r: Option<nat>)
    requires AllWellFormed(rules)
    ensures r.Some? ==> r.value < |rules| && Applicable(rules[r.value], word, pos)
    ensures r.Some? ==> forall j :: 0 <= j < r.value ==> !Applicable(rules[j], word, pos)
    ensures r.None? ==> forall j :: 0 <= j < |rules| ==> !Applicable(rules[j], word, pos)
  {
    FirstApplicableFrom(rules, word, pos, 0)
  }

  /** replace: the text takes the place of the span [start, end). */
  function Replace(buffer: string, start: nat, end: nat, text: string): (r: string)
    requires start <= end <= |buffer|
    ensures |r| == |buffer| - (end - start) + |text|
    ensures r[..start] == buffer[..start]
    ensures r[start..start + |text|] == text
    ensures r[start + |text|..] == buffer[end..]
  {
    buffer[..start] + text + buffer[end..]
  }

  /**
   * The rewriting from a cursor on: a digit becomes "0"; otherwise the
   * first applicable rule replaces its take-out span and the cursor moves
   * past the replacement; with no applicable rule the cursor moves by one.
   */
  function TransformFrom(rules: seq<Rule>, buffer: string, pos: nat): string
    requires AllWellFormed(rules) && pos <= |buffer|
    decreases |buffer| - pos
  {
    if pos == |buffer| then buffer
    else if IsDigit(buffer[pos]) then TransformFrom(rules, Replace(buffer, pos, pos + 1, DigitCode), pos + 1)
    else match FirstApplicable(rules, buffer, pos)
      case None => TransformFrom(rules, buffer, pos + 1)
      case Some(k) =>
        TransformFrom(rules, Replace(buffer, pos, pos + rules[k].takeOut, rules[k].replacement),
                      pos + |rules[k].replacement|)
  }

  /** The phonetic code of a word: the rewriting of its upper-cased text from position 0. */
  function Encode(rules: seq<Rule>, word: string): string
    requires AllWellFormed(rules)
  {
    TransformFrom(rules, ToUpper(word), 0)
  }

  /**
   * The code of a word of one letter; a table that is not well formed gets
   * the empty code, as transform is modelled only for well-formed tables.
   */
  function CodeOf(rules: seq<Rule>, c: char): string
  {
    if AllWellFormed(rules) then Encode(rules, [c]) else []
  }

  /** Single letters and their codes, as a function value. */
  function Coding(rules: seq<Rule>): char -> string
  {
    c => CodeOf(rules, c)
  }

  /** The code ignores the case of the word. */
  lemma EncodeIgnoresCase(rules: seq<Rule>, w: string)
    requires AllWellFormed(rules)
    ensures Encode(rules, w) == Encode(rules, ToUpper(w))
    ensures Encode(rules, w) == Encode(rules, ToLower(w))
  {
    ToUpperAfterToLower(w);
  }

  /** Every digit becomes '0' and every other character is kept. */
  function ZeroDigits(s: string): (r: string)
    ensures |r| == |s|
  {
    if s == [] then [] else [if IsDigit(s[0]) then '0' else s[0]] + ZeroDigits(s[1..])
  }

  lemma {:induction false} TransformWithoutRules(buffer: string, pos: nat)
    requires pos <= |buffer|
    ensures TransformFrom([], buffer, pos) == buffer[..pos] + ZeroDigits(buffer[pos..])
    decreases |buffer| - pos
  {
    if pos == |buffer| {
      assert buffer[pos..] == [];
    } else {
      var next := if IsDigit(buffer[pos]) then Replace(buffer, pos, pos + 1, DigitCode) else buffer;
      var z := if IsDigit(buffer[pos]) then '0' else buffer[pos];
      var head, tail := buffer[..pos], buffer[pos + 1..];
      StepWithoutRules(buffer, pos);
      TransformWithoutRules(next, pos + 1);
      assert next[..pos + 1] == head + [z];
      assert next[pos + 1..] == tail;
      assert buffer[pos..][1..] == tail;
      Regroup(head, z, ZeroDigits(tail));
    }
  }

  lemma Regroup(a: string, z: char, b: string)
    ensures a + [z] + b == a + ([z] + b)
  {
  }

  /** With no rules, a digit is zeroed and anything else is passed over. */
  lemma StepWithoutRules(buffer: string, pos: nat)
    requires pos < |buffer|
    ensures TransformFrom([], buffer, pos)
         == TransformFrom([], if IsDigit(buffer[pos]) then Replace(buffer, pos, pos + 1, DigitCode) else buffer, pos + 1)
  {
    assert FirstApplicable([], buffer, pos).None?;
  }

  /** With an empty rule table the code is the upper-cased word with its digits zeroed. */
  lemma EncodeWithoutRules(w: string)
    ensures Encode([], w) == ZeroDigits(ToUpper(w))
  {
    TransformWithoutRules(ToUpper(w), 0);
  }

  function Zeros(n: nat): (r: string)
    ensures |r| == n && forall k :: 0 <= k < n ==> r[k] == '0'
  {
    if n == 0 then [] else ['0'] + Zeros(n - 1)
  }

  lemma {:induction false} DigitsFrom(rules: seq<Rule>, buffer: string, pos: nat)
    requires AllWellFormed(rules) && pos <= |buffer|
    requires forall k :: pos <= k < |buffer| ==> IsDigit(buffer[k])
    ensures TransformFrom(rules, buffer, pos) == buffer[..pos] + Zeros(|buffer| - pos)
    decreases |buffer| - pos
  {
    if pos == |buffer| {
    } else {
      var next := Replace(buffer, pos, pos + 1, DigitCode);
      DigitsFrom(rules, next, pos + 1);
      assert next[..pos + 1] == buffer[..pos] + ['0'];
    }
  }

  /** Digits are replaced one for one by "0" without consulting the rules. */
  lemma DigitsEncodeToZeros(rules: seq<Rule>, w: string)
    requires AllWellFormed(rules)
    requires forall k :: 0 <= k < |w| ==> IsDigit(w[k])
    ensures Encode(rules, w) == Zeros(|w|)
  {
    DigitsFrom(rules, ToUpper(w), 0);
  }

  /**
   * One pass of transform's outer loop: a digit at the cursor becomes "0",
   * anything else goes to the rule loop; the cursor moves by `add` and the
   * length by the replacement's size less its take-out.
   */
  method RewriteAt(rules: seq<Rule>, outputString: string, startPosition: nat, stringLength: nat)
    returns (result: string, next: nat, newLength: nat)
    requires AllWellFormed(rules) && startPosition < |outputString| && stringLength == |outputString|
    ensures newLength == |result| && next <= newLength
    ensures newLength - next < stringLength - startPosition
    ensures TransformFrom(rules, result, next) == TransformFrom(rules, outputString, startPosition)
  {
    var add := 1;
    if IsDigit(outputString[startPosition]) {
      result := Replace(outputString, startPosition, startPosition + |DigitCode|, DigitCode);
      next, newLength := startPosition + add, stringLength;
    } else {
      var takeOut, applied;
      result, add, takeOut, applied := ApplyFirstRule(rules, outputString, startPosition);
      newLength := stringLength;
      if applied {
        newLength := stringLength - takeOut + add;
      }
      next := startPosition + add;
    }
  }

  /**
   * The rule loop of transform at one position: the first rule that
   * applies rewrites the buffer, and `add` is how far the cursor moves.
   */
  method ApplyFirstRule(rules: seq<Rule>, outputString: string, startPosition: nat)
    returns (result: string, add: nat, takeOut: nat, applied: bool)
    requires AllWellFormed(rules) && startPosition < |outputString|
    ensures applied <==> FirstApplicable(rules, outputString, startPosition).Some?
    ensures !applied ==> result == outputString && add == 1
    ensures applied ==>
      var rule := rules[FirstApplicable(rules, outputString, startPosition).value];
      result == Replace(outputString, startPosition, startPosition + rule.takeOut, rule.replacement)
      && add == |rule.replacement| && takeOut == rule.takeOut
    ensures applied ==> |result| == |outputString| - takeOut + add
    ensures |result| - (startPosition + add) < |outputString| - startPosition
  {
    result, add, takeOut, applied := outputString, 1, 0, false;
    for k := 0 to |rules|
      invariant forall j :: 0 <= j < k ==> !Applicable(rules[j], outputString, startPosition)
    {
      var rule := rules[k];
      assert WellFormed(rule);
      if rule.start && startPosition > 0 {
        continue;
      }
      if startPosition + rule.matchLength > |outputString| {
        continue;
      }
      var matching := RuleIsMatching(rule, outputString, startPosition);
      if matching {
        add := |rule.replacement|;
        takeOut := rule.takeOut;
        result := Replace(outputString, startPosition, startPosition + rule.takeOut, rule.replacement);
        applied := true;
        assert FirstApplicable(rules, outputString, startPosition) == Some(k);
        return;
      }
    }
  }

  /**
   * The properties washAlphabetIntoReplaceList gives the replace list it
   * makes from an alphabet, for a given coding of single letters.
   */
  ghost predicate IsReplaceList(code: char -> string, washed: string, alphabet: string)
  {
    // every letter comes from the alphabet
    (forall k :: 0 <= k < |washed| ==> washed[k] in alphabet)
    // no two letters share a code
    && (forall i, j :: 0 <= i < j < |washed| ==> code(washed[i]) != code(washed[j]))
    // every code of the alphabet is represented
    && (forall j :: 0 <= j < |alphabet| ==> Represented(code, washed, alphabet[j]))
    // the representative is the first letter of the alphabet with its code
    && (forall k, j :: 0 <= k < |washed| && 0 <= j < |alphabet| && code(alphabet[j]) == code(washed[k])
          ==> washed[k] in alphabet[..j + 1])
  }

  /** Some letter of the replace list has the code of x. */
  ghost predicate Represented(code: char -> string, washed: string, x: char)
  {
    exists k :: 0 <= k < |washed| && code(washed[k]) == code(x)
  }

  /**
   * What washAlphabetIntoReplaceList knows after the first i letters: the
   * map sends each code met so far to the first letter that had it, and
   * the replace list holds those letters in the order they were met;
   * firsts[k] is the position in the alphabet where washed[k] was met.
   */
  ghost predicate Washing(code: char -> string, alphabet: string, i: nat, letters: map<string, char>, washed: string,
                          firsts: seq<nat>)
    requires i <= |alphabet|
  {
    |firsts| == |washed|
    && (forall k :: 0 <= k < |washed| ==> firsts[k] < i && alphabet[firsts[k]] == washed[k])
    && (forall k, j :: 0 <= k < |washed| && 0 <= j < firsts[k] ==> code(alphabet[j]) != code(washed[k]))
    && (forall k :: 0 <= k < |washed| ==> code(washed[k]) in letters)
    && (forall c :: c in letters ==> letters[c] in washed && code(letters[c]) == c)
    && (forall a, b :: 0 <= a < b < |washed| ==> code(washed[a]) != code(washed[b]))
    && (forall j :: 0 <= j < i ==> code(alphabet[j]) in letters)
  }

  lemma WashStep(code: char -> string, alphabet: string, i: nat, letters: map<string, char>, washed: string,
                 firsts: seq<nat>, c: string)
    requires i < |alphabet| && c == code(alphabet[i])
    requires Washing(code, alphabet, i, letters, washed, firsts)
    ensures c in letters ==> Washing(code, alphabet, i + 1, letters, washed, firsts)
    ensures c !in letters ==>
      Washing(code, alphabet, i + 1, letters[c := alphabet[i]], washed + [alphabet[i]], firsts + [i])
  {
    if c !in letters {
      var letters', washed', firsts' := letters[c := alphabet[i]], washed + [alphabet[i]], firsts + [i];
      forall c' | c' in letters'
        ensures letters'[c'] in washed' && code(letters'[c']) == c'
      {
        if c' != c {
          assert letters'[c'] == letters[c'];
        }
      }
      assert forall k :: 0 <= k < |washed| ==> washed'[k] == washed[k] && firsts'[k] == firsts[k];
    }
  }

  lemma WashDone(code: char -> string, alphabet: string, letters: map<string, char>, washed: string, firsts: seq<nat>)
    requires Washing(code, alphabet, |alphabet|, letters, washed, firsts)
    ensures IsReplaceList(code, washed, alphabet)
  {
    forall k | 0 <= k < |washed|
      ensures washed[k] in alphabet
    {
      assert alphabet[firsts[k]] == washed[k];
    }
    forall j | 0 <= j < |alphabet|
      ensures Represented(code, washed, alphabet[j])
    {
      var c := code(alphabet[j]);
      var k :| 0 <= k < |washed| && washed[k] == letters[c];
      assert code(washed[k]) == code(alphabet[j]);
    }
    forall k, j | 0 <= k < |washed| && 0 <= j < |alphabet| && code(alphabet[j]) == code(washed[k])
      ensures washed[k] in alphabet[..j + 1]
    {
      assert alphabet[..j + 1][firsts[k]] == washed[k];
    }
  }

  /** The one-character replacements of the rules, in rule order. */
  function SingleCharReplacements(rules: seq<Rule>): (r: string)
    ensures |r| <= |rules|
    ensures forall c :: c in r <==> exists k :: 0 <= k < |rules| && rules[k].replacement == [c]
  {
    if rules == [] then []
    else
      var last := rules[|rules| - 1];
      var front := rules[..|rules| - 1];
      assert forall k :: 0 <= k < |front| ==> front[k] == rules[k];
      SingleCharReplacements(front) + (if |last.replacement| == 1 then [last.replacement[0]] else [])
  }

  /** Every rule of a parsed file is well formed once each takes out at least one character. */
  lemma {:induction false} TableRulesWellFormed(lines: seq<string>)
    requires forall k :: 0 <= k < |TableOf(lines).rules| ==> TableOf(lines).rules[k].takeOut >= 1
    ensures AllWellFormed(TableOf(lines).rules)
  {
    if lines != [] {
      var front := lines[..|lines| - 1];
      var last := lines[|lines| - 1];
      assert lines == front + [last];
      TableOfSnoc(front, last);
      ApplyRules(TableOf(front), Classify(last));
      var before, after := TableOf(front).rules, TableOf(lines).rules;
      assert forall k :: 0 <= k < |before| ==> before[k] == after[k];
      TableRulesWellFormed(front);
      if Classify(last).RuleLine? {
        ClassifiedRuleShape(last);
        assert after[|after| - 1] == Classify(last).rule;
      }
    }
  }

  lemma ApplyRules(table: RuleTable, kind: LineKind)
    ensures Apply(table, kind).rules == table.rules + (if kind.RuleLine? then [kind.rule] else [])
  {
  }

  lemma ClassifiedRuleShape(line: string)
    requires Classify(line).RuleLine?
    ensures Classify(line).rule.matchLength == CountedLength(Classify(line).rule.matchExpression, false)
    ensures Classify(line).rule.takeOut <= Classify(line).rule.matchLength
  {
    KindRuleShape(StripComment(line));
  }

  lemma KindRuleShape(s: string)
    requires KindOf(s).RuleLine?
    ensures KindOf(s).rule.matchLength == CountedLength(KindOf(s).rule.matchExpression, false)
    ensures KindOf(s).rule.takeOut <= KindOf(s).rule.matchLength
  {
    assert KindOf(s).rule == ParseRule(s);
    ParsedRuleShape(s);
  }

  /** A phonetic transformator built from an aspell phonetic file. */
  class GenericTransformator {
    var ruleArray: seq<Rule>
    var alphabetString: string

    predicate Valid()
      reads this
    {
      AllWellFormed(ruleArray)
    }

    /** Keeps the rules and washes the alphabet into the replace list. */
    constructor (table: RuleTable)
      requires AllWellFormed(table.rules)
      ensures Valid() && ruleArray == table.rules
      ensures IsReplaceList(Coding(ruleArray), alphabetString, table.alphabet)
    {
      ruleArray := table.rules;
      alphabetString := table.alphabet;
      new;
      alphabetString := WashAlphabetIntoReplaceList(alphabetString);
    }

    /**
     * The constructors over a file or reader: the lines are read into a
     * table of rules; an alphabet line with misplaced markers throws.
     */
    static method FromLines(lines: seq<string>) returns (r: Attempt<GenericTransformator>)
      requires forall k :: 0 <= k < |TableOf(lines).rules| ==> TableOf(lines).rules[k].takeOut >= 1
      ensures r.Thrown? <==> HasBadAlphabet(lines)
      ensures r.Done? ==> fresh(r.value) && r.value.Valid() && r.value.ruleArray == TableOf(lines).rules
      ensures r.Done? ==> IsReplaceList(Coding(r.value.ruleArray), r.value.alphabetString, TableOf(lines).alphabet)
    {
      var table := BuildRules(lines);
      if table.Thrown? {
        return Thrown(table.exception);
      }
      TableRulesWellFormed(lines);
      var transformator := new GenericTransformator(table.value);
      return Done(transformator);
    }

    /** washAlphabetIntoReplaceList: keeps the first letter of the alphabet for each code. */
    method WashAlphabetIntoReplaceList(alphabet: string) returns (washed: string)
      requires Valid()
      ensures IsReplaceList(Coding(ruleArray), washed, alphabet)
    {
      var letters: map<string, char> := map[];
      washed := [];
      ghost var codeOf := Coding(ruleArray);
      ghost var firsts: seq<nat> := [];
      for i := 0 to |alphabet|
        invariant Washing(codeOf, alphabet, i, letters, washed, firsts)
      {
        var code := Transform([alphabet[i]]);
        WashStep(codeOf, alphabet, i, letters, washed, firsts, code);
        if code !in letters {
          letters := letters[code := alphabet[i]];
          washed := washed + [alphabet[i]];
          firsts := firsts + [i];
        }
      }
      WashDone(codeOf, alphabet, letters, washed, firsts);
    }

    /** getCodeReplaceList: the one-character replacements of the rules. */
    method GetCodeReplaceList() returns (replacements: string)
      ensures replacements == SingleCharReplacements(ruleArray)
    {
      replacements := [];
      for i := 0 to |ruleArray|
        invariant replacements == SingleCharReplacements(ruleArray[..i])
      {
        assert ruleArray[..i + 1][..i] == ruleArray[..i];
        var rule := ruleArray[i];
        if |rule.replacement| == 1 {
          replacements := replacements + [rule.replacement[0]];
        }
      }
      assert ruleArray[..|ruleArray|] == ruleArray;
    }

    /** getReplaceList: the washed alphabet. */
    function GetReplaceList(): string
      reads this
    {
      alphabetString
    }

    /** transform as the loop the source runs over a string buffer. */
    method Transform(word: string) returns (code: string)
      requires Valid()
      ensures code == Encode(ruleArray, word)
    {
      var rules := ruleArray;
      var outputString := ToUpper(word);
      var stringLength := |outputString|;
      var startPosition: nat := 0;
      while startPosition < stringLength
        invariant stringLength == |outputString| && startPosition <= stringLength
        invariant TransformFrom(rules, outputString, startPosition) == Encode(rules, word)
        decreases stringLength - startPosition
      {
        outputString, startPosition, stringLength := RewriteAt(rules, outputString, startPosition, stringLength);
      }
      code := outputString;
    }
  }
}
