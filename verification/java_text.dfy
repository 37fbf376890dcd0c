/**
 * The Java library behaviour the spelling engine relies on, stated for
 * ASCII text: character classes, case mapping, String.trim, String.compareTo,
 * compareToIgnoreCase, equalsIgnoreCase, String.split and the exceptions the
 * modelled code can throw.
 */
module JavaText {

  datatype Option<T> = None | Some(value: T)

  /** The exceptions the modelled operations raise. */
  datatype JavaException =
    | IllegalArgument        // IllegalArgumentException
    | UnsupportedOperation   // UnsupportedOperationException
    | IndexOutOfBounds       // ArrayIndexOutOfBoundsException / IndexOutOfBoundsException
    | NegativeArraySize      // NegativeArraySizeException
    | BadFormat              // IOException("bad format")
    | NumberFormat           // NumberFormatException

  /** A Java call either returns a value or throws. */
  datatype Attempt<T> = Done(value: T) | Thrown(exception: JavaException)

  // ---------------------------------------------------------------------
  // Characters

  predicate IsUpper(c: char) { 'A' <= c <= 'Z' }
  predicate IsLower(c: char) { 'a' <= c <= 'z' }
  predicate IsDigit(c: char) { '0' <= c <= '9' }

  /** Character.isWhitespace on the ASCII range. */
  predicate IsWhitespace(c: char)
  {
    c == ' ' || c == '\t' || c == '\n' || c == '\U{000B}' || c == '\U{000C}' || c == '\r'
    || ('\U{001C}' <= c <= '\U{001F}')
  }

  /** A character of the regular-expression class \w (without UNICODE_CHARACTER_CLASS). */
  predicate IsWordChar(c: char)
  {
    IsUpper(c) || IsLower(c) || IsDigit(c) || c == '_'
  }

  function ToUpperChar(c: char): char
  {
    if IsLower(c) then (c as int - 32) as char else c
  }

  function ToLowerChar(c: char): char
  {
    if IsUpper(c) then (c as int + 32) as char else c
  }

  function ToUpper(s: string): (r: string)
    ensures |r| == |s|
    ensures forall i :: 0 <= i < |s| ==> r[i] == ToUpperChar(s[i])
  {
    seq(|s|, i requires 0 <= i < |s| => ToUpperChar(s[i]))
  }

  function ToLower(s: string): (r: string)
    ensures |r| == |s|
    ensures forall i :: 0 <= i < |s| ==> r[i] == ToLowerChar(s[i])
  {
    seq(|s|, i requires 0 <= i < |s| => ToLowerChar(s[i]))
  }

  lemma ToUpperIdempotent(s: string)
    ensures ToUpper(ToUpper(s)) == ToUpper(s)
  {
  }

  lemma ToLowerIdempotent(s: string)
    ensures ToLower(ToLower(s)) == ToLower(s)
  {
  }

  /** Upper-casing forgets any earlier case mapping. */
  lemma ToUpperAfterToLower(s: string)
    ensures ToUpper(ToLower(s)) == ToUpper(s)
    ensures ToUpper(ToUpper(s)) == ToUpper(s)
  {
  }

  // ---------------------------------------------------------------------
  // Searching

  predicate StartsWith(s: string, prefix: string)
  {
    |prefix| <= |s| && s[..|prefix|] == prefix
  }

  /** A string starts with a one-character prefix exactly when its first character is that one. */
  lemma StartsWithChar(s: string, c: char)
    ensures StartsWith(s, [c]) <==> |s| > 0 && s[0] == c
  {
    if |s| > 0 && s[0] == c {
      assert s[..1] == [c];
    }
  }

  /** String.indexOf(char): the first position of c, if any. */
  function IndexOf(s: string, c: char): (r: Option<nat>)
    ensures r.None? <==> c !in s
    ensures r.Some? ==> r.value < |s| && s[r.value] == c && c !in s[..r.value]
  {
    if |s| == 0 then None
    else if s[0] == c then Some(0)
    else match IndexOf(s[1..], c)
      case None => None
      case Some(k) => assert s[1..][..k] == s[1..k + 1]; Some(k + 1)
  }

  /** String.lastIndexOf(char): the last position of c, if any. */
  function LastIndexOf(s: string, c: char): (r: Option<nat>)
    ensures r.None? <==> c !in s
    ensures r.Some? ==> r.value < |s| && s[r.value] == c && c !in s[r.value + 1..]
  {
    if |s| == 0 then None
    else if s[|s| - 1] == c then Some(|s| - 1)
    else
      assert s == s[..|s| - 1] + [s[|s| - 1]];
      LastIndexOf(s[..|s| - 1], c)
  }

  // ---------------------------------------------------------------------
  // String.trim: removes every leading and trailing character <= U+0020.

  function TrimStart(s: string): (r: string)
    ensures |r| <= |s| && r == s[|s| - |r|..]
    ensures r == [] || r[0] > ' '
    ensures forall k :: 0 <= k < |s| - |r| ==> s[k] <= ' '
  {
    if |s| > 0 && s[0] <= ' ' then TrimStart(s[1..]) else s
  }

  function TrimEnd(s: string): (r: string)
    ensures |r| <= |s| && r == s[..|r|]
    ensures r == [] || r[|r| - 1] > ' '
    ensures forall k :: |r| <= k < |s| ==> s[k] <= ' '
  {
    if |s| > 0 && s[|s| - 1] <= ' ' then TrimEnd(s[..|s| - 1]) else s
  }

  function Trim(s: string): string
  {
    TrimEnd(TrimStart(s))
  }

  /** The trimmed text is empty exactly when every character is at or below U+0020. */
  lemma TrimEmpty(s: string)
    ensures Trim(s) == [] <==> forall k :: 0 <= k < |s| ==> s[k] <= ' '
  {
    var t := TrimStart(s);
    if Trim(s) == [] {
    } else {
      var u := Trim(s);
      assert u[0] == t[0] == s[|s| - |t|];
    }
  }

  /** Trimming only removes characters. */
  lemma TrimSubset(s: string)
    ensures forall c :: c in Trim(s) ==> c in s
  {
    var t := TrimStart(s);
    var u := TrimEnd(t);
    forall c | c in u
      ensures c in s
    {
      var i :| 0 <= i < |u| && u[i] == c;
      assert t[i] == s[|s| - |t| + i];
    }
  }

  /** Trimming a string with no blank characters at its ends changes nothing. */
  lemma TrimLength(s: string)
    ensures |Trim(s)| <= |s|
  {
  }

  lemma TrimUnchanged(s: string)
    requires s == [] || (s[0] > ' ' && s[|s| - 1] > ' ')
    ensures Trim(s) == s
  {
  }

  // ---------------------------------------------------------------------
  // String.compareTo and friends

  /**
   * String.compareTo: the difference of the first differing characters,
   * or else the difference of the lengths.
   */
  function CompareTo(a: string, b: string): int
  {
    if |a| == 0 || |b| == 0 then |a| - |b|
    else if a[0] != b[0] then a[0] as int - b[0] as int
    else CompareTo(a[1..], b[1..])
  }

  predicate Less(a: string, b: string) { CompareTo(a, b) < 0 }

  lemma {:induction false} CompareToZero(a: string, b: string)
    ensures CompareTo(a, b) == 0 <==> a == b
  {
    if |a| == 0 || |b| == 0 {
    } else if a[0] != b[0] {
    } else {
      CompareToZero(a[1..], b[1..]);
      assert a == [a[0]] + a[1..] && b == [b[0]] + b[1..];
    }
  }

  lemma {:induction false} CompareToAntisymmetric(a: string, b: string)
    ensures CompareTo(b, a) == -CompareTo(a, b)
  {
    if |a| == 0 || |b| == 0 {
    } else if a[0] != b[0] {
    } else {
      CompareToAntisymmetric(a[1..], b[1..]);
    }
  }

  lemma {:induction false} CompareToTransitive(a: string, b: string, c: string)
    requires CompareTo(a, b) < 0 && CompareTo(b, c) < 0
    ensures CompareTo(a, c) < 0
  {
    if |a| == 0 || |b| == 0 || |c| == 0 {
    } else if a[0] != b[0] || b[0] != c[0] {
    } else {
      CompareToTransitive(a[1..], b[1..], c[1..]);
    }
  }

  lemma CompareToLessOrEqualTransitive(a: string, b: string, c: string)
    requires CompareTo(a, b) <= 0 && CompareTo(b, c) <= 0
    ensures CompareTo(a, c) <= 0
  {
    CompareToZero(a, b);
    CompareToZero(b, c);
    if CompareTo(a, b) < 0 && CompareTo(b, c) < 0 {
      CompareToTransitive(a, b, c);
    }
  }

  /** A prefix never sorts after the string it begins. */
  lemma {:induction false} PrefixCompare(p: string, s: string)
    requires StartsWith(s, p)
    ensures CompareTo(p, s) <= 0
  {
    if |p| == 0 || |s| == 0 {
    } else {
      assert p[1..] == p[1..];
      assert s[1..][..|p| - 1] == s[1..|p|] == p[1..];
      PrefixCompare(p[1..], s[1..]);
    }
  }

  /**
   * String.compareToIgnoreCase: on ASCII text, folding each character to
   * upper case and then to lower case is the same as folding it to lower case.
   */
  function CompareToIgnoreCase(a: string, b: string): int
  {
    CompareTo(ToLower(a), ToLower(b))
  }

  /** String.equalsIgnoreCase on ASCII text. */
  predicate EqualsIgnoreCase(a: string, b: string)
  {
    ToLower(a) == ToLower(b)
  }

  /** String.matches("\\w+"). */
  predicate MatchesWordPattern(s: string)
  {
    |s| > 0 && forall k :: 0 <= k < |s| ==> IsWordChar(s[k])
  }

  // ---------------------------------------------------------------------
  // String.split with a one-character separator

  /** Every field between separators, including trailing empty fields. */
  function Fields(s: string, sep: char): (r: seq<string>)
    ensures |r| >= 1
    ensures forall f :: f in r ==> sep !in f
  {
    match IndexOf(s, sep)
      case None => [s]
      case Some(i) => [s[..i]] + Fields(s[i + 1..], sep)
  }

  /** A string without the separator is a single field. */
  lemma FieldsWithoutSeparator(s: string, sep: char)
    requires sep !in s
    ensures Fields(s, sep) == [s]
  {
  }

  function DropTrailingEmpty(fs: seq<string>): (r: seq<string>)
    ensures |r| <= |fs| && r == fs[..|r|]
    ensures r == [] || r[|r| - 1] != []
  {
    if |fs| > 0 && fs[|fs| - 1] == [] then DropTrailingEmpty(fs[..|fs| - 1]) else fs
  }

  /**
   * String.split with a separator that is one ordinary character: the input
   * itself when the separator does not occur, otherwise the fields with
   * trailing empty fields removed.
   */
  function Split(s: string, sep: char): seq<string>
  {
    if sep !in s then [s] else DropTrailingEmpty(Fields(s, sep))
  }

  /** The characters the regular expression \R treats as a line break on their own. */
  predicate IsLineBreak(c: char)
  {
    c == '\n' || c == '\U{000B}' || c == '\U{000C}' || c == '\r'
    || c == '\U{0085}' || c == '\U{2028}' || c == '\U{2029}'
  }

  function IndexOfLineBreak(s: string): (r: Option<nat>)
    ensures r.None? ==> forall k :: 0 <= k < |s| ==> !IsLineBreak(s[k])
    ensures r.Some? ==> r.value < |s| && IsLineBreak(s[r.value])
    ensures r.Some? ==> forall k :: 0 <= k < r.value ==> !IsLineBreak(s[k])
  {
    if |s| == 0 then None
    else if IsLineBreak(s[0]) then Some(0)
    else match IndexOfLineBreak(s[1..])
      case None => None
      case Some(k) => Some(k + 1)
  }

  /** Every field between \R matches; "\r\n" is one match. */
  function LineFields(s: string): (r: seq<string>)
    ensures |r| >= 1
  {
    match IndexOfLineBreak(s)
      case None => [s]
      case Some(i) =>
        var width := if s[i] == '\r' && i + 1 < |s| && s[i + 1] == '\n' then 2 else 1;
        [s[..i]] + LineFields(s[i + width..])
  }

  /** String.split("\\R"). */
  function SplitLines(s: string): seq<string>
  {
    if IndexOfLineBreak(s).None? then [s] else DropTrailingEmpty(LineFields(s))
  }
}
