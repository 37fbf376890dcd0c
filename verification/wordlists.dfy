/**
 * Word lists: a file of one word per line in which '#' starts a comment,
 * either on a line of its own or after the word. WordlistReader splits each
 * line into its payload (the word) and its comment; Wordlist picks one view
 * of the payloads, as written or lower-cased, with or without a minimum
 * length.
 */
module WordLists {
  import opened JavaText
  import opened Buckets

  /**
   * WordlistReader.Line: one line of the file. The comment runs from the
   * first '#' to the end of the line and the payload is what comes before
   * it, both trimmed; the flags say whether the line is empty, whether it is
   * nothing but comment, and whether it has a comment and a payload. The
   * source computes these once, in the constructor, into final fields.
   */
  datatype Line = Line(content: string)
  {
    function Comment(): string
    {
      match IndexOf(content, '#')
      case Some(index) => Trim(content[index..])
      case None => []
    }

    function Payload(): string
    {
      match IndexOf(content, '#')
      case Some(index) => Trim(content[..index])
      case None => Trim(content)
    }

    predicate IsComment() { Comment() == content }

    predicate ContainsComment() { Comment() != [] }

    predicate IsBlank() { content == [] }

    predicate HasPayload() { Payload() != [] }
  }

  /**
   * A line starting with '#' is all comment, with no payload; otherwise the
   * comment starts at the first '#', and a line without one is all payload.
   * The source treats the first case on its own; the split at the first '#'
   * gives the same parts there.
   */
  lemma LineParts(content: string)
    ensures var l := Line(content);
      && (StartsWith(content, "#") ==> l.Comment() == Trim(content) && l.Payload() == [])
      && (!StartsWith(content, "#") && '#' in content ==>
            exists index :: 0 < index < |content| && content[index] == '#' && '#' !in content[..index]
              && l.Payload() == Trim(content[..index]) && l.Comment() == Trim(content[index..]))
      && ('#' !in content ==> l.Comment() == [] && l.Payload() == Trim(content))
  {
    var l := Line(content);
    if '#' in content {
      var index := IndexOf(content, '#').value;
      assert l.Payload() == Trim(content[..index]) && l.Comment() == Trim(content[index..]);
      StartsWithChar(content, '#');
      if StartsWith(content, "#") {
        assert index == 0;
        assert content[index..] == content;
        assert Trim(content[..index]) == [] by {
          assert content[..index] == [];
        }
      } else {
        assert index != 0;
      }
    }
  }

  /** Trimming twice is trimming once. */
  lemma TrimTrimmed(s: string)
    ensures Trim(Trim(s)) == Trim(s)
  {
    var r := Trim(s);
    assert r == [] || (r[0] > ' ' && r[|r| - 1] > ' ') by {
      var t := TrimStart(s);
      if r != [] {
        assert r[0] == t[0];
      }
    }
    TrimUnchanged(r);
  }

  /** A payload is trimmed and never holds a '#', and a line that is all comment has no payload. */
  lemma LinePayload(content: string)
    ensures '#' !in Line(content).Payload()
    ensures Trim(Line(content).Payload()) == Line(content).Payload()
    ensures Line(content).IsComment() ==> !Line(content).HasPayload()
  {
    var l := Line(content);
    match IndexOf(content, '#')
    case Some(index) =>
      assert l.Payload() == Trim(content[..index]) && l.Comment() == Trim(content[index..]);
      TrimSubset(content[..index]);
      TrimTrimmed(content[..index]);
      if index == 0 {
        assert content[..index] == [];
      } else {
        assert |l.Comment()| < |content| by {
          assert |Trim(content[index..])| <= |content[index..]|;
        }
      }
    case None =>
      assert l.Payload() == Trim(content) && l.Comment() == [];
      TrimSubset(content);
      TrimTrimmed(content);
  }

  /** A line that is nothing but a non-empty comment starts with '#'. */
  lemma AllCommentStartsWithHash(content: string)
    requires Line(content).IsComment() && Line(content).ContainsComment()
    ensures StartsWith(content, "#")
  {
    var index := IndexOf(content, '#').value;
    assert Line(content).Comment() == Trim(content[index..]);
    TrimLength(content[index..]);
    assert index == 0;
    StartsWithChar(content, '#');
  }

  /** On a line starting with '#', the comment is the whole line, trimmed. */
  lemma HashStartComment(content: string)
    requires StartsWith(content, "#")
    ensures content != [] && Line(content).Comment() == Trim(content)
  {
    StartsWithChar(content, '#');
    var index := IndexOf(content, '#').value;
    assert index == 0;
    assert content[index..] == content;
  }

  /** A line as the reader stores it, already trimmed, is all comment exactly when it starts with '#'. */
  lemma CommentLine(content: string)
    requires Trim(content) == content
    ensures Line(content).IsComment() && Line(content).ContainsComment() <==> StartsWith(content, "#")
  {
    if Line(content).IsComment() && Line(content).ContainsComment() {
      AllCommentStartsWithHash(content);
    }
    if StartsWith(content, "#") {
      HashStartComment(content);
    }
  }

  /** WordlistReader.read: every line of the file, trimmed, as a Line. */
  function Parsed(rawLines: seq<string>): (lines: seq<Line>)
    ensures |lines| == |rawLines|
  {
    seq(|rawLines|, i requires 0 <= i < |rawLines| => Line(Trim(rawLines[i])))
  }

  /** The i-th line read is the i-th line of the file, trimmed. */
  lemma ParsedAt(rawLines: seq<string>, i: nat)
    requires i < |rawLines|
    ensures Parsed(rawLines)[i] == Line(Trim(rawLines[i]))
  {
  }

  lemma NothingBefore(lines: seq<Line>)
    ensures [] + lines == lines
  {
  }

  class WordlistReader {
    const fileName: string
    var list: seq<Line>

    /** WordlistReader(specifier): reads the named list, here given as its lines. */
    constructor (fileName: string, rawLines: seq<string>)
      ensures this.fileName == fileName && list == Parsed(rawLines)
    {
      this.fileName := fileName;
      list := [];
      new;
      Read(rawLines);
      NothingBefore(Parsed(rawLines));
    }

    /** read: each line, trimmed, is added to the list as a Line. */
    method Read(rawLines: seq<string>)
      modifies this
      ensures list == old(list) + Parsed(rawLines)
    {
      var i := 0;
      while i < |rawLines|
        invariant 0 <= i <= |rawLines|
        invariant |list| == |old(list)| + i
        invariant list[..|old(list)|] == old(list)
        invariant forall k :: 0 <= k < i ==> list[|old(list)| + k] == Parsed(rawLines)[k]
      {
        ParsedAt(rawLines, i);
        list := list + [Line(Trim(rawLines[i]))];
        i := i + 1;
      }
      assert list == old(list) + Parsed(rawLines);
    }
  }

  /** asList(): the payload of every line that has one, in file order. */
  function AsList(lines: seq<Line>): seq<string>
  {
    if lines == [] then []
    else (if lines[0].HasPayload() then [lines[0].Payload()] else []) + AsList(lines[1..])
  }

  /** asList(minimumWordLength): the payloads at least minimumWordLength long. */
  function AsListOfLength(lines: seq<Line>, minimumWordLength: int): seq<string>
  {
    if lines == [] then []
    else
      (if lines[0].HasPayload() && |lines[0].Payload()| >= minimumWordLength then [lines[0].Payload()] else [])
      + AsListOfLength(lines[1..], minimumWordLength)
  }

  /** asLowerCaseList(): every payload, lower-cased. */
  function AsLowerCaseList(lines: seq<Line>): seq<string>
  {
    if lines == [] then []
    else (if lines[0].HasPayload() then [ToLower(lines[0].Payload())] else []) + AsLowerCaseList(lines[1..])
  }

  /** asLowerCaseList(minimumWordLength): the payloads at least minimumWordLength long, lower-cased. */
  function AsLowerCaseListOfLength(lines: seq<Line>, minimumWordLength: int): seq<string>
  {
    if lines == [] then []
    else
      (if lines[0].HasPayload() && |lines[0].Payload()| >= minimumWordLength then [ToLower(lines[0].Payload())] else [])
      + AsLowerCaseListOfLength(lines[1..], minimumWordLength)
  }

  /** asLowerCaseListNoSingleLetters(). */
  function AsLowerCaseListNoSingleLetters(lines: seq<Line>): seq<string>
  {
    AsLowerCaseListOfLength(lines, 2)
  }

  /** The lines with a payload of at least the given length. */
  ghost predicate Listed(lines: seq<Line>, minimumWordLength: int, i: int)
  {
    0 <= i < |lines| && lines[i].HasPayload() && |lines[i].Payload()| >= minimumWordLength
  }

  /**
   * asList(minimumWordLength) holds exactly the payloads of the lines that
   * have one at least that long.
   */
  lemma {:induction false} AsListOfLengthMembers(lines: seq<Line>, minimumWordLength: int, w: string)
    ensures w in AsListOfLength(lines, minimumWordLength) <==>
      exists i :: Listed(lines, minimumWordLength, i) && lines[i].Payload() == w
  {
    if lines != [] {
      AsListOfLengthMembers(lines[1..], minimumWordLength, w);
      if exists i :: Listed(lines[1..], minimumWordLength, i) && lines[1..][i].Payload() == w {
        var i :| Listed(lines[1..], minimumWordLength, i) && lines[1..][i].Payload() == w;
        assert Listed(lines, minimumWordLength, i + 1);
      }
      if exists i :: Listed(lines, minimumWordLength, i) && lines[i].Payload() == w {
        var i :| Listed(lines, minimumWordLength, i) && lines[i].Payload() == w;
        if i > 0 {
          assert Listed(lines[1..], minimumWordLength, i - 1);
        }
      }
    }
  }

  /**
   * Every payload is at least one character long, so a minimum length of
   * one or less filters nothing: asList(1) is asList() and
   * asLowerCaseList(1) is asLowerCaseList().
   */
  lemma {:induction false} ShortMinimumKeepsAll(lines: seq<Line>, minimumWordLength: int)
    requires minimumWordLength <= 1
    ensures AsListOfLength(lines, minimumWordLength) == AsList(lines)
    ensures AsLowerCaseListOfLength(lines, minimumWordLength) == AsLowerCaseList(lines)
  {
    if lines != [] {
      ShortMinimumKeepsAll(lines[1..], minimumWordLength);
    }
  }

  /** asLowerCaseList() is asList() with every word lower-cased. */
  lemma {:induction false} LowerCaseList(lines: seq<Line>)
    ensures AsLowerCaseList(lines) == LowerCased(AsList(lines))
  {
    if lines != [] {
      LowerCaseList(lines[1..]);
      LowerCasedAppend(if lines[0].HasPayload() then [lines[0].Payload()] else [], AsList(lines[1..]));
    }
  }

  /** asLowerCaseList(minimumWordLength) is asList(minimumWordLength) with every word lower-cased. */
  lemma {:induction false} LowerCaseListOfLength(lines: seq<Line>, minimumWordLength: int)
    ensures AsLowerCaseListOfLength(lines, minimumWordLength) == LowerCased(AsListOfLength(lines, minimumWordLength))
  {
    if lines != [] {
      LowerCaseListOfLength(lines[1..], minimumWordLength);
      LowerCasedAppend(if lines[0].HasPayload() && |lines[0].Payload()| >= minimumWordLength then [lines[0].Payload()] else [],
                       AsListOfLength(lines[1..], minimumWordLength));
    }
  }

  lemma LowerCasedAppend(a: seq<string>, b: seq<string>)
    ensures LowerCased(a + b) == LowerCased(a) + LowerCased(b)
  {
  }

  /** Wordlist(x, normalised, minimumLength): the reader view the flag and the length select. */
  function Selected(lines: seq<Line>, normalised: bool, minimumLength: int): seq<string>
  {
    if !normalised then
      if minimumLength == 1 then AsList(lines) else AsListOfLength(lines, minimumLength)
    else
      if minimumLength == 1 then AsLowerCaseList(lines) else AsLowerCaseListOfLength(lines, minimumLength)
  }

  /**
   * A word list holds a word exactly when some line of the file has it as
   * its payload (lower-cased when normalised) and the payload is at least
   * minimumLength long.
   */
  lemma WordlistMembers(rawLines: seq<string>, normalised: bool, minimumLength: int, w: string)
    ensures var lines := Parsed(rawLines);
      w in Selected(lines, normalised, minimumLength) <==>
      exists i :: Listed(lines, minimumLength, i) && w == (if normalised then ToLower(lines[i].Payload()) else lines[i].Payload())
  {
    var lines := Parsed(rawLines);
    if minimumLength == 1 {
      ShortMinimumKeepsAll(lines, 1);
    }
    LowerCaseListOfLength(lines, minimumLength);
    var plain := AsListOfLength(lines, minimumLength);
    if normalised {
      LowerCasedMembers(plain, w);
      if w in LowerCased(plain) {
        var k :| 0 <= k < |plain| && w == ToLower(plain[k]);
        AsListOfLengthMembers(lines, minimumLength, plain[k]);
      }
      if exists i :: Listed(lines, minimumLength, i) && w == ToLower(lines[i].Payload()) {
        var i :| Listed(lines, minimumLength, i) && w == ToLower(lines[i].Payload());
        AsListOfLengthMembers(lines, minimumLength, lines[i].Payload());
        var k :| 0 <= k < |plain| && plain[k] == lines[i].Payload();
        assert w == ToLower(plain[k]);
      }
    } else {
      AsListOfLengthMembers(lines, minimumLength, w);
    }
  }

  class Wordlist {
    var list: seq<string>

    /** Wordlist(x, normalised, minimumLength). */
    constructor (rawLines: seq<string>, normalised: bool, minimumLength: int)
      ensures list == Selected(Parsed(rawLines), normalised, minimumLength)
    {
      var reader := new WordlistReader("", rawLines);
      if !normalised {
        if minimumLength == 1 {
          list := AsList(reader.list);
        } else {
          list := AsListOfLength(reader.list, minimumLength);
        }
      } else {
        if minimumLength == 1 {
          list := AsLowerCaseList(reader.list);
        } else {
          list := AsLowerCaseListOfLength(reader.list, minimumLength);
        }
      }
    }

    /** Wordlist(x): every word as written. */
    constructor Plain(rawLines: seq<string>)
      ensures list == Selected(Parsed(rawLines), false, 1)
    {
      list := AsList(Parsed(rawLines));
    }

    /** Wordlist(x, normalised): every word, lower-cased when normalised. */
    constructor WithCase(rawLines: seq<string>, normalised: bool)
      ensures list == Selected(Parsed(rawLines), normalised, 1)
    {
      list := if normalised then AsLowerCaseList(Parsed(rawLines)) else AsList(Parsed(rawLines));
    }
  }

  /** A line of printable characters other than '#' is all payload. */
  lemma PlainLine(w: string)
    requires IndexOf(w, '#') == None && (w == [] || (w[0] > ' ' && w[|w| - 1] > ' '))
    ensures Line(w).Payload() == w && Line(w).HasPayload() == (w != [])
  {
    TrimUnchanged(w);
  }

  lemma ExampleLines()
    ensures Parsed(["Wii", "Milano"]) == [Line("Wii"), Line("Milano")]
  {
    var raw := ["Wii", "Milano"];
    assert Trim(raw[0]) == "Wii" by {
      TrimUnchanged("Wii");
    }
    assert Trim(raw[1]) == "Milano" by {
      TrimUnchanged("Milano");
    }
    ParsedAt(raw, 0);
    ParsedAt(raw, 1);
  }

  lemma ExampleWords()
    ensures Line("Wii").Payload() == "Wii" && Line("Milano").Payload() == "Milano"
  {
    PlainLine("Wii");
    PlainLine("Milano");
  }

  lemma ExampleLengths(wii: Line, milano: Line)
    requires wii.Payload() == "Wii" && milano.Payload() == "Milano"
    ensures AsListOfLength([wii, milano], 5) == ["Milano"]
  {
    assert [milano][1..] == [];
    assert AsListOfLength([milano], 5) == ["Milano"];
    assert [wii, milano][1..] == [milano];
  }

  /** With a minimum length of 5, "Milano" is listed and "Wii" is not. */
  lemma MinimumLengthExample()
    ensures Selected(Parsed(["Wii", "Milano"]), false, 5) == ["Milano"]
  {
    ExampleLines();
    ExampleWords();
    ExampleLengths(Line("Wii"), Line("Milano"));
  }
}
