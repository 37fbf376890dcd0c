/**
 * The on-disk dictionary's data, as values: the manifest of word-list files
 * that decides whether the database is rebuilt, the sorted and
 * de-duplicated word list, the `code,word` records of the database file,
 * the runs of records that share an index code, and the record count that
 * decides how long an index code is.
 */
module DiskIndex {
  import opened JavaText
  import Sorting

  // ---------------------------------------------------------------------
  // The contents manifest

  /** One line of the contents file, or one file of the words directory: its name and length. */
  datatype FileSize = FileSize(filename: string, size: int)

  /**
   * newDictionaryFiles: the database is rebuilt when the manifest lists a
   * different number of files than the words directory holds, or when some
   * file's (name, length) pair is missing from the manifest.
   */
  predicate NeedsRebuild(manifest: seq<FileSize>, files: seq<FileSize>)
  {
    |manifest| != |files| || exists k :: 0 <= k < |files| && files[k] !in manifest
  }

  /** A directory that still matches the manifest it was built from is not rebuilt, whatever the order of the listing. */
  lemma UnchangedFilesKeepDatabase(manifest: seq<FileSize>, files: seq<FileSize>)
    requires |manifest| == |files|
    requires forall f :: f in files ==> f in manifest
    ensures !NeedsRebuild(manifest, files)
  {
  }

  /** A file that was added, grew or shrank, or was renamed, forces a rebuild. */
  lemma ChangedFileForcesRebuild(manifest: seq<FileSize>, files: seq<FileSize>, f: FileSize)
    requires f in files && f !in manifest
    ensures NeedsRebuild(manifest, files)
  {
    var k :| 0 <= k < |files| && files[k] == f;
  }

  // ---------------------------------------------------------------------
  // The sorted word file

  /** buildSortedFile's reading loop: lines that are exactly "" are skipped, the rest are trimmed. */
  function Cleaned(lines: seq<string>): (r: seq<string>)
    ensures |r| <= |lines|
  {
    if lines == [] then []
    else (if lines[0] != [] then [Trim(lines[0])] else []) + Cleaned(lines[1..])
  }

  /** The cleaned words are the trimmed forms of the lines that are not exactly "". */
  lemma {:induction false} CleanedMembers(lines: seq<string>, w: string)
    ensures w in Cleaned(lines) <==> exists k :: 0 <= k < |lines| && lines[k] != [] && w == Trim(lines[k])
  {
    if lines != [] {
      CleanedMembers(lines[1..], w);
      if w in Cleaned(lines[1..]) {
        var k :| 0 <= k < |lines[1..]| && lines[1..][k] != [] && w == Trim(lines[1..][k]);
        assert lines[k + 1] == lines[1..][k];
      }
      if exists k :: 0 <= k < |lines| && lines[k] != [] && w == Trim(lines[k]) {
        var k :| 0 <= k < |lines| && lines[k] != [] && w == Trim(lines[k]);
        if k > 0 {
          assert lines[1..][k - 1] == lines[k];
        }
      }
    }
  }

  /** String.compareTo is a comparator Collections.sort can rely on. */
  lemma CompareToIsComparator()
    ensures Sorting.Comparator(CompareTo)
  {
    forall x: string, y: string | CompareTo(x, y) > 0
      ensures CompareTo(y, x) <= 0
    {
      CompareToAntisymmetric(x, y);
    }
  }

  /** Every line of every word-list file, cleaned and in String order. */
  function SortedWords(files: seq<seq<string>>): seq<string>
  {
    Sorting.Sort(Cleaned(Flatten(files)), CompareTo)
  }

  function Flatten(files: seq<seq<string>>): (r: seq<string>)
    ensures forall w :: w in r <==> exists f :: f in files && w in f
  {
    if files == [] then []
    else
      assert forall f :: f in files[1..] ==> f in files;
      files[0] + Flatten(files[1..])
  }

  /** Each word strictly precedes the next. */
  predicate StrictlyIncreasing(s: seq<string>)
  {
    forall k :: 0 <= k < |s| - 1 ==> CompareTo(s[k], s[k + 1]) < 0
  }

  /** The sorted word list is in order. */
  lemma SortedWordsSorted(files: seq<seq<string>>)
    ensures Sorting.Sorted(SortedWords(files), CompareTo)
  {
    CompareToIsComparator();
    Sorting.SortSorted(Cleaned(Flatten(files)), CompareTo);
  }

  // ---------------------------------------------------------------------
  // Database records

  /** CodeWord: a word and its phonetic code. */
  datatype CodeWord = CodeWord(code: string, word: string)

  /** CodeWord.compareTo: by code alone. */
  function CompareCodes(a: CodeWord, b: CodeWord): (r: int)
    ensures r == 0 <==> a.code == b.code
  {
    CompareToZero(a.code, b.code);
    CompareTo(a.code, b.code)
  }

  lemma CompareCodesIsComparator()
    ensures Sorting.Comparator(CompareCodes)
  {
    forall x: CodeWord, y: CodeWord | CompareCodes(x, y) > 0
      ensures CompareCodes(y, x) <= 0
    {
      CompareToAntisymmetric(x.code, y.code);
    }
  }

  function Code(r: CodeWord): string { r.code }

  function CodeWords(transform: string -> string, words: seq<string>): seq<CodeWord>
  {
    seq(|words|, k requires 0 <= k < |words| => CodeWord(transform(words[k]), words[k]))
  }

  /** buildCodeDatabase's record list: every sorted word with its code, sorted (stably) by code. */
  function Records(transform: string -> string, words: seq<string>): seq<CodeWord>
  {
    Sorting.Sort(CodeWords(transform, words), CompareCodes)
  }

  /**
   * The records are in code order, and the records of any one code keep the
   * order the word list gave them: Collections.sort is stable.
   */
  lemma RecordsOrdered(transform: string -> string, words: seq<string>, code: string)
    ensures Sorting.Sorted(Records(transform, words), CompareCodes)
    ensures multiset(Records(transform, words)) == multiset(CodeWords(transform, words))
    ensures Sorting.WithKey(Records(transform, words), Code, code)
         == Sorting.WithKey(CodeWords(transform, words), Code, code)
  {
    CompareCodesIsComparator();
    Sorting.SortSorted(CodeWords(transform, words), CompareCodes);
    Sorting.SortStable(CodeWords(transform, words), CompareCodes, Code, code);
  }

  /** The text one record occupies in the database file. */
  function RecordText(r: CodeWord): (t: string)
    ensures |t| == |r.code| + |r.word| + 2
    ensures t[|r.code|] == ',' && t[|t| - 1] == '\n'
  {
    r.code + "," + r.word + "\n"
  }

  /** The database file: every record's text, in order. */
  function Concat(rs: seq<CodeWord>): string
  {
    if rs == [] then "" else RecordText(rs[0]) + Concat(rs[1..])
  }

  lemma {:induction false} ConcatAppend(a: seq<CodeWord>, b: seq<CodeWord>)
    ensures Concat(a + b) == Concat(a) + Concat(b)
  {
    if a != [] {
      assert (a + b)[1..] == a[1..] + b;
      ConcatAppend(a[1..], b);
    } else {
      assert a + b == b;
    }
  }

  /** The words of the records whose code is exactly `code`, in file order. */
  function Matching(rs: seq<CodeWord>, code: string): (r: seq<string>)
    ensures forall w :: w in r ==> exists k :: 0 <= k < |rs| && rs[k] == CodeWord(code, w)
  {
    if rs == [] then []
    else
      var rest := Matching(rs[1..], code);
      assert forall k :: 1 <= k < |rs| ==> rs[k] == rs[1..][k - 1];
      (if rs[0].code == code then [rs[0].word] else []) + rest
  }

  /**
   * getWords' filter over the lines of a span: each line is split at ','
   * and its second field kept when the first equals the code. A line
   * without a second field makes s[1] throw.
   */
  function FilterLines(lines: seq<string>, code: string): Attempt<seq<string>>
  {
    if lines == [] then Done([])
    else
      var s := Split(lines[0], ',');
      if |s| == 0 then Thrown(IndexOutOfBounds)
      else if s[0] != code then FilterLines(lines[1..], code)
      else if |s| < 2 then Thrown(IndexOutOfBounds)
      else match FilterLines(lines[1..], code)
        case Thrown(e) => Thrown(e)
        case Done(rest) => Done([s[1]] + rest)
  }

  /** getWords on the text of a span. */
  function FilterRecords(data: string, code: string): Attempt<seq<string>>
  {
    FilterLines(SplitLines(data), code)
  }

  /** A code or word the record format can carry: no ',' and no line break. */
  predicate PlainField(s: string)
  {
    forall k :: 0 <= k < |s| ==> s[k] != ',' && !IsLineBreak(s[k])
  }

  /** A record the database file can store and getWords can read back. */
  predicate Readable(r: CodeWord)
  {
    PlainField(r.code) && PlainField(r.word) && r.word != []
  }

  function Line(r: CodeWord): string { r.code + "," + r.word }

  /** The lines of the records' text, without their terminators. */
  function Lines(rs: seq<CodeWord>): (ls: seq<string>)
    ensures |ls| == |rs|
  {
    if rs == [] then [] else [Line(rs[0])] + Lines(rs[1..])
  }

  lemma {:induction false} NoLineBreakBefore(x: string, rest: string)
    requires forall k :: 0 <= k < |x| ==> !IsLineBreak(x[k])
    ensures IndexOfLineBreak(x + "\n" + rest) == Some(|x|)
  {
    if x != [] {
      assert (x + "\n" + rest)[1..] == x[1..] + "\n" + rest;
      NoLineBreakBefore(x[1..], rest);
    }
  }

  lemma LineUnbroken(r: CodeWord)
    requires Readable(r)
    ensures forall k :: 0 <= k < |Line(r)| ==> !IsLineBreak(Line(r)[k])
  {
    var x := Line(r);
    forall k | 0 <= k < |x|
      ensures !IsLineBreak(x[k])
    {
      if k < |r.code| {
        assert x[k] == r.code[k];
      } else if k > |r.code| {
        assert x[k] == r.word[k - |r.code| - 1];
      }
    }
  }

  /** The text of a readable record is its line followed by a line feed, and nothing before the line feed breaks the line. */
  lemma ConcatStep(rs: seq<CodeWord>)
    requires rs != [] && Readable(rs[0])
    ensures Concat(rs) == Line(rs[0]) + "\n" + Concat(rs[1..])
    ensures IndexOfLineBreak(Concat(rs)) == Some(|Line(rs[0])|)
  {
    assert Concat(rs) == Line(rs[0]) + "\n" + Concat(rs[1..]);
    LineUnbroken(rs[0]);
    NoLineBreakBefore(Line(rs[0]), Concat(rs[1..]));
  }

  lemma {:induction false} ConcatLineFields(rs: seq<CodeWord>)
    requires forall k :: 0 <= k < |rs| ==> Readable(rs[k])
    ensures LineFields(Concat(rs)) == Lines(rs) + [""]
  {
    if rs != [] {
      var x := Line(rs[0]);
      var s := Concat(rs);
      ConcatStep(rs);
      assert s[..|x|] == x && s[|x| + 1..] == Concat(rs[1..]);
      assert forall k :: 0 <= k < |rs[1..]| ==> Readable(rs[1..][k]) by {
        assert forall k :: 0 <= k < |rs[1..]| ==> rs[1..][k] == rs[k + 1];
      }
      ConcatLineFields(rs[1..]);
    }
  }

  lemma DropLastEmpty(rs: seq<CodeWord>)
    requires rs != []
    ensures DropTrailingEmpty(Lines(rs) + [""]) == Lines(rs)
  {
    var ls := Lines(rs);
    assert (ls + [""])[..|ls|] == ls;
    LastLineNonEmpty(rs);
  }

  lemma {:induction false} LastLineNonEmpty(rs: seq<CodeWord>)
    requires rs != []
    ensures Lines(rs)[|rs| - 1] != []
  {
    if |rs| > 1 {
      LastLineNonEmpty(rs[1..]);
    } else {
      assert Line(rs[0])[|rs[0].code|] == ',';
    }
  }

  /** A readable line splits into its code and its word. */
  lemma SplitLine(r: CodeWord)
    requires Readable(r)
    ensures Split(Line(r), ',') == [r.code, r.word]
  {
    var l := Line(r);
    assert l[|r.code|] == ',';
    assert l[..|r.code|] == r.code && l[|r.code| + 1..] == r.word;
    assert IndexOf(l, ',') == Some(|r.code|) by {
      assert forall k :: 0 <= k < |r.code| ==> l[k] == r.code[k];
    }
    assert ',' !in r.word;
    assert Fields(l, ',') == [r.code, r.word];
  }

  lemma {:induction false} FilterLinesReadable(rs: seq<CodeWord>, code: string)
    requires forall k :: 0 <= k < |rs| ==> Readable(rs[k])
    ensures FilterLines(Lines(rs), code) == Done(Matching(rs, code))
  {
    if rs != [] {
      var ls := Lines(rs);
      assert ls[0] == Line(rs[0]) && ls[1..] == Lines(rs[1..]);
      SplitLine(rs[0]);
      assert forall k :: 0 <= k < |rs[1..]| ==> Readable(rs[1..][k]) by {
        assert forall k :: 0 <= k < |rs[1..]| ==> rs[1..][k] == rs[k + 1];
      }
      FilterLinesReadable(rs[1..], code);
      var s := Split(ls[0], ',');
      assert s == [rs[0].code, rs[0].word];
      if rs[0].code == code {
        assert FilterLines(ls, code) == Done([rs[0].word] + Matching(rs[1..], code));
        assert Matching(rs, code) == [rs[0].word] + Matching(rs[1..], code);
      } else {
        assert FilterLines(ls, code) == FilterLines(ls[1..], code);
        assert [] + Matching(rs[1..], code) == Matching(rs[1..], code);
      }
    }
  }

  /**
   * The database format round-trips: reading back the text of a run of
   * readable records with getWords' filter yields exactly the words of the
   * records whose code is the one asked for, in file order.
   */
  lemma ReadBackRecords(rs: seq<CodeWord>, code: string)
    requires forall k :: 0 <= k < |rs| ==> Readable(rs[k])
    requires code != []
    ensures FilterRecords(Concat(rs), code) == Done(Matching(rs, code))
  {
    if rs == [] {
      assert IndexOfLineBreak("").None?;
      assert SplitLines(Concat(rs)) == [""];
      assert Split("", ',') == [""];
      assert FilterLines([""], code) == FilterLines([], code);
    } else {
      ConcatStep(rs);
      ConcatLineFields(rs);
      DropLastEmpty(rs);
      FilterLinesReadable(rs, code);
    }
  }

  // ---------------------------------------------------------------------
  // Index spans

  /** IndexedCode: an index code and the span of the database file it covers. */
  datatype IndexedCode = IndexedCode(code: string, position: nat, length: nat)

  /** A maximal run of consecutive records sharing an index code: records first to last - 1. */
  datatype Run = Run(code: string, first: nat, last: nat)

  /** Record n, with index code c, joins the last run when that run has code c, and starts a new run otherwise. */
  function Extend(prev: seq<Run>, c: string, n: nat): seq<Run>
  {
    if prev != [] && prev[|prev| - 1].code == c
    then prev[..|prev| - 1] + [Run(c, prev[|prev| - 1].first, n + 1)]
    else prev + [Run(c, n, n + 1)]
  }

  /** The maximal runs of equal index codes among the first n records, in order. */
  function RunsOf(ics: seq<string>, n: nat): seq<Run>
    requires n <= |ics|
  {
    if n == 0 then [] else Extend(RunsOf(ics, n - 1), ics[n - 1], n - 1)
  }

  function Runs(ics: seq<string>): seq<Run>
  {
    RunsOf(ics, |ics|)
  }

  /** The runs are consecutive non-empty pieces of 0 to n - 1, in order, and neighbours have different codes. */
  ghost predicate Tiles(runs: seq<Run>, n: nat)
  {
    (runs == [] <==> n == 0) &&
    (runs != [] ==> runs[0].first == 0 && runs[|runs| - 1].last == n) &&
    (forall k :: 0 <= k < |runs| ==> runs[k].first < runs[k].last <= n) &&
    (forall k :: 0 <= k < |runs| - 1 ==> runs[k].last == runs[k + 1].first && runs[k].code != runs[k + 1].code)
  }

  /** Every record of a run has the run's code. */
  ghost predicate Uniform(runs: seq<Run>, ics: seq<string>)
  {
    forall k, j :: 0 <= k < |runs| && runs[k].first <= j < runs[k].last && j < |ics| ==> ics[j] == runs[k].code
  }

  /**
   * The runs cut the records into consecutive non-empty pieces, starting at
   * the first record and ending at the last; every record of a run has the
   * run's code, and neighbouring runs have different codes.
   */
  ghost predicate Partitions(runs: seq<Run>, ics: seq<string>)
  {
    Tiles(runs, |ics|) && Uniform(runs, ics)
  }

  lemma ExtendTiles(prev: seq<Run>, c: string, n: nat)
    requires Tiles(prev, n)
    ensures Tiles(Extend(prev, c, n), n + 1)
  {
    var r := Extend(prev, c, n);
    if prev != [] && prev[|prev| - 1].code == c {
      assert forall k :: 0 <= k < |prev| - 1 ==> r[k] == prev[k];
    } else {
      assert forall k :: 0 <= k < |prev| ==> r[k] == prev[k];
    }
  }

  lemma ExtendUniform(prev: seq<Run>, ics: seq<string>, n: nat)
    requires n < |ics| && Tiles(prev, n) && Uniform(prev, ics)
    ensures Uniform(Extend(prev, ics[n], n), ics)
  {
    var r := Extend(prev, ics[n], n);
    if prev != [] && prev[|prev| - 1].code == ics[n] {
      assert forall k :: 0 <= k < |prev| - 1 ==> r[k] == prev[k];
    } else {
      assert forall k :: 0 <= k < |prev| ==> r[k] == prev[k];
    }
  }

  lemma {:induction false} RunsOfPartition(ics: seq<string>, n: nat)
    requires n <= |ics|
    ensures Tiles(RunsOf(ics, n), n) && Uniform(RunsOf(ics, n), ics)
  {
    if n > 0 {
      RunsOfPartition(ics, n - 1);
      ExtendTiles(RunsOf(ics, n - 1), ics[n - 1], n - 1);
      ExtendUniform(RunsOf(ics, n - 1), ics, n - 1);
    }
  }

  lemma RunsPartition(ics: seq<string>)
    ensures Partitions(Runs(ics), ics)
  {
    RunsOfPartition(ics, |ics|);
  }

  /** The offset of record j: the total length of the records before it. */
  function Offset(lens: seq<nat>, j: nat): nat
    requires j <= |lens|
  {
    if j == 0 then 0 else Offset(lens, j - 1) + lens[j - 1]
  }

  lemma {:induction false} OffsetMonotone(lens: seq<nat>, i: nat, j: nat)
    requires i <= j <= |lens|
    ensures Offset(lens, i) <= Offset(lens, j)
    ensures (forall k :: 0 <= k < |lens| ==> lens[k] > 0) && i < j ==> Offset(lens, i) < Offset(lens, j)
    decreases j
  {
    if i < j {
      OffsetMonotone(lens, i, j - 1);
    }
  }

  /** The index entry for a run. */
  function Entry(lens: seq<nat>, r: Run): IndexedCode
    requires r.first <= r.last <= |lens|
  {
    OffsetMonotone(lens, r.first, r.last);
    IndexedCode(r.code, Offset(lens, r.first), Offset(lens, r.last) - Offset(lens, r.first))
  }

  ghost predicate RunsFit(runs: seq<Run>, n: nat)
  {
    forall k :: 0 <= k < |runs| ==> runs[k].first <= runs[k].last <= n
  }

  function Entries(lens: seq<nat>, runs: seq<Run>): seq<IndexedCode>
    requires RunsFit(runs, |lens|)
  {
    seq(|runs|, k requires 0 <= k < |runs| => Entry(lens, runs[k]))
  }

  /**
   * The entries buildCodeDatabase writes: one per run, except that the last
   * run is written only when both its position and its length are non-zero.
   */
  function Layout(ics: seq<string>, lens: seq<nat>): seq<IndexedCode>
    requires |ics| == |lens|
  {
    var runs := Runs(ics);
    RunsPartition(ics);
    if runs == [] then []
    else
      var last := Entry(lens, runs[|runs| - 1]);
      Entries(lens, runs[..|runs| - 1]) + (if last.position != 0 && last.length != 0 then [last] else [])
  }

  /**
   * Records all have a non-empty text, so the index has one entry per run
   * when there are at least two runs, and is empty when every record shares
   * one index code.
   */
  lemma LayoutEntries(ics: seq<string>, lens: seq<nat>)
    requires |ics| == |lens|
    requires forall k :: 0 <= k < |lens| ==> lens[k] > 0
    ensures RunsFit(Runs(ics), |lens|)
    ensures |Runs(ics)| >= 2 ==> Layout(ics, lens) == Entries(lens, Runs(ics))
    ensures |Runs(ics)| < 2 ==> Layout(ics, lens) == []
  {
    var runs := Runs(ics);
    RunsPartition(ics);
    if |runs| >= 2 {
      var r := runs[|runs| - 1];
      assert r.first == runs[|runs| - 2].last > runs[|runs| - 2].first >= 0;
      OffsetMonotone(lens, 0, r.first);
      OffsetMonotone(lens, r.first, r.last);
      assert Entry(lens, r).position != 0 && Entry(lens, r).length != 0;
      assert Entries(lens, runs) == Entries(lens, runs[..|runs| - 1]) + [Entry(lens, r)];
    }
  }

  /** There is at most one run exactly when every record has the same index code. */
  lemma SingleRun(ics: seq<string>)
    ensures |Runs(ics)| < 2 <==> forall j :: 0 <= j < |ics| ==> ics[j] == ics[0]
  {
    var runs := Runs(ics);
    RunsPartition(ics);
    if |runs| >= 2 {
      assert ics[runs[0].first] != ics[runs[1].first];
    } else if |runs| == 1 {
      assert forall j :: 0 <= j < |ics| ==> ics[j] == runs[0].code;
    }
  }

  /**
   * Spans tile the database file: the first starts at offset 0, each starts
   * where the previous one ends, and the last ends at the end of the file.
   */
  lemma EntriesTile(ics: seq<string>, lens: seq<nat>)
    requires |ics| == |lens|
    ensures RunsFit(Runs(ics), |lens|)
    ensures var es := Entries(lens, Runs(ics));
      (es != [] ==> es[0].position == 0 && es[|es| - 1].position + es[|es| - 1].length == Offset(lens, |lens|)) &&
      (forall k :: 0 <= k < |es| - 1 ==> es[k + 1].position == es[k].position + es[k].length)
  {
    RunsPartition(ics);
  }

  /** One run: its records lie within the list, and all have the run's code. */
  lemma RunAt(ics: seq<string>, k: nat)
    requires k < |Runs(ics)|
    ensures RunsFit(Runs(ics), |ics|)
    ensures var r := Runs(ics)[k];
      r.first < r.last <= |ics| && forall j :: r.first <= j < r.last ==> ics[j] == r.code
  {
    RunsPartition(ics);
  }

  /** The byte length of each record's text (one byte per character). */
  function TextLengths(rs: seq<CodeWord>): seq<nat>
  {
    seq(|rs|, k requires 0 <= k < |rs| => |RecordText(rs[k])|)
  }

  lemma {:induction false} OffsetIsTextLength(rs: seq<CodeWord>, j: nat)
    requires j <= |rs|
    ensures Offset(TextLengths(rs), j) == |Concat(rs[..j])|
  {
    if j > 0 {
      OffsetIsTextLength(rs, j - 1);
      assert rs[..j] == rs[..j - 1] + [rs[j - 1]];
      ConcatAppend(rs[..j - 1], [rs[j - 1]]);
      assert Concat([rs[j - 1]]) == RecordText(rs[j - 1]) + Concat([]);
    } else {
      assert rs[..0] == [];
    }
  }

  /** The span from record a's offset to record b's offset holds exactly the text of records a to b - 1. */
  lemma SpanText(rs: seq<CodeWord>, a: nat, b: nat)
    requires a <= b <= |rs|
    ensures Offset(TextLengths(rs), a) <= Offset(TextLengths(rs), b) <= |Concat(rs)|
    ensures Concat(rs)[Offset(TextLengths(rs), a)..Offset(TextLengths(rs), b)] == Concat(rs[a..b])
  {
    OffsetIsTextLength(rs, a);
    OffsetIsTextLength(rs, b);
    ConcatSplit(rs, a, b);
    MiddleSlice(Concat(rs[..a]), Concat(rs[a..b]), Concat(rs[b..]));
  }

  /** The database text is the text of the records before a, then a to b - 1, then the rest. */
  lemma ConcatSplit(rs: seq<CodeWord>, a: nat, b: nat)
    requires a <= b <= |rs|
    ensures Concat(rs[..b]) == Concat(rs[..a]) + Concat(rs[a..b])
    ensures Concat(rs) == Concat(rs[..a]) + Concat(rs[a..b]) + Concat(rs[b..])
  {
    ConcatPrefixSplit(rs, a, b);
    ConcatAt(rs, b);
  }

  /** The text of the records before b is the text of those before a, then a to b - 1. */
  lemma ConcatPrefixSplit(rs: seq<CodeWord>, a: nat, b: nat)
    requires a <= b <= |rs|
    ensures Concat(rs[..b]) == Concat(rs[..a]) + Concat(rs[a..b])
  {
    var front := rs[..b];
    assert front[..a] == rs[..a];
    assert front[a..] == rs[a..b];
    ConcatAt(front, a);
  }

  lemma ConcatAt(rs: seq<CodeWord>, n: nat)
    requires n <= |rs|
    ensures Concat(rs) == Concat(rs[..n]) + Concat(rs[n..])
  {
    assert rs == rs[..n] + rs[n..];
    ConcatAppend(rs[..n], rs[n..]);
  }

  lemma MiddleSlice<T>(x: seq<T>, y: seq<T>, z: seq<T>)
    ensures (x + y + z)[|x|..|x| + |y|] == y
  {
  }

  /**
   * Reading back any span of the index: every index entry of a database
   * file built from readable records covers one run of records, and
   * getWords' filter over the entry's span yields exactly the words of that
   * run's records whose code is the one asked for.
   */
  lemma SpanReadsBack(rs: seq<CodeWord>, ics: seq<string>, k: nat, code: string)
    requires |ics| == |rs|
    requires forall j :: 0 <= j < |rs| ==> Readable(rs[j])
    requires k < |Runs(ics)|
    requires code != []
    ensures RunsFit(Runs(ics), |rs|)
    ensures var e := Entry(TextLengths(rs), Runs(ics)[k]);
      var r := Runs(ics)[k];
      0 <= e.position <= e.position + e.length <= |Concat(rs)| &&
      (forall j :: r.first <= j < r.last ==> ics[j] == e.code) &&
      FilterRecords(Concat(rs)[e.position..e.position + e.length], code) == Done(Matching(rs[r.first..r.last], code))
  {
    RunAt(ics, k);
    var r := Runs(ics)[k];
    var lens := TextLengths(rs);
    var e := Entry(lens, r);
    assert e.position == Offset(lens, r.first) && e.position + e.length == Offset(lens, r.last);
    SliceReadsBack(rs, r.first, r.last, code);
  }

  lemma SliceReadsBack(rs: seq<CodeWord>, a: nat, b: nat, code: string)
    requires a <= b <= |rs|
    requires forall j :: 0 <= j < |rs| ==> Readable(rs[j])
    requires code != []
    ensures Offset(TextLengths(rs), a) <= Offset(TextLengths(rs), b) <= |Concat(rs)|
    ensures FilterRecords(Concat(rs)[Offset(TextLengths(rs), a)..Offset(TextLengths(rs), b)], code)
         == Done(Matching(rs[a..b], code))
  {
    SpanText(rs, a, b);
    var span := rs[a..b];
    assert forall j :: 0 <= j < |span| ==> span[j] == rs[a + j];
    ReadBackRecords(span, code);
  }

  // ---------------------------------------------------------------------
  // Counting the records an index code would cover

  /** MAXIMUM_INDEX_SIZE: the most records an index entry may stand for. */
  const MaximumIndexSize: nat := 200

  /**
   * Collections.binarySearch over records sorted by code, looking for a
   * record whose code is `key`: the index of one such record, or a negative
   * number when the search ends without meeting one.
   */
  function BinarySearch(rs: seq<CodeWord>, key: string): (r: int)
    ensures r >= 0 ==> r < |rs| && rs[r].code == key
  {
    Search(rs, key, 0, |rs| - 1)
  }

  /** The JDK's indexed binary search between low and high inclusive. */
  function Search(rs: seq<CodeWord>, key: string, low: int, high: int): (r: int)
    requires 0 <= low <= high + 1 <= |rs|
    ensures r >= 0 ==> low <= r <= high && rs[r].code == key
    decreases high - low
  {
    if low > high then -(low + 1)
    else
      var mid := (low + high) / 2;
      var cmp := CompareTo(rs[mid].code, key);
      if cmp < 0 then Search(rs, key, mid + 1, high)
      else if cmp > 0 then Search(rs, key, low, mid - 1)
      else
        CompareToZero(rs[mid].code, key);
        mid
  }

  /** A code at or before one that sorts before the key sorts before the key too. */
  lemma BeforeKey(a: string, b: string, key: string)
    requires CompareTo(a, b) <= 0 && CompareTo(b, key) < 0
    ensures CompareTo(a, key) < 0
  {
    CompareToZero(a, b);
    if a != b {
      CompareToTransitive(a, b, key);
    }
  }

  /** A code at or after one that sorts after the key sorts after the key too. */
  lemma AfterKey(a: string, b: string, key: string)
    requires CompareTo(b, a) <= 0 && CompareTo(b, key) > 0
    ensures CompareTo(a, key) > 0
  {
    CompareToZero(b, a);
    if b != a {
      CompareToAntisymmetric(b, key);
      CompareToTransitive(key, b, a);
      CompareToAntisymmetric(a, key);
    }
  }

  /**
   * ip is the insertion point of the key in records low to high: those
   * before it sort before the key and the others after it.
   */
  ghost predicate InsertionPoint(rs: seq<CodeWord>, key: string, low: int, high: int, ip: int)
    requires 0 <= low && high < |rs|
  {
    low <= ip <= high + 1 &&
    (forall i {:trigger CompareTo(rs[i].code, key)} :: low <= i < ip ==> CompareTo(rs[i].code, key) < 0) &&
    (forall i {:trigger CompareTo(rs[i].code, key)} :: ip <= i <= high ==> CompareTo(rs[i].code, key) > 0)
  }

  /**
   * On records in code order, a search that misses returns
   * -(insertion point) - 1.
   */
  lemma {:induction false} SearchInsertionPoint(rs: seq<CodeWord>, key: string, low: int, high: int)
    requires CodeOrder(rs) && 0 <= low <= high + 1 <= |rs|
    ensures Search(rs, key, low, high) < 0 ==> InsertionPoint(rs, key, low, high, -(Search(rs, key, low, high) + 1))
    decreases high - low, 1
  {
    if low <= high {
      var mid := (low + high) / 2;
      var cmp := CompareTo(rs[mid].code, key);
      if cmp < 0 {
        SearchRight(rs, key, low, high);
      } else if cmp > 0 {
        SearchLeft(rs, key, low, high);
      }
    }
  }

  /** The step of SearchInsertionPoint where the middle record sorts before the key. */
  lemma {:induction false} SearchRight(rs: seq<CodeWord>, key: string, low: int, high: int)
    requires CodeOrder(rs) && 0 <= low <= high < |rs|
    requires CompareTo(rs[(low + high) / 2].code, key) < 0
    ensures Search(rs, key, low, high) < 0 ==> InsertionPoint(rs, key, low, high, -(Search(rs, key, low, high) + 1))
    decreases high - low, 0
  {
    var mid := (low + high) / 2;
    var r := Search(rs, key, mid + 1, high);
    assert Search(rs, key, low, high) == r;
    SearchInsertionPoint(rs, key, mid + 1, high);
    if r < 0 {
      BelowKeyUpTo(rs, key, low, mid);
      ExtendBelow(rs, key, low, mid, high, -(r + 1));
    }
  }

  /** The step of SearchInsertionPoint where the middle record sorts after the key. */
  lemma {:induction false} SearchLeft(rs: seq<CodeWord>, key: string, low: int, high: int)
    requires CodeOrder(rs) && 0 <= low <= high < |rs|
    requires CompareTo(rs[(low + high) / 2].code, key) > 0
    ensures Search(rs, key, low, high) < 0 ==> InsertionPoint(rs, key, low, high, -(Search(rs, key, low, high) + 1))
    decreases high - low, 0
  {
    var mid := (low + high) / 2;
    var r := Search(rs, key, low, mid - 1);
    assert Search(rs, key, low, high) == r;
    SearchInsertionPoint(rs, key, low, mid - 1);
    if r < 0 {
      AboveKeyFrom(rs, key, mid, high);
      ExtendAbove(rs, key, low, mid, high, -(r + 1));
    }
  }

  lemma ExtendBelow(rs: seq<CodeWord>, key: string, low: int, mid: int, high: int, ip: int)
    requires 0 <= low <= mid <= high < |rs|
    requires InsertionPoint(rs, key, mid + 1, high, ip)
    requires forall i :: low <= i <= mid ==> CompareTo(rs[i].code, key) < 0
    ensures InsertionPoint(rs, key, low, high, ip)
  {
  }

  lemma ExtendAbove(rs: seq<CodeWord>, key: string, low: int, mid: int, high: int, ip: int)
    requires 0 <= low <= mid <= high < |rs|
    requires InsertionPoint(rs, key, low, mid - 1, ip)
    requires forall i :: mid <= i <= high ==> CompareTo(rs[i].code, key) > 0
    ensures InsertionPoint(rs, key, low, high, ip)
  {
  }

  /** In code order, every record up to one below the key is below the key. */
  lemma BelowKeyUpTo(rs: seq<CodeWord>, key: string, low: int, mid: int)
    requires CodeOrder(rs) && 0 <= low <= mid < |rs| && CompareTo(rs[mid].code, key) < 0
    ensures forall i :: low <= i <= mid ==> CompareTo(rs[i].code, key) < 0
  {
    forall i | low <= i <= mid
      ensures CompareTo(rs[i].code, key) < 0
    {
      BeforeKey(rs[i].code, rs[mid].code, key);
    }
  }

  /** In code order, every record from one above the key on is above the key. */
  lemma AboveKeyFrom(rs: seq<CodeWord>, key: string, mid: int, high: int)
    requires CodeOrder(rs) && 0 <= mid <= high < |rs| && CompareTo(rs[mid].code, key) > 0
    ensures forall i :: mid <= i <= high ==> CompareTo(rs[i].code, key) > 0
  {
    forall i | mid <= i <= high
      ensures CompareTo(rs[i].code, key) > 0
    {
      AfterKey(rs[i].code, rs[mid].code, key);
    }
  }

  /**
   * Collections.binarySearch's promise on records sorted by code: a key
   * some record holds is found, and a miss returns -(insertion point) - 1
   * with every record before the insertion point sorting before the key
   * and every record from it on sorting after it.
   */
  lemma BinarySearchComplete(rs: seq<CodeWord>, key: string)
    requires Sorting.Sorted(rs, CompareCodes)
    ensures var r := BinarySearch(rs, key);
      ((exists i :: 0 <= i < |rs| && rs[i].code == key) ==> r >= 0) &&
      (r < 0 ==>
        (-(r + 1) <= |rs| &&
         (forall i :: 0 <= i < -(r + 1) ==> CompareTo(rs[i].code, key) < 0) &&
         (forall i :: -(r + 1) <= i < |rs| ==> CompareTo(rs[i].code, key) > 0)))
  {
    SortedCodeOrder(rs);
    SearchInsertionPoint(rs, key, 0, |rs| - 1);
    if exists i :: 0 <= i < |rs| && rs[i].code == key {
      var i :| 0 <= i < |rs| && rs[i].code == key;
      CompareToZero(key, key);
    }
  }

  /**
   * getIndexCode's counting loop from record i on, with count records
   * already counted: a record whose code starts with the prefix is counted,
   * and counting stops once it passes the maximum; a record after the
   * prefix in code order that does not start with it ends the scan; any
   * other record is passed over.
   */
  function Scan(rs: seq<CodeWord>, prefix: string, i: nat, count: nat): nat
    requires i <= |rs|
    decreases |rs| - i
  {
    if i == |rs| then count
    else if StartsWith(rs[i].code, prefix) then
      if count + 1 > MaximumIndexSize then count + 1 else Scan(rs, prefix, i + 1, count + 1)
    else if CompareTo(rs[i].code, prefix) > 0 then count
    else Scan(rs, prefix, i + 1, count)
  }

  /** Where getIndexCode starts counting: at the record binarySearch found, or at the first record. */
  function ScanStart(rs: seq<CodeWord>, prefix: string): (i: nat)
    ensures i <= |rs|
  {
    var j := BinarySearch(rs, prefix);
    if j < 0 then 0 else j
  }

  /** The number getIndexCode compares with MAXIMUM_INDEX_SIZE for a prefix. */
  function Counted(rs: seq<CodeWord>, prefix: string): nat
  {
    Scan(rs, prefix, ScanStart(rs, prefix), 0)
  }

  /** The number of records from i on whose code starts with the prefix. */
  function NumPrefixed(rs: seq<CodeWord>, prefix: string, i: nat): nat
    requires i <= |rs|
    decreases |rs| - i
  {
    if i == |rs| then 0
    else (if StartsWith(rs[i].code, prefix) then 1 else 0) + NumPrefixed(rs, prefix, i + 1)
  }

  /** A code past the prefix in String order that does not start with it sorts after every code that does. */
  lemma {:induction false} PastPrefix(p: string, s: string, t: string)
    requires StartsWith(t, p) && !StartsWith(s, p) && CompareTo(s, p) > 0
    ensures CompareTo(s, t) > 0
  {
    if s[0] == p[0] {
      assert t[1..][..|p| - 1] == p[1..] by {
        assert t[..|p|] == p;
      }
      assert p == [p[0]] + p[1..];
      assert |p| <= |s| ==> s[..|p|] == [s[0]] + s[1..][..|p| - 1];
      PastPrefix(p[1..], s[1..], t[1..]);
    } else {
      assert t[0] == t[..|p|][0] == p[0];
    }
  }

  lemma {:induction false} SortedCodes(rs: seq<CodeWord>, i: nat, k: nat)
    requires Sorting.Sorted(rs, CompareCodes)
    requires i <= k < |rs|
    ensures CompareTo(rs[i].code, rs[k].code) <= 0
    decreases k - i
  {
    if i < k {
      SortedCodes(rs, i + 1, k);
      assert CompareCodes(rs[i], rs[i + 1]) <= 0;
      CompareToLessOrEqualTransitive(rs[i].code, rs[i + 1].code, rs[k].code);
    } else {
      CompareToZero(rs[i].code, rs[k].code);
    }
  }

  /** Every record's code is at or before every later record's code. */
  ghost predicate CodeOrder(rs: seq<CodeWord>)
  {
    forall i, k {:trigger CompareTo(rs[i].code, rs[k].code)} :: 0 <= i <= k < |rs| ==> CompareTo(rs[i].code, rs[k].code) <= 0
  }

  lemma SortedCodeOrder(rs: seq<CodeWord>)
    requires Sorting.Sorted(rs, CompareCodes)
    ensures CodeOrder(rs)
  {
    forall i, k | 0 <= i <= k < |rs|
      ensures CompareTo(rs[i].code, rs[k].code) <= 0
    {
      SortedCodes(rs, i, k);
    }
  }

  /** In code order, once a record passes the prefix without starting with it, no later record starts with it. */
  lemma {:induction false} NothingPrefixedAfter(rs: seq<CodeWord>, prefix: string, i: nat, k: nat)
    requires CodeOrder(rs)
    requires i < |rs| && !StartsWith(rs[i].code, prefix) && CompareTo(rs[i].code, prefix) > 0
    requires i <= k <= |rs|
    ensures NumPrefixed(rs, prefix, k) == 0
    decreases |rs| - k
  {
    if k < |rs| {
      NothingPrefixedAfter(rs, prefix, i, k + 1);
      if StartsWith(rs[k].code, prefix) {
        PastPrefix(prefix, rs[i].code, rs[k].code);
      }
    }
  }

  /** On records sorted by code, the scan counts the prefixed records from where it starts, up to one past the maximum. */
  lemma {:induction false} ScanCounts(rs: seq<CodeWord>, prefix: string, i: nat, count: nat)
    requires CodeOrder(rs)
    requires i <= |rs| && count <= MaximumIndexSize
    ensures Scan(rs, prefix, i, count) == Min(count + NumPrefixed(rs, prefix, i), MaximumIndexSize + 1)
    decreases |rs| - i
  {
    if i < |rs| {
      var rest := NumPrefixed(rs, prefix, i + 1);
      if StartsWith(rs[i].code, prefix) {
        assert NumPrefixed(rs, prefix, i) == 1 + rest;
        if count + 1 <= MaximumIndexSize {
          ScanCounts(rs, prefix, i + 1, count + 1);
          assert Scan(rs, prefix, i, count) == Scan(rs, prefix, i + 1, count + 1);
        } else {
          assert Scan(rs, prefix, i, count) == count + 1;
        }
      } else if CompareTo(rs[i].code, prefix) > 0 {
        NothingPrefixedAfter(rs, prefix, i, i);
        assert Scan(rs, prefix, i, count) == count;
      } else {
        assert NumPrefixed(rs, prefix, i) == rest;
        ScanCounts(rs, prefix, i + 1, count);
        assert Scan(rs, prefix, i, count) == Scan(rs, prefix, i + 1, count);
      }
    }
  }

  function Min(a: int, b: int): int { if a < b then a else b }

  /**
   * The count getIndexCode uses is the number of records whose code starts
   * with the prefix, counted from where the scan starts and capped one past
   * the maximum. It never exceeds the true number of such records.
   */
  lemma CountedRecords(rs: seq<CodeWord>, prefix: string)
    requires CodeOrder(rs)
    ensures Counted(rs, prefix) == Min(NumPrefixed(rs, prefix, ScanStart(rs, prefix)), MaximumIndexSize + 1)
    ensures Counted(rs, prefix) <= NumPrefixed(rs, prefix, 0)
  {
    var start := ScanStart(rs, prefix);
    var n := NumPrefixed(rs, prefix, start);
    ScanCounts(rs, prefix, start, 0);
    assert Scan(rs, prefix, start, 0) == Min(n, MaximumIndexSize + 1);
    NumPrefixedShrinks(rs, prefix, 0, start);
  }

  /**
   * When the prefix is not itself a code, binarySearch finds nothing and
   * the count is exact: the number of records whose code starts with the
   * prefix, capped one past the maximum. (When it is a code, the scan starts
   * at the record binarySearch lands on, and records of that code before it
   * go uncounted.)
   */
  lemma CountedWhenNotACode(rs: seq<CodeWord>, prefix: string)
    requires CodeOrder(rs)
    requires forall k :: 0 <= k < |rs| ==> rs[k].code != prefix
    ensures Counted(rs, prefix) == Min(NumPrefixed(rs, prefix, 0), MaximumIndexSize + 1)
  {
    assert ScanStart(rs, prefix) == 0;
    ScanCounts(rs, prefix, 0, 0);
  }

  lemma {:induction false} NumPrefixedShrinks(rs: seq<CodeWord>, prefix: string, i: nat, j: nat)
    requires i <= j <= |rs|
    ensures NumPrefixed(rs, prefix, j) <= NumPrefixed(rs, prefix, i)
    decreases j - i
  {
    if i < j {
      NumPrefixedShrinks(rs, prefix, i + 1, j);
    }
  }
}
