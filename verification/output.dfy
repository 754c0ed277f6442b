/** Where the results go (scraper.py:417-419, 511-540): the default output
    name, the two names of "save both" mode, and which records each file
    receives. */
module Output {
  import opened Records
  import Dedup

  const CsvExt: string := ".csv"

  /** `s` begins with `prefix`. */
  predicate StartsWith(s: string, prefix: string) {
    |prefix| <= |s| && s[..|prefix|] == prefix
  }

  /** Python's `sub in s`: `sub` occurs somewhere in `s`. */
  predicate Contains(s: string, sub: string)
    decreases |s|
  {
    StartsWith(s, sub) || (s != [] && Contains(s[1..], sub))
  }

  /** `sub` occurs in `s` at position `i`. */
  predicate OccursAt(s: string, sub: string, i: int) {
    0 <= i <= |s| - |sub| && s[i..i + |sub|] == sub
  }

  /** The recursive test agrees with "some position holds `sub`". */
  lemma {:induction false} ContainsAt(s: string, sub: string)
    ensures Contains(s, sub) <==> exists i :: OccursAt(s, sub, i)
  {
    if s != [] {
      ContainsAt(s[1..], sub);
      if StartsWith(s, sub) {
        assert OccursAt(s, sub, 0);
      }
      if Contains(s[1..], sub) {
        var i :| OccursAt(s[1..], sub, i);
        assert s[i + 1..i + 1 + |sub|] == s[1..][i..i + |sub|];
        assert OccursAt(s, sub, i + 1);
      }
      if exists i :: OccursAt(s, sub, i) {
        var i :| OccursAt(s, sub, i);
        if i > 0 {
          assert s[1..][i - 1..i - 1 + |sub|] == s[i..i + |sub|];
          assert OccursAt(s[1..], sub, i - 1);
        } else {
          assert StartsWith(s, sub);
        }
      }
    } else if sub == [] {
      assert OccursAt(s, sub, 0);
    }
  }

  /** Nothing longer than `s` occurs in it. */
  lemma {:induction false} ShortNotContains(s: string, sub: string)
    ensures |s| < |sub| ==> !Contains(s, sub)
    decreases |s|
  {
    if s != [] {
      ShortNotContains(s[1..], sub);
    }
  }

  /** `s.replace('.csv', replacement)`: every occurrence, scanned left to
      right without overlaps, is replaced. */
  function ReplaceCsv(s: string, replacement: string): (r: string)
    ensures !Contains(s, CsvExt) ==> r == s
    decreases |s|
  {
    if |s| < |CsvExt| then s
    else if StartsWith(s, CsvExt) then replacement + ReplaceCsv(s[|CsvExt|..], replacement)
    else [s[0]] + ReplaceCsv(s[1..], replacement)
  }

  /** The name of one of the two "save both" files (scraper.py:519-520). */
  function SaveBothName(output: string, suffix: string): (name: string)
    ensures !Contains(output, CsvExt) ==> name == output + suffix + CsvExt
  {
    if Contains(output, CsvExt) then ReplaceCsv(output, suffix + CsvExt) else output + suffix + CsvExt
  }

  function AllFilename(output: string): string {
    SaveBothName(output, "_all")
  }

  function UniqueFilename(output: string): string {
    SaveBothName(output, "_unique")
  }

  /** The output name used when none was given (scraper.py:418-419). */
  function DefaultOutput(output: string, channel: string): (name: string)
    ensures output != "" ==> name == output
    ensures output == "" ==> name == channel + "_playlist" + CsvExt
    ensures output == "" ==> StartsWith(name, channel) && Contains(name, CsvExt)
  {
    if output == "" then
      var name := channel + "_playlist" + CsvExt;
      assert name[..|channel|] == channel;
      InfixContained(channel + "_playlist", CsvExt, []);
      assert channel + "_playlist" + CsvExt + [] == name;
      name
    else output
  }

  /** `sub` occurs in any text that has it in the middle. */
  lemma {:induction false} InfixContained(s: string, sub: string, t: string)
    ensures Contains(s + sub + t, sub)
  {
    if s == [] {
      assert s + sub + t == sub + t;
      assert (sub + t)[..|sub|] == sub;
    } else {
      assert (s + sub + t)[1..] == s[1..] + sub + t;
      InfixContained(s[1..], sub, t);
    }
  }

  /** Replacing with a longer text makes the name longer whenever there was
      something to replace. */
  lemma {:induction false} ReplaceCsvGrows(s: string, replacement: string)
    requires |replacement| > |CsvExt|
    ensures |ReplaceCsv(s, replacement)| >= |s|
    ensures Contains(s, CsvExt) ==> |ReplaceCsv(s, replacement)| > |s|
    decreases |s|
  {
    ShortNotContains(s, CsvExt);
    if |s| >= |CsvExt| {
      if StartsWith(s, CsvExt) {
        ReplaceCsvGrows(s[|CsvExt|..], replacement);
      } else {
        ReplaceCsvGrows(s[1..], replacement);
      }
    }
  }

  /** Two replacements that differ in their second character give different
      names whenever `.csv` occurs. */
  lemma {:induction false} ReplaceCsvSeparates(s: string, r1: string, r2: string)
    requires Contains(s, CsvExt)
    requires |r1| >= 2 && |r2| >= 2 && r1[1] != r2[1]
    ensures ReplaceCsv(s, r1) != ReplaceCsv(s, r2)
    decreases |s|
  {
    ShortNotContains(s, CsvExt);
    if StartsWith(s, CsvExt) {
      assert ReplaceCsv(s, r1)[1] == r1[1];
      assert ReplaceCsv(s, r2)[1] == r2[1];
    } else {
      ReplaceCsvSeparates(s[1..], r1, r2);
      assert ReplaceCsv(s, r1)[1..] == ReplaceCsv(s[1..], r1);
      assert ReplaceCsv(s, r2)[1..] == ReplaceCsv(s[1..], r2);
    }
  }

  /** "Save both" never writes its two files to the same name, and neither
      file overwrites the plain output name. */
  lemma SaveBothNamesDistinct(output: string)
    ensures AllFilename(output) != UniqueFilename(output)
    ensures AllFilename(output) != output && UniqueFilename(output) != output
  {
    if Contains(output, CsvExt) {
      ReplaceCsvSeparates(output, "_all" + CsvExt, "_unique" + CsvExt);
      ReplaceCsvGrows(output, "_all" + CsvExt);
      ReplaceCsvGrows(output, "_unique" + CsvExt);
    } else {
      assert (output + "_all" + CsvExt)[|output| + 1] == 'a';
      assert (output + "_unique" + CsvExt)[|output| + 1] == 'u';
    }
  }

  /** A name that ends in its only `.csv` gets the suffix before the
      extension: `stem.csv` becomes `stem_all.csv`. */
  lemma {:induction false} SaveBothNameOfCsvFile(stem: string, suffix: string)
    requires !Contains(stem, CsvExt)
    ensures SaveBothName(stem + CsvExt, suffix) == stem + suffix + CsvExt
    decreases |stem|
  {
    InfixContained(stem, CsvExt, []);
    assert stem + CsvExt + [] == stem + CsvExt;
    ReplaceCsvSuffixOnly(stem, suffix + CsvExt);
  }

  /** The first `.csv` is replaced and the scan resumes right after it:
      with `a` free of `.csv`, `a.csv b` becomes `a`, the replacement, and
      the replaced rest `b`. */
  lemma {:induction false} ReplaceCsvSplit(a: string, b: string, replacement: string)
    requires !Contains(a, CsvExt)
    ensures ReplaceCsv(a + CsvExt + b, replacement) == a + replacement + ReplaceCsv(b, replacement)
    decreases |a|
  {
    var s := a + CsvExt + b;
    if a == [] {
      assert s == CsvExt + b;
      assert s[..|CsvExt|] == CsvExt;
      assert s[|CsvExt|..] == b;
    } else {
      NotCsvAtFront(a, b);
      ReplaceCsvCopies(s, replacement);
      assert s[1..] == a[1..] + CsvExt + b;
      ReplaceCsvSplit(a[1..], b, replacement);
      assert [a[0]] + (a[1..] + replacement + ReplaceCsv(b, replacement)) == a + replacement + ReplaceCsv(b, replacement);
    }
  }

  /** Every name holding `.csv` splits at its first occurrence. */
  lemma {:induction false} FirstCsv(s: string) returns (a: string, b: string)
    requires Contains(s, CsvExt)
    ensures s == a + CsvExt + b && !Contains(a, CsvExt)
    decreases |s|
  {
    ShortNotContains(s, CsvExt);
    if StartsWith(s, CsvExt) {
      a, b := [], s[|CsvExt|..];
      assert s == s[..|CsvExt|] + s[|CsvExt|..];
      ShortNotContains([], CsvExt);
    } else {
      var a', b' := FirstCsv(s[1..]);
      a, b := [s[0]] + a', b';
      assert s == [s[0]] + s[1..];
      assert a[1..] == a';
      if |a| >= |CsvExt| {
        assert s[..|CsvExt|] == a[..|CsvExt|];
      }
    }
  }

  /** The one replacement `stem.csv` receives is its final extension. */
  lemma ReplaceCsvSuffixOnly(stem: string, replacement: string)
    requires !Contains(stem, CsvExt)
    ensures ReplaceCsv(stem + CsvExt, replacement) == stem + replacement
  {
    ReplaceCsvSplit(stem, [], replacement);
    assert stem + CsvExt + [] == stem + CsvExt;
    assert stem + replacement + [] == stem + replacement;
  }

  /** A name that does not start with `.csv` keeps its first character. */
  lemma ReplaceCsvCopies(s: string, replacement: string)
    requires |s| >= |CsvExt| && !StartsWith(s, CsvExt)
    ensures ReplaceCsv(s, replacement) == [s[0]] + ReplaceCsv(s[1..], replacement)
  {
  }

  /** `a.csv b` with a non-empty `a` free of `.csv` does not start with `.csv`. */
  lemma NotCsvAtFront(a: string, b: string)
    requires a != [] && !Contains(a, CsvExt)
    ensures !StartsWith(a + CsvExt + b, CsvExt)
  {
    var s := a + CsvExt + b;
    if |a| >= |CsvExt| {
      assert s[..|CsvExt|] == a[..|CsvExt|];
    } else {
      assert s[|a|] == '.';
      assert CsvExt[|a|] != '.';
    }
  }

  /** Both "save both" names always carry `.csv`. */
  lemma SaveBothNameHasCsv(output: string, suffix: string)
    ensures Contains(SaveBothName(output, suffix), CsvExt)
  {
    if Contains(output, CsvExt) {
      var a, b := FirstCsv(output);
      ReplaceCsvSplit(a, b, suffix + CsvExt);
      InfixContained(a + suffix, CsvExt, ReplaceCsv(b, suffix + CsvExt));
      assert a + (suffix + CsvExt) + ReplaceCsv(b, suffix + CsvExt)
          == a + suffix + CsvExt + ReplaceCsv(b, suffix + CsvExt);
    } else {
      InfixContained(output + suffix, CsvExt, []);
      assert output + suffix + CsvExt + [] == output + suffix + CsvExt;
    }
  }

  /** The default name of a channel without `.csv` in it gets the suffix
      between `_playlist` and the extension. */
  lemma DefaultSaveBothName(channel: string, suffix: string)
    requires !Contains(channel + "_playlist", CsvExt)
    ensures SaveBothName(DefaultOutput("", channel), suffix) == channel + ("_playlist" + suffix + CsvExt)
  {
    var stem := channel + "_playlist";
    assert DefaultOutput("", channel) == stem + CsvExt;
    SaveBothNameOfCsvFile(stem, suffix);
    assert stem + suffix + CsvExt == channel + ("_playlist" + suffix + CsvExt);
  }

  /** By default the two files are `<channel>_playlist_all.csv` and
      `<channel>_playlist_unique.csv`. */
  lemma DefaultSaveBothNames(channel: string)
    requires !Contains(channel + "_playlist", CsvExt)
    ensures AllFilename(DefaultOutput("", channel)) == channel + "_playlist_all.csv"
    ensures UniqueFilename(DefaultOutput("", channel)) == channel + "_playlist_unique.csv"
  {
    DefaultSaveBothName(channel, "_all");
    assert "_playlist" + "_all" + CsvExt == "_playlist_all.csv";
    DefaultSaveBothName(channel, "_unique");
    assert "_playlist" + "_unique" + CsvExt == "_playlist_unique.csv";
  }

  /** The three output modes: all songs, unique songs only, or both. */
  datatype OutputMode = SaveAll | UniqueOnly | SaveBoth

  /** The mode the flags select; `save_both` is tested first (scraper.py:517-536). */
  function ModeOfFlags(uniqueOnly: bool, saveBoth: bool): OutputMode {
    if saveBoth then SaveBoth else if uniqueOnly then UniqueOnly else SaveAll
  }

  /** One file to write and the records it receives. */
  datatype Target = Target(filename: string, records: seq<Record>)

  /** The files a run writes, in order, and what goes into each: the trimmed
      songs, or their deduplication (scraper.py:511-540). */
  function SavePlan(mode: OutputMode, output: string, songs: seq<Record>): (plan: seq<Target>)
    ensures forall i, j :: 0 <= i < j < |plan| ==> plan[i].filename != plan[j].filename
    ensures forall i :: 0 <= i < |plan| ==>
      plan[i].records == songs || plan[i].records == Dedup.FilterUniqueSongs(songs)
    ensures mode.SaveBoth? ==>
              && |plan| == 2
              && plan[0].records == songs
              && plan[1].records == Dedup.FilterUniqueSongs(songs)
              && plan[0].filename != output && plan[1].filename != output
    ensures !mode.SaveBoth? ==> |plan| == 1 && plan[0].filename == output
    ensures mode.SaveAll? ==> plan[0].records == songs
    ensures mode.UniqueOnly? ==> plan[0].records == Dedup.FilterUniqueSongs(songs)
  {
    var unique := Dedup.FilterUniqueSongs(songs);
    match mode
    case SaveBoth =>
      SaveBothNamesDistinct(output);
      [Target(AllFilename(output), songs), Target(UniqueFilename(output), unique)]
    case UniqueOnly => [Target(output, unique)]
    case SaveAll => [Target(output, songs)]
  }

  /** A value as Python compares it: an `int` never equals a `str`. */
  datatype PyValue = PyInt(i: int) | PyStr(s: string)

  /** What the interactive mode prompt returns: a typed answer converted to an
      `int`, or the default `"1"` handed back unconverted. */
  function PromptReturn(typed: bool, n: int): PyValue {
    if typed then PyInt(n) else PyStr("1")
  }

  /** The mode of the interactive configuration as written (scraper.py:336-337):
      the answer is compared with the strings "2" and "3". */
  function InteractiveModeAsWritten(answer: PyValue): OutputMode {
    ModeOfFlags(answer == PyStr("2"), answer == PyStr("3"))
  }

  /** Whatever number is typed at the mode prompt, the mode as written is
      "save all": choosing 2 or 3 has no effect. */
  lemma InteractiveChoiceIgnored(n: int)
    ensures InteractiveModeAsWritten(PromptReturn(true, n)) == SaveAll
    ensures InteractiveModeAsWritten(PromptReturn(true, 3)) != InteractiveMode(3)
  {
  }

  /** The number shown next to each mode in the prompt's menu (scraper.py:325-327). */
  function ModeNumber(mode: OutputMode): (n: int)
    ensures 1 <= n <= 3
  {
    match mode
    case SaveAll => 1
    case UniqueOnly => 2
    case SaveBoth => 3
  }

  /** The evidently intended reading of the mode prompt: the chosen number
      selects the mode listed under it. */
  function InteractiveMode(choice: int): (mode: OutputMode)
    ensures 1 <= choice <= 3 ==> ModeNumber(mode) == choice
  {
    ModeOfFlags(choice == 2, choice == 3)
  }

  /** The intended mapping and the menu numbering are inverse to each other. */
  lemma InteractiveModeRoundTrip(mode: OutputMode)
    ensures InteractiveMode(ModeNumber(mode)) == mode
  {
  }
}
