/** The `key: value` output of the version command, and the parser that reads it back. */
module Porcelain {
  import opened Common
  import Text

  const MARKER := "1"
  const PORCELAIN := "porcelain"
  const VERSION := "version"
  const COMMIT := "commit"
  const DATE := "date"
  const INVENTREE_VERSION := "inventree_version"
  const INVENTREE_API := "inventree_api"

  datatype Info = Info(version: string, commit: string, date: string, inventreeVersion: string, inventreeApi: string)

  datatype Outcome = Parsed(info: Info) | MalformedLine(line: string) | UnsupportedMarker(marker: string) | MissingField

  datatype Pair = Pair(key: string, value: string)

  predicate Known(key: string) {
    key in {PORCELAIN, VERSION, COMMIT, DATE, INVENTREE_VERSION, INVENTREE_API}
  }

  predicate OneLine(i: Info) {
    '\n' !in i.version && '\n' !in i.commit && '\n' !in i.date && '\n' !in i.inventreeVersion && '\n' !in i.inventreeApi
  }

  predicate Complete(i: Info) { i.version != "" && i.commit != "" && i.date != "" }

  // The printer

  function Line(key: string, value: string): string { key + ": " + value }

  function Lines(i: Info): seq<string> {
    [Line(PORCELAIN, MARKER), Line(VERSION, i.version), Line(COMMIT, i.commit), Line(DATE, i.date)]
    + (if i.inventreeVersion != "" then [Line(INVENTREE_VERSION, i.inventreeVersion)] else [])
    + (if i.inventreeApi != "" then [Line(INVENTREE_API, i.inventreeApi)] else [])
  }

  // What a parse means, without the field table

  /** The text around the first ": " of a line. */
  function Cut(line: string): Option<Pair> {
    if |line| < 2 then None
    else if line[0] == ':' && line[1] == ' ' then Some(Pair("", line[2..]))
    else
      match Cut(line[1..])
      case None => None
      case Some(p) => Some(Pair([line[0]] + p.key, p.value))
  }

  predicate Malformed(line: string) { line != "" && Cut(line).None? }

  function FirstMalformed(lines: seq<string>): Option<string> {
    if lines == [] then None
    else if Malformed(lines[0]) then Some(lines[0])
    else FirstMalformed(lines[1..])
  }

  predicate Gives(line: string, key: string) { Cut(line).Some? && Cut(line).value.key == key }

  /** The value of the last line with this key; empty when there is none. */
  function LastValue(lines: seq<string>, key: string): string {
    if lines == [] then ""
    else if Gives(lines[|lines| - 1], key) then Cut(lines[|lines| - 1]).value.value
    else LastValue(lines[..|lines| - 1], key)
  }

  function InfoOf(lines: seq<string>): Info {
    Info(LastValue(lines, VERSION), LastValue(lines, COMMIT), LastValue(lines, DATE),
         LastValue(lines, INVENTREE_VERSION), LastValue(lines, INVENTREE_API))
  }

  function Read(lines: seq<string>): Outcome {
    match FirstMalformed(lines)
    case Some(line) => MalformedLine(line)
    case None =>
      if LastValue(lines, PORCELAIN) != MARKER then UnsupportedMarker(LastValue(lines, PORCELAIN))
      else if !Complete(InfoOf(lines)) then MissingField
      else Parsed(InfoOf(lines))
  }

  // The parser

  function TrimNewlines(s: string): string {
    if s != "" && s[|s| - 1] == '\n' then TrimNewlines(s[..|s| - 1]) else s
  }

  function ValueIn(fields: map<string, string>, key: string): string {
    if key in fields then fields[key] else ""
  }

  method ParsePorcelain(output: string) returns (r: Outcome)
    ensures r == Read(Text.Split(output, '\n'))
  {
    var lines := Text.Split(TrimNewlines(output), '\n');
    var fields: map<string, string> := map[];
    var i := 0;
    TrimChangesNothing(output);
    while i < |lines|
      invariant 0 <= i <= |lines| && Tabled(lines, i, fields)
    {
      var line := lines[i];
      LineStep(lines, i, fields);
      if line != "" {
        var cut := Cut(line);
        if cut.None? {
          return MalformedLine(line);
        }
        fields := fields[cut.value.key := cut.value.value];
      }
      i := i + 1;
    }
    LinesDone(lines, fields);
    if PORCELAIN !in fields || fields[PORCELAIN] != MARKER {
      return UnsupportedMarker(ValueIn(fields, PORCELAIN));
    }
    var info := Info(ValueIn(fields, VERSION), ValueIn(fields, COMMIT), ValueIn(fields, DATE),
                     ValueIn(fields, INVENTREE_VERSION), ValueIn(fields, INVENTREE_API));
    if info.version == "" || info.commit == "" || info.date == "" {
      return MissingField;
    }
    return Parsed(info);
  }

  /** The first `i` lines are well formed, and the table holds the last value of each of their keys. */
  ghost predicate Tabled(lines: seq<string>, i: nat, fields: map<string, string>) {
    && i <= |lines| && FirstMalformed(lines) == FirstMalformed(lines[i..])
    && forall key :: ValueIn(fields, key) == LastValue(lines[..i], key)
  }

  lemma LineStep(lines: seq<string>, i: nat, fields: map<string, string>)
    requires Tabled(lines, i, fields) && i < |lines|
    ensures var line := lines[i];
            if line == "" then Tabled(lines, i + 1, fields)
            else match Cut(line)
                 case None => FirstMalformed(lines) == Some(line)
                 case Some(p) => Tabled(lines, i + 1, fields[p.key := p.value])
  {
    LastValueStep(lines, i);
    assert lines[i..][0] == lines[i] && lines[i..][1..] == lines[i + 1..];
  }

  lemma LinesDone(lines: seq<string>, fields: map<string, string>)
    requires Tabled(lines, |lines|, fields)
    ensures FirstMalformed(lines) == None && forall key :: ValueIn(fields, key) == LastValue(lines, key)
  {
    assert lines[..|lines|] == lines && lines[|lines|..] == [];
  }

  lemma LastValueStep(lines: seq<string>, i: nat)
    requires i < |lines|
    ensures forall key :: LastValue(lines[..i + 1], key)
                       == if Gives(lines[i], key) then Cut(lines[i]).value.value else LastValue(lines[..i], key)
  {
    assert lines[..i + 1][..i] == lines[..i];
  }

  // Lines that carry nothing change nothing

  /** A line whose key the parser does not use. */
  predicate Foreign(line: string) {
    line == "" || (Cut(line).Some? && !Known(Cut(line).value.key))
  }

  lemma {:induction false} FirstMalformedWithout(before: seq<string>, line: string, after: seq<string>)
    requires !Malformed(line)
    ensures FirstMalformed(before + [line] + after) == FirstMalformed(before + after)
  {
    if before == [] {
      assert (before + [line] + after)[1..] == before + after;
    } else {
      assert (before + [line] + after)[1..] == before[1..] + [line] + after;
      assert (before + after)[1..] == before[1..] + after;
      FirstMalformedWithout(before[1..], line, after);
    }
  }

  lemma {:induction false} LastValueWithout(before: seq<string>, line: string, after: seq<string>, key: string)
    requires Foreign(line) && Known(key)
    ensures LastValue(before + [line] + after, key) == LastValue(before + after, key)
  {
    var all := before + [line] + after;
    if after == [] {
      assert all[..|all| - 1] == before == before + after;
    } else {
      var shorter := after[..|after| - 1];
      assert all[..|all| - 1] == before + [line] + shorter;
      assert (before + after)[..|before + after| - 1] == before + shorter;
      LastValueWithout(before, line, shorter, key);
    }
  }

  /** A well-formed line with an unknown key, anywhere in the output, never changes the result. */
  lemma ForeignLineChangesNothing(before: seq<string>, line: string, after: seq<string>)
    requires Foreign(line)
    ensures Read(before + [line] + after) == Read(before + after)
  {
    FirstMalformedWithout(before, line, after);
    forall key | Known(key) ensures LastValue(before + [line] + after, key) == LastValue(before + after, key) {
      LastValueWithout(before, line, after, key);
    }
  }

  lemma SplitAround(before: string, line: string, after: string)
    requires '\n' !in line
    ensures Text.Split(before + "\n" + line + "\n" + after, '\n')
         == Text.Split(before, '\n') + [line] + Text.Split(after, '\n')
  {
    Text.SplitWhole(line, '\n');
    Text.SplitAt(before, '\n', line);
    Text.SplitAt(before + "\n" + line, '\n', after);
  }

  /** The same on whole outputs: the foreign line stands on a line of its own between two texts. */
  lemma ForeignTextChangesNothing(before: string, line: string, after: string)
    requires '\n' !in line && Foreign(line)
    ensures Read(Text.Split(before + "\n" + line + "\n" + after, '\n')) == Read(Text.Split(before + "\n" + after, '\n'))
  {
    Text.SplitAt(before, '\n', after);
    SplitAround(before, line, after);
    ForeignLineChangesNothing(Text.Split(before, '\n'), line, Text.Split(after, '\n'));
  }

  /** Trailing newlines only add empty lines, which are skipped. */
  lemma {:induction false} TrimChangesNothing(s: string)
    ensures Read(Text.Split(TrimNewlines(s), '\n')) == Read(Text.Split(s, '\n'))
  {
    if s != "" && s[|s| - 1] == '\n' {
      var shorter := s[..|s| - 1];
      assert s == shorter + "\n" + "";
      Text.SplitAt(shorter, '\n', "");
      var lines := Text.Split(shorter, '\n');
      assert lines + [""] == lines + [""] + [] && lines + [] == lines;
      ForeignLineChangesNothing(lines, "", []);
      TrimChangesNothing(shorter);
    }
  }

  // Round trips

  lemma {:induction false} CutLine(key: string, value: string)
    requires ':' !in key
    ensures Cut(Line(key, value)) == Some(Pair(key, value))
  {
    var line := Line(key, value);
    if key != "" {
      assert line[1..] == Line(key[1..], value);
      CutLine(key[1..], value);
      assert [key[0]] + key[1..] == key;
    }
  }

  lemma {:induction false} NothingMalformed(lines: seq<string>)
    requires forall line <- lines :: !Malformed(line)
    ensures FirstMalformed(lines) == None
  {
    if lines != [] {
      NothingMalformed(lines[1..]);
    }
  }

  function Tail(key: string, value: string): seq<string> {
    if value != "" then [Line(key, value)] else []
  }

  lemma LastOfTail(lines: seq<string>, own: string, value: string, key: string)
    requires ':' !in own
    requires key == own ==> LastValue(lines, key) == ""
    ensures LastValue(lines + Tail(own, value), key) == if key == own then value else LastValue(lines, key)
  {
    CutLine(own, value);
    if value != "" {
      assert (lines + Tail(own, value))[..|lines|] == lines;
    } else {
      assert lines + Tail(own, value) == lines;
    }
  }

  lemma LinesAreTails(i: Info)
    requires Complete(i)
    ensures Lines(i) == Tail(PORCELAIN, MARKER) + Tail(VERSION, i.version) + Tail(COMMIT, i.commit) + Tail(DATE, i.date)
                        + Tail(INVENTREE_VERSION, i.inventreeVersion) + Tail(INVENTREE_API, i.inventreeApi)
  {}

  function ValueFor(i: Info, key: string): string {
    if key == PORCELAIN then MARKER
    else if key == VERSION then i.version
    else if key == COMMIT then i.commit
    else if key == DATE then i.date
    else if key == INVENTREE_VERSION then i.inventreeVersion
    else if key == INVENTREE_API then i.inventreeApi
    else ""
  }

  lemma LastOfLines(i: Info, key: string)
    requires Complete(i)
    ensures LastValue(Lines(i), key) == ValueFor(i, key)
  {
    var p, v, c, d := Tail(PORCELAIN, MARKER), Tail(VERSION, i.version), Tail(COMMIT, i.commit), Tail(DATE, i.date);
    var n := Tail(INVENTREE_VERSION, i.inventreeVersion);
    assert [] + p == p;
    LinesAreTails(i);
    LastOfTail([], PORCELAIN, MARKER, key);
    LastOfTail(p, VERSION, i.version, key);
    LastOfTail(p + v, COMMIT, i.commit, key);
    LastOfTail(p + v + c, DATE, i.date, key);
    LastOfTail(p + v + c + d, INVENTREE_VERSION, i.inventreeVersion, key);
    LastOfTail(p + v + c + d + n, INVENTREE_API, i.inventreeApi, key);
  }

  predicate Proper(line: string, oneLine: bool) { !Malformed(line) && (oneLine ==> '\n' !in line) }

  ghost predicate AllProper(lines: seq<string>, oneLine: bool) { forall line <- lines :: Proper(line, oneLine) }

  lemma TailIsProper(key: string, value: string, oneLine: bool)
    requires ':' !in key && '\n' !in key && (oneLine ==> '\n' !in value)
    ensures AllProper(Tail(key, value), oneLine)
  {
    CutLine(key, value);
  }

  lemma AllTogether(a: seq<string>, b: seq<string>, c: seq<string>, d: seq<string>, e: seq<string>, f: seq<string>, oneLine: bool)
    requires AllProper(a, oneLine) && AllProper(b, oneLine) && AllProper(c, oneLine)
    requires AllProper(d, oneLine) && AllProper(e, oneLine) && AllProper(f, oneLine)
    ensures AllProper(a + b + c + d + e + f, oneLine)
  {
  }

  lemma LinesAreProper(i: Info)
    requires Complete(i)
    ensures AllProper(Lines(i), OneLine(i))
  {
    TailIsProper(PORCELAIN, MARKER, OneLine(i));
    TailIsProper(VERSION, i.version, OneLine(i));
    TailIsProper(COMMIT, i.commit, OneLine(i));
    TailIsProper(DATE, i.date, OneLine(i));
    TailIsProper(INVENTREE_VERSION, i.inventreeVersion, OneLine(i));
    TailIsProper(INVENTREE_API, i.inventreeApi, OneLine(i));
    AllTogether(Tail(PORCELAIN, MARKER), Tail(VERSION, i.version), Tail(COMMIT, i.commit), Tail(DATE, i.date),
                Tail(INVENTREE_VERSION, i.inventreeVersion), Tail(INVENTREE_API, i.inventreeApi), OneLine(i));
    LinesAreTails(i);
  }

  /** What is printed is read back as the same record, however many newlines end the output. */
  lemma PrintThenParse(i: Info, ending: string)
    requires OneLine(i) && Complete(i) && forall k | 0 <= k < |ending| :: ending[k] == '\n'
    ensures Read(Text.Split(Text.Join(Lines(i), '\n') + ending, '\n')) == Parsed(i)
  {
    var printed := Text.Join(Lines(i), '\n');
    LinesAreProper(i);
    Text.SplitJoin(Lines(i), '\n');
    NothingMalformed(Lines(i));
    LastOfLines(i, PORCELAIN);
    LastOfLines(i, VERSION);
    LastOfLines(i, COMMIT);
    LastOfLines(i, DATE);
    LastOfLines(i, INVENTREE_VERSION);
    LastOfLines(i, INVENTREE_API);
    TrimEnding(printed, ending);
    TrimChangesNothing(printed + ending);
    TrimChangesNothing(printed);
  }

  lemma {:induction false} TrimEnding(s: string, ending: string)
    requires forall k | 0 <= k < |ending| :: ending[k] == '\n'
    ensures TrimNewlines(s + ending) == TrimNewlines(s)
  {
    if ending == "" {
      assert s + ending == s;
    } else {
      assert (s + ending)[..|s + ending| - 1] == s + ending[..|ending| - 1];
      TrimEnding(s, ending[..|ending| - 1]);
    }
  }

  lemma {:induction false} CutIsPart(line: string)
    requires Cut(line).Some?
    ensures forall c <- Cut(line).value.value :: c in line
  {
    if !(line[0] == ':' && line[1] == ' ') {
      CutIsPart(line[1..]);
    }
  }

  lemma {:induction false} ValuesAreOneLine(lines: seq<string>, key: string)
    requires forall line <- lines :: '\n' !in line
    ensures '\n' !in LastValue(lines, key)
  {
    if lines != [] {
      var last := lines[|lines| - 1];
      assert last in lines;
      if Gives(last, key) {
        CutIsPart(last);
      } else {
        ValuesAreOneLine(lines[..|lines| - 1], key);
      }
    }
  }

  /** The records the parser can return are exactly the printable ones, and printing one keeps it. */
  lemma ParseThenPrint(output: string)
    requires Read(Text.Split(output, '\n')).Parsed?
    ensures var i := Read(Text.Split(output, '\n')).info;
            OneLine(i) && Complete(i) && Read(Text.Split(Text.Join(Lines(i), '\n'), '\n')) == Parsed(i)
  {
    var lines := Text.Split(output, '\n');
    Text.PiecesAreFree(output, '\n');
    ValuesAreOneLine(lines, VERSION);
    ValuesAreOneLine(lines, COMMIT);
    ValuesAreOneLine(lines, DATE);
    ValuesAreOneLine(lines, INVENTREE_VERSION);
    ValuesAreOneLine(lines, INVENTREE_API);
    PrintThenParse(InfoOf(lines), "");
    assert Text.Join(Lines(InfoOf(lines)), '\n') + "" == Text.Join(Lines(InfoOf(lines)), '\n');
  }

  // What is printed and accepted, in its own words

  /** The lines that are printed, in their order; the last two only with a value. */
  lemma PrintedLines(i: Info)
    ensures Lines(i)[..4] == ["porcelain: 1", "version: " + i.version, "commit: " + i.commit, "date: " + i.date]
    ensures Lines(i)[4..] == (if i.inventreeVersion == "" then [] else ["inventree_version: " + i.inventreeVersion])
                             + (if i.inventreeApi == "" then [] else ["inventree_api: " + i.inventreeApi])
  {
    var first := [Line(PORCELAIN, MARKER), Line(VERSION, i.version), Line(COMMIT, i.commit), Line(DATE, i.date)];
    var rest := (if i.inventreeVersion != "" then [Line(INVENTREE_VERSION, i.inventreeVersion)] else [])
                + (if i.inventreeApi != "" then [Line(INVENTREE_API, i.inventreeApi)] else []);
    assert Lines(i) == first + rest;
    assert Line(PORCELAIN, MARKER) == "porcelain: 1";
    KeyAndColon(i.version, i.commit, i.date, i.inventreeVersion, i.inventreeApi);
  }

  lemma KeyAndColon(a: string, b: string, c: string, d: string, e: string)
    ensures Line(VERSION, a) == "version: " + a && Line(COMMIT, b) == "commit: " + b && Line(DATE, c) == "date: " + c
    ensures Line(INVENTREE_VERSION, d) == "inventree_version: " + d && Line(INVENTREE_API, e) == "inventree_api: " + e
  {
    assert VERSION + ": " == "version: " && COMMIT + ": " == "commit: " && DATE + ": " == "date: ";
    assert INVENTREE_VERSION + ": " == "inventree_version: " && INVENTREE_API + ": " == "inventree_api: ";
  }

  /** The first ": " of a line parts it. */
  lemma {:induction false} CutMeans(line: string)
    ensures match Cut(line)
            case None => forall i :: 0 <= i < |line| - 1 ==> !(line[i] == ':' && line[i + 1] == ' ')
            case Some(p) =>
              && line == p.key + ": " + p.value
              && forall i :: 0 <= i < |p.key| ==> !(line[i] == ':' && line[i + 1] == ' ')
  {
    if |line| >= 2 && !(line[0] == ':' && line[1] == ' ') {
      CutMeans(line[1..]);
      assert line == [line[0]] + line[1..];
      assert forall i :: 0 < i < |line| ==> line[i] == line[1..][i - 1];
    }
  }

  /** The value of a key is that of its last line. */
  lemma {:induction false} LastValueMeans(lines: seq<string>, i: nat, key: string)
    requires i < |lines| && forall j :: i < j < |lines| ==> !Gives(lines[j], key)
    ensures Gives(lines[i], key) ==> LastValue(lines, key) == Cut(lines[i]).value.value
    ensures i == 0 && !Gives(lines[0], key) ==> LastValue(lines, key) == ""
  {
    if i < |lines| - 1 {
      LastValueMeans(lines[..|lines| - 1], i, key);
    } else if i == 0 {
      assert lines[..0] == [];
    }
  }

  /** Every line that is not empty has a ": ". */
  predicate AllCut(lines: seq<string>) { forall line <- lines :: line != "" ==> Cut(line).Some? }

  /** An output is accepted exactly if every line that is not empty has a ": ", its marker is 1, and version,
      commit and date have values; and then the record holds the values of the five keys. */
  lemma AcceptedOutput(lines: seq<string>)
    ensures Read(lines).Parsed? <==>
              && AllCut(lines) && LastValue(lines, "porcelain") == "1"
              && LastValue(lines, "version") != "" && LastValue(lines, "commit") != "" && LastValue(lines, "date") != ""
    ensures Read(lines).Parsed? ==>
              Read(lines).info == Info(LastValue(lines, "version"), LastValue(lines, "commit"), LastValue(lines, "date"),
                                       LastValue(lines, "inventree_version"), LastValue(lines, "inventree_api"))
  {
    AllCutMeans(lines);
  }

  /** It is refused for the first line without one, else for its marker, else for a missing value. */
  lemma RefusedOutput(lines: seq<string>)
    ensures Read(lines).MalformedLine? <==> !AllCut(lines)
    ensures Read(lines).MalformedLine? ==>
              exists i :: 0 <= i < |lines| && Read(lines).line == lines[i] && FirstBad(lines, i)
    ensures Read(lines).UnsupportedMarker? <==> AllCut(lines) && LastValue(lines, "porcelain") != "1"
    ensures Read(lines).UnsupportedMarker? ==> Read(lines).marker == LastValue(lines, "porcelain")
  {
    AllCutMeans(lines);
    MalformedIsFound(lines);
  }

  lemma AllCutMeans(lines: seq<string>)
    ensures FirstMalformed(lines).None? <==> AllCut(lines)
  {
    MalformedIsFound(lines);
  }

  /** Line `i` is the first that is not empty and has no ": ". */
  predicate FirstBad(lines: seq<string>, i: nat)
    requires i < |lines|
  {
    lines[i] != "" && Cut(lines[i]).None? && forall j :: 0 <= j < i ==> lines[j] == "" || Cut(lines[j]).Some?
  }

  lemma {:induction false} MalformedIsFound(lines: seq<string>)
    ensures FirstMalformed(lines).Some? ==> exists i :: 0 <= i < |lines| && FirstMalformed(lines).value == lines[i] && FirstBad(lines, i)
    ensures FirstMalformed(lines).None? ==> forall line <- lines :: !Malformed(line)
  {
    if lines != [] {
      MalformedIsFound(lines[1..]);
      assert lines == [lines[0]] + lines[1..];
      if !Malformed(lines[0]) && FirstMalformed(lines).Some? {
        var i :| 0 <= i < |lines[1..]| && FirstMalformed(lines[1..]).value == lines[1..][i] && FirstBad(lines[1..], i);
        assert forall j :: 0 < j < i + 1 ==> lines[j] == lines[1..][j - 1];
        assert FirstBad(lines, i + 1);
      }
    }
  }
}
