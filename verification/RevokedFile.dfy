/** Reading a revocation list (tlsconf.go, LoadRevokedSerials): lines to a set of canonical serials. */
module RevokedFile {
  import opened Wrappers
  import opened Serials

  /** What opening and reading the file gives: an error, or its whole text. */
  datatype Contents = Unreadable | Text(text: string)

  datatype LoadError = ReadError | NotHex(line: string) | LineTooLong

  /** bufio.Scanner's default token limit: a line of this many bytes is an error. */
  const MAX_LINE := 65536

  function LineEnd(text: string, from: nat): (e: nat)
    requires from <= |text|
    ensures from <= e <= |text|
    ensures '\n' !in text[from..e]
    ensures e < |text| ==> text[e] == '\n'
    decreases |text| - from
  {
    if from == |text| || text[from] == '\n' then from
    else
      var e := LineEnd(text, from + 1);
      assert text[from..e] == [text[from]] + text[from + 1..e];
      e
  }

  /** Lines as bufio.ScanLines cuts them; no empty line after a final newline. */
  function Lines(text: string): seq<string>
    decreases |text|
  {
    if text == "" then []
    else
      var e := LineEnd(text, 0);
      [text[..e]] + if e == |text| then [] else Lines(text[e + 1..])
  }

  function DropCR(line: string): string {
    if line != "" && line[|line| - 1] == '\r' then line[..|line| - 1] else line
  }

  /** Neither blank nor a comment. */
  predicate Relevant(line: string) {
    TrimSpace(line) != "" && TrimSpace(line)[0] != '#'
  }

  predicate Readable(line: string) {
    |line| < MAX_LINE && (Relevant(line) ==> Canonical(line).Some?)
  }

  function SerialsIn(lines: seq<string>): set<string> {
    set line | line in lines && Relevant(line) && Canonical(line).Some? :: Canonical(line).value
  }

  /** The denylist a text stands for, or None if some line is unreadable. */
  function Denylist(contents: Contents): Option<set<string>> {
    if contents.Unreadable? || exists line | line in Lines(contents.text) :: !Readable(line) then None
    else Some(SerialsIn(Lines(contents.text)))
  }

  /** One round of the scan loop: an error, a serial, or a line to skip. */
  method ReadLine(raw: string) returns (r: Result<Option<string>, LoadError>)
    ensures r.Ok? <==> Readable(raw)
    ensures r.Ok? ==> r.value == if Relevant(raw) then Canonical(raw) else None
    ensures r.Err? ==> r.error != ReadError
  {
    if |raw| >= MAX_LINE {
      return Err(LineTooLong);
    }
    DroppedCRIsOuterSpace(raw);
    var line := TrimSpace(DropCR(raw));
    if line == "" || line[0] == '#' {
      return Ok(None);
    }
    var serial := Canonical(line);
    return if serial.None? then Err(NotHex(line)) else Ok(serial);
  }

  ghost predicate AllReadable(lines: seq<string>) {
    forall line | line in lines :: Readable(line)
  }

  /** The scan loop: stops at the first line it cannot read. */
  method Scan(lines: seq<string>) returns (r: Result<set<string>, LoadError>)
    ensures r.Ok? <==> AllReadable(lines)
    ensures r.Ok? ==> r.value == SerialsIn(lines)
    ensures r.Err? ==> r.error != ReadError
  {
    var revoked: set<string> := {};
    for i := 0 to |lines|
      invariant AllReadable(lines[..i]) && revoked == SerialsIn(lines[..i])
    {
      var read := ReadLine(lines[i]);
      if read.Err? {
        return Err(read.error);
      }
      OneMoreLine(lines[..i], lines[i]);
      assert lines[..i + 1] == lines[..i] + [lines[i]];
      if read.value.Some? {
        revoked := revoked + {read.value.value};
      }
    }
    assert lines[..|lines|] == lines;
    return Ok(revoked);
  }

  /** `contents` is what opening path would read; an empty path means no list. */
  method LoadRevokedSerials(path: string, contents: Contents) returns (r: Result<set<string>, LoadError>)
    ensures path == "" ==> r == Ok({})
    ensures path != "" ==> (r.Ok? <==> Denylist(contents).Some?)
    ensures path != "" && r.Ok? ==> r.value == Denylist(contents).value
    ensures path != "" ==> (r == Err(ReadError) <==> contents.Unreadable?)
  {
    if path == "" {
      return Ok({});
    }
    if contents.Unreadable? {
      return Err(ReadError);
    }
    r := Scan(Lines(contents.text));
  }

  lemma OneMoreLine(lines: seq<string>, line: string)
    requires Readable(line)
    ensures AllReadable(lines) ==> AllReadable(lines + [line])
    ensures SerialsIn(lines + [line])
         == SerialsIn(lines) + (if Relevant(line) then {Canonical(line).value} else {})
  {
    assert line in lines + [line];
    assert forall other :: other in lines + [line] <==> other in lines || other == line;
  }

  /** Dropping the carriage return first and trimming before normalizing change nothing. */
  lemma DroppedCRIsOuterSpace(line: string)
    ensures TrimSpace(DropCR(line)) == TrimSpace(line)
    ensures Canonical(TrimSpace(line)) == Canonical(line)
  {
    TrimmedTwice(line);
    if DropCR(line) != line {
      var front := DropCR(line);
      assert line == front + ['\r'];
      var lead := TrimLeftSplits(front);
      if TrimLeft(front) == "" {
        TrimLeftAll(front, ['\r']);
        assert TrimLeft(['\r']) == TrimLeft(['\r'][1..]);
      } else {
        TrimLeftStart(front);
        TrimLeftAll(lead, TrimLeft(front) + ['\r']);
        assert line == lead + (TrimLeft(front) + ['\r']);
        TrimRightAll(TrimLeft(front), ['\r']);
      }
    }
  }

  lemma TrimmedTwice(line: string)
    ensures TrimSpace(TrimSpace(line)) == TrimSpace(line)
  {
    TrimmedEnds(line);
    if TrimSpace(line) != "" {
      assert "" + TrimSpace(line) + "" == TrimSpace(line);
      TrimSpaceIs("", TrimSpace(line), "");
    }
  }

  /** A comment or a blank line never spells a serial, so it need not be singled out. */
  lemma IrrelevantIsRefused(line: string)
    requires !Relevant(line)
    ensures Parsed(line) == None
  {
    var core := TrimSpace(line);
    if core == "" {
      assert Strip(Lower(core)) == "";
    } else {
      assert Lower(core)[0] == '#';
      assert Strip(Lower(core))[0] == '#';
    }
  }

  lemma SpellingsAreRelevant(line: string, n: int)
    requires Spells(line, n)
    ensures Relevant(line)
  {
    AcceptsExactlySpellings(line, n);
    if !Relevant(line) {
      IrrelevantIsRefused(line);
    }
  }

  /** A certificate is found in the loaded set exactly when some line spells its serial. */
  lemma FoundExactlyWhenListed(contents: Contents, n: int)
    requires Denylist(contents).Some?
    ensures HexText(n) in Denylist(contents).value
       <==> exists line :: line in Lines(contents.text) && Spells(line, n)
  {
    var lines := Lines(contents.text);
    if HexText(n) in Denylist(contents).value {
      var line :| line in lines && Relevant(line) && Canonical(line).value == HexText(n);
      AcceptsExactlySpellings(line, n);
      assert line in lines && Spells(line, n);
    }
    if exists line :: line in lines && Spells(line, n) {
      var line :| line in lines && Spells(line, n);
      AcceptsExactlySpellings(line, n);
      SpellingsAreRelevant(line, n);
    }
  }

  // ----- Which files are refused -----

  /** The first character that is not whitespace is '#'. */
  ghost predicate IsComment(line: string) {
    exists k :: 0 <= k < |line| && line[k] == '#' && AllSpace(line[..k])
  }

  /** Where a text that is not all whitespace starts decides whether it is a comment. */
  lemma CommentStarts(lead: string, rest: string)
    requires AllSpace(lead) && rest != "" && !IsSpace(rest[0])
    ensures IsComment(lead + rest) <==> rest[0] == '#'
    ensures !AllSpace(lead + rest)
  {
    var line := lead + rest;
    assert line[|lead|] == rest[0];
    assert line[..|lead|] == lead;
    assert forall k | |lead| < k <= |line| :: line[..k][|lead|] == rest[0];
    assert forall k | 0 <= k < |lead| :: IsSpace(line[k]);
  }

  lemma BlankIsNoComment(line: string)
    requires AllSpace(line)
    ensures !IsComment(line)
  {
  }

  lemma RelevantMeans(line: string)
    ensures Relevant(line) <==> !AllSpace(line) && !IsComment(line)
  {
    var lead, tail := TrimSpaceSplits(line);
    var core := TrimSpace(line);
    if core == "" {
      assert line == lead + tail;
      BlankIsNoComment(line);
    } else {
      TrimmedEnds(line);
      assert line == lead + (core + tail);
      CommentStarts(lead, core + tail);
    }
  }

  /** A line the file may contain: blank, a comment, or a spelling of some serial. */
  ghost predicate IsFine(line: string) {
    |line| < 65536 && (AllSpace(line) || IsComment(line) || exists n :: Spells(line, n))
  }

  lemma ReadableMeans(line: string)
    ensures Readable(line) <==> IsFine(line)
  {
    RelevantMeans(line);
    if Canonical(line).Some? {
      AcceptsExactlySpellings(line, Parsed(line).value);
    }
    if exists n :: Spells(line, n) {
      var n :| Spells(line, n);
      AcceptsExactlySpellings(line, n);
    }
  }

  /** A file is refused exactly if it cannot be read or some line is none of the three. */
  lemma RefusedExactly(contents: Contents)
    ensures Denylist(contents).None? <==>
      contents.Unreadable? || exists line | line in Lines(contents.text) :: !IsFine(line)
  {
    if contents.Text? {
      forall line | line in Lines(contents.text)
        ensures Readable(line) <==> IsFine(line)
      {
        ReadableMeans(line);
      }
    }
  }

  // ----- The lines are the text -----

  /** Putting the newlines back. */
  function Unlines(lines: seq<string>, terminated: bool): string {
    if lines == [] then ""
    else if |lines| == 1 then lines[0] + if terminated then "\n" else ""
    else lines[0] + "\n" + Unlines(lines[1..], terminated)
  }

  lemma {:induction false} LinesLoseNothing(text: string)
    ensures forall line | line in Lines(text) :: '\n' !in line
    ensures Unlines(Lines(text), text != "" && text[|text| - 1] == '\n') == text
    decreases |text|
  {
    if text != "" {
      var e := LineEnd(text, 0);
      if e < |text| {
        var rest := text[e + 1..];
        LinesLoseNothing(rest);
        assert text == text[..e] + "\n" + rest;
        assert Lines(text) == [text[..e]] + Lines(rest);
        assert Lines(text)[1..] == Lines(rest);
        assert rest == "" ==> Lines(rest) == [];
        assert rest != "" ==> rest[|rest| - 1] == text[|text| - 1];
      }
    }
  }
}
