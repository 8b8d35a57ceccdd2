/**
 * The TIPA-to-Unicode line converter: a character scanner that looks for
 * `\ipa{`, translates the TIPA text inside the braces chunk by chunk
 * through a mapping table, and writes `\UIPA{…}` in its place.
 *
 * `Step` is the scanner's transition on one character and `Scan` the
 * scanner run over a string; `TranscodeLine` is the character loop itself,
 * proved to compute `Scan`; the lemmas state what the scanner guarantees.
 */
module TipaUnicode {

  // ---------------------------------------------------------------------
  // The mapping table

  /** The table as read from the mapping file: a later line for the same key wins. */
  function FromEntries(entries: seq<(string, string)>): map<string, string>
    decreases |entries|
  {
    if entries == [] then map[]
    else
      var last := entries[|entries| - 1];
      FromEntries(entries[..|entries| - 1])[last.0 := last.1]
  }

  /** The three built-in entries, written over whatever the file said. */
  function WithOverrides(base: map<string, string>): map<string, string> {
    base[" " := ""]["{}" := ""]["\\ " := "\\ "]
  }

  predicate Builtin(k: string) {
    k == " " || k == "{}" || k == "\\ "
  }

  /** Builds the table from the file's entries, then adds the built-in entries. */
  method BuildMapping(entries: seq<(string, string)>) returns (mapping: map<string, string>)
    ensures mapping == WithOverrides(FromEntries(entries))
  {
    mapping := map[];
    for i := 0 to |entries|
      invariant mapping == FromEntries(entries[..i])
    {
      assert entries[..i + 1][..i] == entries[..i];
      var (tipa, unicodeipa) := entries[i];
      mapping := mapping[tipa := unicodeipa];
    }
    assert entries[..|entries|] == entries;
    mapping := mapping[" " := ""];
    mapping := mapping["{}" := ""];
    mapping := mapping["\\ " := "\\ "];
  }

  /** A key of the file's table is a key some entry gives, and its value is the one of the last such entry. */
  lemma {:induction false} FromEntriesLast(entries: seq<(string, string)>, k: string)
    ensures k in FromEntries(entries) <==> exists i :: 0 <= i < |entries| && entries[i].0 == k
    ensures forall i :: 0 <= i < |entries| && entries[i].0 == k &&
                        (forall j :: i < j < |entries| ==> entries[j].0 != k) ==>
              k in FromEntries(entries) && FromEntries(entries)[k] == entries[i].1
    decreases |entries|
  {
    if entries != [] {
      var n := |entries| - 1;
      var front := entries[..n];
      FromEntriesLast(front, k);
      assert forall i :: 0 <= i < n ==> front[i] == entries[i];
    }
  }

  /** The built-in entries win over the file, and every other key keeps the file's value. */
  lemma OverridesWin(base: map<string, string>)
    ensures var m := WithOverrides(base);
            m[" "] == "" && m["{}"] == "" && m["\\ "] == "\\ "
    ensures forall k :: !Builtin(k) ==>
              (k in WithOverrides(base) <==> k in base) &&
              (k in base ==> WithOverrides(base)[k] == base[k])
  {
  }

  // ---------------------------------------------------------------------
  // The scanner

  /** How much of `\ipa{` has been read: none, `\`, `\i`, `\ip`, `\ipa`, or all of it. */
  datatype Phase = Text | Backslash | BackslashI | BackslashIp | BackslashIpa | InTipa

  /**
   * The scanner's variables: the phase, the raw text consumed since the
   * last `\` (`tipa`), the translation so far (`unicode`), the pending
   * TIPA characters not yet found as a key (`chunk`), and the line written
   * so far (`out`).
   */
  datatype Scanner = Scanner(phase: Phase, tipa: string, unicode: string, chunk: string, out: string)

  /** Scanning text, with nothing pending and `out` written. */
  function Idle(out: string): Scanner {
    Scanner(Text, "", "", "", out)
  }

  const Init := Idle("")

  /** The opener the scanner looks for. */
  const Open: string := "\\ipa{"

  /** The pending buffer never grows beyond this many characters. */
  const MaxChunk: nat := 25

  /** A character that breaks off an opener: write out what was consumed and the character. */
  function Mismatch(s: Scanner, c: char): Scanner {
    s.(phase := Text, out := s.out + s.tipa + [c], tipa := "", unicode := "")
  }

  /** Reading `c` in a partial opener: advance on `want`, otherwise break off. */
  function Advance(s: Scanner, c: char, want: char, next: Phase): Scanner {
    if c == want then s.(phase := next, tipa := s.tipa + [c]) else Mismatch(s, c)
  }

  /** The scanner's transition on one character. */
  function Step(mapping: map<string, string>, s: Scanner, c: char): Scanner {
    match s.phase
    case Text =>
      if c == '\\' then s.(phase := Backslash, tipa := s.tipa + [c]) else s.(out := s.out + [c])
    case Backslash => Advance(s, c, 'i', BackslashI)
    case BackslashI => Advance(s, c, 'p', BackslashIp)
    case BackslashIp => Advance(s, c, 'a', BackslashIpa)
    case BackslashIpa =>
      if c == '{' then s.(phase := InTipa, tipa := s.tipa + [c], unicode := s.unicode + "\\UIPA{")
      else Mismatch(s, c)
    case InTipa =>
      var tipa := s.tipa + [c];
      if c == '}' && s.chunk == "" then Idle(s.out + s.unicode + "}")
      else
        var chunk := s.chunk + [c];
        if chunk in mapping then s.(tipa := tipa, unicode := s.unicode + mapping[chunk], chunk := "")
        else if |chunk| > MaxChunk then Idle(s.out + tipa)
        else s.(tipa := tipa, chunk := chunk)
  }

  /** The scanner run over `cs` from `s`. */
  function Scan(mapping: map<string, string>, s: Scanner, cs: string): Scanner
    decreases |cs|
  {
    if cs == [] then s else Step(mapping, Scan(mapping, s, cs[..|cs| - 1]), cs[|cs| - 1])
  }

  /** Scanning one more character is one more step. */
  lemma ScanSnoc(mapping: map<string, string>, s: Scanner, cs: string, c: char)
    ensures Scan(mapping, s, cs + [c]) == Step(mapping, Scan(mapping, s, cs), c)
  {
    assert (cs + [c])[..|cs|] == cs;
  }

  /** Scanning two strings in a row is scanning their concatenation. */
  lemma {:induction false} ScanAppend(mapping: map<string, string>, s: Scanner, a: string, b: string)
    ensures Scan(mapping, s, a + b) == Scan(mapping, Scan(mapping, s, a), b)
    decreases |b|
  {
    if b == [] {
      assert a + b == a;
    } else {
      assert (a + b)[..|a + b| - 1] == a + b[..|b| - 1];
      ScanAppend(mapping, s, a, b[..|b| - 1]);
    }
  }

  // ---------------------------------------------------------------------
  // Diagnostics

  /** The message printed when a pending chunk outgrows the buffer. */
  function ErrorLine(chunk: string): string {
    "ERROR: could not interpret tipa string \"" + chunk + "\""
  }

  /** Inside a group, `c` neither closes it nor completes a key, and the chunk grows past `MaxChunk`. */
  predicate Overflows(mapping: map<string, string>, s: Scanner, c: char) {
    s.phase == InTipa && !(c == '}' && s.chunk == "") && s.chunk + [c] !in mapping && |s.chunk + [c]| > MaxChunk
  }

  /** What reading `c` prints before the line is finished: the error message on an overflow, else nothing. */
  function Diagnostic(mapping: map<string, string>, s: Scanner, c: char): seq<string> {
    if Overflows(mapping, s, c) then [ErrorLine(s.chunk + [c])] else []
  }

  /** The messages printed while scanning `cs` from `s`, in order. */
  function Diagnostics(mapping: map<string, string>, s: Scanner, cs: string): seq<string>
    decreases |cs|
  {
    if cs == [] then []
    else
      var front := cs[..|cs| - 1];
      Diagnostics(mapping, s, front) + Diagnostic(mapping, Scan(mapping, s, front), cs[|cs| - 1])
  }

  lemma DiagnosticsSnoc(mapping: map<string, string>, s: Scanner, cs: string, c: char)
    ensures Diagnostics(mapping, s, cs + [c]) == Diagnostics(mapping, s, cs) + Diagnostic(mapping, Scan(mapping, s, cs), c)
  {
    assert (cs + [c])[..|cs|] == cs;
  }

  /** An error message about a chunk that grew one character past `MaxChunk`. */
  ghost predicate IsErrorLine(m: string) {
    exists chunk :: |chunk| == MaxChunk + 1 && m == ErrorLine(chunk)
  }

  /** Every message is an error message about an overflowing chunk. */
  lemma {:induction false} DiagnosticsAreErrors(mapping: map<string, string>, s: Scanner, cs: string)
    requires Inv(s)
    ensures forall k :: 0 <= k < |Diagnostics(mapping, s, cs)| ==> IsErrorLine(Diagnostics(mapping, s, cs)[k])
    decreases |cs|
  {
    if cs != [] {
      var front := cs[..|cs| - 1];
      DiagnosticsAreErrors(mapping, s, front);
      var t := Scan(mapping, s, front);
      var c := cs[|cs| - 1];
      var d := Diagnostics(mapping, s, front);
      var e := Diagnostic(mapping, t, c);
      assert Diagnostics(mapping, s, cs) == d + e;
      if Overflows(mapping, t, c) {
        ScanInv(mapping, s, front);
        assert |t.chunk + [c]| == MaxChunk + 1;
        assert IsErrorLine(e[0]);
      }
      assert forall k :: 0 <= k < |e| ==> IsErrorLine(e[k]);
    }
  }

  /** A message is printed exactly when some step overflows. */
  lemma {:induction false} DiagnosedIffOverflowed(mapping: map<string, string>, s: Scanner, cs: string)
    ensures Diagnostics(mapping, s, cs) != [] <==>
            exists j :: 0 <= j < |cs| && Overflows(mapping, Scan(mapping, s, cs[..j]), cs[j])
    decreases |cs|
  {
    if cs != [] {
      var front := cs[..|cs| - 1];
      DiagnosedIffOverflowed(mapping, s, front);
      assert forall j :: 0 <= j < |front| ==> cs[..j] == front[..j] && cs[j] == front[j];
      if exists j :: 0 <= j < |cs| && Overflows(mapping, Scan(mapping, s, cs[..j]), cs[j]) {
        var j :| 0 <= j < |cs| && Overflows(mapping, Scan(mapping, s, cs[..j]), cs[j]);
        if j == |front| {
          assert cs[..j] == front;
        }
      }
    }
  }

  // ---------------------------------------------------------------------
  // Lines

  /** The characters `str.strip` removes: those for which Python's `str.isspace` holds. */
  predicate Space(c: char) {
    c == ' ' || ('\t' <= c <= '\r') || ('\U{001C}' <= c <= '\U{001F}') || c == '\U{0085}' || c == '\U{00A0}'
    || c == '\U{1680}' || ('\U{2000}' <= c <= '\U{200A}') || c == '\U{2028}' || c == '\U{2029}'
    || c == '\U{202F}' || c == '\U{205F}' || c == '\U{3000}'
  }

  function StripLeft(s: string): (r: string)
    ensures |r| <= |s| && r == s[|s| - |r|..]
    ensures forall i :: 0 <= i < |s| - |r| ==> Space(s[i])
    ensures r == "" || !Space(r[0])
  {
    if s != [] && Space(s[0]) then
      var r := StripLeft(s[1..]);
      assert s[1..][|s| - 1 - |r|..] == s[|s| - |r|..];
      assert forall i :: 1 <= i < |s| - |r| ==> s[1..][i - 1] == s[i];
      r
    else s
  }

  function StripRight(s: string): (r: string)
    ensures |r| <= |s| && r == s[..|r|]
    ensures forall i :: |r| <= i < |s| ==> Space(s[i])
    ensures r == "" || !Space(r[|r| - 1])
  {
    if s != [] && Space(s[|s| - 1]) then
      var r := StripRight(s[..|s| - 1]);
      assert s[..|s| - 1][..|r|] == s[..|r|];
      assert forall i :: |r| <= i < |s| - 1 ==> s[..|s| - 1][i] == s[i];
      r
    else s
  }

  /** `line.strip()`: the line without its leading and trailing white space. */
  function Strip(line: string): string {
    StripRight(StripLeft(line))
  }

  /** Stripping keeps a contiguous middle part and removes only white space around it. */
  lemma StripIsSlice(line: string)
    ensures exists i, j :: 0 <= i <= j <= |line| && Strip(line) == line[i..j] &&
              (forall k :: 0 <= k < i ==> Space(line[k])) &&
              (forall k :: j <= k < |line| ==> Space(line[k]))
    ensures Strip(line) == "" || (!Space(Strip(line)[0]) && !Space(Strip(line)[|Strip(line)| - 1]))
  {
    var i, j := StripBounds(line);
    StripEnds(line);
  }

  /** Where the stripped line sits in the original one. */
  lemma StripBounds(line: string) returns (i: nat, j: nat)
    ensures i <= j <= |line| && Strip(line) == line[i..j]
    ensures forall k :: 0 <= k < i ==> Space(line[k])
    ensures forall k :: j <= k < |line| ==> Space(line[k])
  {
    i, j := TrimmedSlice(line, StripLeft(line), StripRight(StripLeft(line)));
  }

  /** A prefix `r` of a suffix `l` of `line`, with only white space cut off, is a slice of `line`. */
  lemma TrimmedSlice(line: string, l: string, r: string) returns (i: nat, j: nat)
    requires |l| <= |line| && l == line[|line| - |l|..]
    requires forall k :: 0 <= k < |line| - |l| ==> Space(line[k])
    requires |r| <= |l| && r == l[..|r|]
    requires forall k :: |r| <= k < |l| ==> Space(l[k])
    ensures i <= j <= |line| && r == line[i..j]
    ensures forall k :: 0 <= k < i ==> Space(line[k])
    ensures forall k :: j <= k < |line| ==> Space(line[k])
  {
    i := |line| - |l|;
    j := i + |r|;
    assert r == line[i..j];
    forall k | j <= k < |line| ensures Space(line[k]) {
      assert line[k] == l[k - i];
    }
  }

  lemma StripEnds(line: string)
    ensures Strip(line) == "" || (!Space(Strip(line)[0]) && !Space(Strip(line)[|Strip(line)| - 1]))
  {
    var l := StripLeft(line);
    var r := StripRight(l);
    if r != "" {
      assert r[0] == l[0];
    }
  }

  /** The printed line: the scanner's output after the stripped line, pending text dropped. */
  function Transcode(mapping: map<string, string>, line: string): string {
    Scan(mapping, Init, Strip(line)).out
  }

  /** The per-line character loop. */
  method TranscodeLine(mapping: map<string, string>, line: string) returns (diagnostics: seq<string>, outputLine: string)
    ensures diagnostics == Diagnostics(mapping, Init, Strip(line))
    ensures outputLine == Transcode(mapping, line)
  {
    var s := Strip(line);
    diagnostics := [];
    outputLine := "";
    var currentTipa := "";
    var currentUnicode := "";
    var currentChunk := "";
    var state := Text;
    for i := 0 to |s|
      invariant Scan(mapping, Init, s[..i]) == Scanner(state, currentTipa, currentUnicode, currentChunk, outputLine)
      invariant diagnostics == Diagnostics(mapping, Init, s[..i])
    {
      ScanSnoc(mapping, Init, s[..i], s[i]);
      DiagnosticsSnoc(mapping, Init, s[..i], s[i]);
      assert s[..i] + [s[i]] == s[..i + 1];
      var diagnostic;
      state, currentTipa, currentUnicode, currentChunk, outputLine, diagnostic :=
        ReadChar(mapping, state, currentTipa, currentUnicode, currentChunk, outputLine, s[i]);
      diagnostics := diagnostics + diagnostic;
    }
    assert s[..|s|] == s;
  }

  /**
   * The body of the character loop: the variables after reading `c` are
   * one scanner step, and `diagnostic` is what the step prints.
   */
  method ReadChar(mapping: map<string, string>, state0: Phase, tipa0: string, unicode0: string, chunk0: string,
                  out0: string, c: char)
    returns (state: Phase, currentTipa: string, currentUnicode: string, currentChunk: string, outputLine: string,
             diagnostic: seq<string>)
    ensures Scanner(state, currentTipa, currentUnicode, currentChunk, outputLine)
         == Step(mapping, Scanner(state0, tipa0, unicode0, chunk0, out0), c)
    ensures diagnostic == Diagnostic(mapping, Scanner(state0, tipa0, unicode0, chunk0, out0), c)
  {
    state, currentTipa, currentUnicode, currentChunk, outputLine := state0, tipa0, unicode0, chunk0, out0;
    diagnostic := [];
    match state {
      case Text =>
        if c == '\\' {
          state := Backslash;
          currentTipa := currentTipa + [c];
        } else {
          outputLine := outputLine + [c];
        }
      case Backslash =>
        if c == 'i' {
          state := BackslashI;
          currentTipa := currentTipa + [c];
        } else {
          outputLine := outputLine + currentTipa + [c];
          state, currentTipa, currentUnicode := Text, "", "";
        }
      case BackslashI =>
        if c == 'p' {
          state := BackslashIp;
          currentTipa := currentTipa + [c];
        } else {
          outputLine := outputLine + currentTipa + [c];
          state, currentTipa, currentUnicode := Text, "", "";
        }
      case BackslashIp =>
        if c == 'a' {
          state := BackslashIpa;
          currentTipa := currentTipa + [c];
        } else {
          outputLine := outputLine + currentTipa + [c];
          state, currentTipa, currentUnicode := Text, "", "";
        }
      case BackslashIpa =>
        if c == '{' {
          state := InTipa;
          currentTipa := currentTipa + [c];
          currentUnicode := currentUnicode + "\\UIPA{";
        } else {
          outputLine := outputLine + currentTipa + [c];
          state, currentTipa, currentUnicode := Text, "", "";
        }
      case InTipa =>
        currentTipa := currentTipa + [c];
        if c == '}' && currentChunk == "" {
          outputLine := outputLine + currentUnicode + "}";
          state, currentTipa, currentUnicode, currentChunk := Text, "", "", "";
        } else {
          currentChunk := currentChunk + [c];
          if currentChunk in mapping {
            currentUnicode := currentUnicode + mapping[currentChunk];
            currentChunk := "";
          } else if |currentChunk| > MaxChunk {
            diagnostic := [ErrorLine(currentChunk)];
            outputLine := outputLine + currentTipa;
            state, currentTipa, currentUnicode, currentChunk := Text, "", "", "";
          }
        }
    }
  }

  /** Every line of a file put through `f`, in order. */
  function MapLines(f: string -> string, lines: seq<string>): seq<string>
    decreases |lines|
  {
    if lines == [] then []
    else MapLines(f, lines[..|lines| - 1]) + [f(lines[|lines| - 1])]
  }

  /** One output line per input line, and the `i`-th is `f` of the `i`-th. */
  lemma {:induction false} MapLinesAt(f: string -> string, lines: seq<string>, i: nat)
    requires i < |lines|
    ensures |MapLines(f, lines)| == |lines|
    ensures MapLines(f, lines)[i] == f(lines[i])
    decreases |lines|
  {
    var front := lines[..|lines| - 1];
    if i < |front| {
      MapLinesAt(f, front, i);
      assert front[i] == lines[i];
    } else if front != [] {
      MapLinesAt(f, front, 0);
    }
  }

  /** The per-line conversion as a function value. */
  function Converter(mapping: map<string, string>): string -> string {
    line => Transcode(mapping, line)
  }

  /** What one input line prints: the messages its scan prints, then the converted line. */
  function LinePrintout(mapping: map<string, string>, line: string): seq<string> {
    Diagnostics(mapping, Init, Strip(line)) + [Transcode(mapping, line)]
  }

  /** What the whole file prints, line by line. */
  function Printout(mapping: map<string, string>, lines: seq<string>): seq<string>
    decreases |lines|
  {
    if lines == [] then []
    else Printout(mapping, lines[..|lines| - 1]) + LinePrintout(mapping, lines[|lines| - 1])
  }

  /** The outer loop over the file's lines, collecting what it prints. */
  method TranscodeFile(mapping: map<string, string>, lines: seq<string>) returns (printed: seq<string>)
    ensures printed == Printout(mapping, lines)
  {
    printed := [];
    for i := 0 to |lines|
      invariant printed == Printout(mapping, lines[..i])
    {
      assert lines[..i + 1][..i] == lines[..i];
      var diagnostics, outputLine := TranscodeLine(mapping, lines[i]);
      printed := printed + (diagnostics + [outputLine]);
    }
    assert lines[..|lines| ] == lines;
  }

  /** Each line's block ends with the converted line, after error messages only. */
  lemma LinePrintoutEnds(mapping: map<string, string>, line: string)
    ensures var p := LinePrintout(mapping, line);
            0 < |p| && p[|p| - 1] == Transcode(mapping, line) &&
            forall k :: 0 <= k < |p| - 1 ==> IsErrorLine(p[k])
  {
    DiagnosticsAreErrors(mapping, Init, Strip(line));
  }

  /** A line whose scan prints no message. */
  predicate Quiet(mapping: map<string, string>, line: string) {
    Diagnostics(mapping, Init, Strip(line)) == []
  }

  /** When no line overflows, the file prints exactly its converted lines. */
  lemma {:induction false} PrintoutQuiet(mapping: map<string, string>, lines: seq<string>)
    requires forall i :: 0 <= i < |lines| ==> Quiet(mapping, lines[i])
    ensures Printout(mapping, lines) == MapLines(Converter(mapping), lines)
    decreases |lines|
  {
    if lines != [] {
      var front := lines[..|lines| - 1];
      var last := lines[|lines| - 1];
      var f := Converter(mapping);
      forall i | 0 <= i < |front| ensures Quiet(mapping, front[i]) {
        assert front[i] == lines[i];
      }
      PrintoutQuiet(mapping, front);
      LineQuiet(mapping, last);
      assert Printout(mapping, lines) == Printout(mapping, front) + LinePrintout(mapping, last);
      assert MapLines(f, lines) == MapLines(f, front) + [f(last)];
    }
  }

  lemma LineQuiet(mapping: map<string, string>, line: string)
    requires Quiet(mapping, line)
    ensures LinePrintout(mapping, line) == [Converter(mapping)(line)]
  {
  }

  /** The `i`-th converted line is the `i`-th line of the file, converted on its own. */
  lemma PrintedLine(mapping: map<string, string>, lines: seq<string>, i: nat)
    requires i < |lines|
    ensures |MapLines(Converter(mapping), lines)| == |lines|
    ensures MapLines(Converter(mapping), lines)[i] == Transcode(mapping, lines[i])
  {
    MapLinesAt(Converter(mapping), lines, i);
  }

  // ---------------------------------------------------------------------
  // The scanner's invariant

  /**
   * In a partial opener `tipa` is exactly the part of `\ipa{` read, in
   * plain text nothing is pending, and inside the braces `tipa` starts with
   * `\ipa{`, `unicode` with `\UIPA{`, and the pending chunk is a suffix of
   * `tipa` of at most `MaxChunk` characters.
   */
  predicate Inv(s: Scanner) {
    match s.phase
    case Text => s.tipa == "" && s.unicode == "" && s.chunk == ""
    case Backslash => s.tipa == Open[..1] && s.unicode == "" && s.chunk == ""
    case BackslashI => s.tipa == Open[..2] && s.unicode == "" && s.chunk == ""
    case BackslashIp => s.tipa == Open[..3] && s.unicode == "" && s.chunk == ""
    case BackslashIpa => s.tipa == Open[..4] && s.unicode == "" && s.chunk == ""
    case InTipa =>
      |s.tipa| >= 5 && s.tipa[..5] == Open && |s.unicode| >= 6 && s.unicode[..6] == "\\UIPA{" &&
      |s.chunk| <= MaxChunk && |s.chunk| <= |s.tipa| - 5 && s.tipa[|s.tipa| - |s.chunk|..] == s.chunk
  }

  lemma OpenChars()
    ensures Open[..1] == "\\" && Open[..2] == "\\i" && Open[..3] == "\\ip" && Open[..4] == "\\ipa"
    ensures Open == Open[..4] + "{"
    ensures Open[0] == '\\' && Open[1] == 'i' && Open[2] == 'p' && Open[3] == 'a' && Open[4] == '{'
  {
  }

  lemma StepInv(mapping: map<string, string>, s: Scanner, c: char)
    requires Inv(s)
    ensures Inv(Step(mapping, s, c))
  {
    OpenChars();
    if s.phase == InTipa {
      StepInvInTipa(mapping, s, c);
    }
  }

  /** Inside a group: the opener and the `\UIPA{` prefix stay, and the pending chunk stays a short suffix of the raw text. */
  lemma StepInvInTipa(mapping: map<string, string>, s: Scanner, c: char)
    requires Inv(s) && s.phase == InTipa
    ensures Inv(Step(mapping, s, c))
  {
    var tipa := s.tipa + [c];
    var chunk := s.chunk + [c];
    if !(c == '}' && s.chunk == "") && |chunk| <= MaxChunk {
      assert tipa[..5] == s.tipa[..5];
      if chunk in mapping {
        var u := s.unicode + mapping[chunk];
        assert u[..6] == s.unicode[..6];
        assert Step(mapping, s, c) == s.(tipa := tipa, unicode := u, chunk := "");
      } else {
        assert tipa[|tipa| - |chunk|..] == s.tipa[|s.tipa| - |s.chunk|..] + [c];
        assert Step(mapping, s, c) == s.(tipa := tipa, chunk := chunk);
      }
    }
  }

  /** The invariant holds after any input, from the start of a line. */
  lemma {:induction false} ScanInv(mapping: map<string, string>, s: Scanner, cs: string)
    requires Inv(s)
    ensures Inv(Scan(mapping, s, cs))
    decreases |cs|
  {
    if cs != [] {
      ScanInv(mapping, s, cs[..|cs| - 1]);
      StepInv(mapping, Scan(mapping, s, cs[..|cs| - 1]), cs[|cs| - 1]);
    }
  }

  /** The pending buffer never holds more than 25 characters between steps. */
  lemma ChunkBounded(mapping: map<string, string>, cs: string)
    ensures |Scan(mapping, Init, cs).chunk| <= MaxChunk
  {
    ScanInv(mapping, Init, cs);
  }

  // ---------------------------------------------------------------------
  // What the scanner does

  /** Text without a backslash passes through unchanged. */
  lemma {:induction false} PlainTextPasses(mapping: map<string, string>, o: string, cs: string)
    requires '\\' !in cs
    ensures Scan(mapping, Idle(o), cs) == Idle(o + cs)
    decreases |cs|
  {
    if cs != [] {
      var front := cs[..|cs| - 1];
      assert forall k :: 0 <= k < |front| ==> front[k] in cs;
      PlainTextPasses(mapping, o, front);
      assert cs[|cs| - 1] in cs;
      assert o + front + [cs[|cs| - 1]] == o + cs;
    } else {
      assert o + cs == o;
    }
  }

  /** Text without a backslash prints no message. */
  lemma {:induction false} PlainTextQuiet(mapping: map<string, string>, o: string, cs: string)
    requires '\\' !in cs
    ensures Diagnostics(mapping, Idle(o), cs) == []
    decreases |cs|
  {
    if cs != [] {
      var front := cs[..|cs| - 1];
      assert forall k :: 0 <= k < |front| ==> front[k] in cs;
      PlainTextQuiet(mapping, o, front);
      PlainTextPasses(mapping, o, front);
    }
  }

  /** A line without a backslash is printed as it is, once stripped, and nothing else is printed for it. */
  lemma PlainLine(mapping: map<string, string>, line: string)
    requires '\\' !in line
    ensures Transcode(mapping, line) == Strip(line)
    ensures LinePrintout(mapping, line) == [Strip(line)]
  {
    StripIsSlice(line);
    PlainTextPasses(mapping, "", Strip(line));
    PlainTextQuiet(mapping, "", Strip(line));
    assert "" + Strip(line) == Strip(line);
  }

  /** The phase after reading the first `k` characters of `\ipa{`. */
  function PhaseAfter(k: nat): Phase
    requires 1 <= k <= 5
  {
    if k == 1 then Backslash else if k == 2 then BackslashI else if k == 3 then BackslashIp
    else if k == 4 then BackslashIpa else InTipa
  }

  /** The step taken after any input whose scan is known. */
  lemma ScanThen(mapping: map<string, string>, a: Scanner, cs: string, t: Scanner, c: char)
    requires Scan(mapping, a, cs) == t
    ensures Scan(mapping, a, cs + [c]) == Step(mapping, t, c)
  {
    ScanSnoc(mapping, a, cs, c);
  }

  /** Reading a prefix of `\ipa{` in plain text moves to the matching phase and buffers it. */
  lemma OpenerPrefix(mapping: map<string, string>, o: string, k: nat)
    requires 1 <= k <= 4
    ensures Scan(mapping, Idle(o), Open[..k]) == Scanner(PhaseAfter(k), Open[..k], "", "", o)
  {
    OpenChars();
    OpenerSteps(mapping, o);
    if k == 1 {
      assert Open[..k] == "\\";
    } else if k == 2 {
      assert Open[..k] == "\\i";
    } else if k == 3 {
      assert Open[..k] == "\\ip";
    } else {
      assert Open[..k] == "\\ipa";
    }
  }

  /** The four steps through `\`, `i`, `p`, `a`. */
  lemma OpenerSteps(mapping: map<string, string>, o: string)
    ensures Scan(mapping, Idle(o), "\\") == Scanner(Backslash, "\\", "", "", o)
    ensures Scan(mapping, Idle(o), "\\i") == Scanner(BackslashI, "\\i", "", "", o)
    ensures Scan(mapping, Idle(o), "\\ip") == Scanner(BackslashIp, "\\ip", "", "", o)
    ensures Scan(mapping, Idle(o), "\\ipa") == Scanner(BackslashIpa, "\\ipa", "", "", o)
  {
    ScanThen(mapping, Idle(o), "", Idle(o), '\\');
    assert "" + ['\\'] == "\\";
    ScanThen(mapping, Idle(o), "\\", Scanner(Backslash, "\\", "", "", o), 'i');
    assert "\\" + ['i'] == "\\i";
    ScanThen(mapping, Idle(o), "\\i", Scanner(BackslashI, "\\i", "", "", o), 'p');
    assert "\\i" + ['p'] == "\\ip";
    ScanThen(mapping, Idle(o), "\\ip", Scanner(BackslashIp, "\\ip", "", "", o), 'a');
    assert "\\ip" + ['a'] == "\\ipa";
  }

  /** Reading all of `\ipa{` opens a group: nothing written yet, `\UIPA{` started. */
  lemma Opener(mapping: map<string, string>, o: string)
    ensures Scan(mapping, Idle(o), Open) == Scanner(InTipa, Open, "\\UIPA{", "", o)
  {
    OpenerPrefix(mapping, o, 4);
    assert Open[..5][..4] == Open[..4];
    assert Open[..5] == Open;
    OpenChars();
  }

  /**
   * A backslash not followed by the rest of `ipa{`: the consumed prefix and
   * the first character that breaks it are written verbatim, and the
   * scanner is back in plain text, so that character is not scanned again
   * even when it is itself a backslash.
   */
  lemma Mismatched(mapping: map<string, string>, o: string, k: nat, c: char)
    requires 1 <= k <= 4 && c != Open[k]
    ensures Scan(mapping, Idle(o), Open[..k] + [c]) == Idle(o + Open[..k] + [c])
  {
    OpenerPrefix(mapping, o, k);
    assert (Open[..k] + [c])[..k] == Open[..k];
    OpenChars();
  }

  /** A chunk the scanner translates in one go: a key none of whose proper prefixes is a key. */
  predicate ShortestKey(mapping: map<string, string>, w: string) {
    0 < |w| <= MaxChunk + 1 && w in mapping && w[0] != '}' &&
    forall j :: 0 < j < |w| ==> w[..j] !in mapping
  }

  lemma {:induction false} ChunkPrefix(mapping: map<string, string>, s: Scanner, w: string, j: nat)
    requires s.phase == InTipa && s.chunk == "" && ShortestKey(mapping, w) && 0 < j < |w|
    ensures Scan(mapping, s, w[..j]) == s.(tipa := s.tipa + w[..j], chunk := w[..j])
  {
    assert w[..j - 1] + [w[j - 1]] == w[..j];
    assert w[..j] !in mapping;
    if j > 1 {
      ChunkPrefix(mapping, s, w, j - 1);
      PendingAfter(mapping, s, w[..j - 1], s.(tipa := s.tipa + w[..j - 1], chunk := w[..j - 1]), w[j - 1]);
      assert s.tipa + w[..j - 1] + [w[j - 1]] == s.tipa + w[..j];
    } else {
      assert w[..0] == "";
      PendingAfter(mapping, s, "", s, w[0]);
    }
  }

  /** A character that neither closes the group nor completes a key is buffered. */
  lemma PendingAfter(mapping: map<string, string>, a: Scanner, cs: string, t: Scanner, c: char)
    requires Scan(mapping, a, cs) == t && t.phase == InTipa && !(c == '}' && t.chunk == "")
    requires t.chunk + [c] !in mapping && |t.chunk| < MaxChunk
    ensures Scan(mapping, a, cs + [c]) == t.(tipa := t.tipa + [c], chunk := t.chunk + [c])
  {
    ScanSnoc(mapping, a, cs, c);
  }

  /** Inside the braces, a shortest key is translated and leaves nothing pending. */
  lemma ChunkTranslated(mapping: map<string, string>, s: Scanner, w: string)
    requires s.phase == InTipa && s.chunk == "" && ShortestKey(mapping, w)
    ensures Scan(mapping, s, w) == s.(tipa := s.tipa + w, unicode := s.unicode + mapping[w])
  {
    var n := |w| - 1;
    if n == 0 {
      ScanSnoc(mapping, s, "", w[0]);
      assert w == "" + [w[0]] == [w[0]];
    } else {
      ChunkPrefix(mapping, s, w, n);
      ScanSnoc(mapping, s, w[..n], w[n]);
      assert w[..n] + [w[n]] == w;
      assert s.tipa + w[..n] + [w[n]] == s.tipa + w;
    }
  }

  function Concat(ws: seq<string>): string
    decreases |ws|
  {
    if ws == [] then "" else Concat(ws[..|ws| - 1]) + ws[|ws| - 1]
  }

  /** The translations of the chunks `ws`, concatenated. */
  function Translation(mapping: map<string, string>, ws: seq<string>): string
    requires forall i :: 0 <= i < |ws| ==> ws[i] in mapping
    decreases |ws|
  {
    if ws == [] then "" else Translation(mapping, ws[..|ws| - 1]) + mapping[ws[|ws| - 1]]
  }

  predicate AllShortestKeys(mapping: map<string, string>, ws: seq<string>) {
    forall i :: 0 <= i < |ws| ==> ShortestKey(mapping, ws[i])
  }

  lemma ChunksSnoc(mapping: map<string, string>, ws: seq<string>)
    requires ws != [] && AllShortestKeys(mapping, ws)
    ensures AllShortestKeys(mapping, ws[..|ws| - 1])
    ensures Concat(ws) == Concat(ws[..|ws| - 1]) + ws[|ws| - 1]
    ensures Translation(mapping, ws) == Translation(mapping, ws[..|ws| - 1]) + mapping[ws[|ws| - 1]]
  {
    var front := ws[..|ws| - 1];
    assert forall i :: 0 <= i < |front| ==> front[i] == ws[i];
  }

  lemma {:induction false} ChunksTranslated(mapping: map<string, string>, s: Scanner, ws: seq<string>)
    requires s.phase == InTipa && s.chunk == "" && AllShortestKeys(mapping, ws)
    ensures Scan(mapping, s, Concat(ws)) ==
              s.(tipa := s.tipa + Concat(ws), unicode := s.unicode + Translation(mapping, ws))
    decreases |ws|
  {
    if ws == [] {
      assert s.tipa + "" == s.tipa && s.unicode + "" == s.unicode;
    } else {
      var front := ws[..|ws| - 1];
      var w := ws[|ws| - 1];
      ChunksSnoc(mapping, ws);
      var t := s.(tipa := s.tipa + Concat(front), unicode := s.unicode + Translation(mapping, front));
      ChunksTranslated(mapping, s, front);
      KeyAfter(mapping, s, Concat(front), t, w);
      assert s.tipa + Concat(front) + w == s.tipa + Concat(ws);
      assert s.unicode + Translation(mapping, front) + mapping[w] == s.unicode + Translation(mapping, ws);
    }
  }

  /** After any input that leaves nothing pending in a group, a shortest key is translated. */
  lemma KeyAfter(mapping: map<string, string>, a: Scanner, cs: string, t: Scanner, w: string)
    requires Scan(mapping, a, cs) == t && t.phase == InTipa && t.chunk == "" && ShortestKey(mapping, w)
    ensures Scan(mapping, a, cs + w) == t.(tipa := t.tipa + w, unicode := t.unicode + mapping[w])
  {
    ScanAppend(mapping, a, cs, w);
    ChunkTranslated(mapping, t, w);
  }

  /** `\ipa{` and shortest-key chunks, then `}`: written as `\UIPA{`, the translations, `}`. */
  lemma IpaGroup(mapping: map<string, string>, o: string, ws: seq<string>)
    requires AllShortestKeys(mapping, ws)
    ensures Scan(mapping, Idle(o), Open + Concat(ws) + "}") ==
              Idle(o + "\\UIPA{" + Translation(mapping, ws) + "}")
  {
    OpenChunks(mapping, o, ws);
    CloseAfter(mapping, Idle(o), Open + Concat(ws),
               Scanner(InTipa, Open + Concat(ws), "\\UIPA{" + Translation(mapping, ws), "", o));
  }

  /** `\ipa{` and shortest-key chunks: inside the group, the translations collected, nothing written yet. */
  lemma OpenChunks(mapping: map<string, string>, o: string, ws: seq<string>)
    requires AllShortestKeys(mapping, ws)
    ensures Scan(mapping, Idle(o), Open + Concat(ws)) ==
              Scanner(InTipa, Open + Concat(ws), "\\UIPA{" + Translation(mapping, ws), "", o)
  {
    var s := Scanner(InTipa, Open, "\\UIPA{", "", o);
    Opener(mapping, o);
    ScanAppend(mapping, Idle(o), Open, Concat(ws));
    ChunksTranslated(mapping, s, ws);
  }

  /** A `}` read with nothing pending closes the group. */
  lemma CloseAfter(mapping: map<string, string>, a: Scanner, cs: string, t: Scanner)
    requires Scan(mapping, a, cs) == t && t.phase == InTipa && t.chunk == ""
    ensures Scan(mapping, a, cs + "}") == Idle(t.out + t.unicode + "}")
  {
    ScanSnoc(mapping, a, cs, '}');
    assert cs + "}" == cs + ['}'];
  }

  /** A `}` closes the group exactly when nothing is pending. */
  lemma BraceCloses(mapping: map<string, string>, s: Scanner)
    requires s.phase == InTipa
    ensures s.chunk == "" ==> Step(mapping, s, '}') == Idle(s.out + s.unicode + "}")
    ensures s.chunk != "" && |s.chunk| < MaxChunk ==>
              Step(mapping, s, '}').phase == InTipa && Step(mapping, s, '}').out == s.out
    ensures s.chunk != "" && s.chunk + "}" !in mapping && |s.chunk| < MaxChunk ==>
              Step(mapping, s, '}').chunk == s.chunk + "}"
  {
  }

  /** A character that completes a key flushes the buffer at once: the shortest key wins. */
  lemma KeyFlushed(mapping: map<string, string>, s: Scanner, c: char)
    requires s.phase == InTipa && s.chunk + [c] in mapping && !(c == '}' && s.chunk == "")
    ensures var t := Step(mapping, s, c);
            t.phase == InTipa && t.chunk == "" && t.unicode == s.unicode + mapping[s.chunk + [c]] &&
            t.tipa == s.tipa + [c] && t.out == s.out
  {
  }

  /**
   * When the buffer would pass 25 characters without forming a key, the
   * raw text consumed since `\ipa{` is written verbatim, the partial
   * translation is dropped, and the scanner is back in plain text.
   */
  lemma Overflow(mapping: map<string, string>, s: Scanner, c: char)
    requires s.phase == InTipa && |s.chunk| == MaxChunk && s.chunk + [c] !in mapping
    ensures Step(mapping, s, c) == Idle(s.out + s.tipa + [c])
    ensures Diagnostic(mapping, s, c) == [ErrorLine(s.chunk + [c])]
  {
  }

  /** Whatever is read, the output only grows. */
  lemma {:induction false} OutputGrows(mapping: map<string, string>, s: Scanner, cs: string)
    ensures s.out <= Scan(mapping, s, cs).out
    decreases |cs|
  {
    if cs != [] {
      OutputGrows(mapping, s, cs[..|cs| - 1]);
    }
  }

  /** An opener left unfinished at the end of a line is missing from the printed line. */
  lemma UnfinishedOpenerDropped(mapping: map<string, string>, o: string, k: nat)
    requires 1 <= k <= 5
    ensures Scan(mapping, Idle(o), Open[..k]).out == o
    ensures Scan(mapping, Idle(o), Open[..k]).phase != Text
  {
    if k <= 4 {
      OpenerPrefix(mapping, o, k);
    } else {
      Opener(mapping, o);
      assert Open[..k] == Open;
    }
  }

  /** A step that does not return to plain text writes nothing. */
  lemma StepSilent(mapping: map<string, string>, s: Scanner, c: char)
    ensures Step(mapping, s, c).phase != Text ==> Step(mapping, s, c).out == s.out
  {
  }

  /** Input during which the scanner never returns to plain text writes nothing. */
  lemma {:induction false} ScanSilent(mapping: map<string, string>, s: Scanner, cs: string)
    requires forall j :: 0 < j <= |cs| ==> Scan(mapping, s, cs[..j]).phase != Text
    ensures Scan(mapping, s, cs).out == s.out
    decreases |cs|
  {
    if cs != [] {
      var front := cs[..|cs| - 1];
      forall j | 0 < j <= |front| ensures Scan(mapping, s, front[..j]).phase != Text {
        assert front[..j] == cs[..j];
      }
      ScanSilent(mapping, s, front);
      assert cs[..|cs|] == cs;
      StepSilent(mapping, Scan(mapping, s, front), cs[|cs| - 1]);
    }
  }

  /** The last point of a scan at which the scanner was in plain text. */
  lemma {:induction false} LastText(mapping: map<string, string>, s: Scanner, cs: string) returns (k: nat)
    requires s.phase == Text
    ensures k <= |cs| && Scan(mapping, s, cs[..k]).phase == Text
    ensures forall j :: k < j <= |cs| ==> Scan(mapping, s, cs[..j]).phase != Text
    decreases |cs|
  {
    if cs == [] {
      k := 0;
      assert cs[..0] == cs;
    } else if Scan(mapping, s, cs).phase == Text {
      k := |cs|;
      assert cs[..k] == cs;
    } else {
      var front := cs[..|cs| - 1];
      k := LastText(mapping, s, front);
      assert cs[..k] == front[..k];
      forall j | k < j <= |cs| ensures Scan(mapping, s, cs[..j]).phase != Text {
        if j < |cs| {
          assert cs[..j] == front[..j];
        } else {
          assert cs[..j] == cs;
        }
      }
    }
  }

  /**
   * Whatever state a line ends in, the printed line is what was written up
   * to the last return to plain text: everything read after it, opener,
   * raw text and translation alike, is missing.
   */
  lemma PendingDropped(mapping: map<string, string>, cs: string) returns (k: nat)
    ensures k <= |cs| && Scan(mapping, Init, cs[..k]).phase == Text
    ensures Scan(mapping, Init, cs).out == Scan(mapping, Init, cs[..k]).out
    ensures Scan(mapping, Init, cs).phase != Text ==> k < |cs|
  {
    k := LastText(mapping, Init, cs);
    var t := Scan(mapping, Init, cs[..k]);
    var rest := cs[k..];
    assert cs[..k] + rest == cs;
    ScanAppend(mapping, Init, cs[..k], rest);
    forall j | 0 < j <= |rest| ensures Scan(mapping, t, rest[..j]).phase != Text {
      assert cs[..k] + rest[..j] == cs[..k + j];
      ScanAppend(mapping, Init, cs[..k], rest[..j]);
    }
    ScanSilent(mapping, t, rest);
    if k == |cs| {
      assert cs[..k] == cs;
    }
  }

  /** A group that is still open at the end of a line is missing from the printed line, translation and all. */
  lemma UnclosedGroupDropped(mapping: map<string, string>, o: string, cs: string)
    requires forall j :: 0 < j <= |cs| ==> Scan(mapping, Idle(o), Open + cs[..j]).phase == InTipa
    ensures Scan(mapping, Idle(o), Open + cs).out == o
  {
    var t := Scan(mapping, Idle(o), Open);
    Opener(mapping, o);
    ScanAppend(mapping, Idle(o), Open, cs);
    forall j | 0 < j <= |cs| ensures Scan(mapping, t, cs[..j]).phase != Text {
      ScanAppend(mapping, Idle(o), Open, cs[..j]);
    }
    ScanSilent(mapping, t, cs);
  }

  /** In particular a group of shortest keys left open: it stays open, and it is missing from the printed line. */
  lemma UnclosedKeysDropped(mapping: map<string, string>, o: string, ws: seq<string>)
    requires AllShortestKeys(mapping, ws)
    ensures Scan(mapping, Idle(o), Open + Concat(ws)).out == o
    ensures Scan(mapping, Idle(o), Open + Concat(ws)).phase == InTipa
  {
    OpenChunks(mapping, o, ws);
  }
}
