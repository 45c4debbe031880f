/** The tool's main loop: the input read line by line, cut into chunks (at blank
    lines, or one per line), each chunk located by the matcher and every group of
    analyses printed. The matcher is a parameter of the model. */
module Driver {

  import opened Text
  import opened Locations
  import opened Output
  import opened Options
  import opened Printers

  /** The matcher: PmatchContainer::locate on a chunk with the time cutoff. */
  type Locator = (string, real) -> LocationVectorVector

  /** The chunk less one final newline, if it has one. */
  function StripNewline(s: string): (r: string)
    ensures r <= s && |s| - 1 <= |r|
    ensures r == s <==> s == [] || s[|s| - 1] != '\n'
    ensures r != s ==> r + "\n" == s
  {
    if |s| > 0 && s[|s| - 1] == '\n' then s[..|s| - 1] else s
  }

  /** What one group prints: a nonmatching span only with print-all, any other group
      in the chosen format. */
  function OneGroup(c: Config, g: LocationVector): Printed
  {
    if IsNonmatching(g) then Printed(if c.printAll then NonmatchingText(c.format, g[0].input) else [], Done)
    else GroupText(c, g)
  }

  /** The first `n` groups of a chunk, in order, up to the first that halts. */
  function GroupsText(c: Config, groups: LocationVectorVector, n: nat): Printed
    requires n <= |groups|
  {
    if n == 0 then Printed([], Done)
    else
      var p := GroupsText(c, groups, n - 1);
      if p.halt != Done then p
      else var q := OneGroup(c, groups[n - 1]); Printed(p.text + q.text, q.halt)
  }

  /** match_and_print on a chunk whose located groups are `groups`: the no-output
      block for a chunk without groups under print-all, the groups, and for finnpos a
      blank line after the chunk. */
  function ChunkText(c: Config, input: string, groups: LocationVectorVector): Printed
  {
    Framed(c, input, |groups| == 0, GroupsText(c, groups, |groups|))
  }

  /** The output `body` of a chunk's groups, preceded by the no-output block when the
      matcher found nothing and print-all is on, and followed for finnpos by a blank
      line unless a group halted. */
  function Framed(c: Config, input: string, nothing: bool, body: Printed): Printed
  {
    var pre := if nothing && c.printAll then NoOutputText(c.format, StripNewline(input)) else [];
    Printed(pre + body.text + (if body.halt == Done && c.format == Finnpos then "\n" else []), body.halt)
  }

  /** The chunk as the matcher sees it, located. */
  function Located(c: Config, locate: Locator, input: string): LocationVectorVector
  {
    locate(StripNewline(input), c.timeCutoff)
  }

  /** Once a group halts, the later groups print nothing. */
  lemma {:induction false} HaltIsFinal(c: Config, groups: LocationVectorVector, k: nat, n: nat)
    requires k <= n <= |groups| && GroupsText(c, groups, k).halt != Done
    decreases n
    ensures GroupsText(c, groups, n) == GroupsText(c, groups, k)
  {
    if k < n {
      HaltIsFinal(c, groups, k, n - 1);
    }
  }

  /** Chunks whose groups print the same up to some point print the same one group
      further when they have the same group there. */
  lemma GroupsCongruent(c: Config, groups: LocationVectorVector, n: nat, h: LocationVectorVector, m: nat)
    requires 0 < n <= |groups| && 0 < m <= |h| && groups[n - 1] == h[m - 1]
    requires GroupsText(c, groups, n - 1) == GroupsText(c, h, m - 1)
    ensures GroupsText(c, groups, n) == GroupsText(c, h, m)
  {
  }

  /** Before a removed group the output agrees; `h` is the chunk without the group at
      `k`. */
  lemma {:induction false} GroupsBefore(c: Config, groups: LocationVectorVector, h: LocationVectorVector,
                                        k: nat, n: nat)
    requires k < |groups| && |h| == |groups| - 1 && n <= k
    requires forall i :: 0 <= i < k ==> h[i] == groups[i]
    ensures GroupsText(c, groups, n) == GroupsText(c, h, n)
  {
    if n > 0 {
      GroupsBefore(c, groups, h, k, n - 1);
      GroupsCongruent(c, groups, n, h, n);
    }
  }

  /** Past a removed nonmatching group the output agrees, shifted by one. */
  lemma {:induction false} GroupsAfter(c: Config, groups: LocationVectorVector, h: LocationVectorVector,
                                       k: nat, n: nat)
    requires k < n <= |groups| && |h| == |groups| - 1
    requires IsNonmatching(groups[k]) && !c.printAll
    requires forall i :: 0 <= i < k ==> h[i] == groups[i]
    requires forall i :: k <= i < |h| ==> h[i] == groups[i + 1]
    decreases n
    ensures GroupsText(c, groups, n) == GroupsText(c, h, n - 1)
  {
    if n - 1 == k {
      GroupsBefore(c, groups, h, k, k);
      NonmatchingSilent(c, groups, k);
    } else {
      GroupsAfter(c, groups, h, k, n - 1);
      GroupsCongruent(c, groups, n, h, n - 1);
    }
  }

  /** Without print-all a nonmatching group adds nothing to the output before it. */
  lemma NonmatchingSilent(c: Config, groups: LocationVectorVector, k: nat)
    requires k < |groups| && IsNonmatching(groups[k]) && !c.printAll
    ensures GroupsText(c, groups, k + 1) == GroupsText(c, groups, k)
  {
    var p := GroupsText(c, groups, k);
    assert p.text + [] == p.text;
  }

  /** Without print-all, the output of a chunk does not depend on its nonmatching spans. */
  lemma NonmatchingSkipped(c: Config, input: string, groups: LocationVectorVector, k: nat)
    requires k < |groups| && IsNonmatching(groups[k]) && !c.printAll
    ensures ChunkText(c, input, groups) == ChunkText(c, input, groups[..k] + groups[k + 1..])
  {
    var h := groups[..k] + groups[k + 1..];
    assert forall i :: 0 <= i < k ==> h[i] == groups[i];
    assert forall i :: k <= i < |h| ==> h[i] == groups[i + 1];
    GroupsAfter(c, groups, h, k, |groups|);
  }

  /** A chunk without groups prints the no-output block under print-all, and otherwise
      nothing (only the finnpos blank line). */
  lemma NothingLocated(c: Config, input: string)
    ensures ChunkText(c, input, []).halt == Done
    ensures ChunkText(c, input, []).text ==
      (if c.printAll then NoOutputText(c.format, StripNewline(input)) else [])
      + (if c.format == Finnpos then "\n" else [])
  {
  }

  /** The body of the group loop: one group, nonmatching or not. */
  method PrintGroup(c: Config, g: LocationVector, os: OutStream) returns (halt: Halt)
    modifies os
    ensures os.text == old(os.text) + OneGroup(c, g).text && halt == OneGroup(c, g).halt
  {
    if |g| == 1 && g[0].output == NonmatchingMarker {
      if c.printAll {
        PrintNonmatchingSequence(c.format, g[0].input, os);
      }
      return Done;
    }
    halt := PrintLocationVector(c, g, os);
  }

  /** match_and_print: strip the final newline, locate, print; an exception from a
      printer ends the chunk (and the run). */
  method MatchAndPrint(c: Config, locate: Locator, inputText: string, os: OutStream) returns (halt: Halt)
    modifies os
    ensures var p := ChunkText(c, inputText, Located(c, locate, inputText));
      os.text == old(os.text) + p.text && halt == p.halt
  {
    var text := inputText;
    if |text| > 0 && text[|text| - 1] == '\n' {
      text := text[..|text| - 1];
    }
    assert text == StripNewline(inputText);
    var locations := locate(text, c.timeCutoff);
    ghost var t0 := os.text;
    ghost var pre := if |locations| == 0 && c.printAll then NoOutputText(c.format, text) else [];
    if |locations| == 0 && c.printAll {
      PrintNoOutput(c.format, text, os);
    } else {
      assert t0 + pre == t0;
    }
    ghost var body := GroupsText(c, locations, |locations|);
    halt := PrintGroups(c, locations, os);
    ghost var post := if halt == Done && c.format == Finnpos then "\n" else [];
    ghost var t1 := os.text;
    if halt == Done && c.format == Finnpos {
      os.Put("\n");
    } else {
      assert t1 + post == t1;
    }
    ChunkTextParts(c, inputText, |locations| == 0, t0, pre, body, post);
  }

  /** The three parts of a chunk's output, put together. */
  lemma ChunkTextParts(c: Config, inputText: string, nothing: bool, t0: string,
                       pre: string, body: Printed, post: string)
    requires pre == if nothing && c.printAll then NoOutputText(c.format, StripNewline(inputText)) else []
    requires post == if body.halt == Done && c.format == Finnpos then "\n" else []
    ensures Framed(c, inputText, nothing, body) == Printed(pre + body.text + post, body.halt)
    ensures t0 + pre + body.text + post == t0 + Framed(c, inputText, nothing, body).text
  {
    AppendAssoc(t0 + pre, body.text, post);
    AppendAssoc(t0, pre, body.text + post);
  }

  /** The group loop of match_and_print. */
  method PrintGroups(c: Config, locations: LocationVectorVector, os: OutStream) returns (halt: Halt)
    modifies os
    ensures var p := GroupsText(c, locations, |locations|);
      os.text == old(os.text) + p.text && halt == p.halt
  {
    halt := Done;
    var i := 0;
    while i < |locations|
      invariant i <= |locations|
      invariant GroupsText(c, locations, i).halt == halt
      invariant os.text == old(os.text) + GroupsText(c, locations, i).text
      invariant halt != Done ==> GroupsText(c, locations, |locations|) == GroupsText(c, locations, i)
    {
      if halt != Done {
        break;
      }
      ghost var before := GroupsText(c, locations, i).text;
      halt := PrintGroup(c, locations[i], os);
      AppendAssoc(old(os.text), before, OneGroup(c, locations[i]).text);
      i := i + 1;
      if halt != Done {
        HaltIsFinal(c, locations, i, |locations|);
      }
    }
  }

  // ---------------------------------------------------------------------------
  // process_input

  /** The number of lines hfst_getline delivers before the end of input (an empty read). */
  function ReadCount(lines: seq<string>): (n: nat)
    ensures n <= |lines|
    ensures forall i :: 0 <= i < n ==> lines[i] != []
    ensures n < |lines| ==> lines[n] == []
  {
    if lines == [] || lines[0] == [] then 0 else 1 + ReadCount(lines[1..])
  }

  /** A line that begins with a newline: a blank line. */
  predicate Blank(line: string)
  {
    |line| > 0 && line[0] == '\n'
  }

  /** Blank-line mode after `n` lines: the chunks already handed to match_and_print and
      the text collected since the last blank line. */
  function BlankState(lines: seq<string>, n: nat): (seq<string>, string)
    requires n <= |lines|
  {
    if n == 0 then ([], [])
    else
      var (chunks, buffer) := BlankState(lines, n - 1);
      if Blank(lines[n - 1]) then (chunks + [buffer], []) else (chunks, buffer + lines[n - 1])
  }

  /** The chunks of the input, in the mode the settings choose. */
  function Chunks(c: Config, lines: seq<string>): seq<string>
  {
    var n := ReadCount(lines);
    if c.blanklineSeparated then
      var (chunks, buffer) := BlankState(lines, n);
      chunks + (if buffer != [] then [buffer] else [])
    else NewlineChunks(c.keepNewlines, lines, n)
  }

  /** Newline mode: each line a chunk, a newline added when newlines are kept. */
  function NewlineChunks(keep: bool, lines: seq<string>, n: nat): (r: seq<string>)
    requires n <= |lines|
    ensures |r| == n
  {
    if n == 0 then [] else NewlineChunks(keep, lines, n - 1) + [lines[n - 1] + (if keep then "\n" else [])]
  }

  /** Newline mode hands over line `i`, with its newline when newlines are kept, as chunk `i`. */
  lemma {:induction false} NewlineChunkAt(keep: bool, lines: seq<string>, n: nat, i: nat)
    requires i < n <= |lines|
    ensures NewlineChunks(keep, lines, n)[i] == lines[i] + (if keep then "\n" else [])
  {
    if i < n - 1 {
      NewlineChunkAt(keep, lines, n - 1, i);
    }
  }

  /** The chunks of the first `i` lines come first among those of the first `n`. */
  lemma {:induction false} NewlineChunksPrefix(keep: bool, lines: seq<string>, i: nat, n: nat)
    requires i <= n <= |lines|
    ensures NewlineChunks(keep, lines, n)[..i] == NewlineChunks(keep, lines, i)
    decreases n
  {
    if i < n {
      NewlineChunksPrefix(keep, lines, i, n - 1);
      assert NewlineChunks(keep, lines, n)[..n - 1] == NewlineChunks(keep, lines, n - 1);
    } else {
      assert NewlineChunks(keep, lines, n)[..n] == NewlineChunks(keep, lines, n);
    }
  }

  /** A printer of chunks: what one chunk prints and whether it halts the run. */
  type ChunkPrinter = string -> Printed

  /** The output of the chunks in order, each printed by `run`, up to the first that halts. */
  function Run(run: ChunkPrinter, chunks: seq<string>): Printed
  {
    if chunks == [] then Printed([], Done)
    else
      var p := Run(run, chunks[..|chunks| - 1]);
      if p.halt != Done then p
      else var q := run(chunks[|chunks| - 1]); Printed(p.text + q.text, q.halt)
  }

  /** match_and_print as a printer of chunks, the settings and the matcher fixed. */
  function Printer(c: Config, locate: Locator): ChunkPrinter
  {
    x => ChunkText(c, x, Located(c, locate, x))
  }

  /** `run` prints every chunk as match_and_print does. The trigger keeps the fact
      asleep until a chunk's own output is in view. */
  ghost predicate Prints(run: ChunkPrinter, c: Config, locate: Locator)
  {
    forall x {:trigger ChunkText(c, x, Located(c, locate, x))} :: run(x) == ChunkText(c, x, Located(c, locate, x))
  }

  /** match_and_print's printer prints as match_and_print does. */
  lemma PrinterPrints(c: Config, locate: Locator)
    ensures Prints(Printer(c, locate), c, locate)
  {
  }

  /** The output of process_input on these chunks. */
  function ProcessText(c: Config, locate: Locator, chunks: seq<string>): Printed
  {
    Run(Printer(c, locate), chunks)
  }

  /** The lines that are not blank, in order. */
  function NonBlank(lines: seq<string>, n: nat): seq<string>
    requires n <= |lines|
  {
    if n == 0 then []
    else NonBlank(lines, n - 1) + (if Blank(lines[n - 1]) then [] else [lines[n - 1]])
  }

  /** The number of blank lines among the first `n`. */
  function BlankCount(lines: seq<string>, n: nat): nat
    requires n <= |lines|
  {
    if n == 0 then 0 else BlankCount(lines, n - 1) + (if Blank(lines[n - 1]) then 1 else 0)
  }

  /** Blank-line mode loses no text but the blank lines, and hands over one chunk per
      blank line. */
  lemma {:induction false} BlankStateKeepsText(lines: seq<string>, n: nat)
    requires n <= |lines|
    ensures Concat(BlankState(lines, n).0) + BlankState(lines, n).1 == Concat(NonBlank(lines, n))
    ensures |BlankState(lines, n).0| == BlankCount(lines, n)
  {
    if n > 0 {
      BlankStateKeepsText(lines, n - 1);
      var chunks, buffer := BlankState(lines, n - 1).0, BlankState(lines, n - 1).1;
      var line := lines[n - 1];
      var nb := NonBlank(lines, n - 1);
      if Blank(line) {
        assert BlankState(lines, n) == (chunks + [buffer], []);
        ConcatLast(chunks, buffer);
        assert NonBlank(lines, n) == nb + [] == nb;
        assert Concat(chunks + [buffer]) + [] == Concat(chunks + [buffer]);
      } else {
        assert BlankState(lines, n) == (chunks, buffer + line);
        assert NonBlank(lines, n) == nb + [line];
        ConcatLast(nb, line);
        AppendAssoc(Concat(chunks), buffer, line);
      }
    }
  }

  /** The offsets of the blank lines among the first `n`, in order. */
  function BlankLines(lines: seq<string>, n: nat): seq<nat>
    requires n <= |lines|
  {
    if n == 0 then [] else BlankLines(lines, n - 1) + (if Blank(lines[n - 1]) then [n - 1] else [])
  }

  /** Where the lines of chunk `k` begin: at the start, or just after blank line `k - 1`. */
  function SegmentStart(b: seq<nat>, k: nat): nat
    requires k <= |b|
  {
    if k == 0 then 0 else b[k - 1] + 1
  }

  /** BlankLines lists exactly the blank lines, in ascending order. */
  lemma {:induction false} BlankLinesExactly(lines: seq<string>, n: nat)
    requires n <= |lines|
    ensures var b := BlankLines(lines, n);
      && (forall k :: 0 <= k < |b| ==> b[k] < n && Blank(lines[b[k]]))
      && (forall k, k' :: 0 <= k < k' < |b| ==> b[k] < b[k'])
      && (forall i :: 0 <= i < n && Blank(lines[i]) ==> i in b)
  {
    if n > 0 {
      BlankLinesExactly(lines, n - 1);
    }
  }

  /** No line between blank line `k - 1` (or the start) and blank line `k` (or the end) is blank. */
  lemma SegmentNonBlank(lines: seq<string>, n: nat, k: nat, i: nat)
    requires n <= |lines| && k <= |BlankLines(lines, n)|
    requires var b := BlankLines(lines, n);
      SegmentStart(b, k) <= i < n && (k < |b| ==> i < b[k])
    ensures !Blank(lines[i])
  {
    var b := BlankLines(lines, n);
    BlankLinesExactly(lines, n);
    forall j | 0 <= j < |b| ensures b[j] != i {
      if j < k {
        assert b[j] <= b[k - 1];
      } else {
        assert k < |b| && b[k] <= b[j];
      }
    }
  }

  /** The chunks `chunks` and the buffer `buffer` cut the first `n` lines at the blank
      lines `b`: chunk `k` is the text of the lines between blank line `k - 1` (or the
      start) and blank line `k`, and the buffer the text of the lines after the last. */
  predicate Segmented(lines: seq<string>, n: nat, b: seq<nat>, chunks: seq<string>, buffer: string)
    requires n <= |lines|
  {
    && |chunks| == |b|
    && (forall k :: 0 <= k < |b| ==>
          SegmentStart(b, k) <= b[k] < n && chunks[k] == Concat(lines[SegmentStart(b, k)..b[k]]))
    && SegmentStart(b, |b|) <= n && buffer == Concat(lines[SegmentStart(b, |b|)..n])
  }

  /** A blank line closes the buffer as the chunk that ends at it. */
  lemma SegmentedBlank(lines: seq<string>, n: nat, b: seq<nat>, chunks: seq<string>, buffer: string)
    requires n < |lines| && Segmented(lines, n, b, chunks, buffer)
    ensures Segmented(lines, n + 1, b + [n], chunks + [buffer], [])
  {
    var b', chunks' := b + [n], chunks + [buffer];
    forall k | 0 <= k < |b'|
      ensures SegmentStart(b', k) <= b'[k] < n + 1
      ensures chunks'[k] == Concat(lines[SegmentStart(b', k)..b'[k]])
    {
      if k < |b| {
        assert b'[k] == b[k] && chunks'[k] == chunks[k] && SegmentStart(b', k) == SegmentStart(b, k);
      } else {
        assert k == |b| && b'[k] == n && chunks'[k] == buffer;
        if k > 0 {
          assert b'[k - 1] == b[k - 1];
        }
      }
    }
    assert SegmentStart(b', |b'|) == n + 1;
    assert lines[n + 1..n + 1] == [];
  }

  /** Any other line extends the buffer. */
  lemma SegmentedLine(lines: seq<string>, n: nat, b: seq<nat>, chunks: seq<string>, buffer: string)
    requires n < |lines| && Segmented(lines, n, b, chunks, buffer)
    ensures Segmented(lines, n + 1, b, chunks, buffer + lines[n])
  {
    ConcatSliceSnoc(lines, SegmentStart(b, |b|), n);
  }

  /** Blank-line mode cuts the lines read at the blank lines. */
  lemma {:induction false} BlankStateSegments(lines: seq<string>, n: nat)
    requires n <= |lines|
    ensures Segmented(lines, n, BlankLines(lines, n), BlankState(lines, n).0, BlankState(lines, n).1)
  {
    if n > 0 {
      var m := n - 1;
      BlankStateSegments(lines, m);
      if Blank(lines[m]) {
        SegmentedBlank(lines, m, BlankLines(lines, m), BlankState(lines, m).0, BlankState(lines, m).1);
        assert BlankLines(lines, n) == BlankLines(lines, m) + [m];
        assert BlankState(lines, n) == (BlankState(lines, m).0 + [BlankState(lines, m).1], []);
      } else {
        SegmentedLine(lines, m, BlankLines(lines, m), BlankState(lines, m).0, BlankState(lines, m).1);
        assert BlankLines(lines, n) == BlankLines(lines, m);
        assert BlankState(lines, n) == (BlankState(lines, m).0, BlankState(lines, m).1 + lines[m]);
      }
    }
  }

  /** When every blank line is a bare newline, the chunks and the buffer joined at
      newlines are the text read: blank-line mode loses and invents nothing. */
  lemma {:induction false} BlankStateJoin(lines: seq<string>, n: nat)
    requires n <= |lines|
    requires forall i :: 0 <= i < n && Blank(lines[i]) ==> lines[i] == "\n"
    ensures Join(BlankState(lines, n).0 + [BlankState(lines, n).1], '\n') == Concat(lines[..n])
  {
    if n > 0 {
      BlankStateJoin(lines, n - 1);
      var (chunks, buffer) := BlankState(lines, n - 1);
      var line := lines[n - 1];
      ConcatSnoc(lines, n - 1);
      if Blank(line) {
        assert BlankState(lines, n).0 + [BlankState(lines, n).1] == (chunks + [buffer]) + [[]];
        JoinSnoc(chunks + [buffer], [], '\n');
      } else {
        assert BlankState(lines, n).0 + [BlankState(lines, n).1] == chunks + [buffer + line];
        JoinLastAppend(chunks, buffer, line, '\n');
      }
    }
  }

  /** The chunks of blank-line mode, line by line: one per blank line, holding the text
      of the lines since the blank line before it, and one more for the text after the
      last blank line when there is any. Together they hold all the text of the
      non-blank lines. */
  lemma BlanklineChunks(c: Config, lines: seq<string>)
    requires c.blanklineSeparated
    ensures var n := ReadCount(lines);
      var b := BlankLines(lines, n);
      var s := SegmentStart(b, |b|);
      && Concat(Chunks(c, lines)) == Concat(NonBlank(lines, n))
      && (forall k :: 0 <= k < |b| ==> SegmentStart(b, k) <= b[k] < n)
      && s <= n
      && |Chunks(c, lines)| == |b| + (if Concat(lines[s..n]) != [] then 1 else 0)
      && (forall k :: 0 <= k < |b| ==> Chunks(c, lines)[k] == Concat(lines[SegmentStart(b, k)..b[k]]))
      && (Concat(lines[s..n]) != [] ==> Chunks(c, lines)[|b|] == Concat(lines[s..n]))
  {
    var n := ReadCount(lines);
    BlankStateKeepsText(lines, n);
    BlankStateSegments(lines, n);
    var (chunks, buffer) := BlankState(lines, n);
    if buffer != [] {
      assert (chunks + [buffer])[..|chunks|] == chunks;
    } else {
      assert chunks + [] == chunks;
    }
  }

  /** Two paragraphs, each closed by a blank line, are two chunks of one line each. */
  lemma BlanklineExample(c: Config)
    requires c.blanklineSeparated
    ensures Chunks(c, ["a\n", "\n", "b\n", "\n"]) == ["a\n", "b\n"]
  {
    var lines := ["a\n", "\n", "b\n", "\n"];
    assert ReadCount(lines) == 4;
    assert Blank(lines[1]) && Blank(lines[3]) && !Blank(lines[0]) && !Blank(lines[2]);
    assert BlankState(lines, 0) == ([], []);
    assert [] + lines[0] == lines[0];
    assert BlankState(lines, 1) == ([], "a\n");
    var none: seq<string> := [];
    assert none + [lines[0]] == ["a\n"];
    assert BlankState(lines, 2) == (["a\n"], []);
    assert [] + lines[2] == lines[2];
    assert BlankState(lines, 3) == (["a\n"], "b\n");
    assert ["a\n"] + [lines[2]] == ["a\n", "b\n"];
    assert BlankState(lines, 4) == (["a\n", "b\n"], []);
  }

  /** Two blank lines in a row hand an empty chunk to match_and_print. */
  lemma BlankAfterBlank(lines: seq<string>, n: nat)
    requires 2 <= n <= |lines| && Blank(lines[n - 2]) && Blank(lines[n - 1])
    ensures var (chunks, _) := BlankState(lines, n); chunks[|chunks| - 1] == []
  {
  }

  /** Newline mode hands the matcher each line as read when newlines are kept, and each
      line less its newline otherwise. */
  lemma MatcherSeesLine(c: Config, lines: seq<string>, i: nat)
    requires !c.blanklineSeparated && i < ReadCount(lines)
    ensures |Chunks(c, lines)| == ReadCount(lines)
    ensures StripNewline(Chunks(c, lines)[i]) == if c.keepNewlines then lines[i] else StripNewline(lines[i])
  {
    NewlineChunkAt(c.keepNewlines, lines, ReadCount(lines), i);
    var x := lines[i] + "\n";
    if c.keepNewlines {
      assert x[..|x| - 1] == lines[i];
    }
  }

  /** Once a chunk halts the run, nothing more is printed. */
  lemma {:induction false} RunHaltIsFinal(run: ChunkPrinter, chunks: seq<string>, more: seq<string>)
    requires Run(run, chunks).halt != Done
    decreases |more|
    ensures Run(run, chunks + more) == Run(run, chunks)
  {
    if more != [] {
      var init := more[..|more| - 1];
      RunHaltIsFinal(run, chunks, init);
      assert (chunks + more)[..|chunks + more| - 1] == chunks + init;
    } else {
      assert chunks + more == chunks;
    }
  }

  /** One more chunk handed over. */
  lemma RunSnoc(run: ChunkPrinter, chunks: seq<string>, x: string)
    requires Run(run, chunks).halt == Done
    ensures Run(run, chunks + [x]) == Printed(Run(run, chunks).text + run(x).text, run(x).halt)
  {
    assert (chunks + [x])[..|chunks|] == chunks;
  }

  /** process_input: the lines hfst_getline delivers, chunked as the settings say, each
      chunk printed by match_and_print; an exception from a printer ends the run. */
  method ProcessInput(c: Config, locate: Locator, lines: seq<string>, os: OutStream) returns (halt: Halt)
    modifies os
    ensures var p := ProcessText(c, locate, Chunks(c, lines));
      os.text == old(os.text) + p.text && halt == p.halt
  {
    PrinterPrints(c, locate);
    if c.blanklineSeparated {
      halt := ProcessBlanklineSeparated(c, locate, Printer(c, locate), lines, os);
    } else {
      halt := ProcessLineByLine(c, locate, Printer(c, locate), lines, os);
    }
  }

  /** Blank-line mode: lines collect until a blank line hands them over. */
  method ProcessBlanklineSeparated(c: Config, locate: Locator, ghost run: ChunkPrinter, lines: seq<string>,
                                   os: OutStream) returns (halt: Halt)
    requires c.blanklineSeparated && Prints(run, c, locate)
    modifies os
    ensures var p := Run(run, Chunks(c, lines));
      os.text == old(os.text) + p.text && halt == p.halt
  {
    var n := ReadCount(lines);
    halt := Done;
    var inputText: string := [];
    var i := 0;
    ghost var chunks: seq<string> := [];
    while i < n
      invariant i <= n && halt == Done
      invariant BlankState(lines, i) == (chunks, inputText)
      invariant Run(run, chunks).halt == Done
      invariant os.text == old(os.text) + Run(run, chunks).text
    {
      var line := lines[i];
      if line[0] == '\n' {
        halt := HandOver(c, locate, run, old(os.text), chunks, inputText, os);
        chunks := chunks + [inputText];
        inputText := [];
        if halt != Done {
          BlankStopHere(c, run, lines, i + 1);
          return;
        }
      } else {
        inputText := inputText + line;
      }
      i := i + 1;
    }
    if inputText != [] {
      halt := HandOver(c, locate, run, old(os.text), chunks, inputText, os);
    } else {
      assert chunks + [] == chunks;
    }
  }

  /** Newline mode: every line a chunk. */
  method ProcessLineByLine(c: Config, locate: Locator, ghost run: ChunkPrinter, lines: seq<string>,
                           os: OutStream) returns (halt: Halt)
    requires Prints(run, c, locate)
    modifies os
    ensures var p := Run(run, NewlineChunks(c.keepNewlines, lines, ReadCount(lines)));
      os.text == old(os.text) + p.text && halt == p.halt
  {
    var n := ReadCount(lines);
    halt := Done;
    var i := 0;
    while i < n && halt == Done
      invariant i <= n
      invariant var p := Run(run, NewlineChunks(c.keepNewlines, lines, i));
        os.text == old(os.text) + p.text && halt == p.halt
      invariant halt != Done ==>
        Run(run, NewlineChunks(c.keepNewlines, lines, n)) == Run(run, NewlineChunks(c.keepNewlines, lines, i))
    {
      ghost var chunks := NewlineChunks(c.keepNewlines, lines, i);
      var inputText := lines[i];
      if c.keepNewlines {
        inputText := inputText + "\n";
      }
      assert inputText == lines[i] + (if c.keepNewlines then "\n" else []);
      assert NewlineChunks(c.keepNewlines, lines, i + 1) == chunks + [inputText];
      halt := HandOver(c, locate, run, old(os.text), chunks, inputText, os);
      i := i + 1;
      if halt != Done {
        NewlineStopHere(c, run, lines, i);
      }
    }
  }

  /** One chunk handed to match_and_print after `chunks`, whose output is already
      written after `t0`. */
  method HandOver(c: Config, locate: Locator, ghost run: ChunkPrinter, ghost t0: string,
                  ghost chunks: seq<string>, inputText: string, os: OutStream) returns (halt: Halt)
    requires Prints(run, c, locate)
    requires Run(run, chunks).halt == Done
    requires os.text == t0 + Run(run, chunks).text
    modifies os
    ensures var p := Run(run, chunks + [inputText]);
      os.text == t0 + p.text && halt == p.halt
  {
    RunSnoc(run, chunks, inputText);
    halt := MatchAndPrint(c, locate, inputText, os);
    AppendAssoc(t0, Run(run, chunks).text, run(inputText).text);
  }

  /** A halt in blank-line mode after `i` lines is the halt of the whole run. */
  lemma BlankStopHere(c: Config, run: ChunkPrinter, lines: seq<string>, i: nat)
    requires c.blanklineSeparated && i <= ReadCount(lines)
    requires Run(run, BlankState(lines, i).0).halt != Done
    ensures Run(run, Chunks(c, lines)) == Run(run, BlankState(lines, i).0)
  {
    var n := ReadCount(lines);
    var more := BlankPrefix(lines, i, n);
    var (chunks, buffer) := BlankState(lines, n);
    var all := chunks + (if buffer != [] then [buffer] else []);
    assert all == BlankState(lines, i).0 + (more + (if buffer != [] then [buffer] else []));
    RunHaltIsFinal(run, BlankState(lines, i).0, more + (if buffer != [] then [buffer] else []));
  }

  /** The chunks of blank-line mode only grow with more lines. */
  lemma {:induction false} BlankPrefix(lines: seq<string>, i: nat, n: nat) returns (more: seq<string>)
    requires i <= n <= |lines|
    decreases n
    ensures BlankState(lines, n).0 == BlankState(lines, i).0 + more
  {
    if i == n {
      more := [];
      assert BlankState(lines, n).0 + [] == BlankState(lines, n).0;
    } else {
      var m := BlankPrefix(lines, i, n - 1);
      var (chunks, buffer) := BlankState(lines, n - 1);
      more := if Blank(lines[n - 1]) then m + [buffer] else m;
    }
  }

  /** A halt in newline mode after `i` lines is the halt of the whole run. */
  lemma NewlineStopHere(c: Config, run: ChunkPrinter, lines: seq<string>, i: nat)
    requires i <= ReadCount(lines)
    requires Run(run, NewlineChunks(c.keepNewlines, lines, i)).halt != Done
    ensures Run(run, NewlineChunks(c.keepNewlines, lines, ReadCount(lines)))
         == Run(run, NewlineChunks(c.keepNewlines, lines, i))
  {
    var n := ReadCount(lines);
    var all := NewlineChunks(c.keepNewlines, lines, n);
    var done := NewlineChunks(c.keepNewlines, lines, i);
    NewlineChunksPrefix(c.keepNewlines, lines, i, n);
    assert all == done + all[i..];
    RunHaltIsFinal(run, done, all[i..]);
  }
}
