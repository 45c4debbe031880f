/** The printers of one group of analyses, of a span the matcher could not analyse,
    and of a chunk that produced nothing, in each of the five output formats. */
module Printers {

  import opened Text
  import opened Locations
  import opened Output
  import opened Options
  import Gtd
  import Finnpos

  /** How printing a group ended: normally, by the std::out_of_range that `at(0)`
      throws on an empty group, or at a location the subreading decomposition does
      not cover (the source may loop forever on it). */
  datatype Halt = Done | OutOfRange | Unmodelled

  /** The text a printer writes and how it ended. */
  datatype Printed = Printed(text: string, halt: Halt)

  /** The weight column, when weights are printed. */
  function Weighted(printWeights: bool, weight: string): string
  {
    if printWeights then "\t" + weight else []
  }

  // ---------------------------------------------------------------------------
  // print_escaping_newlines

  /** Each newline replaced by a backslash and `n`. */
  function Escaped(s: string): string
  {
    if s == [] then []
    else (if s[0] == '\n' then "\\n" else [s[0]]) + Escaped(s[1..])
  }

  /** Escaping leaves no newline, changes nothing in text without one, and lengthens
      the text by one character per newline. */
  lemma {:induction false} EscapedShape(s: string)
    ensures '\n' !in Escaped(s)
    ensures '\n' !in s ==> Escaped(s) == s
    ensures |Escaped(s)| == |s| + Lines(s)
  {
    if s != [] {
      EscapedShape(s[1..]);
      assert s == [s[0]] + s[1..];
    }
  }

  /** Escaping works piece by piece. */
  lemma {:induction false} EscapedAppend(a: string, b: string)
    ensures Escaped(a + b) == Escaped(a) + Escaped(b)
  {
    if a != [] {
      EscapedAppend(a[1..], b);
      TailAppend(a, b);
      var head := if a[0] == '\n' then "\\n" else [a[0]];
      assert Escaped(a + b) == head + (Escaped(a[1..]) + Escaped(b));
      assert Escaped(a) == head + Escaped(a[1..]);
      AppendAssoc(head, Escaped(a[1..]), Escaped(b));
    } else {
      assert a + b == b;
    }
  }

  /** Backslash-`n` read back as a newline; every other character kept. */
  function Unescape(s: string): string
  {
    if s == [] then []
    else if |s| >= 2 && s[0] == '\\' && s[1] == 'n' then "\n" + Unescape(s[2..])
    else [s[0]] + Unescape(s[1..])
  }

  /** Text without backslashes survives escaping and unescaping. */
  lemma {:induction false} UnescapeEscaped(s: string)
    requires '\\' !in s
    ensures Unescape(Escaped(s)) == s
  {
    if s != [] {
      UnescapeEscaped(s[1..]);
      var rest := Escaped(s[1..]);
      if s[0] == '\n' {
        assert Escaped(s) == "\\n" + rest;
        assert Escaped(s)[2..] == rest;
      } else {
        assert Escaped(s) == [s[0]] + rest;
        assert Escaped(s)[1..] == rest;
      }
    }
  }

  /** With backslashes the escaping cannot be undone: a newline and a backslash
      followed by `n` print alike. */
  lemma EscapingAmbiguous()
    ensures Escaped("\n") == Escaped("\\n") && "\n" != "\\n"
  {
    assert Escaped("\\n") == "\\" + Escaped("n");
  }

  /** One round of the search loop: the text up to the next newline, then the escape. */
  lemma EscapedStep(s: string, i: nat, j: nat)
    requires i <= j < |s| && s[j] == '\n'
    requires forall k :: i <= k < j ==> s[k] != '\n'
    ensures Escaped(s[..j + 1]) == Escaped(s[..i]) + s[i..j] + "\\n"
  {
    var a, m := s[..i], s[i..j];
    PrefixSplit(s, i, j);
    assert s[..j + 1] == s[..j] + ['\n'];
    forall k | 0 <= k < |m| ensures m[k] != '\n' {
      assert m[k] == s[i + k];
    }
    EscapedShape(m);
    EscapedAppend(s[..j], ['\n']);
    EscapedAppend(a, m);
    assert Escaped(['\n']) == "\\n";
  }

  /** The tail after the last newline is printed unchanged. */
  lemma EscapedTail(s: string, i: nat)
    requires i <= |s| && '\n' !in s[i..]
    ensures Escaped(s) == Escaped(s[..i]) + s[i..]
  {
    assert s == s[..i] + s[i..];
    EscapedShape(s[i..]);
    EscapedAppend(s[..i], s[i..]);
  }

  /** The output of one round of the search loop, written after what came before. */
  lemma EscapedRound(t: string, s: string, i: nat, j: nat)
    requires i <= j < |s| && s[j] == '\n'
    requires forall k :: i <= k < j ==> s[k] != '\n'
    ensures t + Escaped(s[..i]) + s[i..j] + "\\n" == t + Escaped(s[..j + 1])
  {
    var e, m := Escaped(s[..i]), s[i..j];
    EscapedStep(s, i, j);
    AppendAssoc(t + e, m, "\\n");
    AppendAssoc(t, e, m + "\\n");
    AppendAssoc(e, m, "\\n");
  }

  /** The output once no newline is left, written after what came before. */
  lemma EscapedFinish(t: string, s: string, i: nat)
    requires i <= |s|
    requires forall k :: i <= k < |s| ==> s[k] != '\n'
    ensures t + Escaped(s[..i]) + s[i..] == t + Escaped(s)
  {
    assert forall k :: 0 <= k < |s[i..]| ==> s[i..][k] == s[i + k];
    EscapedTail(s, i);
    AppendAssoc(t, Escaped(s[..i]), s[i..]);
  }

  /** print_escaping_newlines: find each newline from where the last one ended,
      print the text before it and the escape, then the rest. */
  method PrintEscapingNewlines(str: string, os: OutStream)
    modifies os
    ensures os.text == old(os.text) + Escaped(str)
  {
    var i: nat := 0;
    var j := Find(str, '\n', i);
    while j.Some?
      invariant i <= |str| && j == Find(str, '\n', i)
      invariant os.text == old(os.text) + Escaped(str[..i])
      decreases |str| - i
    {
      FindMisses(str, '\n', i);
      EscapedRound(old(os.text), str, i, j.value);
      os.Put(str[i..j.value]);
      os.Put("\\n");
      i := j.value + 1;
      j := Find(str, '\n', i);
    }
    FindMisses(str, '\n', i);
    EscapedFinish(old(os.text), str, i);
    os.Put(str[i..]);
  }

  // ---------------------------------------------------------------------------
  // print_no_output and print_nonmatching_sequence

  /** The Constraint Grammar cohort of a word the tokenizer does not know, without
      its final newline. */
  function UnknownCohort(s: string): string
  {
    "\"<" + s + ">\"\n\t\"" + s + "\" ?"
  }

  /** print_no_output: the chunk as an unknown word in the chosen format (nothing
      for finnpos), then a blank line. */
  function NoOutputText(format: Format, input: string): string
  {
    (match format
     case Tokenize => input
     case Xerox => input + "\t" + input + "+?"
     case Cg => UnknownCohort(input)
     case Gtd => UnknownCohort(input)
     case Finnpos => [])
    + "\n\n"
  }

  /** print_nonmatching_sequence: text the matcher could not analyse, in the chosen
      format, then a newline. */
  function NonmatchingText(format: Format, str: string): string
  {
    (match format
     case Tokenize => str
     case Xerox => str + "\t" + str + "+?"
     case Cg => UnknownCohort(str)
     case Gtd => ":" + Escaped(str)
     case Finnpos => str + "\t_\t_\t_\t_")
    + "\n"
  }

  /** Outside the gtd and finnpos formats, a chunk without output prints as one
      nonmatching sequence followed by a blank line. */
  lemma NoOutputLikeNonmatching(format: Format, s: string)
    requires format == Tokenize || format == Xerox || format == Cg
    ensures NoOutputText(format, s) == NonmatchingText(format, s) + "\n"
  {
  }

  /** In the gtd format a nonmatching sequence is one line whatever newlines it holds:
      a colon, the escaped text, a newline. */
  lemma GtdNonmatchingOneLine(s: string)
    ensures var t := NonmatchingText(Gtd, s);
      Lines(t) == 1 && t[|t| - 1] == '\n' && t[0] == ':'
  {
    var e := Escaped(s);
    EscapedShape(s);
    var t := NonmatchingText(Gtd, s);
    assert t == [':'] + e + ['\n'];
    assert t[..|t| - 1] == [':'] + e;
    LastNewlineOnly(t);
  }

  /** In the finnpos format a nonmatching sequence is a line of five tab-separated
      columns: the text and four blanks. */
  lemma FinnposNonmatchingFields(s: string)
    requires '\t' !in s
    ensures var t := NonmatchingText(Finnpos, s);
      t[|t| - 1] == '\n' && Split(t[..|t| - 1], '\t') == [s, "_", "_", "_", "_"]
  {
    var t := NonmatchingText(Finnpos, s);
    assert t[..|t| - 1] == s + ['\t'] + ("_" + ['\t'] + ("_" + ['\t'] + ("_" + ['\t'] + "_")));
    SplitAtFirst("_", "_", '\t');
    SplitWithout("_", '\t');
    SplitAtFirst("_", "_" + ['\t'] + "_", '\t');
    SplitAtFirst("_", "_" + ['\t'] + ("_" + ['\t'] + "_"), '\t');
    SplitAtFirst(s, "_" + ['\t'] + ("_" + ['\t'] + ("_" + ['\t'] + "_")), '\t');
  }

  /** In the gtd format a chunk without output prints as the cohort of a lone location
      without analysis, followed by a blank line. */
  lemma GtdNoOutputLikeLoneLocation(l: Location)
    requires l.output == []
    ensures Gtd.GroupPrintable([l])
    ensures NoOutputText(Gtd, l.input) == Gtd.GtdGroup(false, [l]) + "\n"
  {
  }

  method PrintNoOutput(format: Format, input: string, os: OutStream)
    modifies os
    ensures os.text == old(os.text) + NoOutputText(format, input)
  {
    match format {
      case Tokenize => os.Put(input);
      case Xerox => os.Put(input + "\t" + input + "+?");
      case Cg => os.Put(UnknownCohort(input));
      case Gtd => os.Put(UnknownCohort(input));
      case Finnpos =>
    }
    os.Put("\n\n");
  }

  method PrintNonmatchingSequence(format: Format, str: string, os: OutStream)
    modifies os
    ensures os.text == old(os.text) + NonmatchingText(format, str)
  {
    match format {
      case Tokenize => os.Put(str);
      case Xerox => os.Put(str + "\t" + str + "+?");
      case Cg => os.Put(UnknownCohort(str));
      case Gtd =>
        os.Put(":");
        PrintEscapingNewlines(str, os);
      case Finnpos => os.Put(str + "\t_\t_\t_\t_");
    }
    os.Put("\n");
  }

  // ---------------------------------------------------------------------------
  // print_location_vector

  /** The tokenize format: the input of the first location, its optional weight, and
      a blank line. */
  function TokenizeText(printWeights: bool, g: LocationVector): string
    requires |g| >= 1
  {
    g[0].input + Weighted(printWeights, g[0].weight) + "\n\n"
  }

  /** The analysis as the cg format shows it: when it begins with the input, that
      input in double quotes and the rest after it. */
  function CgAnalysis(l: Location): string
  {
    if l.input <= l.output then "\"" + l.input + "\"" + l.output[|l.input|..] else l.output
  }

  /** The cg format only adds the two quotes: taking them out gives the analysis back. */
  lemma CgQuotesOnlyAdded(l: Location)
    ensures var a := CgAnalysis(l);
      var n := |l.input|;
      if l.input <= l.output then
        |a| == |l.output| + 2 && a[0] == '"' && a[n + 1] == '"' && a[1..n + 1] + a[n + 2..] == l.output
      else a == l.output
  {
    if l.input <= l.output {
      var a := CgAnalysis(l);
      var n := |l.input|;
      assert a[1..n + 1] == l.input;
      assert a[n + 2..] == l.output[n..];
      assert l.output == l.output[..n] + l.output[n..];
    }
  }

  /** One reading line of the cg format. */
  function CgLine(printWeights: bool, l: Location): string
  {
    "\t" + CgAnalysis(l) + Weighted(printWeights, l.weight) + "\n"
  }

  /** The reading lines of the first `n` locations. */
  function CgLines(printWeights: bool, g: LocationVector, n: nat): string
    requires n <= |g|
  {
    if n == 0 then [] else CgLines(printWeights, g, n - 1) + CgLine(printWeights, g[n - 1])
  }

  /** The cg format: the cohort header with the first input, a reading line per
      location, a blank line. */
  function CgText(printWeights: bool, g: LocationVector): string
    requires |g| >= 1
  {
    "\"<" + g[0].input + ">\"\n" + CgLines(printWeights, g, |g|) + "\n"
  }

  /** With no newline in the analyses and weights, the cg cohort has a line per
      location besides its header and the blank line. */
  lemma {:induction false} CgLineCount(printWeights: bool, g: LocationVector, n: nat)
    requires n <= |g|
    requires forall i :: 0 <= i < |g| ==> '\n' !in g[i].output && '\n' !in g[i].weight
    ensures Lines(CgLines(printWeights, g, n)) == n
  {
    if n > 0 {
      CgLineCount(printWeights, g, n - 1);
      CgLineOneNewline(printWeights, g[n - 1]);
      LinesSnoc(CgLines(printWeights, g, n - 1), CgLine(printWeights, g[n - 1]), n - 1);
    }
  }

  /** A cg reading line ends in the only newline it has. */
  lemma CgLineOneNewline(printWeights: bool, l: Location)
    requires '\n' !in l.output && '\n' !in l.weight
    ensures Lines(CgLine(printWeights, l)) == 1
  {
    var a, w := CgAnalysis(l), Weighted(printWeights, l.weight);
    var k := |l.input|;
    if l.input <= l.output {
      forall i | 0 <= i < |a| ensures a[i] != '\n' {
        if 0 < i <= k {
          assert a[i] == l.output[i - 1];
        } else if i > k + 1 {
          assert a[i] == l.output[i - 2];
        }
      }
    }
    var s := CgLine(printWeights, l);
    assert s[..|s| - 1] == "\t" + a + w;
    LastNewlineOnly(s);
  }

  /** One line of the xerox format: input, analysis, optional weight, tab-separated. */
  function XeroxLine(printWeights: bool, l: Location): string
  {
    l.input + "\t" + l.output + Weighted(printWeights, l.weight) + "\n"
  }

  function XeroxLines(printWeights: bool, g: LocationVector, n: nat): string
    requires n <= |g|
  {
    if n == 0 then [] else XeroxLines(printWeights, g, n - 1) + XeroxLine(printWeights, g[n - 1])
  }

  /** The xerox format: a line per location, then a blank line (also for an empty group). */
  function XeroxText(printWeights: bool, g: LocationVector): string
  {
    XeroxLines(printWeights, g, |g|) + "\n"
  }

  /** A xerox line splits at its tabs into the input, the analysis and, when printed,
      the weight. */
  lemma XeroxFields(printWeights: bool, l: Location)
    requires '\t' !in l.input && '\t' !in l.output && '\t' !in l.weight
    ensures var t := XeroxLine(printWeights, l);
      t[|t| - 1] == '\n'
      && Split(t[..|t| - 1], '\t') == [l.input, l.output] + (if printWeights then [l.weight] else [])
  {
    var t := XeroxLine(printWeights, l);
    if printWeights {
      assert t[..|t| - 1] == l.input + ['\t'] + (l.output + ['\t'] + l.weight);
      SplitWithout(l.weight, '\t');
      SplitAtFirst(l.output, l.weight, '\t');
      SplitAtFirst(l.input, l.output + ['\t'] + l.weight, '\t');
    } else {
      assert t[..|t| - 1] == l.input + ['\t'] + l.output;
      SplitWithout(l.output, '\t');
      SplitAtFirst(l.input, l.output, '\t');
    }
  }

  /** print_location_vector: the chosen format's rendering of a group. The tokenize,
      cg and gtd formats print nothing for an empty group; finnpos reads its first
      location regardless. */
  function GroupText(c: Config, g: LocationVector): Printed
  {
    match c.format
    case Tokenize => Printed(if |g| != 0 then TokenizeText(c.printWeights, g) else [], Done)
    case Cg => Printed(if |g| != 0 then CgText(c.printWeights, g) else [], Done)
    case Gtd =>
      if |g| == 0 then Printed([], Done)
      else if Gtd.GroupPrintable(g) then Printed(Gtd.GtdGroup(c.printWeights, g), Done)
      else Printed([], Unmodelled)
    case Xerox => Printed(XeroxText(c.printWeights, g), Done)
    case Finnpos =>
      if |g| == 0 then Printed([], OutOfRange) else Printed(Finnpos.FinnposLine(g), Done)
  }

  /** Only finnpos can fail on an empty group, and a modelled group prints in full. */
  lemma GroupHalts(c: Config, g: LocationVector)
    ensures GroupText(c, g).halt == OutOfRange <==> c.format == Finnpos && g == []
    ensures GroupText(c, g).halt == Unmodelled <==> c.format == Gtd && g != [] && !Gtd.GroupPrintable(g)
    ensures GroupText(c, g).halt != Done ==> GroupText(c, g).text == []
  {
  }

  method PrintCg(printWeights: bool, g: LocationVector, os: OutStream)
    requires |g| >= 1
    modifies os
    ensures os.text == old(os.text) + CgText(printWeights, g)
  {
    ghost var t0, hd, lines := os.text, "\"<" + g[0].input + ">\"\n", CgLines(printWeights, g, |g|);
    os.Put("\"<" + g[0].input + ">\"\n");
    PrintCgLines(printWeights, g, os);
    os.Put("\n");
    AppendAssoc(t0 + hd, lines, "\n");
    AppendAssoc(t0, hd, lines + "\n");
    assert CgText(printWeights, g) == hd + (lines + "\n");
  }

  /** The reading loop of the cg format. */
  method PrintCgLines(printWeights: bool, g: LocationVector, os: OutStream)
    modifies os
    ensures os.text == old(os.text) + CgLines(printWeights, g, |g|)
  {
    for i := 0 to |g|
      invariant os.text == old(os.text) + CgLines(printWeights, g, i)
    {
      ghost var before := CgLines(printWeights, g, i);
      PrintCgLine(printWeights, g[i], os);
      AppendAssoc(old(os.text), before, CgLine(printWeights, g[i]));
    }
  }

  /** The body of the cg loop: one reading line. */
  method PrintCgLine(printWeights: bool, l: Location, os: OutStream)
    modifies os
    ensures os.text == old(os.text) + CgLine(printWeights, l)
  {
    var analysis := if l.input <= l.output then "\"" + l.input + "\"" + l.output[|l.input|..]
                    else l.output;
    ghost var t0, w := os.text, Weighted(printWeights, l.weight);
    os.Put("\t" + analysis);
    if printWeights {
      os.Put("\t" + l.weight);
    }
    assert os.text == t0 + ("\t" + analysis) + w;
    os.Put("\n");
    AppendAssoc(t0, "\t" + analysis, w);
    AppendAssoc(t0, "\t" + analysis + w, "\n");
  }

  method PrintXerox(printWeights: bool, g: LocationVector, os: OutStream)
    modifies os
    ensures os.text == old(os.text) + XeroxText(printWeights, g)
  {
    for i := 0 to |g|
      invariant os.text == old(os.text) + XeroxLines(printWeights, g, i)
    {
      ghost var before := XeroxLines(printWeights, g, i);
      PrintXeroxLine(printWeights, g[i], os);
      AppendAssoc(old(os.text), before, XeroxLine(printWeights, g[i]));
    }
    os.Put("\n");
  }

  /** The body of the xerox loop: one line. */
  method PrintXeroxLine(printWeights: bool, l: Location, os: OutStream)
    modifies os
    ensures os.text == old(os.text) + XeroxLine(printWeights, l)
  {
    ghost var t0, w := os.text, Weighted(printWeights, l.weight);
    os.Put(l.input + "\t" + l.output);
    if printWeights {
      os.Put("\t" + l.weight);
    }
    assert os.text == t0 + (l.input + "\t" + l.output) + w;
    os.Put("\n");
    AppendAssoc(t0, l.input + "\t" + l.output, w);
    AppendAssoc(t0, l.input + "\t" + l.output + w, "\n");
  }

  method PrintLocationVector(c: Config, g: LocationVector, os: OutStream) returns (halt: Halt)
    modifies os
    ensures os.text == old(os.text) + GroupText(c, g).text && halt == GroupText(c, g).halt
  {
    halt := Done;
    if c.format == Tokenize && |g| != 0 {
      os.Put(g[0].input);
      if c.printWeights {
        os.Put("\t" + g[0].weight);
      }
      os.Put("\n\n");
    } else if c.format == Cg && |g| != 0 {
      PrintCg(c.printWeights, g, os);
    } else if c.format == Gtd && |g| != 0 {
      if Gtd.GroupPrintable(g) {
        Gtd.PrintLocationVectorGtd(c.printWeights, g, os);
      } else {
        halt := Unmodelled;
      }
    } else if c.format == Xerox {
      PrintXerox(c.printWeights, g, os);
    } else if c.format == Finnpos {
      if |g| == 0 {
        halt := OutOfRange;
      } else {
        Finnpos.PrintLocationVectorFinnpos(g, os);
      }
    }
  }
}
