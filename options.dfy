/** The tool's process-wide settings and the command-line folding that sets them. */
module Options {

  import opened Text

  /** The five output formats. */
  datatype Format = Tokenize | Xerox | Cg | Finnpos | Gtd

  /** A snapshot of the settings; once options are parsed they no longer change. */
  datatype Config = Config(
    blanklineSeparated: bool,
    keepNewlines: bool,
    printAll: bool,
    printWeights: bool,
    tokenizeMultichar: bool,
    timeCutoff: real,
    format: Format)

  /** The settings before any option is seen. */
  const Defaults: Config := Config(true, false, false, false, false, 0.0, Tokenize)

  /** The tool's own options, in command-line order; the time cutoff carries its
      already-converted number. */
  datatype Flag =
    | Newline | KeepNewline | PrintAll | PrintWeights | TokenizeMultichar
    | TimeCutoff(seconds: real)
    | Segment | XeroxFlag | CgFlag | GtdFlag | FinnposFlag

  datatype ParseError = InvalidTimeCutoff | MoreThanOneInput | NoInput

  /** EXIT_CONTINUE, or EXIT_FAILURE with the message's reason. */
  datatype Status = Continue | Failure(reason: ParseError)

  /** The one option whose argument can be refused. */
  predicate Rejected(f: Flag)
  {
    f.TimeCutoff? && f.seconds < 0.0
  }

  /** The format an option selects, if it selects one. */
  function SelectedFormat(f: Flag): Option<Format>
  {
    match f
    case Segment => Some(Tokenize)
    case XeroxFlag => Some(Xerox)
    case CgFlag => Some(Cg)
    case GtdFlag => Some(Gtd)
    case FinnposFlag => Some(Finnpos)
    case _ => None
  }

  /** The effect of one option on the settings. */
  function ApplyFlag(c: Config, f: Flag): Config
  {
    match f
    case Newline => c.(blanklineSeparated := false)
    case KeepNewline => c.(keepNewlines := true, blanklineSeparated := false)
    case PrintAll => c.(printAll := true)
    case PrintWeights => c.(printWeights := true)
    case TokenizeMultichar => c.(tokenizeMultichar := true)
    case TimeCutoff(s) => c.(timeCutoff := s)
    case Segment => c.(format := Tokenize)
    case XeroxFlag => c.(format := Xerox)
    case CgFlag => c.(format := Cg)
    case GtdFlag =>
      c.(format := Gtd, printWeights := true, printAll := true,
         keepNewlines := true, blanklineSeparated := false)
    case FinnposFlag => c.(format := Finnpos)
  }

  /** The settings after the options, in order, and whether all were accepted; a
      refused time cutoff is stored and ends parsing. */
  function Fold(c: Config, flags: seq<Flag>): (Config, bool)
    decreases flags
  {
    if flags == [] then (c, true)
    else
      var c' := ApplyFlag(c, flags[0]);
      if Rejected(flags[0]) then (c', false) else Fold(c', flags[1..])
  }

  /** The outcome of parsing: a refused option first, then the count of positional arguments. */
  function ParseStatus(c: Config, flags: seq<Flag>, positional: seq<string>): Status
  {
    if !Fold(c, flags).1 then Failure(InvalidTimeCutoff)
    else if |positional| > 1 then Failure(MoreThanOneInput)
    else if |positional| == 1 then Continue
    else Failure(NoInput)
  }

  /** The global variables that option parsing sets. */
  class Globals {
    var blanklineSeparated: bool
    var keepNewlines: bool
    var printAll: bool
    var printWeights: bool
    var tokenizeMultichar: bool
    var timeCutoff: real
    var outputFormat: Format
    var tokenizerFilename: string

    function Snapshot(): Config
      reads this
    {
      Config(blanklineSeparated, keepNewlines, printAll, printWeights,
             tokenizeMultichar, timeCutoff, outputFormat)
    }

    constructor ()
      ensures Snapshot() == Defaults && tokenizerFilename == ""
    {
      blanklineSeparated, keepNewlines, printAll, printWeights := true, false, false, false;
      tokenizeMultichar, timeCutoff, outputFormat := false, 0.0, Tokenize;
      tokenizerFilename := "";
    }

    /** parse_options: each option sets globals; a negative time cutoff stops with
        failure; then exactly one positional argument names the tokenizer file. */
    method ParseOptions(flags: seq<Flag>, positional: seq<string>) returns (status: Status)
      modifies this
      ensures Snapshot() == Fold(old(Snapshot()), flags).0
      ensures status == ParseStatus(old(Snapshot()), flags, positional)
      ensures tokenizerFilename == if status.Continue? then positional[0] else old(tokenizerFilename)
    {
      var i := 0;
      while i < |flags|
        invariant 0 <= i <= |flags|
        invariant Fold(old(Snapshot()), flags) == Fold(Snapshot(), flags[i..])
        invariant tokenizerFilename == old(tokenizerFilename)
      {
        assert flags[i..][1..] == flags[i + 1..];
        match flags[i] {
        case KeepNewline =>
          keepNewlines := true;
          blanklineSeparated := false;
        case Newline =>
          blanklineSeparated := false;
        case PrintAll =>
          printAll := true;
        case PrintWeights =>
          printWeights := true;
        case TokenizeMultichar =>
          tokenizeMultichar := true;
        case TimeCutoff(s) =>
          timeCutoff := s;
          if timeCutoff < 0.0 {
            return Failure(InvalidTimeCutoff);
          }
        case Segment =>
          outputFormat := Tokenize;
        case XeroxFlag =>
          outputFormat := Xerox;
        case CgFlag =>
          outputFormat := Cg;
        case GtdFlag =>
          outputFormat := Gtd;
          printWeights := true;
          printAll := true;
          keepNewlines := true;
          blanklineSeparated := false;
        case FinnposFlag =>
          outputFormat := Finnpos;
        }
        i := i + 1;
      }
      if |positional| > 1 {
        status := Failure(MoreThanOneInput);
      } else if |positional| == 1 {
        tokenizerFilename := positional[0];
        status := Continue;
      } else {
        status := Failure(NoInput);
      }
    }
  }

  /** The options are all accepted exactly when no time cutoff among them is negative. */
  lemma {:induction false} AcceptedIffNoNegativeCutoff(c: Config, flags: seq<Flag>)
    decreases flags
    ensures Fold(c, flags).1 <==> forall i :: 0 <= i < |flags| ==> !Rejected(flags[i])
  {
    if flags != [] {
      AcceptedIffNoNegativeCutoff(ApplyFlag(c, flags[0]), flags[1..]);
      assert forall i :: 1 <= i < |flags| ==> flags[i] == flags[1..][i - 1];
    }
  }

  /** When every option is accepted, the last format option decides the format... */
  lemma {:induction false} LastFormatWins(c: Config, flags: seq<Flag>, k: nat)
    decreases flags
    requires k < |flags| && SelectedFormat(flags[k]).Some?
    requires forall j :: k < j < |flags| ==> SelectedFormat(flags[j]).None?
    requires Fold(c, flags).1
    ensures Fold(c, flags).0.format == SelectedFormat(flags[k]).value
  {
    if k == 0 {
      KeepsFormat(ApplyFlag(c, flags[0]), flags[1..]);
    } else {
      LastFormatWins(ApplyFlag(c, flags[0]), flags[1..], k - 1);
    }
  }

  /** ...and without a format option the format stays what it was. */
  lemma {:induction false} KeepsFormat(c: Config, flags: seq<Flag>)
    decreases flags
    requires forall j :: 0 <= j < |flags| ==> SelectedFormat(flags[j]).None?
    ensures Fold(c, flags).0.format == c.format
  {
    if flags != [] {
      KeepsFormat(ApplyFlag(c, flags[0]), flags[1..]);
    }
  }

  /** No option turns a switch off again: printing all, printing weights, keeping
      newlines and newline segmentation, once on, stay on. */
  lemma {:induction false} SwitchesStayOn(c: Config, flags: seq<Flag>)
    decreases flags
    ensures var r := Fold(c, flags).0;
      && (c.printAll ==> r.printAll)
      && (c.printWeights ==> r.printWeights)
      && (c.keepNewlines ==> r.keepNewlines)
      && (!c.blanklineSeparated ==> !r.blanklineSeparated)
  {
    if flags != [] {
      SwitchesStayOn(ApplyFlag(c, flags[0]), flags[1..]);
    }
  }

  /** The gtd option bundles printing weights, printing all, keeping newlines and
      newline segmentation, and no later option undoes them (even if a later option
      selects another format). */
  lemma {:induction false} GtdPresetSticks(c: Config, flags: seq<Flag>, k: nat)
    decreases flags
    requires k < |flags| && flags[k] == GtdFlag
    requires Fold(c, flags).1
    ensures var r := Fold(c, flags).0;
      r.printWeights && r.printAll && r.keepNewlines && !r.blanklineSeparated
  {
    if k == 0 {
      SwitchesStayOn(ApplyFlag(c, flags[0]), flags[1..]);
    } else {
      GtdPresetSticks(ApplyFlag(c, flags[0]), flags[1..], k - 1);
    }
  }

  /** An accepted time cutoff is never negative; a refused one is stored as given. */
  lemma {:induction false} CutoffSign(c: Config, flags: seq<Flag>)
    decreases flags
    requires c.timeCutoff >= 0.0
    ensures Fold(c, flags).1 ==> Fold(c, flags).0.timeCutoff >= 0.0
    ensures !Fold(c, flags).1 ==> Fold(c, flags).0.timeCutoff < 0.0
  {
    if flags != [] && !Rejected(flags[0]) {
      CutoffSign(ApplyFlag(c, flags[0]), flags[1..]);
    }
  }

  /** Parsing continues exactly when every option is accepted and one file is named. */
  lemma ContinueIff(c: Config, flags: seq<Flag>, positional: seq<string>)
    ensures ParseStatus(c, flags, positional) == Continue <==>
      (forall i :: 0 <= i < |flags| ==> !Rejected(flags[i])) && |positional| == 1
  {
    AcceptedIffNoNegativeCutoff(c, flags);
  }

  /** first_transducer_is_called_TOP: a transducer named "TOP" is already a tokenizer. */
  function IsCalledTop(name: string): bool
  {
    name == "TOP"
  }
}
