/** print_location_vector_gtd: the subreading decomposition. The analysis of a
    location is cut from its right end leftwards, at subreading separators and at the
    offsets where the sub-tokens of a multi-token match begin; each cut is printed as
    one subreading line, one tab deeper than the one before. */
module Gtd {

  import opened Text
  import opened Locations
  import opened Output
  import opened Subreading

  /** Which of the three branches made a cut: a sub-token boundary, a subreading
      separator, or the start of the analysis. */
  datatype CutKind = PartCut | SeparatorCut | FinalCut

  /** One subreading: where its piece of the analysis begins, the piece, and the
      surface form it is given (empty for none). */
  datatype Cut = Cut(kind: CutKind, outBeg: nat, outpart: string, inpart: string)

  /** The loop state: the end of the analysis not yet printed, the end of the input
      not yet given out, and how many sub-token offsets remain unclaimed. */
  datatype Cursor = Cursor(outEnd: nat, inEnd: nat, part: nat)

  /** The state before the first cut. */
  function Start(l: Location): (c: Cursor)
    ensures Decomposable(l) ==> CursorOk(l, c)
  {
    Cursor(|l.output|, |l.input|, |l.inputParts|)
  }

  /** Cursors the loop can be in: something of the analysis is left and the next
      unclaimed sub-token offsets lie within what is left. */
  predicate CursorOk(l: Location, c: Cursor)
  {
    && WellFormed(l)
    && 1 <= c.outEnd <= |l.output|
    && c.inEnd <= |l.input|
    && c.part <= |l.inputParts|
    && (c.part > 0 ==>
          l.outputParts[c.part - 1] <= c.outEnd && l.inputParts[c.part - 1] <= c.inEnd)
  }

  /** The last subreading separator before the end of what is left, or 0 without one. */
  function SubBegin(l: Location, c: Cursor): (k: nat)
    requires 1 <= c.outEnd <= |l.output|
    ensures k < c.outEnd
  {
    match RFind(l.output, SubreadingSeparator, c.outEnd - 1)
    case None => 0
    case Some(k) => k
  }

  /** No separator lies after the one SubBegin finds, within what is left. */
  lemma SubBeginMisses(l: Location, c: Cursor)
    requires 1 <= c.outEnd <= |l.output|
    ensures forall k :: SubBegin(l, c) < k < c.outEnd ==> l.output[k] != SubreadingSeparator
    ensures SubBegin(l, c) == 0 || l.output[SubBegin(l, c)] == SubreadingSeparator
  {
    RFindMisses(l.output, SubreadingSeparator, c.outEnd - 1);
  }

  /** Where the last unclaimed sub-token begins in the analysis, or 0 without one. */
  function PartBegin(l: Location, c: Cursor): nat
    requires c.part <= |l.outputParts|
  {
    if c.part > 0 then l.outputParts[c.part - 1] else 0
  }

  /** The lexicographic order on (part, outEnd) in which the loop makes progress. */
  predicate Below(a: Cursor, b: Cursor)
  {
    a.part < b.part || (a.part == b.part && a.outEnd < b.outEnd)
  }

  /** One pass of the loop: the cut it prints and the state it continues from, if it
      continues. The next state is again a valid one, and when no sub-token begins on
      a separator it is below the current one. */
  function Step(l: Location, c: Cursor): (r: (Cut, Option<Cursor>))
    requires CursorOk(l, c)
    ensures r.1.Some? ==> CursorOk(l, r.1.value)
    ensures r.1.Some? && NoPartAtSeparator(l) ==> Below(r.1.value, c)
  {
    var subBeg := SubBegin(l, c);
    var partBeg := PartBegin(l, c);
    var (kind, outBeg, inpart, inEnd, part) :=
      if partBeg > subBeg then
        var inBeg := l.inputParts[c.part - 1];
        (PartCut, partBeg, l.input[inBeg..c.inEnd], inBeg, c.part - 1)
      else if subBeg > 0 then
        (SeparatorCut, subBeg + 1, [], c.inEnd, c.part)
      else
        (FinalCut, 0, if c.inEnd != |l.input| then l.input[..c.inEnd] else [], c.inEnd, c.part);
    var cut := Cut(kind, outBeg, l.output[outBeg..c.outEnd], inpart);
    if outBeg == 0 then (cut, None)
    else (cut, Some(Cursor(outBeg - (if subBeg > partBeg then 1 else 0), inEnd, part)))
  }

  /** The loop stands still exactly when the last unclaimed sub-token begins on the
      separator just before the end of what is left: the source then prints empty
      subreadings forever. */
  lemma StallIff(l: Location, c: Cursor)
    requires CursorOk(l, c)
    ensures Step(l, c).1 == Some(c) <==>
      && c.part > 0
      && 0 < l.outputParts[c.part - 1] == c.outEnd - 1
      && l.output[c.outEnd - 1] == SubreadingSeparator
  {
    if c.part > 0 && 0 < l.outputParts[c.part - 1] == c.outEnd - 1
       && l.output[c.outEnd - 1] == SubreadingSeparator {
      assert SubBegin(l, c) == c.outEnd - 1;
    }
  }

  /** A location on which the source's loop never ends: the only sub-token begins on
      the separator. */
  lemma StallExample()
    ensures var l := Location("xy", "a#b", "0", [1], [1]);
      && WellFormed(l) && !NoPartAtSeparator(l)
      && Step(l, Start(l)).1 == Some(Cursor(2, 2, 1))
      && Step(l, Cursor(2, 2, 1)).1 == Some(Cursor(2, 2, 1))
  {
    var l := Location("xy", "a#b", "0", [1], [1]);
    RFindMisses(l.output, SubreadingSeparator, 2);
    assert l.output[1] == SubreadingSeparator;
    assert SubBegin(l, Start(l)) == 1;
    StallIff(l, Cursor(2, 2, 1));
  }

  /** The subreadings, outermost first, that the loop prints from state `c`. */
  function Decompose(l: Location, c: Cursor): (cuts: seq<Cut>)
    requires CursorOk(l, c) && NoPartAtSeparator(l)
    ensures |cuts| >= 1
    decreases c.part, c.outEnd
  {
    var (cut, next) := Step(l, c);
    if next.None? then [cut] else [cut] + Decompose(l, next.value)
  }

  /** Where the input not yet given out ends when the last cut is made. */
  function FinalInEnd(l: Location, c: Cursor): nat
    requires CursorOk(l, c) && NoPartAtSeparator(l)
    decreases c.part, c.outEnd
  {
    var (cut, next) := Step(l, c);
    if next.None? then c.inEnd else FinalInEnd(l, next.value)
  }

  /** The analysis glued back from the pieces, deepest first, with a separator put
      back wherever a cut was made at one. */
  function Rebuild(cuts: seq<Cut>): string
  {
    if cuts == [] then []
    else Rebuild(cuts[1..])
         + (if cuts[0].kind == SeparatorCut then [SubreadingSeparator] else [])
         + cuts[0].outpart
  }

  /** The surface forms given out, deepest first. */
  function InputText(cuts: seq<Cut>): string
  {
    if cuts == [] then [] else InputText(cuts[1..]) + cuts[0].inpart
  }

  /** One cut: the piece is the analysis from the cut to the end of what is left; a
      final cut begins at 0, another does not; a separator cut consumes the
      separator just before its piece and continues before it; a part cut continues
      at its own offset. No piece holds a separator, except at the very start of the
      deepest one. */
  lemma StepShape(l: Location, c: Cursor)
    requires CursorOk(l, c) && NoPartAtSeparator(l)
    ensures var (cut, next) := Step(l, c);
      && cut.outBeg <= c.outEnd
      && cut.outpart == l.output[cut.outBeg..c.outEnd]
      && (next.None? <==> cut.kind == FinalCut)
      && (next.None? <==> cut.outBeg == 0)
      && (cut.kind == SeparatorCut ==>
            && next.Some? && next.value.outEnd + 1 == cut.outBeg
            && l.output[next.value.outEnd] == SubreadingSeparator)
      && (cut.kind == PartCut ==> next.Some? && next.value.outEnd == cut.outBeg)
      && (cut.kind == FinalCut ==>
            |cut.outpart| >= 1 && SubreadingSeparator !in cut.outpart[1..])
      && (cut.kind != FinalCut ==> SubreadingSeparator !in cut.outpart)
  {
    var subBeg := SubBegin(l, c);
    var partBeg := PartBegin(l, c);
    var (cut, next) := Step(l, c);
    SubBeginMisses(l, c);
    if partBeg <= subBeg && subBeg > 0 {
      assert l.output[subBeg] == SubreadingSeparator;
      assert subBeg != partBeg;
    }
    forall k | 0 <= k < |cut.outpart| && (cut.kind == FinalCut ==> k > 0)
      ensures cut.outpart[k] != SubreadingSeparator
    {
      assert cut.outpart[k] == l.output[cut.outBeg + k];
    }
  }

  /** A subreading other than the deepest: cut after offset 0, free of separators. */
  predicate InnerCut(cut: Cut)
  {
    cut.kind != FinalCut && cut.outBeg > 0 && SubreadingSeparator !in cut.outpart
  }

  /** The deepest subreading: cut at offset 0, holding a separator at most as its first
      character. */
  predicate DeepestCut(cut: Cut)
  {
    && cut.kind == FinalCut && cut.outBeg == 0 && |cut.outpart| >= 1
    && SubreadingSeparator !in cut.outpart[1..]
  }

  /** Every subreading but the last continues the loop, the last begins at offset 0,
      and only the last may hold a separator, as its first character. */
  lemma {:induction false} DecomposeShape(l: Location, c: Cursor)
    requires CursorOk(l, c) && NoPartAtSeparator(l)
    decreases c.part, c.outEnd
    ensures var cuts := Decompose(l, c);
      && DeepestCut(cuts[|cuts| - 1])
      && forall i :: 0 <= i < |cuts| - 1 ==> InnerCut(cuts[i])
  {
    StepShape(l, c);
    var (cut, next) := Step(l, c);
    if next.None? {
      assert Decompose(l, c) == [cut];
    } else {
      DecomposeShape(l, next.value);
      var rest := Decompose(l, next.value);
      var cuts := [cut] + rest;
      assert Decompose(l, c) == cuts;
      assert cuts[|cuts| - 1] == rest[|rest| - 1];
      assert InnerCut(cuts[0]);
      forall i | 1 <= i < |cuts| - 1 ensures InnerCut(cuts[i]) {
        assert cuts[i] == rest[i - 1];
      }
    }
  }

  /** Reconstruction: the pieces, deepest first, with the consumed separators put
      back, are exactly the analysis up to the end of what was left. */
  lemma {:induction false} DecomposeRebuilds(l: Location, c: Cursor)
    requires CursorOk(l, c) && NoPartAtSeparator(l)
    decreases c.part, c.outEnd
    ensures Rebuild(Decompose(l, c)) == l.output[..c.outEnd]
  {
    StepShape(l, c);
    var (cut, next) := Step(l, c);
    var o := l.output;
    if next.None? {
      assert Decompose(l, c) == [cut];
      RebuildCons(cut, []);
      assert Rebuild([]) + [] + cut.outpart == o[..c.outEnd];
    } else {
      var rest := Decompose(l, next.value);
      DecomposeRebuilds(l, next.value);
      assert Decompose(l, c) == [cut] + rest;
      RebuildCons(cut, rest);
      var e := next.value.outEnd;
      if cut.kind == SeparatorCut {
        PrefixAround(o, e, c.outEnd);
        assert Rebuild(rest) + [SubreadingSeparator] + cut.outpart == o[..c.outEnd];
      } else {
        PrefixSplit(o, e, c.outEnd);
        assert Rebuild(rest) + [] + cut.outpart == o[..c.outEnd];
      }
    }
  }

  /** One more piece in front: it comes last in the rebuilt analysis, after the
      separator it was cut at. */
  lemma RebuildCons(cut: Cut, rest: seq<Cut>)
    ensures Rebuild([cut] + rest)
         == Rebuild(rest) + (if cut.kind == SeparatorCut then [SubreadingSeparator] else [])
            + cut.outpart
  {
    assert ([cut] + rest)[1..] == rest;
  }

  /** The whole analysis comes back from the subreadings of a location. */
  lemma Reconstruction(l: Location)
    requires Decomposable(l)
    ensures Rebuild(Decompose(l, Start(l))) == l.output
  {
    DecomposeRebuilds(l, Start(l));
  }

  /** The input that is given out never grows back: it ends at or before where it
      ended. */
  lemma {:induction false} FinalInEndBelow(l: Location, c: Cursor)
    requires CursorOk(l, c) && NoPartAtSeparator(l)
    decreases c.part, c.outEnd
    ensures FinalInEnd(l, c) <= c.inEnd
  {
    var (cut, next) := Step(l, c);
    if next.Some? {
      FinalInEndBelow(l, next.value);
    }
  }

  /** Surface forms: the slices given out, deepest first, are the input up to the end
      not yet given out, unless the last cut found no input claimed at all (then
      every slice is empty). */
  lemma {:induction false} DecomposeInput(l: Location, c: Cursor)
    requires CursorOk(l, c) && NoPartAtSeparator(l)
    decreases c.part, c.outEnd
    ensures InputText(Decompose(l, c)) ==
      if FinalInEnd(l, c) == |l.input| then [] else l.input[..c.inEnd]
  {
    var (cut, next) := Step(l, c);
    StepInput(l, c);
    if next.None? {
      assert Decompose(l, c) == [cut];
      assert FinalInEnd(l, c) == c.inEnd;
      assert InputText([cut]) == InputText([]) + cut.inpart;
    } else {
      var n := next.value;
      var rest := Decompose(l, n);
      DecomposeInput(l, n);
      FinalInEndBelow(l, n);
      assert Decompose(l, c) == [cut] + rest;
      assert FinalInEnd(l, c) == FinalInEnd(l, n);
      assert ([cut] + rest)[1..] == rest;
      assert InputText([cut] + rest) == InputText(rest) + cut.inpart;
      if FinalInEnd(l, n) != |l.input| {
        PrefixSplit(l.input, n.inEnd, c.inEnd);
      }
    }
  }

  /** The surface form of one cut: the input between where the next state leaves it
      and where it was left, or for the last cut all of the input still unclaimed
      unless none was claimed. */
  lemma StepInput(l: Location, c: Cursor)
    requires CursorOk(l, c) && NoPartAtSeparator(l)
    ensures var (cut, next) := Step(l, c);
      && (next.Some? ==> next.value.inEnd <= c.inEnd && cut.inpart == l.input[next.value.inEnd..c.inEnd])
      && (next.None? ==> cut.inpart == if c.inEnd != |l.input| then l.input[..c.inEnd] else [])
  {
  }

  /** No sub-token offsets: every subreading is printed without a surface form. */
  lemma {:induction false} NoPartsNoSurface(l: Location, c: Cursor)
    requires CursorOk(l, c) && NoPartAtSeparator(l)
    requires c.part == 0 && c.inEnd == |l.input|
    decreases c.outEnd
    ensures forall i :: 0 <= i < |Decompose(l, c)| ==> Decompose(l, c)[i].inpart == []
  {
    var (cut, next) := Step(l, c);
    if next.Some? {
      NoPartsNoSurface(l, next.value);
      var rest := Decompose(l, next.value);
      assert Decompose(l, c) == [cut] + rest;
      forall i | 1 <= i < |rest| + 1 ensures ([cut] + rest)[i] == rest[i - 1] { }
    }
  }

  /** For a whole location: the surface forms are the whole input or nothing. */
  lemma InputAllOrNothing(l: Location)
    requires Decomposable(l)
    ensures var cuts := Decompose(l, Start(l));
      InputText(cuts) == l.input || InputText(cuts) == []
    ensures |l.inputParts| == 0 ==>
      forall i :: 0 <= i < |Decompose(l, Start(l))| ==> Decompose(l, Start(l))[i].inpart == []
  {
    DecomposeInput(l, Start(l));
    if |l.inputParts| == 0 {
      NoPartsNoSurface(l, Start(l));
    }
  }

  /** The location of a multi-word name with one separator and no sub-tokens. */
  function NewYork(): Location
  {
    Location("New York", "New York" + "#" + "propername+loc", "0", [], [])
  }

  /** Its first pass cuts at the separator, giving no surface form. */
  lemma NewYorkOuter()
    ensures Decomposable(NewYork())
    ensures Step(NewYork(), Start(NewYork()))
         == (Cut(SeparatorCut, 9, "propername+loc", []), Some(Cursor(8, 8, 0)))
  {
    var l := NewYork();
    var c := Start(l);
    NewYorkSeparator();
    StepShape(l, c);
    assert l.output[9..23] == "propername+loc";
  }

  /** The separator of the name is the last one in its analysis. */
  lemma NewYorkSeparator()
    ensures SubBegin(NewYork(), Start(NewYork())) == 8
  {
    var l := NewYork();
    RFindMisses(l.output, SubreadingSeparator, 22);
    assert l.output[8] == SubreadingSeparator;
    assert forall k :: 8 < k < 23 ==> l.output[k] != SubreadingSeparator;
  }

  /** Its second pass reaches offset 0; all input is still unclaimed, so no surface
      form either. */
  lemma NewYorkInner()
    ensures CursorOk(NewYork(), Cursor(8, 8, 0))
    ensures Step(NewYork(), Cursor(8, 8, 0)) == (Cut(FinalCut, 0, "New York", []), None)
  {
    var l := NewYork();
    var c1 := Cursor(8, 8, 0);
    assert forall k :: 0 <= k < 8 ==> l.output[k] != SubreadingSeparator;
    assert SubBegin(l, c1) == 0;
    assert l.output[0..8] == "New York";
  }

  /** A multi-word name with one separator and no sub-tokens: the outer reading is the
      part after the separator, the inner one the name, and neither gets the surface
      form. */
  lemma NewYorkExample()
    ensures Decomposable(NewYork())
    ensures Decompose(NewYork(), Start(NewYork())) ==
      [Cut(SeparatorCut, 9, "propername+loc", []), Cut(FinalCut, 0, "New York", [])]
  {
    NewYorkOuter();
    NewYorkInner();
    var l := NewYork();
    assert Decompose(l, Cursor(8, 8, 0)) == [Cut(FinalCut, 0, "New York", [])];
  }

  /** `n` tab characters. */
  function Tabs(n: nat): (t: string)
    ensures |t| == n
  {
    if n == 0 then [] else Tabs(n - 1) + "\t"
  }

  /** An indentation is tabs only, so holds no newline. */
  lemma {:induction false} TabsOnly(n: nat)
    ensures forall i :: 0 <= i < n ==> Tabs(n)[i] == '\t'
    ensures '\n' !in Tabs(n)
  {
    if n > 0 {
      TabsOnly(n - 1);
      assert forall i :: 0 <= i < n - 1 ==> Tabs(n)[i] == Tabs(n - 1)[i];
    }
  }

  /** The subreading lines of `cuts`, the first indented `depth + 1` tabs, each later
      one a tab deeper. */
  function RenderCuts(printWeights: bool, weight: string, cuts: seq<Cut>, depth: nat): string
  {
    if cuts == [] then []
    else CgSubreading(printWeights, Tabs(depth + 1), cuts[0].outpart, weight, cuts[0].inpart)
         + RenderCuts(printWeights, weight, cuts[1..], depth + 1)
  }

  /** The subreading lines of one location with an analysis. */
  function GtdLocation(printWeights: bool, l: Location): string
    requires Decomposable(l)
  {
    RenderCuts(printWeights, l.weight, Decompose(l, Start(l)), 0)
  }

  /** With no newline in the analysis, surface forms or weight, each subreading is one
      line. */
  lemma {:induction false} RenderCutsLines(printWeights: bool, weight: string, cuts: seq<Cut>,
                                           depth: nat)
    requires '\n' !in weight
    requires forall cut :: cut in cuts ==> '\n' !in cut.outpart && '\n' !in cut.inpart
    ensures Lines(RenderCuts(printWeights, weight, cuts, depth)) == |cuts|
  {
    if cuts != [] {
      var head := CgSubreading(printWeights, Tabs(depth + 1), cuts[0].outpart, weight, cuts[0].inpart);
      var rest := RenderCuts(printWeights, weight, cuts[1..], depth + 1);
      assert cuts[0] in cuts;
      SubreadingOneLine(printWeights, weight, cuts[0], depth);
      assert forall cut :: cut in cuts[1..] ==> cut in cuts;
      RenderCutsLines(printWeights, weight, cuts[1..], depth + 1);
      assert RenderCuts(printWeights, weight, cuts, depth) == head + rest;
      LinesAppend(head, rest);
      assert Lines(head + rest) == 1 + (|cuts| - 1);
    }
  }

  /** One subreading without newlines inside is one line. */
  lemma SubreadingOneLine(printWeights: bool, weight: string, cut: Cut, depth: nat)
    requires '\n' !in weight && '\n' !in cut.outpart && '\n' !in cut.inpart
    ensures Lines(CgSubreading(printWeights, Tabs(depth + 1), cut.outpart, weight, cut.inpart)) == 1
  {
    TabsOnly(depth + 1);
    ExactlyOneNewline(printWeights, Tabs(depth + 1), cut.outpart, weight, cut.inpart);
    LastNewlineOnly(CgSubreading(printWeights, Tabs(depth + 1), cut.outpart, weight, cut.inpart));
  }

  /** A location prints as many lines as it has subreadings, at least one. */
  lemma OneLinePerSubreading(printWeights: bool, l: Location)
    requires Decomposable(l) && '\n' !in l.output && '\n' !in l.input && '\n' !in l.weight
    ensures Lines(GtdLocation(printWeights, l)) == |Decompose(l, Start(l))| >= 1
  {
    var cuts := Decompose(l, Start(l));
    DecomposeSlices(l, Start(l));
    forall cut | cut in cuts ensures '\n' !in cut.outpart && '\n' !in cut.inpart {
      assert SliceOf(l, cut);
      var i: nat, j: nat :| i <= j <= |l.output| && cut.outpart == l.output[i..j];
      var i': nat, j': nat :| i' <= j' <= |l.input| && cut.inpart == l.input[i'..j'];
      SliceWithout(l.output, i, j, '\n');
      SliceWithout(l.input, i', j', '\n');
    }
    RenderCutsLines(printWeights, l.weight, cuts, 0);
  }

  /** A piece and a surface form cut out of the analysis and the input: each is the
      text between two offsets of the whole. */
  predicate SliceOf(l: Location, cut: Cut)
  {
    && (exists i: nat, j: nat :: i <= j <= |l.output| && cut.outpart == l.output[i..j])
    && (exists i: nat, j: nat :: i <= j <= |l.input| && cut.inpart == l.input[i..j])
  }

  /** Every piece and every surface form is a slice of the analysis or the input. */
  lemma {:induction false} DecomposeSlices(l: Location, c: Cursor)
    requires CursorOk(l, c) && NoPartAtSeparator(l)
    decreases c.part, c.outEnd
    ensures forall cut :: cut in Decompose(l, c) ==> SliceOf(l, cut)
  {
    StepShape(l, c);
    StepInput(l, c);
    var (cut, next) := Step(l, c);
    assert cut.outpart == l.output[cut.outBeg..c.outEnd];
    if next.Some? {
      assert cut.inpart == l.input[next.value.inEnd..c.inEnd];
    } else if c.inEnd != |l.input| {
      assert cut.inpart == l.input[0..c.inEnd];
    } else {
      assert cut.inpart == l.input[0..0];
    }
    assert SliceOf(l, cut);
    if next.None? {
      assert Decompose(l, c) == [cut];
    } else {
      DecomposeSlices(l, next.value);
      var rest := Decompose(l, next.value);
      var cuts := [cut] + rest;
      assert Decompose(l, c) == cuts;
      assert forall x :: x in cuts ==> x == cut || x in rest;
    }
  }

  /** A slice of a string without `x` holds no `x` either. */
  lemma SliceWithout(s: string, i: nat, j: nat, x: char)
    requires i <= j <= |s| && x !in s
    ensures x !in s[i..j]
  {
    assert forall k :: 0 <= k < j - i ==> s[i..j][k] == s[i + k];
  }

  /** Printing from a state: the subreading of this pass, then those of the states
      after it, a tab deeper. */
  lemma RenderStep(printWeights: bool, l: Location, c: Cursor, depth: nat)
    requires CursorOk(l, c) && NoPartAtSeparator(l)
    ensures var (cut, next) := Step(l, c);
      var line := CgSubreading(printWeights, Tabs(depth + 1), cut.outpart, l.weight, cut.inpart);
      && (next.None? ==> RenderCuts(printWeights, l.weight, Decompose(l, c), depth) == line)
      && (next.Some? ==>
            RenderCuts(printWeights, l.weight, Decompose(l, c), depth)
              == line + RenderCuts(printWeights, l.weight, Decompose(l, next.value), depth + 1))
  {
    var (cut, next) := Step(l, c);
    var cuts := Decompose(l, c);
    if next.Some? {
      assert cuts[1..] == Decompose(l, next.value);
    } else {
      assert cuts[1..] == [];
    }
  }

  /** One pass of the loop of print_location_vector_gtd: the last separator and the
      last unclaimed offset before the end decide where the cut is and which input it
      gets; the subreading is printed; the answer is whether the analysis is used up
      and, if not, the state the next pass starts from. */
  method PrintPass(printWeights: bool, l: Location, indent: string,
                   outEnd: nat, inEnd: nat, part: nat, os: OutStream)
    returns (done: bool, nextOutEnd: nat, nextInEnd: nat, nextPart: nat)
    requires CursorOk(l, Cursor(outEnd, inEnd, part))
    modifies os
    ensures var (cut, next) := Step(l, Cursor(outEnd, inEnd, part));
      && os.text == old(os.text)
           + CgSubreading(printWeights, indent, cut.outpart, l.weight, cut.inpart)
      && (done <==> next.None?)
      && (!done ==> next.value == Cursor(nextOutEnd, nextInEnd, nextPart))
  {
    nextInEnd, nextPart := inEnd, part;
    var outBeg: nat;
    var inpart: string := [];
    var subBeg: nat := 0;
    var found := RFind(l.output, SubreadingSeparator, outEnd - 1);
    if found.Some? {
      subBeg := found.value;
    }
    var partBeg: nat := if part > 0 then l.outputParts[part - 1] else 0;
    if partBeg > subBeg {
      outBeg := partBeg;
      var inBeg := l.inputParts[part - 1];
      inpart := l.input[inBeg..inEnd];
      nextInEnd := inBeg;
      nextPart := part - 1;
    } else if subBeg > 0 {
      outBeg := subBeg + 1;
    } else {
      outBeg := 0;
      if inEnd != |l.input| {
        inpart := l.input[..inEnd];
      }
    }
    var outpart := l.output[outBeg..outEnd];
    assert outpart == Step(l, Cursor(outEnd, inEnd, part)).0.outpart;
    assert inpart == Step(l, Cursor(outEnd, inEnd, part)).0.inpart;
    PrintCgSubreading(printWeights, indent, outpart, l.weight, inpart, os);
    done := outBeg == 0;
    nextOutEnd := outBeg;
    if !done && subBeg > partBeg {
      nextOutEnd := nextOutEnd - 1;
    }
  }

  /** The loop of print_location_vector_gtd for one location with an analysis: the
      state (out_end, in_end, part), each pass printing one subreading one tab deeper. */
  method PrintLocationGtd(printWeights: bool, l: Location, os: OutStream)
    requires Decomposable(l)
    modifies os
    ensures os.text == old(os.text) + GtdLocation(printWeights, l)
  {
    var indent := "\t";
    var outEnd: nat, inEnd: nat := |l.output|, |l.input|;
    var part: nat := |l.inputParts|;
    ghost var depth: nat := 0;
    while true
      invariant CursorOk(l, Cursor(outEnd, inEnd, part))
      invariant indent == Tabs(depth + 1)
      invariant os.text + RenderCuts(printWeights, l.weight, Decompose(l, Cursor(outEnd, inEnd, part)), depth)
                == old(os.text) + GtdLocation(printWeights, l)
      decreases part, outEnd
    {
      ghost var t := os.text;
      ghost var c := Cursor(outEnd, inEnd, part);
      RenderStep(printWeights, l, c, depth);
      var done, nextOutEnd, nextInEnd, nextPart := PrintPass(printWeights, l, indent, outEnd, inEnd, part, os);
      if done {
        break;
      }
      AppendAssoc(t, CgSubreading(printWeights, indent, Step(l, c).0.outpart, l.weight, Step(l, c).0.inpart),
                  RenderCuts(printWeights, l.weight, Decompose(l, Step(l, c).1.value), depth + 1));
      indent := indent + "\t";
      depth := depth + 1;
      outEnd, inEnd, part := nextOutEnd, nextInEnd, nextPart;
    }
  }

  /** What a location needs to be printed in this format: no analysis, or one the
      decomposition finishes on. */
  predicate GtdPrintable(l: Location)
  {
    l.output == [] || Decomposable(l)
  }

  /** Every location of the group can be printed in this format. */
  predicate GroupPrintable(g: LocationVector)
  {
    forall i :: 0 <= i < |g| ==> GtdPrintable(g[i])
  }

  /** What one location contributes to the readings of its group: nothing without an
      analysis (a location the decomposition does not cover contributes nothing either;
      groups holding one are not printed in this format). */
  function LocationReadings(printWeights: bool, l: Location): string
  {
    if l.output == [] || !Decomposable(l) then [] else GtdLocation(printWeights, l)
  }

  /** What each location of a group contributes, in order. */
  function Texts(printWeights: bool, g: LocationVector): (ts: seq<string>)
    ensures |ts| == |g|
  {
    if g == [] then []
    else Texts(printWeights, g[..|g| - 1]) + [LocationReadings(printWeights, g[|g| - 1])]
  }

  /** The text at each index is what the location there contributes. */
  lemma {:induction false} TextsAt(printWeights: bool, g: LocationVector, i: nat)
    requires i < |g|
    ensures Texts(printWeights, g)[i] == LocationReadings(printWeights, g[i])
    decreases |g|
  {
    if i < |g| - 1 {
      TextsAt(printWeights, g[..|g| - 1], i);
    }
  }

  /** The subreading lines of every location of a group, in order. */
  function GtdReadings(printWeights: bool, g: LocationVector): string
  {
    Concat(Texts(printWeights, g))
  }

  /** The cohort header of a group. */
  function CohortHeader(g: LocationVector): string
    requires |g| >= 1
  {
    "\"<" + g[0].input + ">\"\n"
  }

  /** print_location_vector_gtd: the header, then either the unknown-but-tokenised
      reading of a lone location without analysis, or every location's subreadings. */
  function GtdGroup(printWeights: bool, g: LocationVector): string
    requires |g| >= 1 && GroupPrintable(g)
  {
    CohortHeader(g)
      + if |g| == 1 && g[0].output == [] then "\t\"" + g[0].input + "\" ?\n"
        else GtdReadings(printWeights, g)
  }

  /** Locations without analysis are skipped: removing one from a group leaves its
      readings unchanged. */
  lemma EmptyAnalysisSkipped(printWeights: bool, g: LocationVector, k: nat)
    requires k < |g| && g[k].output == []
    ensures GtdReadings(printWeights, g) == GtdReadings(printWeights, g[..k] + g[k + 1..])
  {
    var h := g[..k] + g[k + 1..];
    var ts, us := Texts(printWeights, g), Texts(printWeights, h);
    forall i | 0 <= i < |us|
      ensures us[i] == (ts[..k] + ts[k + 1..])[i]
    {
      TextsAt(printWeights, h, i);
      if i < k {
        TextsAt(printWeights, g, i);
      } else {
        assert h[i] == g[i + 1];
        TextsAt(printWeights, g, i + 1);
      }
    }
    assert us == ts[..k] + ts[k + 1..];
    TextsAt(printWeights, g, k);
    ConcatSkip(ts, k);
  }

  /** One pass of the group loop: a location without analysis is passed over, any
      other has its subreadings printed. */
  method PrintLocationReadings(printWeights: bool, l: Location, os: OutStream)
    requires GtdPrintable(l)
    modifies os
    ensures os.text == old(os.text) + LocationReadings(printWeights, l)
  {
    if l.output == [] {
      assert LocationReadings(printWeights, l) == [];
      assert os.text + [] == os.text;
      return;
    }
    PrintLocationGtd(printWeights, l, os);
  }

  /** The loop over a group's locations. */
  method PrintGtdReadings(printWeights: bool, g: LocationVector, os: OutStream)
    requires GroupPrintable(g)
    modifies os
    ensures os.text == old(os.text) + GtdReadings(printWeights, g)
  {
    ghost var ts := Texts(printWeights, g);
    for i := 0 to |g|
      invariant os.text == old(os.text) + Concat(ts[..i])
    {
      PrintReadingsRound(printWeights, g, i, old(os.text), os);
    }
    assert ts[..|g|] == ts;
  }

  /** The body of the location loop: the readings of location `i` after those of the
      locations before it. */
  method PrintReadingsRound(printWeights: bool, g: LocationVector, i: nat, ghost t: string, os: OutStream)
    requires GroupPrintable(g) && i < |g|
    requires os.text == t + Concat(Texts(printWeights, g)[..i])
    modifies os
    ensures os.text == t + Concat(Texts(printWeights, g)[..i + 1])
  {
    ReadingsRound(t, printWeights, g, i);
    PrintLocationReadings(printWeights, g[i], os);
  }

  /** The readings of the first `i + 1` locations are those of the first `i` followed by
      what location `i` contributes. */
  lemma ReadingsRound(t: string, printWeights: bool, g: LocationVector, i: nat)
    requires i < |g|
    ensures var ts := Texts(printWeights, g);
      t + Concat(ts[..i]) + LocationReadings(printWeights, g[i]) == t + Concat(ts[..i + 1])
  {
    var ts := Texts(printWeights, g);
    TextsAt(printWeights, g, i);
    ConcatSnoc(ts, i);
    AppendAssoc(t, Concat(ts[..i]), ts[i]);
  }

  /** The printing of one group in this format: the header, then the lone
      unknown-but-tokenised line or each location's subreadings in turn. */
  method PrintLocationVectorGtd(printWeights: bool, g: LocationVector, os: OutStream)
    requires |g| >= 1 && GroupPrintable(g)
    modifies os
    ensures os.text == old(os.text) + GtdGroup(printWeights, g)
  {
    ghost var t := os.text;
    os.Put(CohortHeader(g));
    if |g| == 1 && g[0].output == [] {
      os.Put("\t\"" + g[0].input + "\" ?\n");
      AppendAssoc(t, CohortHeader(g), "\t\"" + g[0].input + "\" ?\n");
    } else {
      PrintGtdReadings(printWeights, g, os);
      AppendAssoc(t, CohortHeader(g), GtdReadings(printWeights, g));
    }
  }
}
