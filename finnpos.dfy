/** The finnpos branch of print_location_vector: one line per group with the input,
    the distinct lemmas and the distinct tags of its analyses, each analysis taken to
    be a lemma and a tag string separated by its last space. */
module Finnpos {

  import opened Text
  import opened Locations
  import opened Output
  import opened StringSet

  /** find_last_of(" "): the offset of the last space. */
  function LastSpace(out: string): (r: Option<nat>)
    ensures r.Some? ==> r.value < |out| && out[r.value] == ' ' && ' ' !in out[r.value + 1..]
    ensures r.None? <==> ' ' !in out
  {
    RFindMisses(out, ' ', |out|);
    RFind(out, ' ', |out|)
  }

  /** The lemma an analysis contributes: the text before its last space, unless that
      text holds a space too. */
  function LemmaOf(out: string): Option<string>
  {
    match LastSpace(out)
    case None => None
    case Some(t) => if Find(out[..t], ' ', 0).None? then Some(out[..t]) else None
  }

  /** The tag string an analysis contributes: the text after its last space, unless
      that text holds a space. */
  function TagOf(out: string): Option<string>
  {
    match LastSpace(out)
    case None => None
    case Some(t) => if Find(out[t + 1..], ' ', 0).None? then Some(out[t + 1..]) else None
  }

  /** The second check of the source never fails: an analysis with a space always
      contributes the text after its last space as a tag string. */
  lemma TagIffSpace(out: string)
    ensures TagOf(out).Some? <==> ' ' in out
    ensures TagOf(out).Some? ==> ' ' !in TagOf(out).value
  {
    if LastSpace(out).Some? {
      FindAbsent(out[LastSpace(out).value + 1..], ' ');
    }
  }

  /** A lemma the analysis contributes holds no space. */
  lemma LemmaSpaceFree(out: string)
    ensures LemmaOf(out).Some? ==> ' ' !in LemmaOf(out).value
  {
    if LastSpace(out).Some? {
      FindAbsent(out[..LastSpace(out).value], ' ');
    }
  }

  /** The last space of `a b`, when `b` has none, is the one before `b`. */
  lemma LastSpaceBefore(a: string, b: string)
    requires ' ' !in b
    ensures LastSpace(a + " " + b) == Some(|a|)
    ensures (a + " " + b)[..|a|] == a && (a + " " + b)[|a| + 1..] == b
  {
    var out := a + " " + b;
    assert out[|a|] == ' ';
    assert forall k :: |a| < k < |out| ==> out[k] == b[k - |a| - 1];
  }

  /** An analysis with exactly one space contributes both sides of it. */
  lemma OneSpace(a: string, b: string)
    requires ' ' !in a && ' ' !in b
    ensures LemmaOf(a + " " + b) == Some(a) && TagOf(a + " " + b) == Some(b)
  {
    LastSpaceBefore(a, b);
    FindAbsent(a, ' ');
    FindAbsent(b, ' ');
  }

  /** An analysis with two spaces or more contributes no lemma. */
  lemma TwoSpaces(out: string, i: nat, j: nat)
    requires i < j < |out| && out[i] == ' ' && out[j] == ' '
    ensures LemmaOf(out).None?
  {
    var t := LastSpace(out).value;
    assert out[..t][i] == ' ';
    FindAbsent(out[..t], ' ');
  }

  /** Putting an optional element into a set. */
  function InsertSome(xs: seq<string>, x: Option<string>): (r: seq<string>)
    requires Sorted(xs)
    ensures Sorted(r)
  {
    if x.Some? then Insert(xs, x.value) else xs
  }

  /** The lemma set after the first `n` analyses of a group. */
  function Lemmas(g: LocationVector, n: nat): (r: seq<string>)
    requires n <= |g|
    ensures Sorted(r)
  {
    if n == 0 then [] else InsertSome(Lemmas(g, n - 1), LemmaOf(g[n - 1].output))
  }

  /** The tag set after the first `n` analyses of a group. */
  function Tags(g: LocationVector, n: nat): (r: seq<string>)
    requires n <= |g|
    ensures Sorted(r)
  {
    if n == 0 then [] else InsertSome(Tags(g, n - 1), TagOf(g[n - 1].output))
  }

  /** The lemma set holds exactly the lemmas of the first `n` analyses, each once and
      in ascending order. */
  lemma {:induction false} LemmasExactly(g: LocationVector, n: nat)
    requires n <= |g|
    ensures Sorted(Lemmas(g, n))
    ensures forall y :: y in Lemmas(g, n) <==>
      exists i :: 0 <= i < n && LemmaOf(g[i].output) == Some(y)
  {
    if n > 0 {
      LemmasExactly(g, n - 1);
    }
  }

  /** The tag set holds exactly the tag strings of the first `n` analyses, each once and
      in ascending order. */
  lemma {:induction false} TagsExactly(g: LocationVector, n: nat)
    requires n <= |g|
    ensures Sorted(Tags(g, n))
    ensures forall y :: y in Tags(g, n) <==>
      exists i :: 0 <= i < n && TagOf(g[i].output) == Some(y)
  {
    if n > 0 {
      TagsExactly(g, n - 1);
    }
  }

  /** A column: `_` for an empty set, otherwise its elements joined by single spaces. */
  function Column(xs: seq<string>): string
  {
    if xs == [] then "_" else Join(xs, ' ')
  }

  /** Each element followed by a space: what the accumulator holds. */
  function Terminated(xs: seq<string>): string
  {
    if xs == [] then [] else Terminated(xs[..|xs| - 1]) + xs[|xs| - 1] + " "
  }

  /** The accumulator less its last character is the joined column. */
  lemma {:induction false} TerminatedJoin(xs: seq<string>)
    requires xs != []
    ensures Terminated(xs) == Join(xs, ' ') + " "
  {
    if |xs| > 1 {
      var init := xs[..|xs| - 1];
      TerminatedJoin(init);
      JoinSnoc(init, xs[|xs| - 1], ' ');
      assert init + [xs[|xs| - 1]] == xs;
    } else {
      assert xs[..0] == [];
    }
  }

  /** A column of a non-empty set of space-free elements splits back into the set. */
  lemma ColumnSplits(xs: seq<string>)
    requires xs != [] && forall i :: 0 <= i < |xs| ==> ' ' !in xs[i]
    ensures Split(Column(xs), ' ') == xs
  {
    SplitJoin(xs, ' ');
  }

  /** The lemma column and the tag column split back into the sets they print. */
  lemma ColumnsSplit(g: LocationVector)
    ensures Lemmas(g, |g|) != [] ==> Split(Column(Lemmas(g, |g|)), ' ') == Lemmas(g, |g|)
    ensures Tags(g, |g|) != [] ==> Split(Column(Tags(g, |g|)), ' ') == Tags(g, |g|)
  {
    var ls, ts := Lemmas(g, |g|), Tags(g, |g|);
    LemmasExactly(g, |g|);
    TagsExactly(g, |g|);
    forall i | 0 <= i < |ls| ensures ' ' !in ls[i] {
      var k :| 0 <= k < |g| && LemmaOf(g[k].output) == Some(ls[i]);
      LemmaSpaceFree(g[k].output);
    }
    forall i | 0 <= i < |ts| ensures ' ' !in ts[i] {
      var k :| 0 <= k < |g| && TagOf(g[k].output) == Some(ts[i]);
      TagIffSpace(g[k].output);
    }
    if ls != [] { ColumnSplits(ls); }
    if ts != [] { ColumnSplits(ts); }
  }

  /** The finnpos line of a group: the input, a blank feature column, the lemmas,
      the tags, and a blank last column. */
  function FinnposLine(g: LocationVector): string
    requires |g| >= 1
  {
    g[0].input + "\t_\t" + Column(Lemmas(g, |g|)) + "\t" + Column(Tags(g, |g|)) + "\t_\n"
  }

  /** Two analyses of one word that differ only in their last tag, behind a stem with a
      space (`cat N Sg` and `cat N Pl`): no lemma column, and both tags in ascending
      order whichever analysis came first. */
  lemma TwoInflections(input: string, stem: string, t1: string, t2: string, i: nat)
    requires i < |stem| && stem[i] == ' '
    requires ' ' !in t1 && ' ' !in t2 && Less(t2, t1)
    ensures var g := [Location(input, stem + " " + t1, "0", [], []),
                      Location(input, stem + " " + t2, "0", [], [])];
      FinnposLine(g) == input + "\t_\t" + "_" + "\t" + (t2 + " " + t1) + "\t_\n"
  {
    var g := [Location(input, stem + " " + t1, "0", [], []),
              Location(input, stem + " " + t2, "0", [], [])];
    StemAnalysis(stem, t1, i);
    StemAnalysis(stem, t2, i);
    assert Lemmas(g, 1) == [];
    assert Tags(g, 1) == [t1];
    LessIrreflexive(t1);
    assert Tags(g, 2) == [t2, t1];
    assert Join([t2, t1], ' ') == t2 + " " + t1;
    assert Column(Lemmas(g, |g|)) == "_";
  }

  /** A stem with a space and a tag: no lemma, the tag. */
  lemma StemAnalysis(stem: string, tag: string, i: nat)
    requires i < |stem| && stem[i] == ' ' && ' ' !in tag
    ensures LemmaOf(stem + " " + tag).None? && TagOf(stem + " " + tag) == Some(tag)
  {
    LastSpaceBefore(stem, tag);
    TwoSpaces(stem + " " + tag, i, |stem|);
  }

  /** `cat N Sg` and `cat N Pl` print as `cat _ _ Pl Sg _`, tab-separated. */
  lemma CatExample()
    ensures var g := [Location("cat", "cat N" + " " + "Sg", "0", [], []),
                      Location("cat", "cat N" + " " + "Pl", "0", [], [])];
      FinnposLine(g) == "cat" + "\t_\t" + "_" + "\t" + ("Pl" + " " + "Sg") + "\t_\n"
  {
    assert Less("Pl", "Sg");
    TwoInflections("cat", "cat N", "Sg", "Pl", 3);
  }

  /** The separator-joining loop of the finnpos branch: each element and a space
      appended to the accumulator, which is printed less its last character; `_`
      when there is nothing. */
  method PrintColumn(xs: seq<string>, os: OutStream)
    modifies os
    ensures os.text == old(os.text) + Column(xs)
  {
    if xs == [] {
      os.Put("_");
    } else {
      var accumulator: string := [];
      for k := 0 to |xs|
        invariant accumulator == Terminated(xs[..k])
      {
        assert xs[..k + 1][..k] == xs[..k];
        accumulator := accumulator + xs[k];
        accumulator := accumulator + " ";
      }
      assert xs[..|xs|] == xs;
      TerminatedJoin(xs);
      os.Put(accumulator[..|accumulator| - 1]);
    }
  }

  /** The set-filling loop of the finnpos branch: each analysis split at its last
      space, its lemma and tag string inserted when they hold no further space. */
  method CollectSets(g: LocationVector) returns (lemmas: seq<string>, tags: seq<string>)
    ensures lemmas == Lemmas(g, |g|) && tags == Tags(g, |g|)
  {
    tags := [];
    lemmas := [];
    for i := 0 to |g|
      invariant lemmas == Lemmas(g, i) && tags == Tags(g, i)
    {
      var out := g[i].output;
      var tagsStartAt := RFind(out, ' ', |out|);
      if tagsStartAt.Some? {
        var lem := out[..tagsStartAt.value];
        if Find(lem, ' ', 0).None? {
          lemmas := Insert(lemmas, lem);
        }
        var tag := out[tagsStartAt.value + 1..];
        if Find(tag, ' ', 0).None? {
          tags := Insert(tags, tag);
        }
      }
    }
  }

  /** The finnpos branch of print_location_vector: the sets are filled analysis by
      analysis, then the line is printed. The group must not be empty (its first
      input is printed). */
  method PrintLocationVectorFinnpos(g: LocationVector, os: OutStream)
    requires |g| >= 1
    modifies os
    ensures os.text == old(os.text) + FinnposLine(g)
  {
    var lemmas, tags := CollectSets(g);
    os.Put(g[0].input + "\t_\t");
    PrintColumn(lemmas, os);
    os.Put("\t");
    PrintColumn(tags, os);
    os.Put("\t_\n");
  }
}
