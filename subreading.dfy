/** print_cg_subreading: one reading line of the subreading format, with the
    analysis cut at the tag separator into a quoted lemma and space-separated tags. */
module Subreading {

  import opened Text
  import opened Locations
  import opened Output

  /** The lemma and the tag fields of an analysis: the text before the first tag
      separator and the fields after it. Without a separator the lemma is empty and
      the whole analysis is a single field. Either way nothing is lost. */
  function LemmaAndTags(str: string): (r: (string, seq<string>))
    ensures TagSeparator !in r.0 && |r.1| >= 1
    ensures forall i :: 0 <= i < |r.1| ==> TagSeparator !in r.1[i] || TagSeparator !in str
    ensures TagSeparator in str ==> Join([r.0] + r.1, TagSeparator) == str
    ensures TagSeparator !in str ==> r.0 == [] && r.1 == [str]
  {
    var fs := Split(str, TagSeparator);
    JoinSplit(str, TagSeparator);
    OneFieldIff(str, TagSeparator);
    assert [fs[0]] + fs[1..] == fs;
    if |fs| > 1 then (fs[0], fs[1..]) else ([], fs)
  }

  /** A string is a single field exactly when it holds no separator. */
  lemma OneFieldIff(s: string, c: char)
    ensures |Split(s, c)| == 1 <==> c !in s
  {
    if c !in s {
      SplitWithout(s, c);
    } else {
      JoinSplit(s, c);
    }
  }

  /** Each field preceded by one space. */
  function Spaced(fields: seq<string>): string
  {
    if fields == [] then [] else " " + fields[0] + Spaced(fields[1..])
  }

  /** The fields without a trailing empty one. */
  function DropEmptyLast(fields: seq<string>): seq<string>
  {
    if fields != [] && fields[|fields| - 1] == [] then fields[..|fields| - 1] else fields
  }

  /** The quoted lemma followed by the tags, as the source's searches cut them:
      the text before the first separator (or nothing), then the later fields. */
  function Reading(str: string): string
  {
    QuotedLemma(str) + TagsFrom(str, TagStart(str))
  }

  /** Where the tags begin: after the first separator, or at 0 without one. */
  function TagStart(str: string): (i: nat)
    ensures i <= |str|
  {
    var f := Find(str, TagSeparator, 0);
    if f.Some? then f.value + 1 else 0
  }

  /** The text before the first separator, or nothing, in quotes. */
  function QuotedLemma(str: string): string
  {
    var f := Find(str, TagSeparator, 0);
    "\"" + (if f.Some? then str[..f.value] else []) + "\""
  }

  function WeightSuffix(printWeights: bool, weight: string): string
  {
    if printWeights then " <" + WeightTag + ":" + weight + ">" else []
  }

  function SurfaceSuffix(input: string): string
  {
    if input == [] then [] else " \"<" + input + ">\""
  }

  /** What follows the reading on its line: the optional weight tag, the optional
      surface form, the newline. */
  function LineEnd(printWeights: bool, weight: string, input: string): string
  {
    WeightSuffix(printWeights, weight) + SurfaceSuffix(input) + "\n"
  }

  /** The whole line print_cg_subreading writes. */
  function CgSubreading(printWeights: bool, indent: string, str: string, weight: string,
                        input: string): string
  {
    indent + Reading(str) + LineEnd(printWeights, weight, input)
  }

  /** Without a tag separator the lemma is `""` and a non-empty analysis follows as one field. */
  lemma ReadingWithoutTags(str: string)
    requires TagSeparator !in str
    ensures Reading(str) == "\"\"" + (if str == [] then [] else " " + str)
  {
    ReadingLayout(str);
    SpacedSingle(str);
  }

  /** A single field is printed after one space, unless it is empty. */
  lemma SpacedSingle(field: string)
    ensures Spaced(DropEmptyLast([field])) == if field == [] then [] else " " + field
  {
    if field != [] {
      assert Spaced([field]) == " " + field + Spaced([]);
    }
  }

  /** With one, the text before the first separator is the quoted lemma and each later
      field follows after one space, a trailing empty field omitted. */
  lemma ReadingWithTags(stem: string, rest: string)
    requires TagSeparator !in stem
    ensures Reading(stem + [TagSeparator] + rest)
         == "\"" + stem + "\"" + Spaced(DropEmptyLast(Split(rest, TagSeparator)))
  {
    var str := stem + [TagSeparator] + rest;
    assert str[|stem|] == TagSeparator;
    SplitAtFirst(stem, rest, TagSeparator);
    ReadingLayout(str);
  }

  lemma {:induction false} SpacedFree(fields: seq<string>, x: char)
    requires x != ' ' && forall i :: 0 <= i < |fields| ==> x !in fields[i]
    ensures x !in Spaced(fields)
  {
    if fields != [] {
      SpacedFree(fields[1..], x);
    }
  }

  /** Neither the lemma nor any tag brings a character the analysis does not have. */
  lemma ReadingFree(str: string, x: char)
    requires x !in str && x != ' ' && x != '"'
    ensures x !in Reading(str)
  {
    var (stem, tags) := LemmaAndTags(str);
    var fs := Split(str, TagSeparator);
    JoinSplit(str, TagSeparator);
    forall i | 0 <= i < |fs| ensures x !in fs[i] {
      if x in fs[i] { JoinContains(fs, TagSeparator, i, x); }
    }
    var kept := DropEmptyLast(tags);
    assert forall i :: 0 <= i < |kept| ==> kept[i] in fs;
    SpacedFree(kept, x);
    ReadingLayout(str);
  }

  /** The line holds exactly one newline, at its end, when none of its pieces has one. */
  lemma ExactlyOneNewline(printWeights: bool, indent: string, str: string, weight: string,
                          input: string)
    requires '\n' !in indent && '\n' !in str && '\n' !in weight && '\n' !in input
    ensures var r := CgSubreading(printWeights, indent, str, weight, input);
      r[|r| - 1] == '\n' && '\n' !in r[..|r| - 1]
  {
    ReadingFree(str, '\n');
    var rd := Reading(str);
    var w := WeightSuffix(printWeights, weight);
    var sf := SurfaceSuffix(input);
    assert '\n' !in w && '\n' !in sf;
    var line := indent + rd + (w + sf);
    var r := CgSubreading(printWeights, indent, str, weight, input);
    assert r == line + ['\n'];
    assert r[..|r| - 1] == line;
  }

  /** The fields from offset `i` on, seen through one search for the separator. */
  lemma FieldsFrom(str: string, i: nat)
    requires i <= |str|
    ensures var f := Find(str, TagSeparator, i);
      Split(str[i..], TagSeparator) ==
        if f.Some? then [str[i..f.value]] + Split(str[f.value + 1..], TagSeparator)
        else [str[i..]]
  {
    var f := Find(str, TagSeparator, i);
    FindMisses(str, TagSeparator, i);
    if f.Some? {
      assert str[i..] == str[i..f.value] + [TagSeparator] + str[f.value + 1..];
      SplitAtFirst(str[i..f.value], str[f.value + 1..], TagSeparator);
    } else {
      SplitWithout(str[i..], TagSeparator);
    }
  }

  /** The split fields after the lemma are the fields after the search position. */
  lemma TagsAfterSearch(str: string)
    ensures var f := Find(str, TagSeparator, 0);
      LemmaAndTags(str) ==
        ((if f.Some? then str[..f.value] else []),
         Split(str[if f.Some? then f.value + 1 else 0..], TagSeparator))
  {
    FieldsFrom(str, 0);
    assert str[0..] == str;
    var f := Find(str, TagSeparator, 0);
    if f.Some? {
      assert str[0..f.value] == str[..f.value];
    }
  }

  /** One more field found: it is written after a space. */
  lemma SpacedStep(str: string, i: nat)
    requires i <= |str| && Find(str, TagSeparator, i).Some?
    ensures var j := Find(str, TagSeparator, i).value;
      Spaced(DropEmptyLast(Split(str[i..], TagSeparator)))
        == " " + str[i..j] + Spaced(DropEmptyLast(Split(str[j + 1..], TagSeparator)))
  {
    var j := Find(str, TagSeparator, i).value;
    var a, rest := str[i..j], Split(str[j + 1..], TagSeparator);
    FieldsFrom(str, i);
    assert Split(str[i..], TagSeparator) == [a] + rest;
    SpacedCons(a, rest);
  }

  /** A field in front of at least one other is written after a space whatever the
      last field is. */
  lemma SpacedCons(a: string, rest: seq<string>)
    requires |rest| >= 1
    ensures Spaced(DropEmptyLast([a] + rest)) == " " + a + Spaced(DropEmptyLast(rest))
  {
    var kept := DropEmptyLast(rest);
    assert ([a] + rest)[|rest|] == rest[|rest| - 1];
    if rest[|rest| - 1] == [] {
      assert ([a] + rest)[..|rest|] == [a] + rest[..|rest| - 1];
    }
    assert ([a] + kept)[1..] == kept;
  }

  /** No field left to find: the rest is written after a space if non-empty. */
  lemma SpacedLast(str: string, i: nat)
    requires i <= |str| && Find(str, TagSeparator, i).None?
    ensures Spaced(DropEmptyLast(Split(str[i..], TagSeparator)))
         == if str[i..] == [] then [] else " " + str[i..]
  {
    FieldsFrom(str, i);
    SpacedSingle(str[i..]);
  }

  /** The tags from offset `i` as the source's search meets them: each field ended by
      a separator after a space, then the remainder after a space if non-empty. */
  function TagsFrom(str: string, i: nat): string
    requires i <= |str|
    decreases |str| - i
  {
    match Find(str, TagSeparator, i)
    case Some(j) => " " + str[i..j] + TagsFrom(str, j + 1)
    case None => if i == |str| then [] else " " + str[i..]
  }

  /** The search-driven tags are the fields after the lemma, each after a space, a
      trailing empty field omitted. */
  lemma {:induction false} TagsFromFields(str: string, i: nat)
    requires i <= |str|
    ensures TagsFrom(str, i) == Spaced(DropEmptyLast(Split(str[i..], TagSeparator)))
    decreases |str| - i
  {
    match Find(str, TagSeparator, i)
    case Some(j) =>
      SpacedStep(str, i);
      TagsFromFields(str, j + 1);
      assert TagsFrom(str, i) == " " + str[i..j] + TagsFrom(str, j + 1);
    case None =>
      SpacedLast(str, i);
  }

  /** The layout of a reading: the lemma in quotes, then every tag field after one
      space, a trailing empty field omitted. */
  lemma ReadingLayout(str: string)
    ensures var (stem, tags) := LemmaAndTags(str);
      Reading(str) == "\"" + stem + "\"" + Spaced(DropEmptyLast(tags))
  {
    TagsAfterSearch(str);
    var f := Find(str, TagSeparator, 0);
    TagsFromFields(str, if f.Some? then f.value + 1 else 0);
  }

  /** The tag loop of print_cg_subreading: from offset `i` on, each field the search
      finds is written after a space, then the non-empty remainder. */
  method PrintTags(str: string, i: nat, os: OutStream)
    requires i <= |str|
    modifies os
    ensures os.text == old(os.text) + TagsFrom(str, i)
  {
    var k := i;
    var j := Find(str, TagSeparator, k);
    while j.Some?
      invariant k <= |str| && j == Find(str, TagSeparator, k)
      invariant os.text + TagsFrom(str, k) == old(os.text) + TagsFrom(str, i)
      decreases |str| - k
    {
      os.Put(" " + str[k..j.value]);
      k := j.value + 1;
      j := Find(str, TagSeparator, k);
    }
    if str[k..] != [] {
      os.Put(" " + str[k..]);
    }
  }

  /** The first search of print_cg_subreading: the lemma in quotes; answers where
      the tags begin. */
  method PrintQuotedLemma(str: string, os: OutStream) returns (i: nat)
    modifies os
    ensures i == TagStart(str)
    ensures os.text == old(os.text) + QuotedLemma(str)
  {
    i := 0;
    os.Put("\"");
    var j := Find(str, TagSeparator, i);
    if j.Some? {
      os.Put(str[i..j.value]);
      assert str[i..j.value] == str[..j.value];
      i := j.value + 1;
    }
    os.Put("\"");
  }

  /** print_cg_subreading: the indentation, the quoted lemma, the tags, the optional
      weight tag and surface form, and the newline. */
  method PrintCgSubreading(printWeights: bool, indent: string, str: string, weight: string,
                           input: string, os: OutStream)
    modifies os
    ensures os.text == old(os.text) + CgSubreading(printWeights, indent, str, weight, input)
  {
    ghost var t0, rd, e := os.text, Reading(str), LineEnd(printWeights, weight, input);
    PrintIndentedReading(indent, str, os);
    AppendAssoc(t0, indent, rd);
    PrintLineEnd(printWeights, weight, input, os);
    AppendAssoc(t0, indent + rd, e);
  }

  /** The indentation and the reading of a subreading line. */
  method PrintIndentedReading(indent: string, str: string, os: OutStream)
    modifies os
    ensures os.text == old(os.text) + indent + Reading(str)
  {
    os.Put(indent);
    var i := PrintQuotedLemma(str, os);
    PrintTags(str, i, os);
  }

  /** The end of a subreading line. */
  method PrintLineEnd(printWeights: bool, weight: string, input: string, os: OutStream)
    modifies os
    ensures os.text == old(os.text) + LineEnd(printWeights, weight, input)
  {
    ghost var t0, w, sf := os.text, WeightSuffix(printWeights, weight), SurfaceSuffix(input);
    if printWeights {
      os.Put(" <" + WeightTag + ":" + weight + ">");
    }
    assert os.text == t0 + w;
    if input != [] {
      os.Put(" \"<" + input + ">\"");
    }
    assert os.text == t0 + w + sf;
    os.Put("\n");
    AppendAssoc(t0, w, sf);
    AppendAssoc(t0, w + sf, "\n");
  }
}
