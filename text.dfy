/** String searching and splitting, as the tokenizer uses std::string:
    find, rfind, find_last_of on a single character, and the field split
    that the tag separator induces. Strings are sequences of characters. */
module Text {

  datatype Option<T> = None | Some(value: T)

  /** std::string::find(c, from): the first offset at or after `from` that holds `c`. */
  function Find(s: string, c: char, from: nat): (r: Option<nat>)
    ensures r.Some? ==> from <= r.value < |s| && s[r.value] == c
    decreases |s| - from
  {
    if from >= |s| then None
    else if s[from] == c then Some(from)
    else Find(s, c, from + 1)
  }

  /** Find passes over no occurrence: none lies between `from` and what it returns. */
  lemma {:induction false} FindMisses(s: string, c: char, from: nat)
    ensures var r := Find(s, c, from);
      forall k :: from <= k < |s| && (r.None? || k < r.value) ==> s[k] != c
    decreases |s| - from
  {
    if from < |s| && s[from] != c {
      FindMisses(s, c, from + 1);
    }
  }

  /** A search from the start comes back empty exactly when the character is absent. */
  lemma FindAbsent(s: string, c: char)
    ensures Find(s, c, 0).None? <==> c !in s
  {
    FindMisses(s, c, 0);
  }

  /** std::string::rfind(c, pos): the last offset at or before `pos` that holds `c`
      (a `pos` past the end searches the whole string). */
  function RFind(s: string, c: char, pos: nat): (r: Option<nat>)
    ensures r.Some? ==> r.value <= pos && r.value < |s| && s[r.value] == c
    decreases pos
  {
    if pos >= |s| then (if |s| == 0 then None else RFind(s, c, |s| - 1))
    else if s[pos] == c then Some(pos)
    else if pos == 0 then None
    else RFind(s, c, pos - 1)
  }

  /** RFind passes over no occurrence: none lies between what it returns and `pos`. */
  lemma {:induction false} RFindMisses(s: string, c: char, pos: nat)
    ensures var r := RFind(s, c, pos);
      forall k: nat :: k <= pos && k < |s| && (r.None? || r.value < k) ==> s[k] != c
    decreases pos
  {
    if pos >= |s| {
      if |s| != 0 {
        RFindMisses(s, c, |s| - 1);
      }
    } else if s[pos] != c && pos > 0 {
      RFindMisses(s, c, pos - 1);
    }
  }

  /** The fields of `s` between occurrences of `c`; there is always at least one. */
  function Split(s: string, c: char): (fs: seq<string>)
    ensures |fs| >= 1
    ensures forall i :: 0 <= i < |fs| ==> c !in fs[i]
  {
    if s == [] then [[]]
    else
      var rest := Split(s[1..], c);
      if s[0] == c then [[]] + rest
      else [[s[0]] + rest[0]] + rest[1..]
  }

  /** The fields `fs` glued back together with `c` between neighbours. */
  function Join(fs: seq<string>, c: char): string
    requires |fs| >= 1
  {
    if |fs| == 1 then fs[0] else fs[0] + [c] + Join(fs[1..], c)
  }

  /** Splitting is undone by joining: no character is lost or invented. */
  lemma {:induction false} JoinSplit(s: string, c: char)
    ensures Join(Split(s, c), c) == s
  {
    if s != [] {
      var rest := Split(s[1..], c);
      JoinSplit(s[1..], c);
      if s[0] == c {
        assert Split(s, c) == [[]] + rest;
      } else {
        var fs := Split(s, c);
        assert fs == [[s[0]] + rest[0]] + rest[1..];
        if |rest| == 1 {
          assert Join(fs, c) == [s[0]] + rest[0];
        } else {
          assert fs[1..] == rest[1..];
          assert Join(rest, c) == rest[0] + [c] + Join(rest[1..], c);
          assert Join(fs, c) == [s[0]] + rest[0] + [c] + Join(rest[1..], c);
        }
      }
    }
  }

  /** A string without `c` is one field. */
  lemma {:induction false} SplitWithout(a: string, c: char)
    requires c !in a
    ensures Split(a, c) == [a]
  {
    if a != [] {
      SplitWithout(a[1..], c);
      assert [a[0]] + a[1..] == a;
    }
  }

  /** The first occurrence of `c` ends the first field. */
  lemma {:induction false} SplitAtFirst(a: string, b: string, c: char)
    requires c !in a
    ensures Split(a + [c] + b, c) == [a] + Split(b, c)
  {
    if a == [] {
      assert (a + [c] + b)[1..] == b;
    } else {
      assert (a + [c] + b)[1..] == a[1..] + [c] + b;
      SplitAtFirst(a[1..], b, c);
      assert [a[0]] + a[1..] == a;
    }
  }

  /** Joining fields free of `c` is undone by splitting: Split and Join are inverse. */
  lemma {:induction false} SplitJoin(fs: seq<string>, c: char)
    requires |fs| >= 1
    requires forall i :: 0 <= i < |fs| ==> c !in fs[i]
    ensures Split(Join(fs, c), c) == fs
  {
    if |fs| == 1 {
      SplitWithout(fs[0], c);
    } else {
      SplitJoin(fs[1..], c);
      SplitAtFirst(fs[0], Join(fs[1..], c), c);
      assert [fs[0]] + fs[1..] == fs;
    }
  }

  /** Every character of a field occurs in the joined string. */
  lemma {:induction false} JoinContains(fs: seq<string>, c: char, i: nat, x: char)
    requires |fs| >= 1 && i < |fs| && x in fs[i]
    ensures x in Join(fs, c)
  {
    if i > 0 {
      JoinContains(fs[1..], c, i - 1, x);
    }
  }

  /** A field added at the end is joined after one more separator. */
  lemma {:induction false} JoinSnoc(fs: seq<string>, y: string, c: char)
    requires |fs| >= 1
    ensures Join(fs + [y], c) == Join(fs, c) + [c] + y
  {
    if |fs| > 1 {
      JoinSnoc(fs[1..], y, c);
      assert (fs + [y])[1..] == fs[1..] + [y];
    } else {
      assert (fs + [y])[1..] == [y];
    }
  }

  /** Text added to the last field is added at the end of the joined string. */
  lemma JoinLastAppend(fs: seq<string>, y: string, z: string, c: char)
    ensures Join(fs + [y + z], c) == Join(fs + [y], c) + z
  {
    if fs == [] {
      assert fs + [y + z] == [y + z] && fs + [y] == [y];
    } else {
      JoinSnoc(fs, y + z, c);
      JoinSnoc(fs, y, c);
    }
  }

  /** Concatenation regrouped; stated once so that long texts are not compared
      character by character. */
  lemma AppendAssoc(a: string, b: string, c: string)
    ensures (a + b) + c == a + (b + c)
  {
  }

  /** The tail of a concatenation with a non-empty front. */
  lemma TailAppend(a: string, b: string)
    requires a != []
    ensures (a + b)[1..] == a[1..] + b && (a + b)[0] == a[0]
  {
  }

  /** A prefix cut in two at `i`. */
  lemma PrefixSplit(s: string, i: nat, j: nat)
    requires i <= j <= |s|
    ensures s[..j] == s[..i] + s[i..j]
  {
  }

  /** A prefix cut in two around the character at `i`. */
  lemma PrefixAround(s: string, i: nat, j: nat)
    requires i < j <= |s|
    ensures s[..j] == s[..i] + [s[i]] + s[i + 1..j]
  {
  }

  /** The texts joined end to end. */
  function Concat(xs: seq<string>): string
  {
    if xs == [] then [] else Concat(xs[..|xs| - 1]) + xs[|xs| - 1]
  }

  /** One more text joined at the end. */
  lemma ConcatLast(xs: seq<string>, x: string)
    ensures Concat(xs + [x]) == Concat(xs) + x
  {
    assert (xs + [x])[..|xs|] == xs;
  }

  /** One more text joined at the end of a prefix. */
  lemma ConcatSnoc(xs: seq<string>, i: nat)
    requires i < |xs|
    ensures Concat(xs[..i + 1]) == Concat(xs[..i]) + xs[i]
  {
    assert xs[..i + 1][..i] == xs[..i];
  }

  /** One more text joined at the end of a slice. */
  lemma ConcatSliceSnoc(xs: seq<string>, i: nat, j: nat)
    requires i <= j < |xs|
    ensures Concat(xs[i..j + 1]) == Concat(xs[i..j]) + xs[j]
  {
    assert xs[i..j + 1][..j - i] == xs[i..j];
  }

  /** Joining distributes over concatenation of the lists of texts. */
  lemma {:induction false} ConcatAppend(xs: seq<string>, ys: seq<string>)
    ensures Concat(xs + ys) == Concat(xs) + Concat(ys)
  {
    if ys == [] {
      assert xs + ys == xs;
    } else {
      var init := ys[..|ys| - 1];
      assert (xs + ys)[..|xs + ys| - 1] == xs + init;
      ConcatAppend(xs, init);
      AppendAssoc(Concat(xs), Concat(init), ys[|ys| - 1]);
    }
  }

  /** An empty text can be dropped from the list without changing the join. */
  lemma ConcatSkip(xs: seq<string>, k: nat)
    requires k < |xs| && xs[k] == []
    ensures Concat(xs) == Concat(xs[..k] + xs[k + 1..])
  {
    var a, b := xs[..k], xs[k + 1..];
    var ax := a + [xs[k]];
    assert xs == ax + b;
    assert ax[..|ax| - 1] == a;
    ConcatAppend(ax, b);
    ConcatAppend(a, b);
  }

  /** The number of newlines in a string. */
  function Lines(s: string): nat
  {
    if s == [] then 0 else (if s[0] == '\n' then 1 else 0) + Lines(s[1..])
  }

  /** Newlines add up over concatenation. */
  lemma {:induction false} LinesAppend(a: string, b: string)
    ensures Lines(a + b) == Lines(a) + Lines(b)
  {
    if a == [] {
      assert a + b == b;
    } else {
      TailAppend(a, b);
      LinesAppend(a[1..], b);
    }
  }

  /** A line added after `n` lines makes `n + 1`. */
  lemma LinesSnoc(a: string, line: string, n: nat)
    requires Lines(a) == n && Lines(line) == 1
    ensures Lines(a + line) == n + 1
  {
    LinesAppend(a, line);
  }

  /** A string without newlines has none to count, and a string with none counted has no newline. */
  lemma {:induction false} NoLines(s: string)
    ensures Lines(s) == 0 <==> '\n' !in s
  {
    if s != [] {
      NoLines(s[1..]);
      assert s == [s[0]] + s[1..];
    }
  }

  /** A text whose only newline ends it has one line. */
  lemma LastNewlineOnly(s: string)
    requires |s| > 0 && s[|s| - 1] == '\n' && '\n' !in s[..|s| - 1]
    ensures Lines(s) == 1
  {
    assert s == s[..|s| - 1] + ['\n'];
    LinesAppend(s[..|s| - 1], ['\n']);
    NoLines(s[..|s| - 1]);
  }
}
