/**
 * How `startTable` counts columns when the keys of a column format are
 * separated by runs of spaces of any length.  The format is collapsed twice
 * (once when it is written, once when it is counted), and each collapse
 * halves every run of spaces, rounding up; a run of g spaces therefore adds
 * ceil(g/4) columns.
 */
module GroffColumns {
  import opened Strings
  import opened GroffText

  /** A run of n spaces. */
  function SpaceRun(n: nat): (r: string)
    ensures |r| == n
  {
    if n == 0 then "" else " " + SpaceRun(n - 1)
  }

  /** The two steps of a collapse: a leading pair of spaces becomes one
      space, any other leading character is kept. */
  lemma {:induction false} CollapsePair(s: string)
    requires |s| >= 2 && s[0] == ' ' && s[1] == ' '
    ensures CollapseSpacePairs(s) == " " + CollapseSpacePairs(s[2..])
  {
  }

  lemma {:induction false} CollapseSingle(s: string)
    requires |s| >= 1 && !(|s| >= 2 && s[0] == ' ' && s[1] == ' ')
    ensures CollapseSpacePairs(s) == [s[0]] + CollapseSpacePairs(s[1..])
  {
  }

  /** A run of at least two spaces loses its first pair to one space. */
  lemma {:induction false} CollapseRunPair(k: nat, rest: string)
    requires k >= 2
    ensures CollapseSpacePairs(SpaceRun(k) + rest) == " " + CollapseSpacePairs(SpaceRun(k - 2) + rest)
  {
    var s := SpaceRun(k) + rest;
    assert SpaceRun(k) == " " + (" " + SpaceRun(k - 2));
    assert s[2..] == SpaceRun(k - 2) + rest;
    CollapsePair(s);
  }

  /** A run of one space before a character that is not a space is kept. */
  lemma {:induction false} CollapseLoneSpace(rest: string)
    requires rest == [] || rest[0] != ' '
    ensures CollapseSpacePairs(SpaceRun(1) + rest) == SpaceRun(1) + CollapseSpacePairs(rest)
  {
    var s := SpaceRun(1) + rest;
    assert SpaceRun(1) == " ";
    assert s[1..] == rest;
    CollapseSingle(s);
  }

  /** One collapse turns a run of k spaces into a run of ceil(k/2) spaces
      and goes on after the run. */
  lemma {:induction false} CollapseRun(k: nat, rest: string)
    requires rest == [] || rest[0] != ' '
    ensures CollapseSpacePairs(SpaceRun(k) + rest) == SpaceRun((k + 1) / 2) + CollapseSpacePairs(rest)
    decreases k
  {
    if k == 0 {
      assert SpaceRun(0) + rest == rest;
    } else if k == 1 {
      CollapseLoneSpace(rest);
    } else {
      CollapseRun(k - 2, rest);
      CollapseRunStep(k, rest);
    }
  }

  /** The induction step of `CollapseRun`: from a run two spaces shorter. */
  lemma {:induction false} CollapseRunStep(k: nat, rest: string)
    requires k >= 2
    requires CollapseSpacePairs(SpaceRun(k - 2) + rest) == SpaceRun((k - 1) / 2) + CollapseSpacePairs(rest)
    ensures CollapseSpacePairs(SpaceRun(k) + rest) == SpaceRun((k + 1) / 2) + CollapseSpacePairs(rest)
  {
    var m := (k - 1) / 2;
    assert (k + 1) / 2 == m + 1;
    var h := SpaceRun(m);
    var c := CollapseSpacePairs(rest);
    CollapseRunPair(k, rest);
    assert SpaceRun(m + 1) == " " + h;
    assert " " + (h + c) == (" " + h) + c;
  }

  /** Collapsing passes over a stretch without spaces unchanged. */
  lemma {:induction false} CollapseWord(w: string, rest: string)
    requires ' ' !in w
    ensures CollapseSpacePairs(w + rest) == w + CollapseSpacePairs(rest)
    decreases |w|
  {
    if |w| > 0 {
      var s := w + rest;
      assert s[0] == w[0];
      assert s[1..] == w[1..] + rest;
      CollapseWord(w[1..], rest);
      assert w == [w[0]] + w[1..];
    } else {
      assert w + rest == rest;
    }
  }

  /** The keys separated by runs of spaces, `gaps[i]` spaces after
      `keys[i]`. */
  function Spaced(keys: seq<string>, gaps: seq<nat>): string
    requires |keys| >= 1 && |gaps| == |keys| - 1
    decreases |keys|
  {
    if |keys| == 1 then keys[0]
    else keys[0] + (SpaceRun(gaps[0]) + Spaced(keys[1..], gaps[1..]))
  }

  predicate AllWords(keys: seq<string>) {
    forall i :: 0 <= i < |keys| ==> IsWord(keys[i])
  }

  /** A spaced format starts with its first key ... */
  lemma {:induction false} SpacedFirst(keys: seq<string>, gaps: seq<nat>)
    requires |keys| >= 1 && |gaps| == |keys| - 1 && |keys[0]| >= 1
    ensures var s := Spaced(keys, gaps); |s| >= 1 && s[0] == keys[0][0]
  {
  }

  /** ... and ends with its last. */
  lemma {:induction false} SpacedLast(keys: seq<string>, gaps: seq<nat>)
    requires |keys| >= 1 && |gaps| == |keys| - 1 && |keys[|keys| - 1]| >= 1
    ensures var s := Spaced(keys, gaps); var last := keys[|keys| - 1];
            |s| >= 1 && s[|s| - 1] == last[|last| - 1]
    decreases |keys|
  {
    if |keys| > 1 {
      var next := Spaced(keys[1..], gaps[1..]);
      assert keys[1..][|keys| - 2] == keys[|keys| - 1];
      SpacedLast(keys[1..], gaps[1..]);
      var s := Spaced(keys, gaps);
      assert s == keys[0] + (SpaceRun(gaps[0]) + next);
      assert s[|s| - 1] == next[|next| - 1];
    }
  }

  /** Every run halved, rounding up. */
  function HalvedRuns(gaps: seq<nat>): (r: seq<nat>)
    ensures |r| == |gaps|
    ensures forall i :: 0 <= i < |gaps| ==> r[i] == (gaps[i] + 1) / 2
  {
    if gaps == [] then [] else [(gaps[0] + 1) / 2] + HalvedRuns(gaps[1..])
  }

  /** The number of spaces in all the runs. */
  function RunsTotal(gaps: seq<nat>): nat {
    if gaps == [] then 0 else gaps[0] + RunsTotal(gaps[1..])
  }

  lemma {:induction false} AllWordsTail(keys: seq<string>)
    requires |keys| >= 1 && AllWords(keys)
    ensures AllWords(keys[1..])
  {
    forall i | 0 <= i < |keys[1..]| ensures IsWord(keys[1..][i]) {
      assert keys[1..][i] == keys[i + 1];
    }
  }

  /** One collapse of a spaced format halves each of its runs and leaves the
      keys alone; what follows the format is collapsed on its own. */
  lemma {:induction false} CollapseSpaced(keys: seq<string>, gaps: seq<nat>, tail: string)
    requires |keys| >= 1 && |gaps| == |keys| - 1 && AllWords(keys)
    requires tail == [] || tail[0] != ' '
    ensures CollapseSpacePairs(Spaced(keys, gaps) + tail)
         == Spaced(keys, HalvedRuns(gaps)) + CollapseSpacePairs(tail)
    decreases |keys|
  {
    if |keys| == 1 {
      assert IsWord(keys[0]);
      CollapseWord(keys[0], tail);
    } else {
      AllWordsTail(keys);
      CollapseSpaced(keys[1..], gaps[1..], tail);
      assert IsWord(keys[0]) && IsWord(keys[1]);
      CollapseSpacedStep(keys, gaps, tail);
    }
  }

  /** The induction step of `CollapseSpaced`: from the format without its
      first key and run. */
  lemma {:induction false} CollapseSpacedStep(keys: seq<string>, gaps: seq<nat>, tail: string)
    requires |keys| >= 2 && |gaps| == |keys| - 1
    requires ' ' !in keys[0] && |keys[1]| >= 1 && keys[1][0] != ' '
    requires tail == [] || tail[0] != ' '
    requires CollapseSpacePairs(Spaced(keys[1..], gaps[1..]) + tail)
          == Spaced(keys[1..], HalvedRuns(gaps[1..])) + CollapseSpacePairs(tail)
    ensures CollapseSpacePairs(Spaced(keys, gaps) + tail)
         == Spaced(keys, HalvedRuns(gaps)) + CollapseSpacePairs(tail)
  {
    var k0 := keys[0];
    var g := gaps[0];
    var next := Spaced(keys[1..], gaps[1..]);
    SpacedFirst(keys[1..], gaps[1..]);
    Regroup(k0, SpaceRun(g), next, tail);
    CollapseKeyAndRun(k0, g, next + tail);
    var h := HalvedRuns(gaps);
    assert h[1..] == HalvedRuns(gaps[1..]);
    Regroup(k0, SpaceRun(h[0]), Spaced(keys[1..], h[1..]), CollapseSpacePairs(tail));
  }

  /** A key followed by a run: the key is kept and the run halved. */
  lemma {:induction false} CollapseKeyAndRun(key: string, g: nat, rest: string)
    requires ' ' !in key
    requires rest == [] || rest[0] != ' '
    ensures CollapseSpacePairs(key + (SpaceRun(g) + rest))
         == key + (SpaceRun((g + 1) / 2) + CollapseSpacePairs(rest))
  {
    CollapseWord(key, SpaceRun(g) + rest);
    CollapseRun(g, rest);
  }

  lemma {:induction false} Regroup(a: string, b: string, c: string, d: string)
    ensures a + (b + (c + d)) == (a + (b + c)) + d
  {
  }

  lemma {:induction false} RunSpaces(n: nat)
    ensures Spaces(SpaceRun(n)) == n
    decreases n
  {
    if n > 0 {
      RunSpaces(n - 1);
      OccurrencesAppend(" ", SpaceRun(n - 1), ' ');
      assert Occurrences(" ", ' ') == 1 by {
        assert " "[..0] == "";
      }
    }
  }

  /** A spaced format holds exactly the spaces of its runs. */
  lemma {:induction false} SpacedSpaces(keys: seq<string>, gaps: seq<nat>)
    requires |keys| >= 1 && |gaps| == |keys| - 1 && AllWords(keys)
    ensures Spaces(Spaced(keys, gaps)) == RunsTotal(gaps)
    decreases |keys|
  {
    assert IsWord(keys[0]);
    assert ' ' !in keys[0];
    if |keys| > 1 {
      var next := Spaced(keys[1..], gaps[1..]);
      AllWordsTail(keys);
      SpacedSpaces(keys[1..], gaps[1..]);
      RunSpaces(gaps[0]);
      OccurrencesAppend(SpaceRun(gaps[0]), next, ' ');
      OccurrencesAppend(keys[0], SpaceRun(gaps[0]) + next, ' ');
    }
  }

  /** The words keep no white character, so the spaced format is its own
      trim. */
  lemma {:induction false} SpacedTrimmed(keys: seq<string>, gaps: seq<nat>)
    requires |keys| >= 1 && |gaps| == |keys| - 1 && AllWords(keys)
    ensures Trim(Spaced(keys, gaps)) == Spaced(keys, gaps)
  {
    assert IsWord(keys[0]) && IsWord(keys[|keys| - 1]);
    SpacedFirst(keys, gaps);
    SpacedLast(keys, gaps);
    TrimKeeps(Spaced(keys, gaps));
  }

  /** The written format of a spaced format: its runs halved once. */
  lemma {:induction false} FirstCollapse(keys: seq<string>, gaps: seq<nat>)
    requires |keys| >= 1 && |gaps| == |keys| - 1 && AllWords(keys)
    ensures CollapseSpacePairs(Trim(Spaced(keys, gaps))) == Spaced(keys, HalvedRuns(gaps))
  {
    var s := Spaced(keys, gaps);
    SpacedTrimmed(keys, gaps);
    CollapseSpaced(keys, gaps, "");
    assert s + "" == s;
    assert CollapseSpacePairs("") == "";
    assert Spaced(keys, HalvedRuns(gaps)) + "" == Spaced(keys, HalvedRuns(gaps));
  }

  /** Collapsing a spaced format again, with or without a "." added, leaves
      the spaces of its runs halved once more. */
  lemma {:induction false} SecondCollapse(keys: seq<string>, h: seq<nat>, dot: bool)
    requires |keys| >= 1 && |h| == |keys| - 1 && AllWords(keys)
    ensures var f := Spaced(keys, h);
            Spaces(CollapseSpacePairs(if dot then f + "." else f)) == RunsTotal(HalvedRuns(h))
  {
    var f := Spaced(keys, h);
    var hh := HalvedRuns(h);
    SpacedSpaces(keys, hh);
    if dot {
      CollapseSpaced(keys, h, ".");
      assert CollapseSpacePairs(".") == ".";
      OccurrencesAppend(Spaced(keys, hh), ".", ' ');
      assert Occurrences(".", ' ') == 0;
    } else {
      CollapseSpaced(keys, h, "");
      assert f + "" == f;
      assert CollapseSpacePairs("") == "";
      assert Spaced(keys, hh) + "" == Spaced(keys, hh);
    }
  }

  /** The column count of a spaced format: one plus its runs after two
      halvings, whether or not the last key ends in ".". */
  lemma {:induction false} ColumnCountOfSpaced(keys: seq<string>, gaps: seq<nat>)
    requires |keys| >= 1 && |gaps| == |keys| - 1 && AllWords(keys)
    ensures ColumnCount(Spaced(keys, gaps)) == 1 + RunsTotal(HalvedRuns(HalvedRuns(gaps)))
  {
    var h := HalvedRuns(gaps);
    var f := Spaced(keys, h);
    FirstCollapse(keys, gaps);
    SecondCollapse(keys, h, !EndsWith(f, "."));
  }

  /** A run of g spaces, halved twice, is ceil(g/4) spaces. */
  lemma {:induction false} QuarteredRuns(gaps: seq<nat>)
    ensures var q := HalvedRuns(HalvedRuns(gaps));
            |q| == |gaps| && forall i :: 0 <= i < |gaps| ==> q[i] == (gaps[i] + 3) / 4
  {
  }

  /** Runs that are all one long total their number. */
  lemma {:induction false} RunsTotalOfOnes(q: seq<nat>)
    requires forall i :: 0 <= i < |q| ==> q[i] == 1
    ensures RunsTotal(q) == |q|
    decreases |q|
  {
    if q != [] {
      RunsTotalOfOnes(q[1..]);
    }
  }

  /** Runs at least one long, one of them at least two, total more than
      their number. */
  lemma {:induction false} RunsTotalWithLongRun(q: seq<nat>, j: nat)
    requires forall i :: 0 <= i < |q| ==> q[i] >= 1
    requires j < |q| && q[j] >= 2
    ensures RunsTotal(q) > |q|
    decreases |q|
  {
    if j == 0 {
      RunsTotalAtLeast(q[1..]);
    } else {
      RunsTotalWithLongRun(q[1..], j - 1);
    }
  }

  lemma {:induction false} RunsTotalAtLeast(q: seq<nat>)
    requires forall i :: 0 <= i < |q| ==> q[i] >= 1
    ensures RunsTotal(q) >= |q|
    decreases |q|
  {
    if q != [] {
      RunsTotalAtLeast(q[1..]);
    }
  }

  /** Keys separated by runs of one to four spaces count one column per
      key. */
  lemma {:induction false} ColumnCountOfNarrowRuns(keys: seq<string>, gaps: seq<nat>)
    requires |keys| >= 1 && |gaps| == |keys| - 1 && AllWords(keys)
    requires forall i :: 0 <= i < |gaps| ==> 1 <= gaps[i] <= 4
    ensures ColumnCount(Spaced(keys, gaps)) == |keys|
  {
    ColumnCountOfSpaced(keys, gaps);
    QuarteredRuns(gaps);
    RunsTotalOfOnes(HalvedRuns(HalvedRuns(gaps)));
  }

  /** A run of five or more spaces between two keys counts more columns than
      there are keys. */
  lemma {:induction false} ColumnCountOfWideRun(keys: seq<string>, gaps: seq<nat>, j: nat)
    requires |keys| >= 1 && |gaps| == |keys| - 1 && AllWords(keys)
    requires forall i :: 0 <= i < |gaps| ==> gaps[i] >= 1
    requires j < |gaps| && gaps[j] >= 5
    ensures ColumnCount(Spaced(keys, gaps)) > |keys|
  {
    ColumnCountOfSpaced(keys, gaps);
    QuarteredRuns(gaps);
    RunsTotalWithLongRun(HalvedRuns(HalvedRuns(gaps)), j);
  }

  /** The format "l     r" is the keys "l" and "r" five spaces apart. */
  lemma {:induction false} FiveSpacesSpaced()
    ensures Spaced(["l", "r"], [5]) == "l     r"
  {
    assert SpaceRun(5) == "     ";
    assert ["l", "r"][1..] == ["r"];
  }

  /** Five spaces collapsed twice leave two. */
  lemma {:induction false} FiveSpacesQuartered()
    ensures RunsTotal(HalvedRuns(HalvedRuns([5]))) == 2
  {
    QuarteredRuns([5]);
    var q := HalvedRuns(HalvedRuns([5]));
    assert q == [2];
    assert q[1..] == [];
  }

  /** The format "l     r": two keys and five spaces count three columns. */
  lemma {:induction false} ColumnCountFiveSpaces()
    ensures ColumnCount("l     r") == 3
  {
    var keys := ["l", "r"];
    assert IsWord(keys[0]) && IsWord(keys[1]);
    FiveSpacesSpaced();
    ColumnCountOfSpaced(keys, [5]);
    FiveSpacesQuartered();
  }
}
