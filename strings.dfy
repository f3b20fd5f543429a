/** Java string operations the model needs, on `string` = `seq<char>`. */
module Strings {

  /** `s.startsWith(prefix)`. */
  predicate StartsWith(s: string, prefix: string) {
    |prefix| <= |s| && s[..|prefix|] == prefix
  }

  /** `s.endsWith(suffix)`. */
  predicate EndsWith(s: string, suffix: string) {
    |suffix| <= |s| && s[|s| - |suffix|..] == suffix
  }

  /** The number of times `c` occurs in `s`. */
  function Occurrences(s: string, c: char): (n: nat)
    ensures n <= |s|
    ensures c !in s ==> n == 0
  {
    if |s| == 0 then 0 else Occurrences(s[..|s| - 1], c) + (if s[|s| - 1] == c then 1 else 0)
  }

  lemma {:induction false} OccurrencesAppend(a: string, b: string, c: char)
    ensures Occurrences(a + b, c) == Occurrences(a, c) + Occurrences(b, c)
    decreases |b|
  {
    if |b| > 0 {
      assert (a + b)[..|a + b| - 1] == a + b[..|b| - 1];
      OccurrencesAppend(a, b[..|b| - 1], c);
    } else {
      assert a + b == a;
    }
  }

  /** The cells joined with `sep` between neighbours, as a StringBuilder
      builds them by appending the separator before every cell but the first. */
  function Join(cells: seq<string>, sep: string): string
    decreases |cells|
  {
    if |cells| == 0 then ""
    else if |cells| == 1 then cells[0]
    else Join(cells[..|cells| - 1], sep) + sep + cells[|cells| - 1]
  }

  /** Appending one cell to a joined row. */
  lemma JoinSnoc(cells: seq<string>, cell: string, sep: string)
    ensures Join(cells + [cell], sep) == if cells == [] then cell else Join(cells, sep) + sep + cell
  {
    assert (cells + [cell])[..|cells|] == cells;
  }

  /** A row of n cells holds n - 1 separators when no cell contains one. */
  lemma {:induction false} JoinOccurrences(cells: seq<string>, sep: char)
    requires |cells| >= 1
    requires forall i :: 0 <= i < |cells| ==> sep !in cells[i]
    ensures Occurrences(Join(cells, [sep]), sep) == |cells| - 1
    decreases |cells|
  {
    if |cells| > 1 {
      var init := cells[..|cells| - 1];
      JoinOccurrences(init, sep);
      OccurrencesAppend(Join(init, [sep]), [sep], sep);
      OccurrencesAppend(Join(init, [sep]) + [sep], cells[|cells| - 1], sep);
      assert Occurrences([sep], sep) == 1 by {
        assert [sep][..0] == [];
      }
    }
  }
}
