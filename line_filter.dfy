/** Line-by-line properties of the comment filter of classes.py
    (Classes.StripLines): it keeps or drops each line on its own, in
    input order. */
module LineFilter {
  import opened Classes

  /** A single line is kept exactly when it is neither empty nor a comment. */
  lemma StripLinesSingle(line: string)
    ensures StripLines([line]) == if Kept(line) then [line] else []
  {
    assert [line][..0] == [];
  }

  /** The filter works line by line: filtering a concatenation is the
      concatenation of the filtered parts, so with StripLinesSingle the
      result is fixed, order and repetitions included. */
  lemma {:induction false} StripLinesAppend(a: seq<string>, b: seq<string>)
    ensures StripLines(a + b) == StripLines(a) + StripLines(b)
    decreases |b|
  {
    if b == [] {
      assert a + b == a;
    } else {
      var binit, last := b[..|b| - 1], b[|b| - 1];
      assert (a + b)[..|a + b| - 1] == a + binit;
      assert (a + b)[|a + b| - 1] == last;
      StripLinesAppend(a, binit);
    }
  }
}
