/** Three sample videos and the removal facts the concrete runs about them need. */
module Samples {
  import opened Library

  const A: Video := Video("a", "A", "ch", "")
  const B: Video := Video("b", "B", "ch", "")
  const C: Video := Video("c", "C", "ch", "")

  lemma WithoutSamples()
    ensures Without([A, B, C], "a") == [B, C]
    ensures Without([A, B, C], "b") == [A, C]
    ensures Without([B, C], "b") == [C]
    ensures Without([A, B], "a") == [B]
  {
    assert [A, B, C][1..] == [B, C];
    assert [B, C][1..] == [C];
    assert [C][1..] == [];
    assert [A, B][1..] == [B];
    assert [B][1..] == [];
  }
}
