/**
 The allele aligner of vcf2msa: given the reference allele and the first
 alternate allele of a record, right-pad the shorter one with gap symbols.

 Two versions are modelled. `AlignAllelesAsWritten` follows the loop of the
 source literally: its bound re-reads the length of the allele being padded,
 which grows on every pass, so only half the missing gaps are added.
 `AlignAlleles` is the intended behaviour (both results as long as the longer
 allele). The projection takes a `Padding` that says which of the two it uses.
 */
module Alleles {

  /** The gap symbol appended to the shorter allele. */
  const Gap: char := '-'

  function Max(a: nat, b: nat): nat {
    if a < b then b else a
  }

  /** A run of `n` gap symbols. */
  function Gaps(n: nat): (g: string)
    ensures |g| == n
    ensures forall i :: 0 <= i < n ==> g[i] == Gap
  {
    seq(n, _ => Gap)
  }

  /** `s` followed by as many gaps as it takes to reach length `n`. */
  function PadTo(s: string, n: nat): string {
    if |s| < n then s + Gaps(n - |s|) else s
  }

  /**
   The intended result of aligning a reference allele `a0` with an alternate
   allele `a1`: both come out as long as the longer one, each is its original
   text followed only by gaps, and the longer one (both, on a tie) is unchanged.
   */
  function Aligned(a0: string, a1: string): (r: (string, string))
    ensures |r.0| == |r.1| == Max(|a0|, |a1|)
    ensures r.0[..|a0|] == a0 && r.1[..|a1|] == a1
    ensures forall i :: |a0| <= i < |r.0| ==> r.0[i] == Gap
    ensures forall i :: |a1| <= i < |r.1| ==> r.1[i] == Gap
    ensures |a1| <= |a0| ==> r.0 == a0
    ensures |a0| <= |a1| ==> r.1 == a1
  {
    var n := Max(|a0|, |a1|);
    (PadTo(a0, n), PadTo(a1, n))
  }

  /**
   align_alleles with the gap count fixed before the loop: copy both alleles,
   pick the shorter (the alternate one on a tie) and append one gap per
   missing character.
   */
  method AlignAlleles(a0: string, a1: string) returns (ref: string, alt: string)
    ensures (ref, alt) == Aligned(a0, a1)
  {
    var longer, shorter := a0, a1;
    if |a0| < |a1| {
      longer, shorter := a1, a0;
    }
    ghost var original := shorter;
    var missing := |longer| - |shorter|;
    for i := 0 to missing
      invariant shorter == original + Gaps(i)
    {
      shorter := shorter + [Gap];
    }
    if |a0| < |a1| {
      ref, alt := shorter, longer;
    } else {
      ref, alt := longer, shorter;
    }
  }

  /** The number of gaps the source's loop appends for a length difference `d`. */
  function GapsAsWritten(d: nat): nat {
    (d + 1) / 2
  }

  /**
   What align_alleles computes as written: the shorter allele (the alternate
   one on a tie) receives `GapsAsWritten(d)` gaps, where `d` is the length
   difference, instead of `d`.
   */
  function AlignedAsWritten(a0: string, a1: string): (r: (string, string))
    ensures |a0| <= |r.0| <= Max(|a0|, |a1|) && |a1| <= |r.1| <= Max(|a0|, |a1|)
    ensures r.0[..|a0|] == a0 && r.1[..|a1|] == a1
    ensures forall i :: |a0| <= i < |r.0| ==> r.0[i] == Gap
    ensures forall i :: |a1| <= i < |r.1| ==> r.1[i] == Gap
    ensures |a1| <= |a0| ==> r.0 == a0
    ensures |a0| <= |a1| ==> r.1 == a1
  {
    if |a0| < |a1| then (a0 + Gaps(GapsAsWritten(|a1| - |a0|)), a1)
    else (a0, a1 + Gaps(GapsAsWritten(|a0| - |a1|)))
  }

  /** Which aligner a run of the projection pads with. */
  datatype Padding =
    | AsWritten  // the loop of vcf2msa.c as it stands
    | Intended   // the loop with its gap count fixed before it starts

  /** The padded alleles under the chosen aligner. */
  function Padded(pad: Padding, a0: string, a1: string): (string, string) {
    match pad
    case AsWritten => AlignedAsWritten(a0, a1)
    case Intended => Aligned(a0, a1)
  }

  /**
   align_alleles exactly as the loop is written: its bound is recomputed from
   the current length of the allele being padded, so the bound shrinks by one
   while the counter grows by one on every pass.
   */
  method AlignAllelesAsWritten(a0: string, a1: string) returns (ref: string, alt: string)
    ensures (ref, alt) == AlignedAsWritten(a0, a1)
  {
    var longer, shorter := a0, a1;
    if |a0| < |a1| {
      longer, shorter := a1, a0;
    }
    ghost var original := shorter;
    ghost var d := |longer| - |shorter|;
    var i := 0;
    while i < |longer| - |shorter|
      invariant shorter == original + Gaps(i)
      invariant 2 * i <= d + 1
      decreases |longer| - |shorter| - i
    {
      shorter := shorter + [Gap];
      i := i + 1;
    }
    if |a0| < |a1| {
      ref, alt := shorter, longer;
    } else {
      ref, alt := longer, shorter;
    }
  }

  /**
   The source's padding yields equally long alleles exactly when the two
   alleles differ in length by at most one, and in that case it agrees with
   the intended alignment.
   */
  lemma AsWrittenEqualLengthIff(a0: string, a1: string)
    ensures var r := AlignedAsWritten(a0, a1);
      (|r.0| == |r.1| <==> -1 <= |a0| - |a1| <= 1) &&
      (|r.0| == |r.1| ==> r == Aligned(a0, a1))
  {
  }

  /**
   A two-base insertion shows the discrepancy: the source pads "G" against
   "GAA" to "G-", one column short of the intended "G--".
   */
  lemma AsWrittenInsertionMisaligned()
    ensures AlignedAsWritten("G", "GAA") == ("G-", "GAA")
    ensures Aligned("G", "GAA") == ("G--", "GAA")
  {
    assert Gaps(1) == "-";
    assert Gaps(2) == "--";
    assert GapsAsWritten(2) == 1;
    assert "G" + "-" == "G-";
    assert "G" + "--" == "G--";
  }
}
