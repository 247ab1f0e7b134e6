/**
 Worked inputs for the projection: a single-base substitution, a one-base
 insertion, an overlapping pair of records and a two-base insertion, each on
 the reference "ACGTACGT" with one sample (two haplotypes), padded as the
 source pads.
 */
module Scenarios {
  import opened Alleles
  import opened Projection

  const Ref: string := "ACGTACGT"

  /** A SNP G>T at position 2, genotype 0|1: only the second haplotype changes. */
  lemma SnpScenario()
    ensures var r := Run(AsWritten, Ref, 2, Start(2), [Variant(2, ["G", "T"], [0, 1])]);
      r.Running? && r.c.nvars == 1 && r.c.nskipvars == 0 &&
      Output(Ref, r.c, 0) == "ACGTACGT\n" && Output(Ref, r.c, 1) == "ACTTACGT\n"
  {
  }

  /**
   An insertion G>GA at position 2, genotype 0|1: the reference allele is
   padded to "G-", and both haplotypes have the same length.
   */
  lemma InsertionScenario()
    ensures var r := Run(AsWritten, Ref, 2, Start(2), [Variant(2, ["G", "GA"], [0, 1])]);
      r.Running? &&
      Output(Ref, r.c, 0) == "ACG-TACGT\n" && Output(Ref, r.c, 1) == "ACGATACGT\n"
  {
  }

  /**
   A two-base reference allele "GT" at position 2 followed by a record at
   position 3: the second record overlaps the first, is counted and skipped,
   and only the first one shows in the output.
   */
  lemma OverlapScenario()
    ensures var r := Run(AsWritten, Ref, 2, Start(2),
                         [Variant(2, ["GT", "G"], [0, 1]), Variant(3, ["T", "A"], [1, 1])]);
      r.Running? && r.c.nvars == 2 && r.c.nskipvars == 1 &&
      Output(Ref, r.c, 0) == "ACGTACGT\n" && Output(Ref, r.c, 1) == "ACG-ACGT\n"
  {
  }

  /**
   A two-base insertion G>GAA at position 2, genotype 0|1. As written, the
   reference allele is padded to "G-" only, so the two haplotypes come out one
   column apart; the intended padding "G--" keeps them the same length.
   */
  lemma WideInsertionScenario()
    ensures var r := Run(AsWritten, Ref, 2, Start(2), [Variant(2, ["G", "GAA"], [0, 1])]);
      r.Running? &&
      Output(Ref, r.c, 0) == "ACG-TACGT\n" && Output(Ref, r.c, 1) == "ACGAATACGT\n" &&
      |Output(Ref, r.c, 0)| == 10 != 11 == |Output(Ref, r.c, 1)|
    ensures var r := Run(Intended, Ref, 2, Start(2), [Variant(2, ["G", "GAA"], [0, 1])]);
      r.Running? &&
      Output(Ref, r.c, 0) == "ACG--TACGT\n" && Output(Ref, r.c, 1) == "ACGAATACGT\n"
  {
  }
}
