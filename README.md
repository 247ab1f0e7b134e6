# vcf2msa projection core in Dafny

vcf2msa turns a reference sequence and a sorted VCF into one aligned sequence
per sample haplotype. For each sample it writes two FASTA records, `_1` and
`_2`. Each record is the reference with that haplotype's alleles substituted in.
Gap padding (`-`) keeps insertions and deletions in the same columns across
haplotypes.

This project models the two functions that do the work:

- **`align_alleles`**: pads the shorter of a record's first two alleles with
  `-`. It lives in `alleles.dfy`, module `Alleles`.
- **`vcf2msa`**: the merge loop over one reference sequence. It is split across
  two files.
  - `projection.dfy`, module `Projection`, describes it as values.
    - A `Cursor` holds `ppos`, `nvars`, `nskipvars` and the text each sink has
      received.
    - `Step` is one pass of the `while` loop.
    - `Run` is the whole loop.
    - The lemmas state the properties of the loop.
  - `engine.dfy`, module `Engine`, is the imperative version. The output sinks
    are an `array<string>`, one entry per `FILE*`, holding what has been written
    to it so far.
    - `AppendHeaders` writes the headers.
    - `Walk` is the record loop.
    - `AppendSplice` fans an accepted record out to the sinks.
    - `AppendSuffix` flushes the rest of the reference.
    - `Vcf2Msa` chains them together. Its contract ties the final text of every
      sink, and the status it returns, to `Run`.
- `scenarios.dfy`, module `Scenarios`, works through four small inputs, padded as the
  source pads: a substitution, a one-base insertion, overlapping records, and
  a two-base insertion.

Records are `Variant(pos, alleles, gts)`:
- `pos` is 0-based.
- `alleles` lists the reference allele first.
- `gts` holds one decoded allele index per haplotype. Zero selects the reference
  allele. Any other value selects the alternate allele; this includes htslib's
  missing call.

The source has undefined behaviour on two kinds of input:
- a record with fewer than two alleles, because `allele[1]` is read
  unconditionally;
- an accepted record whose reference allele runs past the end of the reference,
  because the copies would overrun.

`Step` marks both as `Undefined`, at the point the loop actually reaches them.
`Vcf2Msa` requires that the run never gets there. Records the loop skips, or
never reads, are left unconstrained, as they are in the source.

The model keeps these behaviours of the code, which a reader might not expect:
- No record is rejected for belonging to another chromosome. The loop never
  compares a record's chromosome with the reference name, so every record of the
  VCF is projected onto every reference sequence.
- An empty allele is not an error. It is padded like any other allele.
- `align_alleles` does not always pad to the longer length. See "## Findings".
  The model keeps the as-written loop beside the corrected one. `Step`, `Run`,
  `Walk` and `Vcf2Msa` take a `Padding`:
  - `AsWritten` pads as vcf2msa.c does, and is the source's behaviour.
  - `Intended` pads with the corrected aligner.

  Every property below holds for both paddings unless its row says otherwise.
  The column-alignment lemmas hold for the source's padding only while no
  biallelic record's alleles differ in length by more than one.

## Model

| member | source | states |
|---|---|---|
| `Alleles.Aligned` | vcf2msa.c:29-42 | Intended alignment. Both results are as long as the longer allele. Each is its original allele followed only by `-`. The longer allele is unchanged, and on a tie both are unchanged. |
| `Alleles.AlignAlleles` | vcf2msa.c:29-42 | The copy-then-pad procedure, with the gap count fixed before the loop, returns exactly `Aligned(ref, alt)`. |
| `Alleles.AlignAllelesAsWritten` | vcf2msa.c:29-42 | The procedure exactly as written. The loop bound re-reads the growing length of the shorter allele, so the result is `AlignedAsWritten`: only (d+1)/2 gaps for a length difference d. |
| `Alleles.AlignedAsWritten` | vcf2msa.c:29-42 | What the source's aligner returns. Each result is its original allele followed only by `-`, and never longer than the longer allele. The longer allele is unchanged, and on a tie both are unchanged. |
| `Alleles.AsWrittenEqualLengthIff` | vcf2msa.c:35-41 | The as-written padding gives equal lengths if and only if the alleles differ in length by at most one. In that case it agrees with `Aligned`. |
| `Alleles.AsWrittenInsertionMisaligned` | vcf2msa.c:39-41 | Counterexample: "G"/"GAA" is padded to "G-"/"GAA" as written, but should be "G--"/"GAA". |
| `Projection.Start` | vcf2msa.c:47-58 | Before any record, the cursor and both counters are 0 and no sink has received body text. |
| `Projection.SinkHeader` | vcf2msa.c:54-57 | Sink 2k's header is `">" + sample[k] + "_1." + name + "\n"`. Sink 2k+1's is the same with `_2`. |
| `Projection.Step` | vcf2msa.c:60-82 | One pass of the loop, padding with the chosen aligner (vcf2msa.c:62), keeps one body per haplotype. The cursor never moves back and never passes the reference end. A fatal record reports the expected count 2·nsmpl, which differs from the count found. |
| `Projection.Run` | vcf2msa.c:59-83 | Over the whole loop, which ends without error when the records run out or the cursor reaches the reference end, there is still one body per haplotype. The cursor stays between its starting value and the reference end. A fatal stop reports the expected count 2·nsmpl, which differs from the count found. |
| `Projection.StepProgress` | vcf2msa.c:61-82 | In one pass, counters and cursor never decrease and at most one record is counted. A pass that accepts nothing leaves the cursor and sinks unchanged. An accepted record appends `reference[ppos..pos]` plus the allele chosen by `gts[s]`, as the chosen aligner padded it, to every sink `s`, and sets `ppos` to pos plus the raw reference-allele length. A fatal record writes nothing. |
| `Projection.RunProgress` | vcf2msa.c:59-83 | Over the whole loop, `ppos`, `nvars` and `nskipvars` never decrease, and skips grow no faster than counted records. Sinks are only appended to. Without an accepted record, the cursor and sinks stay put. |
| `Projection.RunAppend` | vcf2msa.c:59-83 | Streaming: running the loop over `vs + ws` is the same as running it over `vs` and then over `ws` from where it stopped. A fatal stop is final. |
| `Projection.StepKeepsColumnsAligned` | vcf2msa.c:62-82 | An accepted record that the aligner pads to equal lengths adds the same number of characters to every sink. The sinks stay column-aligned and at least as long as the reference consumed. |
| `Projection.RunKeepsColumnsAligned` | vcf2msa.c:59-83 | If every record is padded to equal lengths, the whole loop keeps every sink the same length. This holds when the loop ends normally and up to a fatal record. |
| `Projection.BalancedIff` | vcf2msa.c:29-42 | The intended aligner pads every biallelic record to equal lengths. The source's aligner does so exactly when the two alleles differ in length by at most one. |
| `Projection.SkipsBounded` | vcf2msa.c:61-70 | On every input and under either padding, from the start, `nskipvars <= nvars` when the loop ends normally, because a record is counted before it can be skipped. |
| `Projection.FinalOutputsAligned` | vcf2msa.c:58-87 | Under the intended padding, or under the source's padding when no biallelic record's alleles differ in length by more than one: from the start, `nskipvars <= nvars`, and every sink's final text has the same length, at least the reference length plus one. |
| `Projection.RunKeepsBodiesAtCursor` | vcf2msa.c:59-83 | When every biallelic record's two alleles have the same length, every body stays exactly as long as the reference the cursor has consumed, under either padding. |
| `Projection.NoIndelsKeepReferenceLength` | vcf2msa.c:58-87 | Without indels, from the start each body's length equals `ppos`, and every sink's final text is exactly the reference length plus one. |
| `Projection.NoAcceptedRecordCopiesReference` | vcf2msa.c:84-87 | With no accepted record, every sink's body is exactly the reference followed by "\n". |
| `Projection.RecordsPastTheEndIgnored` | vcf2msa.c:59 | Once the cursor reaches the end of the reference, later records are not read and change nothing. |
| `Projection.FatalIsFinal` | vcf2msa.c:71-75 | After a genotype-count mismatch, later records change nothing. |
| `Projection.MultiAllelicIgnored` | vcf2msa.c:61 | A record with more than two alleles is dropped before counting. Neither counter changes, nothing is written and the cursor stays. |
| `Projection.OverlappingSkipped` | vcf2msa.c:63-70 | A biallelic record before the cursor increments `nvars` and `nskipvars`. Nothing is written and `ppos` is unchanged. |
| `Projection.GenotypeMismatchIsFatal` | vcf2msa.c:71-75 | An accepted record whose genotype count is not the number of haplotypes stops the run with that error, before anything is written for it. |
| `Projection.AcceptedSpliced` | vcf2msa.c:62-82 | A biallelic record at the cursor (pos == ppos included) or after it is accepted. It counts in `nvars` only. Each sink gets the reference span and then its chosen allele, as the chosen aligner padded it. The cursor advances by the raw reference-allele length. |
| `Engine.AppendHeaders` | vcf2msa.c:54-57 | Appends `SinkHeader` to every sink and nothing else. |
| `Engine.AppendSplice` | vcf2msa.c:77-81 | Appends `reference[ppos..npos]`, then the alternate allele if `gts[s] != 0` and the reference allele otherwise, to every sink `s`. |
| `Engine.AppendSuffix` | vcf2msa.c:84-87 | Appends `reference[ppos..]` and "\n" to every sink. |
| `Engine.Walk` | vcf2msa.c:58-83 | The `while` loop over records calls `AlignAllelesAsWritten` under `AsWritten` and `AlignAlleles` under `Intended`. It appends exactly the bodies of `Run` from `Start`, with the same padding, to every sink. It returns `Run`'s final cursor and counters, or the mismatch that stopped it. |
| `Engine.Vcf2Msa` | vcf2msa.c:45-90 | With `AsWritten` this is vcf2msa.c itself, and with `Intended` it is the corrected program. After the call, every sink holds its previous text, then its header, then `Output` of the `Run` with the same padding: the body, the rest of the reference and "\n". On a genotype-count mismatch, each sink holds its header and the body written so far, and the error is returned. |
| `Scenarios.SnpScenario` | vcf2msa.c:77-87 | Reference "ACGTACGT" with SNP G>T at position 2 and genotype 0/1 gives "ACGTACGT\n" and "ACTTACGT\n". |
| `Scenarios.InsertionScenario` | vcf2msa.c:77-87 | Insertion G>GA at position 2 with genotype 0/1 gives "ACG-TACGT\n" and "ACGATACGT\n". |
| `Scenarios.WideInsertionScenario` | vcf2msa.c:62-87 | Counterexample at the level of the whole loop. Insertion G>GAA at position 2 with genotype 0/1 gives "ACG-TACGT\n" (10 characters) and "ACGAATACGT\n" (11) as written. With the intended padding it gives "ACG--TACGT\n" and "ACGAATACGT\n". |
| `Scenarios.OverlapScenario` | vcf2msa.c:63-87 | With "GT">"G" at position 2 and a record at position 3, the second record is counted and skipped (nvars 2, nskipvars 1). Only the first record shows in the output. |

## Left out

- `main` and `open_vcf` (vcf2msa.c:20-27, 92-136) are not part of this model. They cover argument checking, FASTA reading through zlib/kseq, opening the VCF through htslib, naming the output files, and `fopen`/`fclose`. All of this is I/O and foreign-library code.
- The VCF is reopened for every reference sequence (vcf2msa.c:125-128). Instead, the caller passes the full record list to each call.
- htslib decoding (`bcf_read`, `bcf_unpack`, `bcf_get_genotypes`, the `bcf_gt_allele` bit encoding) is not modelled. Records arrive already decoded, and the genotype count is the length of `gts`.
- The stderr summary line (vcf2msa.c:88) is a floating-point ratio that is never multiplied by 100, and it divides by zero when `nvars` is 0. It is diagnostics only. The two integer counters are returned in `Completed` instead.
- The fixed 512-byte `ref`/`alt` buffers and their `strcpy`/`strcat` overflow are not modelled. Alleles are unbounded strings.
- `int` cursor, positions and counters are unbounded in the model. 32-bit overflow is not modelled, because it needs more than 2^31 records or bases.
- `exit(1)` on a genotype-count mismatch is modelled as the returned `GenotypeMissing` status. The sinks keep what was written before that record; `exit` flushes it.
- The `nfps` parameter of `vcf2msa` is unused by the source and is not modelled. The number of sinks comes from the sample list.
- Output buffering is not modelled: each sink is the sequence of characters written to it.

## Findings

| source | as written | input that shows it | evidently intended | confidence | as-written member | corrected member |
|---|---|---|---|---|---|---|
| vcf2msa.c:39-41 | The loop condition `i < strlen(longer) - strlen(shorter)` is re-evaluated after every `strcat`. The shorter allele grows by one while `i` also grows by one, so only (d+1)/2 gaps are appended for a length difference d. | Alleles "G" and "GAA" give "G-" and "GAA", lengths 2 and 3 (lemma `Alleles.AsWrittenInsertionMisaligned`). On reference "ACGTACGT" with genotype 0/1, the two haplotype sinks get 10 and 11 characters (lemma `Scenarios.WideInsertionScenario`), which breaks column alignment. | Pad the shorter allele with all d gaps, so both alleles have the longer length. | not executed | `Alleles.AlignAllelesAsWritten` | `Alleles.AlignAlleles` |
