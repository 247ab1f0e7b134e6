/**
 vcf2msa itself: the loop over one reference sequence that appends to the
 2 * |samples| haplotype sinks. A sink is modelled as the text written to it so
 far; the array of sinks lives across reference sequences, so the method only
 appends to what each sink already holds.
 */
module Engine {
  import opened Alleles
  import opened Projection

  /** How vcf2msa ended: normally, with its two counters, or on a genotype-count mismatch. */
  datatype Status =
    | Completed(nvars: nat, nskipvars: nat)
    | GenotypeMissing(expected: nat, got: nat)

  /**
   Regrouping of appended text. Dafny knows it, but calling it at the two
   places where sinks are extended keeps those proofs within the solver's
   budget.
   */
  lemma AppendAssoc(a: string, b: string, c: string)
    ensures a + b + c == a + (b + c)
  {
  }

  /** Append the header of every sink: ">sample_1.name" to sink 2k, ">sample_2.name" to sink 2k+1. */
  method AppendHeaders(name: string, samples: seq<string>, fps: array<string>)
    requires fps.Length == 2 * |samples|
    modifies fps
    ensures forall s :: 0 <= s < fps.Length ==> fps[s] == old(fps[s]) + SinkHeader(samples, name, s)
  {
    for k := 0 to |samples|
      invariant forall s :: 0 <= s < 2 * k ==> fps[s] == old(fps[s]) + SinkHeader(samples, name, s)
      invariant forall s :: 2 * k <= s < fps.Length ==> fps[s] == old(fps[s])
    {
      fps[2 * k] := fps[2 * k] + ">" + samples[k] + "_1." + name + "\n";
      fps[2 * k + 1] := fps[2 * k + 1] + ">" + samples[k] + "_2." + name + "\n";
    }
  }

  /**
   The fan-out for an accepted record: every sink receives the untouched
   reference span `reference[ppos..npos]` and then the padded allele its
   genotype selects.
   */
  method AppendSplice(reference: string, ppos: nat, npos: int, ref: string, alt: string,
                      gts: seq<int>, fps: array<string>)
    requires ppos <= npos <= |reference| && |gts| == fps.Length
    modifies fps
    ensures forall s :: 0 <= s < fps.Length ==>
      fps[s] == old(fps[s]) + reference[ppos..npos] + Chosen(gts[s], ref, alt)
  {
    for s := 0 to fps.Length
      invariant forall t :: 0 <= t < s ==>
        fps[t] == old(fps[t]) + reference[ppos..npos] + Chosen(gts[t], ref, alt)
      invariant forall t :: s <= t < fps.Length ==> fps[t] == old(fps[t])
    {
      var allele := if gts[s] != 0 then alt else ref;
      fps[s] := fps[s] + reference[ppos..npos];
      fps[s] := fps[s] + allele;
    }
  }

  /** The flush after the loop: every sink receives the rest of the reference and a newline. */
  method AppendSuffix(reference: string, ppos: nat, fps: array<string>)
    requires ppos <= |reference|
    modifies fps
    ensures forall s :: 0 <= s < fps.Length ==> fps[s] == old(fps[s]) + reference[ppos..] + "\n"
  {
    for s := 0 to fps.Length
      invariant forall t :: 0 <= t < s ==> fps[t] == old(fps[t]) + reference[ppos..] + "\n"
      invariant forall t :: s <= t < fps.Length ==> fps[t] == old(fps[t])
    {
      fps[s] := fps[s] + reference[ppos..];
      fps[s] := fps[s] + "\n";
    }
  }

  /** Where the record loop of vcf2msa stopped: records or reference exhausted, or a genotype-count mismatch. */
  datatype LoopEnd =
    | Exhausted(ppos: nat, nvars: nat, nskipvars: nat)
    | Mismatch(expected: nat, got: nat)

  /**
   The record loop of vcf2msa: walk the records with the cursor `ppos`,
   skipping multi-allelic and overlapping records and splicing accepted ones
   into every sink, padded by the aligner `pad` selects (`AsWritten` is
   vcf2msa.c as it stands). What it appends to each sink, and where it stops,
   are those of `Run` from `Start` with the same padding.
   */
  method Walk(pad: Padding, reference: string, nsmpl: nat, records: seq<Variant>,
              fps: array<string>)
    returns (end: LoopEnd)
    requires fps.Length == 2 * nsmpl
    requires !Run(pad, reference, fps.Length, Start(fps.Length), records).Undefined?
    modifies fps
    ensures match Run(pad, reference, fps.Length, Start(fps.Length), records)
      case Running(c) =>
        end == Exhausted(c.ppos, c.nvars, c.nskipvars) &&
        forall s :: 0 <= s < fps.Length ==> fps[s] == old(fps[s]) + c.bodies[s]
      case Fatal(expected, got, c) =>
        end == Mismatch(expected, got) &&
        forall s :: 0 <= s < fps.Length ==> fps[s] == old(fps[s]) + c.bodies[s]
      case Undefined => false
  {
    ghost var whole := Run(pad, reference, fps.Length, Start(fps.Length), records);
    var ppos: nat, nvars: nat, nskipvars: nat := 0, 0, 0;
    ghost var bodies := Start(fps.Length).bodies;
    var i := 0;
    while ppos < |reference| && i < |records|
      invariant 0 <= i <= |records| && ppos <= |reference| && |bodies| == fps.Length
      invariant whole ==
        Run(pad, reference, fps.Length, Cursor(ppos, nvars, nskipvars, bodies), records[i..])
      invariant forall s :: 0 <= s < fps.Length ==> fps[s] == old(fps[s]) + bodies[s]
    {
      var rec := records[i];
      ghost var c := Cursor(ppos, nvars, nskipvars, bodies);
      ghost var step := Step(pad, reference, fps.Length, c, rec);
      assert records[i..][0] == rec && records[i..][1..] == records[i + 1..];
      assert !step.Undefined?;
      i := i + 1;
      if |rec.alleles| > 2 {
        assert step == Running(c);
        continue;
      }
      var ref, alt;
      if pad == AsWritten {
        ref, alt := AlignAllelesAsWritten(rec.alleles[0], rec.alleles[1]);
      } else {
        ref, alt := AlignAlleles(rec.alleles[0], rec.alleles[1]);
      }
      var npos := rec.pos;
      nvars := nvars + 1;
      if npos < ppos {
        nskipvars := nskipvars + 1;
        assert step == Running(Cursor(ppos, nvars, nskipvars, bodies));
        continue;
      }
      if |rec.gts| != nsmpl * 2 {
        assert whole == step && step.Fatal? && step.at.bodies == bodies;
        return Mismatch(nsmpl * 2, |rec.gts|);
      }
      assert Spliced(reference, c, npos, ref, alt, rec.gts, step.c.bodies);
      label spliced:
      AppendSplice(reference, ppos, npos, ref, alt, rec.gts, fps);
      forall s | 0 <= s < fps.Length
        ensures fps[s] == old(fps[s]) + step.c.bodies[s]
      {
        var span, allele := reference[ppos..npos], Chosen(rec.gts[s], ref, alt);
        AppendAssoc(old(fps[s]), bodies[s], span);
        AppendAssoc(old(fps[s]), bodies[s] + span, allele);
      }
      ppos := npos + |rec.alleles[0]|;
      bodies := step.c.bodies;
      assert step == Running(Cursor(ppos, nvars, nskipvars, bodies));
    }
    assert whole == Running(Cursor(ppos, nvars, nskipvars, bodies));
    return Exhausted(ppos, nvars, nskipvars);
  }

  /**
   vcf2msa for one reference sequence `name`/`reference`: write each sink's
   header, run the record loop, then flush the rest of the reference and a
   newline. The final text of every sink, and the status, are those of `Run`
   from `Start` with the same padding: `AsWritten` is the source as it stands,
   `Intended` the source with align_alleles corrected.
   */
  method Vcf2Msa(pad: Padding, name: string, reference: string, samples: seq<string>,
                 records: seq<Variant>, fps: array<string>)
    returns (status: Status)
    requires fps.Length == 2 * |samples|
    requires !Run(pad, reference, fps.Length, Start(fps.Length), records).Undefined?
    modifies fps
    ensures match Run(pad, reference, fps.Length, Start(fps.Length), records)
      case Running(c) =>
        status == Completed(c.nvars, c.nskipvars) &&
        forall s :: 0 <= s < fps.Length ==>
          fps[s] == old(fps[s]) + SinkHeader(samples, name, s) + Output(reference, c, s)
      case Fatal(expected, got, c) =>
        status == GenotypeMissing(expected, got) &&
        forall s :: 0 <= s < fps.Length ==>
          fps[s] == old(fps[s]) + SinkHeader(samples, name, s) + c.bodies[s]
      case Undefined => false
  {
    AppendHeaders(name, samples, fps);
    ghost var headed := fps[..];
    var end := Walk(pad, reference, |samples|, records, fps);
    match end
    case Mismatch(expected, got) =>
      return GenotypeMissing(expected, got);
    case Exhausted(ppos, nvars, nskipvars) =>
      ghost var c := Run(pad, reference, fps.Length, Start(fps.Length), records).c;
      AppendSuffix(reference, ppos, fps);
      forall s | 0 <= s < fps.Length
        ensures fps[s] == headed[s] + Output(reference, c, s)
      {
        AppendAssoc(headed[s] + c.bodies[s], reference[ppos..], "\n");
        AppendAssoc(headed[s], c.bodies[s], reference[ppos..] + "\n");
      }
      return Completed(nvars, nskipvars);
  }
}
