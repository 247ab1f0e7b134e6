/**
 The merge of vcf2msa over one reference sequence, as values: a cursor over the
 reference, the two counters, and the body text each haplotype sink has received
 so far. `Step` is one pass of the source's while loop, `Run` the whole loop.
 Both take the `Padding` to pad alleles with: `AsWritten` is what vcf2msa.c
 does, `Intended` what its aligner was meant to do.
 */
module Projection {
  import opened Alleles

  /**
   One VCF record: its 0-based position, its alleles (reference first) and its
   genotypes already decoded to allele indices, one per haplotype
   (0 is the reference allele; anything else, a missing call too, selects the
   alternate allele).
   */
  datatype Variant = Variant(pos: int, alleles: seq<string>, gts: seq<int>)

  /**
   The loop state: `ppos` is the end of the reference already written,
   `nvars` and `nskipvars` the source's counters, and `bodies[s]` the text
   written to haplotype sink `s` after its header.
   */
  datatype Cursor = Cursor(ppos: nat, nvars: nat, nskipvars: nat, bodies: seq<string>)

  /**
   Where the loop is: still running, stopped by a genotype-count mismatch
   (with the state reached before that record), or at an input on which the
   source has undefined behaviour (a record read with fewer than two alleles,
   or an accepted record whose reference allele runs past the reference end).
   */
  datatype Outcome =
    | Running(c: Cursor)
    | Fatal(expected: nat, got: nat, at: Cursor)
    | Undefined

  /** The state before the first record: nothing written, cursor at 0. */
  function Start(nhap: nat): (c: Cursor)
    ensures |c.bodies| == nhap && forall s :: 0 <= s < nhap ==> c.bodies[s] == []
  {
    Cursor(0, 0, 0, seq(nhap, _ => []))
  }

  /** The allele a haplotype with genotype `gt` receives. */
  function Chosen(gt: int, ref: string, alt: string): string {
    if gt != 0 then alt else ref
  }

  /** Number of records accepted so far: counted and not skipped. */
  function Accepted(c: Cursor): int {
    c.nvars - c.nskipvars
  }

  /**
   Every body of `next` extends the same body of `c` by the same reference
   span `reference[c.ppos..pos]` followed by the allele chosen by that
   haplotype's genotype.
   */
  ghost predicate Spliced(reference: string, c: Cursor, pos: int, ref: string, alt: string,
                          gts: seq<int>, next: seq<string>)
    requires 0 <= c.ppos <= pos <= |reference|
  {
    |next| == |c.bodies| == |gts| &&
    forall s :: 0 <= s < |next| ==>
      next[s] == c.bodies[s] + reference[c.ppos..pos] + Chosen(gts[s], ref, alt)
  }

  /** One pass of the loop of vcf2msa on record `v`. */
  function Step(pad: Padding, reference: string, nhap: nat, c: Cursor, v: Variant): (r: Outcome)
    requires |c.bodies| == nhap && c.ppos <= |reference|
    ensures r.Running? ==> |r.c.bodies| == nhap && c.ppos <= r.c.ppos <= |reference|
    ensures r.Fatal? ==> r.expected == nhap != r.got && r.at.ppos == c.ppos && |r.at.bodies| == nhap
  {
    if |v.alleles| > 2 then Running(c)
    else if |v.alleles| < 2 then Undefined
    else
      var counted := c.(nvars := c.nvars + 1);
      if v.pos < c.ppos then Running(counted.(nskipvars := c.nskipvars + 1))
      else if |v.gts| != nhap then Fatal(nhap, |v.gts|, counted)
      else if v.pos + |v.alleles[0]| > |reference| then Undefined
      else
        var (ref, alt) := Padded(pad, v.alleles[0], v.alleles[1]);
        var next := seq(nhap, s requires 0 <= s < nhap =>
                          c.bodies[s] + reference[c.ppos..v.pos] + Chosen(v.gts[s], ref, alt));
        Running(counted.(ppos := v.pos + |v.alleles[0]|, bodies := next))
  }

  /**
   The whole loop: it stops when the cursor reaches the end of the reference
   or the records run out (neither is an error), or at a fatal record.
   */
  function Run(pad: Padding, reference: string, nhap: nat, c: Cursor,
               vs: seq<Variant>): (r: Outcome)
    requires |c.bodies| == nhap && c.ppos <= |reference|
    ensures r.Running? ==> |r.c.bodies| == nhap && c.ppos <= r.c.ppos <= |reference|
    ensures r.Fatal? ==> r.expected == nhap != r.got && |r.at.bodies| == nhap && r.at.ppos <= |reference|
    decreases |vs|
  {
    if vs == [] || c.ppos >= |reference| then Running(c)
    else
      match Step(pad, reference, nhap, c, vs[0])
      case Running(next) => Run(pad, reference, nhap, next, vs[1..])
      case stopped => stopped
  }

  /** The text a sink receives after its header once the loop has ended in `c`. */
  function Output(reference: string, c: Cursor, s: nat): string
    requires c.ppos <= |reference| && s < |c.bodies|
  {
    c.bodies[s] + reference[c.ppos..] + "\n"
  }

  /** The header line of haplotype `hap` (1 or 2) of a sample. */
  function Header(sample: string, hap: char, name: string): string {
    ">" + sample + "_" + [hap] + "." + name + "\n"
  }

  /** The header of sink `s`: sinks 2k and 2k+1 belong to sample k. */
  function SinkHeader(samples: seq<string>, name: string, s: nat): (h: string)
    requires s < 2 * |samples|
    ensures s % 2 == 0 ==> h == ">" + samples[s / 2] + "_1." + name + "\n"
    ensures s % 2 == 1 ==> h == ">" + samples[s / 2] + "_2." + name + "\n"
  {
    Header(samples[s / 2], if s % 2 == 0 then '1' else '2', name)
  }

  // ---------------------------------------------------------------------------
  // Properties of the loop

  /**
   What one pass does to the state: the counters and the cursor never go
   back, at most one record is counted, a pass that accepts nothing leaves the
   cursor and the sinks alone, and an accepted record splices its padded
   alleles in and moves the cursor past its raw reference allele. A fatal
   record writes nothing.
   */
  lemma StepProgress(pad: Padding, reference: string, nhap: nat, c: Cursor, v: Variant)
    requires |c.bodies| == nhap && c.ppos <= |reference|
    ensures var r := Step(pad, reference, nhap, c, v);
      (r.Running? ==> c.nvars <= r.c.nvars <= c.nvars + 1 && c.nskipvars <= r.c.nskipvars) &&
      (r.Running? ==> Accepted(c) <= Accepted(r.c) <= Accepted(c) + 1) &&
      (r.Running? && Accepted(r.c) == Accepted(c) ==> r.c.ppos == c.ppos && r.c.bodies == c.bodies) &&
      (r.Running? && Accepted(r.c) > Accepted(c) ==>
        |v.alleles| == 2 && c.ppos <= v.pos && r.c.ppos == v.pos + |v.alleles[0]| &&
        var (ref, alt) := Padded(pad, v.alleles[0], v.alleles[1]);
        Spliced(reference, c, v.pos, ref, alt, v.gts, r.c.bodies)) &&
      (r.Fatal? ==> r.at.bodies == c.bodies)
  {
  }

  /**
   What the whole loop does to the state: the cursor and both counters never
   decrease, the skipped count grows no faster than the counted one, the sinks
   are only appended to, and without a newly accepted record nothing moves.
   */
  lemma {:induction false} RunProgress(pad: Padding, reference: string, nhap: nat, c: Cursor,
                                       vs: seq<Variant>)
    requires |c.bodies| == nhap && c.ppos <= |reference|
    ensures var r := Run(pad, reference, nhap, c, vs);
      (r.Running? ==> c.nvars <= r.c.nvars && c.nskipvars <= r.c.nskipvars) &&
      (r.Running? ==> Accepted(c) <= Accepted(r.c)) &&
      (r.Running? && Accepted(r.c) == Accepted(c) ==> r.c.ppos == c.ppos && r.c.bodies == c.bodies) &&
      (r.Running? ==> forall s :: 0 <= s < nhap ==> c.bodies[s] <= r.c.bodies[s])
    decreases |vs|
  {
    if vs != [] && c.ppos < |reference| {
      StepProgress(pad, reference, nhap, c, vs[0]);
      match Step(pad, reference, nhap, c, vs[0])
      case Running(next) =>
        RunProgress(pad, reference, nhap, next, vs[1..]);
        var r := Run(pad, reference, nhap, next, vs[1..]);
        if r.Running? {
          forall s | 0 <= s < nhap ensures c.bodies[s] <= r.c.bodies[s] {
            assert c.bodies[s] <= next.bodies[s];
          }
        }
      case _ =>
    }
  }

  /** Consuming a stream in two pieces is the same as consuming it at once. */
  lemma {:induction false} RunAppend(pad: Padding, reference: string, nhap: nat, c: Cursor,
                                     vs: seq<Variant>, ws: seq<Variant>)
    requires |c.bodies| == nhap && c.ppos <= |reference|
    ensures Run(pad, reference, nhap, c, vs + ws) ==
      match Run(pad, reference, nhap, c, vs)
      case Running(next) => Run(pad, reference, nhap, next, ws)
      case stopped => stopped
    decreases |vs|
  {
    if vs == [] {
      assert vs + ws == ws;
    } else if c.ppos < |reference| {
      assert (vs + ws)[0] == vs[0] && (vs + ws)[1..] == vs[1..] + ws;
      match Step(pad, reference, nhap, c, vs[0])
      case Running(next) => RunAppend(pad, reference, nhap, next, vs[1..], ws);
      case _ =>
    }
  }

  /**
   The column invariant: every sink has received the same number of body
   characters, never fewer than the reference characters consumed.
   */
  ghost predicate ColumnsAligned(nhap: nat, c: Cursor) {
    |c.bodies| == nhap &&
    forall s, t :: 0 <= s < nhap && 0 <= t < nhap ==>
      |c.bodies[s]| == |c.bodies[t]| && c.ppos <= |c.bodies[s]|
  }

  /**
   A record the chosen aligner pads to two equally long alleles (a record
   that is not biallelic is never padded).
   */
  ghost predicate Balanced(pad: Padding, v: Variant) {
    |v.alleles| == 2 ==>
      var (ref, alt) := Padded(pad, v.alleles[0], v.alleles[1]);
      |ref| == |alt|
  }

  /**
   Every biallelic record's alleles differ in length by at most one: the
   records on which the source's padding is the intended one.
   */
  ghost predicate ShortIndels(vs: seq<Variant>) {
    forall i :: 0 <= i < |vs| && |vs[i].alleles| == 2 ==>
      -1 <= |vs[i].alleles[0]| - |vs[i].alleles[1]| <= 1
  }

  /** One pass of the loop on a balanced record keeps the sinks column-aligned. */
  lemma StepKeepsColumnsAligned(pad: Padding, reference: string, nhap: nat, c: Cursor, v: Variant)
    requires c.ppos <= |reference| && ColumnsAligned(nhap, c) && Balanced(pad, v)
    ensures var r := Step(pad, reference, nhap, c, v);
      r.Running? ==> ColumnsAligned(nhap, r.c)
  {
  }

  /**
   The whole loop keeps the sinks column-aligned, also up to a fatal record,
   as long as every record is balanced.
   */
  lemma {:induction false} RunKeepsColumnsAligned(pad: Padding, reference: string, nhap: nat,
                                                  c: Cursor, vs: seq<Variant>)
    requires c.ppos <= |reference| && ColumnsAligned(nhap, c)
    requires forall i :: 0 <= i < |vs| ==> Balanced(pad, vs[i])
    ensures var r := Run(pad, reference, nhap, c, vs);
      (r.Running? ==> ColumnsAligned(nhap, r.c)) && (r.Fatal? ==> ColumnsAligned(nhap, r.at))
    decreases |vs|
  {
    if vs != [] && c.ppos < |reference| {
      StepKeepsColumnsAligned(pad, reference, nhap, c, vs[0]);
      match Step(pad, reference, nhap, c, vs[0])
      case Running(next) =>
        assert forall i :: 0 <= i < |vs[1..]| ==> vs[1..][i] == vs[i + 1];
        RunKeepsColumnsAligned(pad, reference, nhap, next, vs[1..]);
      case _ =>
    }
  }

  /**
   The intended padding balances every record; the source's padding balances
   exactly the records whose alleles differ in length by at most one.
   */
  lemma BalancedIff(v: Variant)
    ensures Balanced(Intended, v)
    ensures Balanced(AsWritten, v) <==>
      (|v.alleles| == 2 ==> -1 <= |v.alleles[0]| - |v.alleles[1]| <= 1)
  {
  }

  /**
   From the start, on any input and under either padding, skipped records
   never outnumber counted ones: a record is counted before it can be skipped.
   */
  lemma SkipsBounded(pad: Padding, reference: string, nhap: nat, vs: seq<Variant>)
    ensures var r := Run(pad, reference, nhap, Start(nhap), vs);
      r.Running? ==> r.c.nskipvars <= r.c.nvars
  {
    RunProgress(pad, reference, nhap, Start(nhap), vs);
  }

  /**
   From the start, under the intended padding or when no biallelic record has
   alleles differing in length by more than one: skipped records never
   outnumber counted ones (`SkipsBounded` states this without the condition),
   and every sink's final text has the same length, at least one more than the
   reference.
   */
  lemma FinalOutputsAligned(pad: Padding, reference: string, nhap: nat, vs: seq<Variant>)
    requires pad == Intended || ShortIndels(vs)
    ensures var r := Run(pad, reference, nhap, Start(nhap), vs);
      r.Running? ==>
        r.c.nskipvars <= r.c.nvars &&
        forall s, t :: 0 <= s < nhap && 0 <= t < nhap ==>
          |Output(reference, r.c, s)| == |Output(reference, r.c, t)| >= |reference| + 1
  {
    forall i | 0 <= i < |vs| ensures Balanced(pad, vs[i]) {
      BalancedIff(vs[i]);
    }
    RunKeepsColumnsAligned(pad, reference, nhap, Start(nhap), vs);
    RunProgress(pad, reference, nhap, Start(nhap), vs);
  }

  /** Every biallelic record has two alleles of the same length. */
  ghost predicate NoIndels(vs: seq<Variant>) {
    forall i :: 0 <= i < |vs| && |vs[i].alleles| == 2 ==> |vs[i].alleles[0]| == |vs[i].alleles[1]|
  }

  /** Every body is exactly as long as the reference the cursor has consumed. */
  ghost predicate BodiesAtCursor(c: Cursor) {
    forall s :: 0 <= s < |c.bodies| ==> |c.bodies[s]| == c.ppos
  }

  /** Without indels, the loop keeps every body as long as the reference consumed. */
  lemma {:induction false} RunKeepsBodiesAtCursor(pad: Padding, reference: string, nhap: nat,
                                                  c: Cursor, vs: seq<Variant>)
    requires |c.bodies| == nhap && c.ppos <= |reference| && BodiesAtCursor(c) && NoIndels(vs)
    ensures var r := Run(pad, reference, nhap, c, vs);
      (r.Running? ==> BodiesAtCursor(r.c)) && (r.Fatal? ==> BodiesAtCursor(r.at))
    decreases |vs|
  {
    if vs != [] && c.ppos < |reference| {
      var v := vs[0];
      if |v.alleles| == 2 {
        assert |v.alleles[0]| == |v.alleles[1]|;
      }
      match Step(pad, reference, nhap, c, v)
      case Running(next) =>
        assert forall i :: 0 <= i < |vs[1..]| ==> vs[1..][i] == vs[i + 1];
        RunKeepsBodiesAtCursor(pad, reference, nhap, next, vs[1..]);
      case _ =>
    }
  }

  /**
   Records without indels: nothing is padded, each sink's body is exactly as
   long as the reference consumed, and each sink's final text is as long as
   the reference plus its newline, under either padding.
   */
  lemma NoIndelsKeepReferenceLength(pad: Padding, reference: string, nhap: nat, vs: seq<Variant>)
    requires NoIndels(vs)
    ensures var r := Run(pad, reference, nhap, Start(nhap), vs);
      r.Running? ==>
        forall s :: 0 <= s < nhap ==>
          |r.c.bodies[s]| == r.c.ppos && |Output(reference, r.c, s)| == |reference| + 1
  {
    RunKeepsBodiesAtCursor(pad, reference, nhap, Start(nhap), vs);
  }

  /**
   With no accepted record (every record multi-allelic or overlapping, or none
   at all) each sink receives exactly the reference followed by a newline.
   */
  lemma NoAcceptedRecordCopiesReference(pad: Padding, reference: string, nhap: nat,
                                        vs: seq<Variant>)
    ensures var r := Run(pad, reference, nhap, Start(nhap), vs);
      r.Running? && r.c.nvars == r.c.nskipvars ==>
        forall s :: 0 <= s < nhap ==> Output(reference, r.c, s) == reference + "\n"
  {
    var r := Run(pad, reference, nhap, Start(nhap), vs);
    RunProgress(pad, reference, nhap, Start(nhap), vs);
    if r.Running? && r.c.nvars == r.c.nskipvars {
      assert r.c.ppos == 0;
      assert reference[0..] == reference;
    }
  }

  /** Once the cursor has reached the end of the reference, further records change nothing. */
  lemma RecordsPastTheEndIgnored(pad: Padding, reference: string, nhap: nat, c: Cursor,
                                 vs: seq<Variant>, ws: seq<Variant>)
    requires |c.bodies| == nhap && c.ppos <= |reference|
    requires Run(pad, reference, nhap, c, vs).Running?
    requires Run(pad, reference, nhap, c, vs).c.ppos == |reference|
    ensures Run(pad, reference, nhap, c, vs + ws) == Run(pad, reference, nhap, c, vs)
  {
    RunAppend(pad, reference, nhap, c, vs, ws);
  }

  /** A fatal record ends the run: later records are never looked at. */
  lemma FatalIsFinal(pad: Padding, reference: string, nhap: nat, c: Cursor, vs: seq<Variant>,
                     ws: seq<Variant>)
    requires |c.bodies| == nhap && c.ppos <= |reference|
    requires Run(pad, reference, nhap, c, vs).Fatal?
    ensures Run(pad, reference, nhap, c, vs + ws) == Run(pad, reference, nhap, c, vs)
  {
    RunAppend(pad, reference, nhap, c, vs, ws);
  }

  // ---------------------------------------------------------------------------
  // The fate of a single record while the cursor is inside the reference

  /** A record with more than two alleles is neither counted nor written. */
  lemma MultiAllelicIgnored(pad: Padding, reference: string, nhap: nat, c: Cursor, v: Variant,
                            rest: seq<Variant>)
    requires |c.bodies| == nhap && c.ppos < |reference| && |v.alleles| > 2
    ensures Run(pad, reference, nhap, c, [v] + rest) == Run(pad, reference, nhap, c, rest)
  {
  }

  /**
   A biallelic record starting before the cursor is counted and skipped: both
   counters grow by one, nothing is written and the cursor stays put.
   */
  lemma OverlappingSkipped(pad: Padding, reference: string, nhap: nat, c: Cursor, v: Variant,
                           rest: seq<Variant>)
    requires |c.bodies| == nhap && c.ppos < |reference| && |v.alleles| == 2 && v.pos < c.ppos
    ensures Run(pad, reference, nhap, c, [v] + rest) ==
      Run(pad, reference, nhap, c.(nvars := c.nvars + 1, nskipvars := c.nskipvars + 1), rest)
  {
  }

  /**
   A biallelic record at or after the cursor whose genotype count differs from
   the number of haplotypes stops the run before anything is written for it.
   */
  lemma GenotypeMismatchIsFatal(pad: Padding, reference: string, nhap: nat, c: Cursor, v: Variant,
                                rest: seq<Variant>)
    requires |c.bodies| == nhap && c.ppos < |reference| && |v.alleles| == 2
    requires c.ppos <= v.pos && |v.gts| != nhap
    ensures Run(pad, reference, nhap, c, [v] + rest) == Fatal(nhap, |v.gts|, c.(nvars := c.nvars + 1))
  {
  }

  /**
   A biallelic record at or after the cursor (at the cursor included) with the
   right genotype count is accepted: each sink receives the reference up to the
   record and then its padded allele, and the cursor moves past the raw
   reference allele, whatever the padded length.
   */
  lemma AcceptedSpliced(pad: Padding, reference: string, nhap: nat, c: Cursor, v: Variant,
                        rest: seq<Variant>)
    requires |c.bodies| == nhap && c.ppos < |reference| && |v.alleles| == 2
    requires c.ppos <= v.pos && |v.gts| == nhap && v.pos + |v.alleles[0]| <= |reference|
    ensures var r := Step(pad, reference, nhap, c, v);
      r.Running? && r.c.nvars == c.nvars + 1 && r.c.nskipvars == c.nskipvars &&
      r.c.ppos == v.pos + |v.alleles[0]| &&
      (var (ref, alt) := Padded(pad, v.alleles[0], v.alleles[1]);
       Spliced(reference, c, v.pos, ref, alt, v.gts, r.c.bodies)) &&
      Run(pad, reference, nhap, c, [v] + rest) == Run(pad, reference, nhap, r.c, rest)
  {
  }
}
