/** Preparation of per-read calibration data: reading basecall records with
    an optional cap, interpreting an alignment summary under one of two column
    schemas, joining each basecall to its best alignment, and filtering reads by
    alignment, coverage and quality before the regression. */
module CalibrateQscores {
  import opened Wrappers
  import opened ArrayOps

  type ReadId = string

  function Min(a: int, b: int): int { if a <= b then a else b }

  // ---------------------------------------------------------------------------
  // Reading basecall records (read_fastqs)
  // ---------------------------------------------------------------------------

  /** One record of a quality file: its read identifier and its per-base phred scores. */
  datatype FastqRecord = FastqRecord(id: ReadId, quality: seq<nat>)

  /** All records of all files, in file order and record order. */
  function Flatten(files: seq<seq<FastqRecord>>): (r: seq<FastqRecord>)
    ensures |files| > 0 ==> |r| >= |files[0]|
  {
    if |files| == 0 then [] else Flatten(files[..|files| - 1]) + files[|files| - 1]
  }

  /** The records of the first `i` files, followed by the first `j` records of
      file `i`, are the first records of all files. */
  lemma {:induction false} FlattenPrefix(files: seq<seq<FastqRecord>>, i: nat, j: nat)
    requires i < |files| && j <= |files[i]|
    ensures |Flatten(files[..i]) + files[i][..j]| <= |Flatten(files)|
    ensures Flatten(files[..i]) + files[i][..j] == Flatten(files)[..|Flatten(files[..i]) + files[i][..j]|]
  {
    var n := |files|;
    if i == n - 1 {
      assert files[..n] == files;
      assert Flatten(files) == Flatten(files[..i]) + files[i];
    } else {
      assert files[..n - 1][..i] == files[..i];
      FlattenPrefix(files[..n - 1], i, j);
      assert files[..n][..n - 1] == files[..n - 1];
    }
  }

  lemma FlattenAll(files: seq<seq<FastqRecord>>)
    ensures Flatten(files[..|files|]) == Flatten(files)
  {
    assert files[..|files|] == files;
  }

  /** How many records are kept under the cap. With no cap every record is
      kept; a cap of at least one keeps that many (or all, if fewer); a cap
      below one still keeps the first record of the first file, because the
      cap is tested only after a record has been appended, and stops after the
      first file when that file is empty. */
  function ReadCount(files: seq<seq<FastqRecord>>, maxreads: Option<int>): (c: nat)
    ensures c <= |Flatten(files)|
  {
    match maxreads
    case None => |Flatten(files)|
    case Some(m) =>
      if m >= 1 then Min(|Flatten(files)|, m)
      else if |files| == 0 || |files[0]| == 0 then 0
      else 1
  }

  /** What the three output lists hold for one record: its id, its length, and
      its mean score, which is missing for a record with no bases. */
  ghost predicate Summarises(rec: FastqRecord, id: ReadId, score: Option<real>, len: nat,
                             meanQscore: seq<nat> -> real)
  {
    && id == rec.id
    && len == |rec.quality|
    && score == (if |rec.quality| > 0 then Some(meanQscore(rec.quality)) else None)
  }

  /** The three output lists describe the first |ids| records of all files. */
  ghost predicate ReadSoFar(files: seq<seq<FastqRecord>>, ids: seq<ReadId>, scores: seq<Option<real>>,
                            lens: seq<nat>, meanQscore: seq<nat> -> real)
  {
    && |ids| <= |Flatten(files)| && |scores| == |ids| && |lens| == |ids|
    && forall k :: 0 <= k < |ids| ==> Summarises(Flatten(files)[k], ids[k], scores[k], lens[k], meanQscore)
  }

  lemma ReadSoFarSnoc(files: seq<seq<FastqRecord>>, ids: seq<ReadId>, scores: seq<Option<real>>,
                      lens: seq<nat>, meanQscore: seq<nat> -> real, rec: FastqRecord)
    requires ReadSoFar(files, ids, scores, lens, meanQscore)
    requires |ids| < |Flatten(files)| && Flatten(files)[|ids|] == rec
    ensures ReadSoFar(files, ids + [rec.id],
                      scores + [if |rec.quality| > 0 then Some(meanQscore(rec.quality)) else None],
                      lens + [|rec.quality|], meanQscore)
  {
    var ids' := ids + [rec.id];
    var scores' := scores + [if |rec.quality| > 0 then Some(meanQscore(rec.quality)) else None];
    var lens' := lens + [|rec.quality|];
    forall k | 0 <= k < |ids'| ensures Summarises(Flatten(files)[k], ids'[k], scores'[k], lens'[k], meanQscore) {
      if k < |ids| {
        assert ids'[k] == ids[k] && scores'[k] == scores[k] && lens'[k] == lens[k];
      }
    }
  }

  /** Record `j` of file `i` sits after the records of the files before it. */
  lemma FlattenAt(files: seq<seq<FastqRecord>>, i: nat, j: nat)
    requires i < |files| && j < |files[i]|
    ensures |Flatten(files[..i])| + j < |Flatten(files)|
    ensures Flatten(files)[|Flatten(files[..i])| + j] == files[i][j]
  {
    FlattenPrefix(files, i, j + 1);
    assert (Flatten(files[..i]) + files[i][..j + 1])[|Flatten(files[..i])| + j] == files[i][j];
  }

  lemma FlattenNext(files: seq<seq<FastqRecord>>, i: nat)
    requires i < |files|
    ensures |Flatten(files[..i + 1])| == |Flatten(files[..i])| + |files[i]|
  {
    assert files[..i + 1][..i] == files[..i];
  }

  /** The records of every file are read in order; for each the id, the mean
      score (computed by `meanQscore` when there is at least one base) and the
      length are appended, and reading stops once `maxreads` records have been
      taken. Parsing the files is done by the caller: each file is given as its
      list of records. */
  method ReadFastqs(files: seq<seq<FastqRecord>>, maxreads: Option<int>, meanQscore: seq<nat> -> real)
    returns (ids: seq<ReadId>, meanQscores: seq<Option<real>>, lengths: seq<nat>)
    ensures |ids| == ReadCount(files, maxreads)
    ensures |meanQscores| == |ids| && |lengths| == |ids|
    ensures forall k :: 0 <= k < |ids| ==>
              Summarises(Flatten(files)[k], ids[k], meanQscores[k], lengths[k], meanQscore)
  {
    ids, meanQscores, lengths := [], [], [];
    var i := 0;
    while i < |files|
      invariant 0 <= i <= |files|
      invariant |ids| == |Flatten(files[..i])|
      invariant ReadSoFar(files, ids, meanQscores, lengths, meanQscore)
      invariant maxreads.Some? && i > 0 ==> |ids| < maxreads.value
    {
      for j := 0 to |files[i]|
        invariant |ids| == |Flatten(files[..i])| + j
        invariant ReadSoFar(files, ids, meanQscores, lengths, meanQscore)
        invariant maxreads.Some? && (i > 0 || j > 0) ==> |ids| < maxreads.value
      {
        var record := files[i][j];
        FlattenAt(files, i, j);
        ReadSoFarSnoc(files, ids, meanQscores, lengths, meanQscore, record);
        ids := ids + [record.id];
        var scores := record.quality;
        lengths := lengths + [|scores|];
        if |scores| > 0 {
          meanQscores := meanQscores + [Some(meanQscore(scores))];
        } else {
          meanQscores := meanQscores + [None];
        }
        if maxreads.Some? && |ids| >= maxreads.value {
          break;
        }
      }
      if maxreads.Some? && |ids| >= maxreads.value {
        break;
      }
      FlattenNext(files, i);
      i := i + 1;
    }
    if i == |files| {
      FlattenAll(files);
    }
  }

  // ---------------------------------------------------------------------------
  // Alignment summary (get_alignment_data)
  // ---------------------------------------------------------------------------

  /** A table read from an alignment summary: one column per header name,
      grouped by the kind of value the column holds (NaN read as None). */
  datatype Table = Table(
    text: map<string, seq<string>>,
    ints: map<string, seq<int>>,
    reals: map<string, seq<Option<real>>>,
    rows: nat)

  /** Every column of a table has one entry per row. */
  ghost predicate Rectangular(t: Table)
  {
    && (forall c :: c in t.text ==> |t.text[c]| == t.rows)
    && (forall c :: c in t.ints ==> |t.ints[c]| == t.rows)
    && (forall c :: c in t.reals ==> |t.reals[c]| == t.rows)
  }

  function Columns(t: Table): set<string>
  {
    t.text.Keys + t.ints.Keys + t.reals.Keys
  }

  /** The columns of an alignment summary written by Guppy. */
  predicate HasGuppyColumns(t: Table)
  {
    && "read_id" in t.text
    && "alignment_accuracy" in t.reals
    && "alignment_strand_end" in t.ints
    && "alignment_strand_start" in t.ints
  }

  /** The columns of an alignment summary written by Taiyaki. */
  predicate HasTaiyakiColumns(t: Table)
  {
    && "query" in t.text
    && "accuracy" in t.reals
    && "reference_end" in t.ints
    && "reference_start" in t.ints
    && "insertion" in t.ints
    && "deletion" in t.ints
  }

  datatype Schema = Guppy | Taiyaki

  /** Per alignment: read id, accuracy (None when missing) and aligned length. */
  datatype AlignmentData = AlignmentData(
    schema: Schema, ids: seq<ReadId>, accuracies: seq<Option<real>>, lengths: seq<int>)

  /** Neither schema's columns are present; carries the columns that were found. */
  datatype SchemaError = UnrecognisedColumns(columns: set<string>)

  /** Interprets the table as a Guppy summary if it has the Guppy columns,
      otherwise as a Taiyaki summary if it has those, otherwise fails. Reading
      the file itself is left to the caller. */
  method GetAlignmentData(t: Table) returns (r: Result<AlignmentData, SchemaError>)
    requires Rectangular(t)
    ensures HasGuppyColumns(t) ==>
              && r.Success? && r.value.schema == Guppy
              && r.value.ids == t.text["read_id"]
              && |r.value.accuracies| == t.rows && |r.value.lengths| == t.rows
              && (forall k :: 0 <= k < t.rows ==>
                    r.value.lengths[k] == t.ints["alignment_strand_end"][k] - t.ints["alignment_strand_start"][k])
              && (forall k :: 0 <= k < t.rows ==>
                    var a := t.reals["alignment_accuracy"][k];
                    r.value.accuracies[k] == if a.Some? && a.value < 0.0 then None else a)
    ensures !HasGuppyColumns(t) && HasTaiyakiColumns(t) ==>
              && r.Success? && r.value.schema == Taiyaki
              && r.value.ids == t.text["query"]
              && r.value.accuracies == t.reals["accuracy"]
              && |r.value.lengths| == t.rows
              && (forall k :: 0 <= k < t.rows ==>
                    r.value.lengths[k] == t.ints["reference_end"][k] - t.ints["reference_start"][k]
                                          + t.ints["insertion"][k] - t.ints["deletion"][k])
    ensures !HasGuppyColumns(t) && !HasTaiyakiColumns(t) ==>
              r == Failure(UnrecognisedColumns(Columns(t)))
    ensures r.Success? && r.value.schema == Guppy ==>
              forall k :: 0 <= k < |r.value.accuracies| && r.value.accuracies[k].Some? ==>
                r.value.accuracies[k].value >= 0.0
  {
    if HasGuppyColumns(t) {
      var readIds := t.text["read_id"];
      var column := t.reals["alignment_accuracy"];
      var ends, starts := t.ints["alignment_strand_end"], t.ints["alignment_strand_start"];
      var alignmentLens := seq(t.rows, k requires 0 <= k < t.rows => ends[k] - starts[k]);
      var accuracies := new Option<real>[t.rows](k requires 0 <= k < t.rows => column[k]);
      forall k | 0 <= k < accuracies.Length && accuracies[k].Some? && accuracies[k].value < 0.0 {
        accuracies[k] := None;
      }
      return Success(AlignmentData(Guppy, readIds, accuracies[..], alignmentLens));
    }
    if HasTaiyakiColumns(t) {
      var readIds := t.text["query"];
      var accuracies := t.reals["accuracy"];
      var ends, starts := t.ints["reference_end"], t.ints["reference_start"];
      var ins, del := t.ints["insertion"], t.ints["deletion"];
      var alignmentLens := seq(t.rows, k requires 0 <= k < t.rows => ends[k] - starts[k] + ins[k] - del[k]);
      return Success(AlignmentData(Taiyaki, readIds, accuracies, alignmentLens));
    }
    return Failure(UnrecognisedColumns(Columns(t)));
  }

  // ---------------------------------------------------------------------------
  // Joining basecalls to alignments (merge_align_fastq_data)
  // ---------------------------------------------------------------------------

  /** `alignment_ids == fastq_id`, element-wise. */
  function EqualTo(ids: seq<ReadId>, id: ReadId): (m: seq<bool>)
    ensures |m| == |ids|
    ensures forall k :: 0 <= k < |ids| ==> m[k] == (ids[k] == id)
  {
    seq(|ids|, k requires 0 <= k < |ids| => ids[k] == id)
  }

  /** Number of alignment records for a read id. */
  function MatchCount(ids: seq<ReadId>, id: ReadId): nat
  {
    CountTrue(EqualTo(ids, id))
  }

  lemma MatchCountZero(ids: seq<ReadId>, id: ReadId)
    ensures MatchCount(ids, id) == 0 <==> forall k :: 0 <= k < |ids| ==> ids[k] != id
  {
    var idx := TrueIndices(EqualTo(ids, id));
    if MatchCount(ids, id) > 0 {
      assert ids[idx[0]] == id;
    }
  }

  /** Alignment `j` is the one chosen for `id`: it is a record for `id`; if its
      accuracy is missing, no earlier record for `id` has a missing accuracy;
      if its accuracy is present, every record for `id` has a present accuracy
      no greater, and every earlier record for `id` a strictly smaller one. */
  ghost predicate IsBestMatch(ids: seq<ReadId>, accs: seq<Option<real>>, id: ReadId, j: nat)
  {
    && |accs| == |ids|
    && j < |ids| && ids[j] == id
    && (accs[j].None? ==> forall k :: 0 <= k < j && ids[k] == id ==> accs[k].Some?)
    && (accs[j].Some? ==> forall k :: 0 <= k < |ids| && ids[k] == id ==>
                            accs[k].Some? && accs[k].value <= accs[j].value)
    && (accs[j].Some? ==> forall k :: 0 <= k < j && ids[k] == id ==>
                            accs[k].Some? && accs[k].value < accs[j].value)
  }

  /** The accuracy and length the join gives the read `id`: missing and -1
      when no alignment has that id, otherwise those of its best alignment. */
  ghost predicate Merged(ids: seq<ReadId>, accs: seq<Option<real>>, lens: seq<int>, id: ReadId,
                         acc: Option<real>, len: int)
  {
    && |accs| == |ids| && |lens| == |ids|
    && ((forall k :: 0 <= k < |ids| ==> ids[k] != id) ==> acc == None && len == -1)
    && ((exists k :: 0 <= k < |ids| && ids[k] == id) ==>
          exists j :: 0 <= j < |ids| && IsBestMatch(ids, accs, id, j) && acc == accs[j] && len == lens[j])
  }

  lemma IncreasingOrder(idx: seq<nat>, s: nat, t: nat)
    requires forall k, l :: 0 <= k < l < |idx| ==> idx[k] < idx[l]
    requires s < |idx| && t < |idx| && idx[s] < idx[t]
    ensures s < t
  {
  }

  /** The element of the selected accuracies that `np.argmax` picks is, in the
      original alignment arrays, the best match. */
  lemma MaskedArgMaxIsBest(ids: seq<ReadId>, accs: seq<Option<real>>, id: ReadId)
    requires |accs| == |ids| && MatchCount(ids, id) > 0
    ensures var keep := EqualTo(ids, id);
            var loc := ArgMax(Mask(accs, keep));
            && TrueIndices(keep)[loc] < |ids|
            && Mask(accs, keep)[loc] == accs[TrueIndices(keep)[loc]]
            && IsBestMatch(ids, accs, id, TrueIndices(keep)[loc])
  {
    var keep := EqualTo(ids, id);
    var a := Mask(accs, keep);
    var idx := TrueIndices(keep);
    var loc := ArgMax(a);
    MaskAt(accs, keep, loc);
    var j := idx[loc];
    forall k | 0 <= k < |ids| && ids[k] == id
      ensures accs[j].None? && k < j ==> accs[k].Some?
      ensures accs[j].Some? ==> accs[k].Some? && accs[k].value <= accs[j].value
      ensures accs[j].Some? && k < j ==> accs[k].Some? && accs[k].value < accs[j].value
    {
      assert keep[k];
      var s := MaskRank(accs, keep, k);
      if k < j {
        IncreasingOrder(idx, s, loc);
      }
    }
  }

  /** The join determines the accuracy and length of every read uniquely. */
  lemma MergedUnique(ids: seq<ReadId>, accs: seq<Option<real>>, lens: seq<int>, id: ReadId,
                     acc1: Option<real>, len1: int, acc2: Option<real>, len2: int)
    requires Merged(ids, accs, lens, id, acc1, len1) && Merged(ids, accs, lens, id, acc2, len2)
    ensures acc1 == acc2 && len1 == len2
  {
    if exists k :: 0 <= k < |ids| && ids[k] == id {
      var j1 :| 0 <= j1 < |ids| && IsBestMatch(ids, accs, id, j1) && acc1 == accs[j1] && len1 == lens[j1];
      var j2 :| 0 <= j2 < |ids| && IsBestMatch(ids, accs, id, j2) && acc2 == accs[j2] && len2 == lens[j2];
      BestMatchUnique(ids, accs, id, j1, j2);
    }
  }

  /** At most one alignment is the best match for a read. */
  lemma BestMatchUnique(ids: seq<ReadId>, accs: seq<Option<real>>, id: ReadId, j1: nat, j2: nat)
    requires IsBestMatch(ids, accs, id, j1) && IsBestMatch(ids, accs, id, j2)
    ensures j1 == j2
  {
  }

  /** A read with exactly one alignment takes that alignment's accuracy and length. */
  lemma SingleMatchCopied(ids: seq<ReadId>, accs: seq<Option<real>>, lens: seq<int>, id: ReadId,
                          k: nat, acc: Option<real>, len: int)
    requires k < |ids| && ids[k] == id
    requires forall i :: 0 <= i < |ids| && i != k ==> ids[i] != id
    requires Merged(ids, accs, lens, id, acc, len)
    ensures acc == accs[k] && len == lens[k]
  {
  }

  /** When every alignment of a read has an accuracy, the chosen accuracy is at
      least each of them. */
  lemma BestIsMaximum(ids: seq<ReadId>, accs: seq<Option<real>>, lens: seq<int>, id: ReadId,
                      acc: Option<real>, len: int, k: nat)
    requires Merged(ids, accs, lens, id, acc, len)
    requires k < |ids| && ids[k] == id
    requires forall i :: 0 <= i < |ids| && ids[i] == id ==> accs[i].Some?
    ensures acc.Some? && accs[k].value <= acc.value
  {
  }

  /** One step of the join: the values the source copies for a read satisfy `Merged`. */
  lemma MergeStep(ids: seq<ReadId>, accs: seq<Option<real>>, lens: seq<int>, id: ReadId)
    requires |accs| == |ids| && |lens| == |ids|
    ensures var keep := EqualTo(ids, id);
            var a := Mask(accs, keep);
            var l := Mask(lens, keep);
            && |l| == |a|
            && (|a| == 0 ==> Merged(ids, accs, lens, id, None, -1))
            && (|a| == 1 ==> ArgMax(a) == 0)
            && (|a| > 0 ==> Merged(ids, accs, lens, id, a[ArgMax(a)], l[ArgMax(a)]))
  {
    var keep := EqualTo(ids, id);
    MatchCountZero(ids, id);
    if MatchCount(ids, id) > 0 {
      MaskedArgMaxIsBest(ids, accs, id);
      MaskAll(lens, keep);
      var j := TrueIndices(keep)[ArgMax(Mask(accs, keep))];
      assert IsBestMatch(ids, accs, id, j);
    }
  }

  datatype MatchKind = NoMatch | OneMatch | SeveralMatches

  function KindOf(count: nat): MatchKind
  {
    if count == 0 then NoMatch else if count == 1 then OneMatch else SeveralMatches
  }

  /** Number of basecall reads whose number of alignments is of the given kind. */
  function ReadsOfKind(fastqIds: seq<ReadId>, alignmentIds: seq<ReadId>, kind: MatchKind): nat
  {
    if |fastqIds| == 0 then 0
    else ReadsOfKind(fastqIds[..|fastqIds| - 1], alignmentIds, kind)
         + (if KindOf(MatchCount(alignmentIds, fastqIds[|fastqIds| - 1])) == kind then 1 else 0)
  }

  lemma ReadsOfKindStep(fastqIds: seq<ReadId>, alignmentIds: seq<ReadId>, n: nat, kind: MatchKind)
    requires n < |fastqIds|
    ensures ReadsOfKind(fastqIds[..n + 1], alignmentIds, kind)
              == ReadsOfKind(fastqIds[..n], alignmentIds, kind)
                 + (if KindOf(MatchCount(alignmentIds, fastqIds[n])) == kind then 1 else 0)
  {
    assert fastqIds[..n + 1][..n] == fastqIds[..n];
  }

  /** The two counters after one more read, in terms of its number of alignments. */
  lemma CountersStep(fastqIds: seq<ReadId>, alignmentIds: seq<ReadId>, n: nat, count: nat)
    requires n < |fastqIds| && count == MatchCount(alignmentIds, fastqIds[n])
    ensures ReadsOfKind(fastqIds[..n + 1], alignmentIds, NoMatch)
              == ReadsOfKind(fastqIds[..n], alignmentIds, NoMatch) + (if count == 0 then 1 else 0)
    ensures ReadsOfKind(fastqIds[..n + 1], alignmentIds, SeveralMatches)
              == ReadsOfKind(fastqIds[..n], alignmentIds, SeveralMatches) + (if count > 1 then 1 else 0)
  {
    ReadsOfKindStep(fastqIds, alignmentIds, n, NoMatch);
    ReadsOfKindStep(fastqIds, alignmentIds, n, SeveralMatches);
  }

  /** Every basecall read has no alignment, one alignment, or several. */
  lemma {:induction false} KindsPartitionReads(fastqIds: seq<ReadId>, alignmentIds: seq<ReadId>)
    ensures ReadsOfKind(fastqIds, alignmentIds, NoMatch) + ReadsOfKind(fastqIds, alignmentIds, OneMatch)
            + ReadsOfKind(fastqIds, alignmentIds, SeveralMatches) == |fastqIds|
  {
    if |fastqIds| > 0 {
      KindsPartitionReads(fastqIds[..|fastqIds| - 1], alignmentIds);
    }
  }

  /** The first `n` reads hold their joined accuracies and lengths. */
  ghost predicate AllMerged(ids: seq<ReadId>, accs: seq<Option<real>>, lens: seq<int>, fastqIds: seq<ReadId>,
                            outAccs: seq<Option<real>>, outLens: seq<int>, n: nat)
  {
    && n <= |fastqIds| && |outAccs| == |fastqIds| && |outLens| == |fastqIds|
    && forall i :: 0 <= i < n ==> Merged(ids, accs, lens, fastqIds[i], outAccs[i], outLens[i])
  }

  lemma AllMergedExtend(ids: seq<ReadId>, accs: seq<Option<real>>, lens: seq<int>, fastqIds: seq<ReadId>,
                        outAccs: seq<Option<real>>, outLens: seq<int>, acc: Option<real>, len: int, n: nat)
    requires AllMerged(ids, accs, lens, fastqIds, outAccs, outLens, n) && n < |fastqIds|
    requires Merged(ids, accs, lens, fastqIds[n], acc, len)
    ensures AllMerged(ids, accs, lens, fastqIds, outAccs[n := acc], outLens[n := len], n + 1)
  {
    var newAccs, newLens := outAccs[n := acc], outLens[n := len];
    forall i | 0 <= i < n + 1 ensures Merged(ids, accs, lens, fastqIds[i], newAccs[i], newLens[i]) {
      if i < n {
        assert newAccs[i] == outAccs[i] && newLens[i] == outLens[i];
      }
    }
  }

  /** The entries from `n` on still hold the preset missing accuracy and length -1. */
  ghost predicate Preset(outAccs: seq<Option<real>>, outLens: seq<int>, n: nat)
  {
    |outLens| == |outAccs| && forall i :: n <= i < |outAccs| ==> outAccs[i] == None && outLens[i] == -1
  }

  /** The join for the read at position `nread`: selects its alignment records;
      none leaves the preset entries and counts the read as not found, one is
      copied, and of several the one `np.argmax` picks is copied and the read is
      counted as having more than one. Only position `nread` changes. */
  method MergeRead(accs: array<Option<real>>, lens: array<int>, nread: nat, fastqId: ReadId,
                   alignmentIds: seq<ReadId>, alignmentAccuracies: seq<Option<real>>, alignmentLens: seq<int>,
                   readNotFound: nat, moreThanOneAlignment: nat)
    returns (notFound: nat, severalAlignments: nat)
    requires nread < accs.Length && lens.Length == accs.Length
    requires accs[nread] == None && lens[nread] == -1
    requires |alignmentAccuracies| == |alignmentIds| && |alignmentLens| == |alignmentIds|
    modifies accs, lens
    ensures accs[..] == old(accs[..])[nread := accs[nread]]
    ensures lens[..] == old(lens[..])[nread := lens[nread]]
    ensures Merged(alignmentIds, alignmentAccuracies, alignmentLens, fastqId, accs[nread], lens[nread])
    ensures notFound == readNotFound + (if MatchCount(alignmentIds, fastqId) == 0 then 1 else 0)
    ensures severalAlignments == moreThanOneAlignment + (if MatchCount(alignmentIds, fastqId) > 1 then 1 else 0)
  {
    notFound, severalAlignments := readNotFound, moreThanOneAlignment;
    var keep := EqualTo(alignmentIds, fastqId);
    var accuracies := Mask(alignmentAccuracies, keep);
    var selectedLens := Mask(alignmentLens, keep);
    MergeStep(alignmentIds, alignmentAccuracies, alignmentLens, fastqId);
    if |accuracies| == 0 {
      notFound := notFound + 1;
    } else if |accuracies| == 1 {
      accs[nread] := accuracies[0];
      lens[nread] := selectedLens[0];
    } else {
      severalAlignments := severalAlignments + 1;
      var loc := ArgMax(accuracies);
      accs[nread] := accuracies[loc];
      lens[nread] := selectedLens[loc];
    }
  }

  /** For each basecall read, selects its alignment records; none leaves the
      preset missing accuracy and length -1, one is copied, and of several the
      one `np.argmax` picks is copied. Counts the reads without an alignment and
      those with more than one. */
  method MergeAlignFastqData(fastqIds: seq<ReadId>, alignmentIds: seq<ReadId>,
                             alignmentAccuracies: seq<Option<real>>, alignmentLens: seq<int>)
    returns (fastqAccuracies: seq<Option<real>>, fastqAlignmentLens: seq<int>,
             readNotFound: nat, moreThanOneAlignment: nat)
    requires |alignmentAccuracies| == |alignmentIds| && |alignmentLens| == |alignmentIds|
    ensures |fastqAccuracies| == |fastqIds| && |fastqAlignmentLens| == |fastqIds|
    ensures forall i :: 0 <= i < |fastqIds| ==>
              Merged(alignmentIds, alignmentAccuracies, alignmentLens, fastqIds[i],
                     fastqAccuracies[i], fastqAlignmentLens[i])
    ensures readNotFound == ReadsOfKind(fastqIds, alignmentIds, NoMatch)
    ensures moreThanOneAlignment == ReadsOfKind(fastqIds, alignmentIds, SeveralMatches)
    ensures readNotFound + ReadsOfKind(fastqIds, alignmentIds, OneMatch) + moreThanOneAlignment == |fastqIds|
  {
    var nFastqs := |fastqIds|;
    var accs := new Option<real>[nFastqs](_ => None);
    var lens := new int[nFastqs](_ => -1);
    readNotFound, moreThanOneAlignment := 0, 0;
    for nread := 0 to nFastqs
      invariant AllMerged(alignmentIds, alignmentAccuracies, alignmentLens, fastqIds, accs[..], lens[..], nread)
      invariant Preset(accs[..], lens[..], nread)
      invariant readNotFound == ReadsOfKind(fastqIds[..nread], alignmentIds, NoMatch)
      invariant moreThanOneAlignment == ReadsOfKind(fastqIds[..nread], alignmentIds, SeveralMatches)
    {
      ghost var before, lensBefore := accs[..], lens[..];
      ghost var count := MatchCount(alignmentIds, fastqIds[nread]);
      CountersStep(fastqIds, alignmentIds, nread, count);
      readNotFound, moreThanOneAlignment := MergeRead(accs, lens, nread, fastqIds[nread],
        alignmentIds, alignmentAccuracies, alignmentLens, readNotFound, moreThanOneAlignment);
      AllMergedExtend(alignmentIds, alignmentAccuracies, alignmentLens, fastqIds,
                      before, lensBefore, accs[nread], lens[nread], nread);
    }
    fastqAccuracies, fastqAlignmentLens := accs[..], lens[..];
    assert fastqIds[..nFastqs] == fastqIds;
    KindsPartitionReads(fastqIds, alignmentIds);
  }

  // ---------------------------------------------------------------------------
  // Filtering (filter_data)
  // ---------------------------------------------------------------------------

  /** `alignment_len / fastq_len > min_coverage` in floating point. For length
      zero the quotient is +inf, -inf or NaN, so only a positive alignment
      length passes. For a positive basecall length the test is the same as
      `alignment_len > min_coverage * fastq_len`. */
  predicate CoverageAbove(alignmentLen: int, fastqLen: nat, minCoverage: real): (b: bool)
    ensures fastqLen > 0 ==> (b <==> alignmentLen as real > minCoverage * fastqLen as real)
    ensures fastqLen == 0 ==> (b <==> alignmentLen > 0)
  {
    if fastqLen > 0 then
      var q := alignmentLen as real / fastqLen as real;
      assert alignmentLen as real == q * fastqLen as real;
      assert q > minCoverage <==> q * fastqLen as real > minCoverage * fastqLen as real;
      q > minCoverage
    else alignmentLen > 0
  }

  /** `fastqscore >= min_fastqscore`, where a NaN score compares false. */
  predicate ScoreAtLeast(score: Option<real>, minFastqscore: real): (b: bool)
    ensures score.None? ==> !b
    ensures score.Some? ==> (b <==> minFastqscore <= score.value)
  {
    score.Some? && score.value >= minFastqscore
  }

  ghost predicate SameLength(accuracies: seq<Option<real>>, fastqScores: seq<Option<real>>,
                             fastqLens: seq<nat>, alignmentLens: seq<int>)
  {
    |fastqScores| == |accuracies| && |fastqLens| == |accuracies| && |alignmentLens| == |accuracies|
  }

  /** Read `i` survives all three filters. */
  ghost predicate Kept(accuracies: seq<Option<real>>, fastqScores: seq<Option<real>>,
                       fastqLens: seq<nat>, alignmentLens: seq<int>,
                       minCoverage: real, minFastqscore: real, i: nat)
    requires SameLength(accuracies, fastqScores, fastqLens, alignmentLens) && i < |accuracies|
  {
    && accuracies[i].Some?
    && CoverageAbove(alignmentLens[i], fastqLens[i], minCoverage)
    && ScoreAtLeast(fastqScores[i], minFastqscore)
  }

  /** The masks f, g and h of filter_data. */
  function Aligned(accuracies: seq<Option<real>>): (f: seq<bool>)
    ensures |f| == |accuracies|
    ensures forall i :: 0 <= i < |accuracies| ==> (f[i] <==> accuracies[i].Some?)
  {
    seq(|accuracies|, i requires 0 <= i < |accuracies| => accuracies[i].Some?)
  }

  function Covered(fastqLens: seq<nat>, alignmentLens: seq<int>, minCoverage: real): (g: seq<bool>)
    requires |fastqLens| == |alignmentLens|
    ensures |g| == |fastqLens|
    ensures forall i :: 0 <= i < |fastqLens| ==> (g[i] <==> CoverageAbove(alignmentLens[i], fastqLens[i], minCoverage))
  {
    seq(|fastqLens|, i requires 0 <= i < |fastqLens| => CoverageAbove(alignmentLens[i], fastqLens[i], minCoverage))
  }

  function GoodScore(fastqScores: seq<Option<real>>, minFastqscore: real): (h: seq<bool>)
    ensures |h| == |fastqScores|
    ensures forall i :: 0 <= i < |fastqScores| ==> (h[i] <==> ScoreAtLeast(fastqScores[i], minFastqscore))
  {
    seq(|fastqScores|, i requires 0 <= i < |fastqScores| => ScoreAtLeast(fastqScores[i], minFastqscore))
  }

  function KeepMask(accuracies: seq<Option<real>>, fastqScores: seq<Option<real>>,
                    fastqLens: seq<nat>, alignmentLens: seq<int>,
                    minCoverage: real, minFastqscore: real): (m: seq<bool>)
    requires SameLength(accuracies, fastqScores, fastqLens, alignmentLens)
    ensures |m| == |accuracies|
    ensures forall i :: 0 <= i < |accuracies| ==>
              (m[i] <==> Kept(accuracies, fastqScores, fastqLens, alignmentLens, minCoverage, minFastqscore, i))
  {
    And(And(Aligned(accuracies), Covered(fastqLens, alignmentLens, minCoverage)),
        GoodScore(fastqScores, minFastqscore))
  }

  /** The indices of the reads that pass every filter, in increasing order. */
  function KeptIndices(accuracies: seq<Option<real>>, fastqScores: seq<Option<real>>,
                       fastqLens: seq<nat>, alignmentLens: seq<int>,
                       minCoverage: real, minFastqscore: real): (idx: seq<nat>)
    requires SameLength(accuracies, fastqScores, fastqLens, alignmentLens)
    ensures forall k :: 0 <= k < |idx| ==>
              idx[k] < |accuracies|
              && Kept(accuracies, fastqScores, fastqLens, alignmentLens, minCoverage, minFastqscore, idx[k])
    ensures forall i :: 0 <= i < |accuracies| ==>
              (Kept(accuracies, fastqScores, fastqLens, alignmentLens, minCoverage, minFastqscore, i) <==> i in idx)
    ensures forall k, l :: 0 <= k < l < |idx| ==> idx[k] < idx[l]
  {
    TrueIndices(KeepMask(accuracies, fastqScores, fastqLens, alignmentLens, minCoverage, minFastqscore))
  }

  /** The kept accuracies and scores, and the counts printed after each filter. */
  datatype Filtered = Filtered(
    accuracies: seq<Option<real>>, fastqScores: seq<Option<real>>,
    total: nat, aligned: nat, covered: nat, kept: nat)

  /** filter_data with a missing mean score failing the score test, as it does
      for NaN. Keeps exactly the reads with an accuracy, coverage above
      `minCoverage` and score at least `minFastqscore`, in their order. */
  function FilterData(accuracies: seq<Option<real>>, fastqScores: seq<Option<real>>,
                      fastqLens: seq<nat>, alignmentLens: seq<int>,
                      minCoverage: real, minFastqscore: real): (r: Filtered)
    requires SameLength(accuracies, fastqScores, fastqLens, alignmentLens)
    ensures r.total == |accuracies|
    ensures r.kept <= r.covered <= r.aligned <= r.total
    ensures r.aligned == |set i | 0 <= i < |accuracies| && accuracies[i].Some?|
    ensures r.covered == |set i | 0 <= i < |accuracies| && accuracies[i].Some?
                                  && CoverageAbove(alignmentLens[i], fastqLens[i], minCoverage)|
    ensures |r.accuracies| == r.kept && |r.fastqScores| == r.kept
    ensures r.kept == |KeptIndices(accuracies, fastqScores, fastqLens, alignmentLens, minCoverage, minFastqscore)|
    ensures forall k :: 0 <= k < r.kept ==>
              var i := KeptIndices(accuracies, fastqScores, fastqLens, alignmentLens, minCoverage, minFastqscore)[k];
              r.accuracies[k] == accuracies[i] && r.fastqScores[k] == fastqScores[i]
    ensures forall k :: 0 <= k < r.kept ==> r.accuracies[k].Some? && r.fastqScores[k].Some?
  {
    var f := Aligned(accuracies);
    var g := Covered(fastqLens, alignmentLens, minCoverage);
    var h := GoodScore(fastqScores, minFastqscore);
    var fgh := And(And(f, g), h);
    CountTrueAnd(f, g);
    CountTrueAnd(And(f, g), h);
    CountTrueIsCardinality(f);
    CountTrueIsCardinality(And(f, g));
    assert (set i | 0 <= i < |f| && f[i]) == set i | 0 <= i < |accuracies| && accuracies[i].Some?;
    assert (set i | 0 <= i < |f| && And(f, g)[i]) ==
           set i | 0 <= i < |accuracies| && accuracies[i].Some?
                   && CoverageAbove(alignmentLens[i], fastqLens[i], minCoverage);
    MaskAll(accuracies, fgh);
    MaskAll(fastqScores, fgh);
    Filtered(Mask(accuracies, fgh), Mask(fastqScores, fgh),
             |accuracies|, CountTrue(f), CountTrue(And(f, g)), CountTrue(fgh))
  }

  /** A read without an alignment (missing accuracy, or length -1) is never
      kept when the coverage threshold is not negative. */
  lemma UnalignedReadsDropped(accuracies: seq<Option<real>>, fastqScores: seq<Option<real>>,
                              fastqLens: seq<nat>, alignmentLens: seq<int>,
                              minCoverage: real, minFastqscore: real, i: nat)
    requires SameLength(accuracies, fastqScores, fastqLens, alignmentLens) && i < |accuracies|
    requires minCoverage >= 0.0
    requires accuracies[i].None? || alignmentLens[i] == -1
    ensures i !in KeptIndices(accuracies, fastqScores, fastqLens, alignmentLens, minCoverage, minFastqscore)
  {
    if fastqLens[i] > 0 {
      assert minCoverage * fastqLens[i] as real >= 0.0;
    }
  }

  /** Comparing the scores with a float fails when a score is Python's None. */
  datatype FilterError = ScoreComparisonError

  /** filter_data as written: mean scores of zero-length reads are None, which
      makes the score array an object array whose comparison with
      `min_fastqscore` raises, so any missing score ends the run. */
  function FilterDataAsWritten(accuracies: seq<Option<real>>, fastqScores: seq<Option<real>>,
                               fastqLens: seq<nat>, alignmentLens: seq<int>,
                               minCoverage: real, minFastqscore: real): (r: Result<Filtered, FilterError>)
    requires SameLength(accuracies, fastqScores, fastqLens, alignmentLens)
    ensures r.Failure? <==> exists i :: 0 <= i < |fastqScores| && fastqScores[i].None?
    ensures r.Success? ==> r.value == FilterData(accuracies, fastqScores, fastqLens, alignmentLens,
                                                 minCoverage, minFastqscore)
  {
    if exists i :: 0 <= i < |fastqScores| && fastqScores[i].None? then Failure(ScoreComparisonError)
    else Success(FilterData(accuracies, fastqScores, fastqLens, alignmentLens, minCoverage, minFastqscore))
  }

  /** One aligned read of good quality next to a zero-length read: as written
      the run aborts; with the missing score treated as NaN, the good read is
      kept and the empty one dropped. */
  lemma ZeroLengthReadAborts()
    ensures FilterDataAsWritten([Some(0.9), None], [Some(10.0), None], [100, 0], [95, -1], 0.8, 7.0).Failure?
    ensures FilterData([Some(0.9), None], [Some(10.0), None], [100, 0], [95, -1], 0.8, 7.0).accuracies == [Some(0.9)]
  {
    var accs: seq<Option<real>> := [Some(0.9), None];
    var scores: seq<Option<real>> := [Some(10.0), None];
    var flens: seq<nat> := [100, 0];
    var alens: seq<int> := [95, -1];
    assert scores[1].None?;
    var idx := KeptIndices(accs, scores, flens, alens, 0.8, 7.0);
    assert Kept(accs, scores, flens, alens, 0.8, 7.0, 0);
    assert 0 in idx;
    assert !Kept(accs, scores, flens, alens, 0.8, 7.0, 1);
    assert idx == [0];
  }
}
