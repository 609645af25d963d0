/** make-vetoes.py: candidates with no rain in their bins are ranked by the
    total rain of their six historical snapshots; a fraction of the driest,
    sparing every keepstride-th rank, become vetoes, and the candidate list
    is thinned by them. */
module Vetoes {
  import opened Util
  import BinFile
  import Sorting

  datatype VetoError =
    | Read(e: BinFile.ReadError)  // readHeader or getTotalRain raised
    | IndexError                  // a candidate line with too few fields
    | KeyError                    // a snapshot without a sequence record
    | ZeroDivision                // a keepstride of 0 with vetoes to make

  /** A line of the sequences file: its seqno and the bytes of the bin file
      its path names. */
  datatype SeqFile = SeqFile(seqno: int, contents: seq<byte>)

  /** A line of the candidates file: `int(fields[0])` and `record.split()`. */
  datatype Candidate = Candidate(startval: int, fields: seq<string>)

  // ------------------------------------------------------------ intensities

  /** A bin file's total rain as a fresh reader reports it after readHeader. */
  function TotalRainOf(f: seq<byte>): Result<int, VetoError>
  {
    match BinFile.ParseHeader(f)
    case Err(e) => Err(Read(e))
    case Ok((h, _)) =>
      if h.version < 2 then Err(Read(BinFile.NoTotalRain))
      else Ok(if h.totalrain.Some? then h.totalrain.value else -1)
  }

  /** Lines 62-71: seqno to total rain; a later line replaces an earlier one. */
  function Intensities(seqs: seq<SeqFile>): Result<map<int, int>, VetoError>
  {
    if seqs == [] then Ok(map[])
    else
      var m :- Intensities(seqs[..|seqs| - 1]);
      var t :- TotalRainOf(seqs[|seqs| - 1].contents);
      Ok(m[seqs[|seqs| - 1].seqno := t])
  }

  method ReadTotalRain(f: seq<byte>, decompress: seq<byte> -> Option<seq<byte>>) returns (r: Result<int, VetoError>)
    ensures r == TotalRainOf(f)
  {
    var reader := new BinFile.BinReader();
    var err := reader.ReadHeader(f, false, decompress);
    if err.Some? {
      return Err(Read(err.value));
    }
    var t := reader.GetTotalRain();
    if t.Err? {
      return Err(Read(t.error));
    }
    r := Ok(t.value);
  }

  method LoadIntensities(seqs: seq<SeqFile>, decompress: seq<byte> -> Option<seq<byte>>)
    returns (r: Result<map<int, int>, VetoError>)
    ensures r == Intensities(seqs)
  {
    var seqIntensity: map<int, int> := map[];
    for i := 0 to |seqs|
      invariant Intensities(seqs[..i]) == Ok(seqIntensity)
    {
      Intensities_Step(seqs, i);
      var t := ReadTotalRain(seqs[i].contents, decompress);
      if t.Err? {
        IntensitiesStuck(seqs, i + 1);
        return Err(t.error);
      }
      seqIntensity := seqIntensity[seqs[i].seqno := t.value];
    }
    assert seqs[..|seqs|] == seqs;
    r := Ok(seqIntensity);
  }

  /** One more line read: its total rain is stored, or its error stops the load. */
  lemma Intensities_Step(seqs: seq<SeqFile>, i: nat)
    requires i < |seqs|
    ensures var m, t := Intensities(seqs[..i]), TotalRainOf(seqs[i].contents);
            (m.Ok? && t.Err? ==> Intensities(seqs[..i + 1]) == Err(t.error)) &&
            (m.Ok? && t.Ok? ==> Intensities(seqs[..i + 1]) == Ok(m.value[seqs[i].seqno := t.value]))
  {
    assert seqs[..i + 1][..i] == seqs[..i];
  }

  lemma {:induction false} IntensitiesStuck(seqs: seq<SeqFile>, n: nat)
    requires n <= |seqs| && Intensities(seqs[..n]).Err?
    ensures Intensities(seqs) == Intensities(seqs[..n])
    decreases |seqs| - n
  {
    if n < |seqs| {
      assert seqs[..n + 1][..n] == seqs[..n];
      IntensitiesStuck(seqs, n + 1);
    } else {
      assert seqs[..n] == seqs;
    }
  }

  // ------------------------------------------------------------ screening

  /** Lines 79-82 from field i on: Ok(true) when the candidate is kept. */
  function Screened(fields: seq<string>, i: nat): Result<bool, VetoError>
    decreases 14 - i
  {
    if i >= 14 then Ok(true)
    else if i >= |fields| then Err(IndexError)
    else if fields[i] != "0" then Ok(false)
    else Screened(fields, i + 1)
  }

  /** A candidate is kept iff fields 4 to 13 all read "0"; it is skipped iff
      one of them, read before the line runs out, does not; otherwise the
      line is too short. */
  lemma {:induction false} Screened_Exact(fields: seq<string>, i: nat)
    requires 4 <= i <= 14
    ensures Screened(fields, i) == Ok(true) <==>
            (i == 14 || |fields| >= 14) && forall k :: i <= k < 14 ==> fields[k] == "0"
    ensures Screened(fields, i) == Ok(false) <==> exists k :: i <= k < 14 && k < |fields| && fields[k] != "0"
    decreases 14 - i
  {
    if i < 14 && i < |fields| && fields[i] == "0" {
      Screened_Exact(fields, i + 1);
      if i + 1 < 14 && |fields| < 14 {
        assert Screened(fields, i) != Ok(true);
      }
    }
  }

  /** The loop of lines 78-85. */
  method Screen(fields: seq<string>) returns (r: Result<bool, VetoError>)
    ensures r == Screened(fields, 4)
  {
    var skipEntry := false;
    for i := 4 to 14
      invariant Screened(fields, 4) == Screened(fields, i)
    {
      if i >= |fields| {
        return Err(IndexError);
      }
      if fields[i] != "0" {
        skipEntry := true;
        return Ok(false);
      }
    }
    r := Ok(true);
  }

  // ------------------------------------------------------------ sums

  /** The total rain of seqnos startval .. startval+n-1. */
  function WindowTotal(m: map<int, int>, startval: int, n: nat): Result<int, VetoError>
  {
    if n == 0 then Ok(0)
    else
      var a :- WindowTotal(m, startval, n - 1);
      if startval + n - 1 in m then Ok(a + m[startval + n - 1]) else Err(KeyError)
  }

  /** The seqno k places after startval. */
  function Key(startval: int, k: int): int { startval + k }

  /** Every one of the n seqnos from startval on has a record. */
  predicate Covered(m: map<int, int>, startval: int, n: nat)
  {
    forall k :: 0 <= k < n ==> Key(startval, k) in m
  }

  function Totals(m: map<int, int>, startval: int, n: nat): seq<int>
    requires Covered(m, startval, n)
  {
    if n == 0 then [] else Totals(m, startval, n - 1) + [m[Key(startval, n - 1)]]
  }

  /** The sum exists iff every one of the n seqnos has a record, and then it
      is the sum of their totals. */
  lemma {:induction false} WindowTotal_Sum(m: map<int, int>, startval: int, n: nat)
    ensures WindowTotal(m, startval, n).Ok? <==> Covered(m, startval, n)
    ensures WindowTotal(m, startval, n).Ok? ==>
              Covered(m, startval, n) && WindowTotal(m, startval, n).value == Sum(Totals(m, startval, n))
  {
    if n > 0 {
      WindowTotal_Sum(m, startval, n - 1);
      if Covered(m, startval, n) {
        assert Covered(m, startval, n - 1);
        SumAppend(Totals(m, startval, n - 1), m[Key(startval, n - 1)]);
      } else if Covered(m, startval, n - 1) {
        assert Key(startval, n - 1) !in m;
      }
    }
  }

  /** Lines 87-89. */
  method SumOf(seqIntensity: map<int, int>, startval: int) returns (r: Result<int, VetoError>)
    ensures r == WindowTotal(seqIntensity, startval, 6)
  {
    var sum := 0;
    for i := 0 to 6
      invariant WindowTotal(seqIntensity, startval, i) == Ok(sum)
    {
      if startval + i !in seqIntensity {
        WindowTotalStuck(seqIntensity, startval, i + 1, 6);
        return Err(KeyError);
      }
      sum := sum + seqIntensity[startval + i];
    }
    r := Ok(sum);
  }

  lemma {:induction false} WindowTotalStuck(m: map<int, int>, startval: int, n: nat, n': nat)
    requires n <= n' && WindowTotal(m, startval, n).Err?
    ensures WindowTotal(m, startval, n') == WindowTotal(m, startval, n)
  {
    if n' > n {
      WindowTotalStuck(m, startval, n, n' - 1);
    }
  }

  /** Lines 73-91: [sum, startval] of each kept candidate, in file order. */
  function SumIntensities(cands: seq<Candidate>, m: map<int, int>): Result<seq<(int, int)>, VetoError>
  {
    if cands == [] then Ok([])
    else
      var init :- SumIntensities(cands[..|cands| - 1], m);
      var c := cands[|cands| - 1];
      var keep :- Screened(c.fields, 4);
      if !keep then Ok(init)
      else
        var sum :- WindowTotal(m, c.startval, 6);
        Ok(init + [(sum, c.startval)])
  }

  lemma {:induction false} SumIntensitiesStuck(cands: seq<Candidate>, m: map<int, int>, n: nat)
    requires n <= |cands| && SumIntensities(cands[..n], m).Err?
    ensures SumIntensities(cands, m) == SumIntensities(cands[..n], m)
    decreases |cands| - n
  {
    if n < |cands| {
      assert cands[..n + 1][..n] == cands[..n];
      SumIntensitiesStuck(cands, m, n + 1);
    } else {
      assert cands[..n] == cands;
    }
  }

  method CollectSums(cands: seq<Candidate>, seqIntensity: map<int, int>)
    returns (r: Result<seq<(int, int)>, VetoError>)
    ensures r == SumIntensities(cands, seqIntensity)
  {
    var sumIntensities: seq<(int, int)> := [];
    for n := 0 to |cands|
      invariant SumIntensities(cands[..n], seqIntensity) == Ok(sumIntensities)
    {
      assert cands[..n + 1][..n] == cands[..n];
      var keep := Screen(cands[n].fields);
      if keep.Err? {
        SumIntensitiesStuck(cands, seqIntensity, n + 1);
        return Err(keep.error);
      }
      if !keep.value {
        continue;
      }
      var sum := SumOf(seqIntensity, cands[n].startval);
      if sum.Err? {
        SumIntensitiesStuck(cands, seqIntensity, n + 1);
        return Err(sum.error);
      }
      sumIntensities := sumIntensities + [(sum.value, cands[n].startval)];
    }
    assert cands[..|cands|] == cands;
    r := Ok(sumIntensities);
  }

  // ------------------------------------------------------------ vetoes

  /** Lines 95-97: each sorted entry's sum with its rank. */
  function PlotRows(sorted: seq<(int, int)>): (rows: seq<(int, int)>)
    ensures |rows| == |sorted|
    ensures forall i :: 0 <= i < |rows| ==> rows[i] == (sorted[i].0, i)
  {
    seq(|sorted|, i requires 0 <= i < |sorted| => (sorted[i].0, i))
  }

  /** `int(len(sumIntensities) * vetofrac)`. */
  function RecordsToDiscard(n: nat, vetofrac: real): int
  {
    TruncReal(n as real * vetofrac)
  }

  /** Lines 100-108 from rank i on, with `remaining` vetoes still to make. */
  function Select(sorted: seq<(int, int)>, i: nat, remaining: int, keepstride: int): Result<seq<int>, VetoError>
    decreases |sorted| - i
  {
    if i >= |sorted| || remaining <= 0 then Ok([])
    else if keepstride == 0 then Err(ZeroDivision)
    else if i % keepstride != 0 then
      var rest :- Select(sorted, i + 1, remaining - 1, keepstride);
      Ok([sorted[i].1] + rest)
    else Select(sorted, i + 1, remaining, keepstride)
  }

  /** The startvals at ranks from i on that are not multiples of keepstride. */
  function Eligible(sorted: seq<(int, int)>, i: nat, keepstride: int): seq<int>
    requires keepstride != 0
    decreases |sorted| - i
  {
    if i >= |sorted| then []
    else if i % keepstride != 0 then [sorted[i].1] + Eligible(sorted, i + 1, keepstride)
    else Eligible(sorted, i + 1, keepstride)
  }

  /** The eligible startvals are exactly those of ranks not divisible by keepstride. */
  lemma {:induction false} Eligible_Member(sorted: seq<(int, int)>, i: nat, keepstride: int, v: int)
    requires keepstride != 0
    ensures v in Eligible(sorted, i, keepstride) <==>
            exists p :: i <= p < |sorted| && p % keepstride != 0 && sorted[p].1 == v
    decreases |sorted| - i
  {
    if i < |sorted| {
      Eligible_Member(sorted, i + 1, keepstride, v);
      var e := Eligible(sorted, i + 1, keepstride);
      if v in Eligible(sorted, i, keepstride) {
        if i % keepstride != 0 && v == sorted[i].1 {
          assert i <= i < |sorted| && i % keepstride != 0 && sorted[i].1 == v;
        } else {
          assert v in e;
        }
      }
      if exists p :: i <= p < |sorted| && p % keepstride != 0 && sorted[p].1 == v {
        var p :| i <= p < |sorted| && p % keepstride != 0 && sorted[p].1 == v;
        if p > i {
          assert v in e;
        }
      }
    }
  }

  /** The vetoes are the first `remaining` eligible startvals in rank order,
      so there are at most `remaining` of them and none comes from a rank
      divisible by keepstride. */
  lemma {:induction false} Select_Eligible(sorted: seq<(int, int)>, i: nat, remaining: int, keepstride: int)
    requires keepstride != 0
    ensures Select(sorted, i, remaining, keepstride) ==
            Ok(Eligible(sorted, i, keepstride)[..Min(Max(remaining, 0), |Eligible(sorted, i, keepstride)|)])
    decreases |sorted| - i
  {
    if i < |sorted| && remaining > 0 {
      Select_Eligible(sorted, i + 1, remaining - 1, keepstride);
      Select_Eligible(sorted, i + 1, remaining, keepstride);
      var e := Eligible(sorted, i + 1, keepstride);
      if i % keepstride != 0 {
        var k := Min(Max(remaining - 1, 0), |e|);
        assert ([sorted[i].1] + e)[..k + 1] == [sorted[i].1] + e[..k];
      }
    }
  }

  /** With vetoes to make, a keepstride of 0 stops the script. */
  lemma Select_ZeroStride(sorted: seq<(int, int)>, remaining: int)
    requires |sorted| > 0 && remaining > 0
    ensures Select(sorted, 0, remaining, 0) == Err(ZeroDivision)
  {
  }

  /** The loop of lines 100-108. */
  method SelectVetoes(sorted: seq<(int, int)>, vetofrac: real, keepstride: int) returns (r: Result<seq<int>, VetoError>)
    ensures r == Select(sorted, 0, RecordsToDiscard(|sorted|, vetofrac), keepstride)
  {
    var vetoes: seq<int> := [];
    var recordsToDiscard := RecordsToDiscard(|sorted|, vetofrac);
    ghost var all := Select(sorted, 0, recordsToDiscard, keepstride);
    if all.Ok? {
      assert [] + all.value == all.value;
    }
    for i := 0 to |sorted|
      invariant Select(sorted, 0, RecordsToDiscard(|sorted|, vetofrac), keepstride) ==
                Prepend(vetoes, Select(sorted, i, recordsToDiscard, keepstride))
    {
      if recordsToDiscard > 0 {
        if keepstride == 0 {
          return Err(ZeroDivision);
        }
        if i % keepstride != 0 {
          ghost var rest := Select(sorted, i + 1, recordsToDiscard - 1, keepstride);
          if rest.Ok? {
            assert vetoes + ([sorted[i].1] + rest.value) == (vetoes + [sorted[i].1]) + rest.value;
          }
          vetoes := vetoes + [sorted[i].1];
          recordsToDiscard := recordsToDiscard - 1;
        }
      } else {
        break;
      }
    }
    assert vetoes + [] == vetoes;
    r := Ok(vetoes);
  }

  function Prepend(done: seq<int>, r: Result<seq<int>, VetoError>): Result<seq<int>, VetoError>
  {
    match r
    case Err(e) => Err(e)
    case Ok(rest) => Ok(done + rest)
  }

  // ------------------------------------------------------------ thinning

  /** Lines 115-123: the candidates whose seqno is not vetoed, in file order. */
  function Thinned(cands: seq<Candidate>, vetoes: seq<int>): (out: seq<Candidate>)
    ensures forall c :: c in out <==> c in cands && c.startval !in vetoes
  {
    if cands == [] then []
    else
      var init := Thinned(cands[..|cands| - 1], vetoes);
      var c := cands[|cands| - 1];
      assert cands == cands[..|cands| - 1] + [c];
      if c.startval in vetoes then init else init + [c]
  }

  method Thin(cands: seq<Candidate>, vetoes: seq<int>) returns (out: seq<Candidate>)
    ensures out == Thinned(cands, vetoes)
  {
    out := [];
    for n := 0 to |cands|
      invariant out == Thinned(cands[..n], vetoes)
    {
      assert cands[..n + 1][..n] == cands[..n];
      if cands[n].startval in vetoes {
        continue;
      }
      out := out + [cands[n]];
    }
    assert cands[..|cands|] == cands;
  }

  // ------------------------------------------------------------ the script

  /** The veto list and the thinned candidates (lines 110-123). */
  datatype Written = Written(vetoes: seq<int>, thinned: seq<Candidate>)

  /** What the script writes: the plot rows it has printed (lines 94-96,
      only with `--with-plotting-data`), then the two files, or the error
      that stops it after the plot rows are out. */
  datatype Outputs = Outputs(plot: seq<(int, int)>, written: Result<Written, VetoError>)

  /** The outputs of lines 62-123; an error before the sort prints nothing. */
  function MakeVetoesSpec(seqs: seq<SeqFile>, cands: seq<Candidate>, vetofrac: real, keepstride: int,
                          plotdat: bool)
    : Result<Outputs, VetoError>
  {
    var m :- Intensities(seqs);
    var sums :- SumIntensities(cands, m);
    var sorted := Sorting.SortedOf(sums, Sorting.PairLe);
    var plot := if plotdat then PlotRows(sorted) else [];
    match Select(sorted, 0, RecordsToDiscard(|sorted|, vetofrac), keepstride)
    case Err(e) => Ok(Outputs(plot, Err(e)))
    case Ok(vetoes) => Ok(Outputs(plot, Ok(Written(vetoes, Thinned(cands, vetoes)))))
  }

  /** Once the sums are known the plot rows are printed whatever follows:
      the sums in ascending order with their ranks, or nothing without the
      flag; a keep-stride of 0 with vetoes to make then stops the script
      before either file is written, and otherwise the files hold the
      selected vetoes and exactly the candidates not vetoed. */
  lemma MakeVetoesSpec_Outputs(seqs: seq<SeqFile>, cands: seq<Candidate>, vetofrac: real, keepstride: int,
                               plotdat: bool)
    requires MakeVetoesSpec(seqs, cands, vetofrac, keepstride, plotdat).Ok?
    ensures var out := MakeVetoesSpec(seqs, cands, vetofrac, keepstride, plotdat).value;
            var sorted := Sorting.SortedOf(SumIntensities(cands, Intensities(seqs).value).value, Sorting.PairLe);
            && (plotdat ==> |out.plot| == |sorted| && forall i :: 0 <= i < |sorted| ==> out.plot[i] == (sorted[i].0, i))
            && (!plotdat ==> out.plot == [])
            && (keepstride == 0 && |sorted| > 0 && RecordsToDiscard(|sorted|, vetofrac) > 0 ==>
                  out.written == Err(ZeroDivision))
            && (out.written.Ok? ==>
                  forall c :: c in out.written.value.thinned <==> c in cands && c.startval !in out.written.value.vetoes)
  {
    var sorted := Sorting.SortedOf(SumIntensities(cands, Intensities(seqs).value).value, Sorting.PairLe);
    if keepstride == 0 && |sorted| > 0 && RecordsToDiscard(|sorted|, vetofrac) > 0 {
      Select_ZeroStride(sorted, RecordsToDiscard(|sorted|, vetofrac));
    }
  }

  /** Lines 62-123. */
  method MakeVetoes(seqs: seq<SeqFile>, cands: seq<Candidate>, vetofrac: real, keepstride: int, plotdat: bool,
                    decompress: seq<byte> -> Option<seq<byte>>)
    returns (r: Result<Outputs, VetoError>)
    ensures r == MakeVetoesSpec(seqs, cands, vetofrac, keepstride, plotdat)
  {
    var seqIntensity := LoadIntensities(seqs, decompress);
    if seqIntensity.Err? {
      return Err(seqIntensity.error);
    }
    var sumIntensities := CollectSums(cands, seqIntensity.value);
    if sumIntensities.Err? {
      return Err(sumIntensities.error);
    }
    Sorting.PairLe_Total();
    var sorted := Sorting.Sort(sumIntensities.value, Sorting.PairLe);
    var plot := if plotdat then PlotRows(sorted) else [];
    var vetoes := SelectVetoes(sorted, vetofrac, keepstride);
    if vetoes.Err? {
      return Ok(Outputs(plot, Err(vetoes.error)));
    }
    var thinned := Thin(cands, vetoes.value);
    r := Ok(Outputs(plot, Ok(Written(vetoes.value, thinned))));
  }
}
