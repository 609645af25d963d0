/** predictor.py: the argument checks, and the confusion histograms of a
    trained network's predictions. The network's predictions and the true
    values come from foreign code (keras and getDataVectors) and are
    parameters here. */
module Predictor {
  import opened Util

  const NumBits := 10

  datatype PredictorError =
    | NoPathfile
    | BothInputs           // --testdata together with --one-shot
    | HistogramOfOne       // --one-shot together with --histograms
    | NotImplemented       // --one-shot
    | NegativeDimensions   // numpy.zeros with a negative bin count
    | IndexError           // an increment into a histogram with no bins

  /** The parsed command line; an empty string stands for an option not
      given, and a `--one-shot` of 0 is as good as none, being false. */
  datatype Args = Args(pathfile: string, candidates: string, withHist: bool, histBins: int, singleTest: Option<int>)

  predicate OneShot(a: Args) { a.singleTest.Some? && a.singleTest.value != 0 }

  /** Lines 59-78: the first refusal, if any. */
  function CheckArgs(a: Args): (r: Option<PredictorError>)
    ensures r.None? <==> a.pathfile != "" && !OneShot(a)
    ensures a.pathfile != "" && a.candidates != "" && OneShot(a) ==> r == Some(BothInputs)
    ensures a.pathfile != "" && a.candidates == "" && OneShot(a) && a.withHist ==> r == Some(HistogramOfOne)
    ensures a.pathfile != "" && a.candidates == "" && OneShot(a) && !a.withHist ==> r == Some(NotImplemented)
  {
    if a.pathfile == "" then Some(NoPathfile)
    else if a.candidates != "" && OneShot(a) then Some(BothInputs)
    else if OneShot(a) && a.withHist then Some(HistogramOfOne)
    else if OneShot(a) then Some(NotImplemented)
    else None
  }

  // ------------------------------------------------------------- binning

  /** Lines 13-18. */
  function HistBinNum(val: real, nBins: int): (b: int)
    ensures val >= 1.0 ==> b == nBins - 1
    ensures val <= 0.0 ==> b == 0
    ensures 0.0 < val < 1.0 && nBins >= 0 ==> b as real <= nBins as real * val < b as real + 1.0
    ensures nBins >= 1 ==> 0 <= b < nBins
  {
    if val >= 1.0 then nBins - 1
    else if val <= 0.0 then 0
    else
      ScaledBelow(val, nBins);
      TruncReal(nBins as real * val)
  }

  lemma ScaledBelow(val: real, nBins: int)
    requires 0.0 < val < 1.0
    ensures nBins >= 0 ==> 0.0 <= nBins as real * val
    ensures nBins >= 1 ==> nBins as real * val < nBins as real
  {
    if nBins >= 1 {
      assert nBins as real * val < nBins as real * 1.0;
    }
  }

  /** Lines 86 and 104-121: the histogram column, 0 TN, 1 FN, 2 FP, 3 TP:
      the high bit says the network predicted rain, the low bit that it
      rained. */
  function Column(truth: real, pred: real): (c: nat)
    ensures c < 4
    ensures c >= 2 <==> pred >= 0.5
    ensures c % 2 == 1 <==> truth != 0.0
  {
    if truth == 0.0 then (if pred < 0.5 then 0 else 2)
    else (if pred < 0.5 then 1 else 3)
  }

  // ------------------------------------------------------------- counting

  /** npts rows of ten values each, for the truth and the prediction. */
  predicate Shaped(yvals: seq<seq<real>>, ypred: seq<seq<real>>, npts: nat)
  {
    |yvals| == npts && |ypred| == npts &&
    forall p :: 0 <= p < npts ==> |yvals[p]| == NumBits && |ypred[p]| == NumBits
  }

  /** Data point p, output bit `bit`, lands in cell [bit, c, k]. */
  predicate Hit(yvals: seq<seq<real>>, ypred: seq<seq<real>>, p: nat, bit: nat, c: nat, k: int, nBins: int)
    requires p < |yvals| && p < |ypred| && bit < |yvals[p]| && bit < |ypred[p]|
  {
    Column(yvals[p][bit], ypred[p][bit]) == c && HistBinNum(ypred[p][bit], nBins) == k
  }

  /** How many of the first n data points land in cell [bit, c, k]. */
  function Count(yvals: seq<seq<real>>, ypred: seq<seq<real>>, bit: nat, c: nat, k: int, nBins: int, n: nat): nat
    requires Shaped(yvals, ypred, |yvals|) && n <= |yvals| && bit < NumBits
  {
    if n == 0 then 0
    else Count(yvals, ypred, bit, c, k, nBins, n - 1) + (if Hit(yvals, ypred, n - 1, bit, c, k, nBins) then 1 else 0)
  }

  /** The counts of column c over bins 0 .. K-1. */
  function SumBins(yvals: seq<seq<real>>, ypred: seq<seq<real>>, bit: nat, c: nat, nBins: int, K: nat, n: nat): nat
    requires Shaped(yvals, ypred, |yvals|) && n <= |yvals| && bit < NumBits
  {
    if K == 0 then 0
    else SumBins(yvals, ypred, bit, c, nBins, K - 1, n) + Count(yvals, ypred, bit, c, K - 1, nBins, n)
  }

  /** The counts of columns 0 .. C-1 over all bins. */
  function SumCols(yvals: seq<seq<real>>, ypred: seq<seq<real>>, bit: nat, nBins: nat, C: nat, n: nat): nat
    requires Shaped(yvals, ypred, |yvals|) && n <= |yvals| && bit < NumBits
  {
    if C == 0 then 0
    else SumCols(yvals, ypred, bit, nBins, C - 1, n) + SumBins(yvals, ypred, bit, C - 1, nBins, nBins, n)
  }

  lemma {:induction false} SumBins_Step(yvals: seq<seq<real>>, ypred: seq<seq<real>>, bit: nat, c: nat, nBins: int, K: nat, n: nat)
    requires Shaped(yvals, ypred, |yvals|) && 0 < n <= |yvals| && bit < NumBits
    ensures SumBins(yvals, ypred, bit, c, nBins, K, n) ==
            SumBins(yvals, ypred, bit, c, nBins, K, n - 1) +
            (if Column(yvals[n - 1][bit], ypred[n - 1][bit]) == c && 0 <= HistBinNum(ypred[n - 1][bit], nBins) < K
             then 1 else 0)
  {
    if K > 0 {
      SumBins_Step(yvals, ypred, bit, c, nBins, K - 1, n);
    }
  }

  lemma {:induction false} SumCols_Step(yvals: seq<seq<real>>, ypred: seq<seq<real>>, bit: nat, nBins: nat, C: nat, n: nat)
    requires Shaped(yvals, ypred, |yvals|) && 0 < n <= |yvals| && bit < NumBits && nBins >= 1
    ensures SumCols(yvals, ypred, bit, nBins, C, n) ==
            SumCols(yvals, ypred, bit, nBins, C, n - 1) + (if Column(yvals[n - 1][bit], ypred[n - 1][bit]) < C then 1 else 0)
  {
    if C > 0 {
      SumCols_Step(yvals, ypred, bit, nBins, C - 1, n);
      SumBins_Step(yvals, ypred, bit, C - 1, nBins, nBins, n);
    }
  }

  /** Each data point adds exactly one count to each bit's histogram, so a
      bit's four columns hold npts counts between them, npts*10 in all. */
  lemma {:induction false} Histogram_Total(yvals: seq<seq<real>>, ypred: seq<seq<real>>, bit: nat, nBins: nat, n: nat)
    requires Shaped(yvals, ypred, |yvals|) && n <= |yvals| && bit < NumBits && nBins >= 1
    ensures SumCols(yvals, ypred, bit, nBins, 4, n) == n
  {
    if n > 0 {
      Histogram_Total(yvals, ypred, bit, nBins, n - 1);
      SumCols_Step(yvals, ypred, bit, nBins, 4, n);
    } else {
      SumCols_Empty(yvals, ypred, bit, nBins, 4);
    }
  }

  lemma {:induction false} SumBins_Empty(yvals: seq<seq<real>>, ypred: seq<seq<real>>, bit: nat, c: nat, nBins: int, K: nat)
    requires Shaped(yvals, ypred, |yvals|) && bit < NumBits
    ensures SumBins(yvals, ypred, bit, c, nBins, K, 0) == 0
  {
    if K > 0 {
      SumBins_Empty(yvals, ypred, bit, c, nBins, K - 1);
    }
  }

  lemma {:induction false} SumCols_Empty(yvals: seq<seq<real>>, ypred: seq<seq<real>>, bit: nat, nBins: nat, C: nat)
    requires Shaped(yvals, ypred, |yvals|) && bit < NumBits
    ensures SumCols(yvals, ypred, bit, nBins, C, 0) == 0
  {
    if C > 0 {
      SumCols_Empty(yvals, ypred, bit, nBins, C - 1);
      SumBins_Empty(yvals, ypred, bit, C - 1, nBins, nBins);
    }
  }

  // ------------------------------------------------------------- filling

  /** Lines 88 and 101-121. */
  method Histogram(yvals: seq<seq<real>>, ypred: seq<seq<real>>, npts: nat, nBins: nat) returns (hdata: array3<int>)
    requires Shaped(yvals, ypred, npts) && nBins >= 1
    ensures hdata.Length0 == NumBits && hdata.Length1 == 4 && hdata.Length2 == nBins
    ensures forall bit, c, k :: 0 <= bit < NumBits && 0 <= c < 4 && 0 <= k < nBins ==>
              hdata[bit, c, k] == Count(yvals, ypred, bit, c, k, nBins, npts)
  {
    hdata := new int[NumBits, 4, nBins]((_, _, _) => 0);
    for datapt := 0 to npts
      invariant forall bit, c, k :: 0 <= bit < NumBits && 0 <= c < 4 && 0 <= k < nBins ==>
                  hdata[bit, c, k] == Count(yvals, ypred, bit, c, k, nBins, datapt)
    {
      for bitnum := 0 to NumBits
        invariant forall bit, c, k :: 0 <= bit < NumBits && 0 <= c < 4 && 0 <= k < nBins ==>
                    hdata[bit, c, k] == Count(yvals, ypred, bit, c, k, nBins, if bit < bitnum then datapt + 1 else datapt)
      {
        AddPoint(hdata, yvals, ypred, datapt, bitnum, nBins);
      }
    }
  }

  /** Lines 104-121 for one data point and bit: one cell goes up by one. */
  method AddPoint(hdata: array3<int>, yvals: seq<seq<real>>, ypred: seq<seq<real>>, datapt: nat, bitnum: nat, nBins: nat)
    requires Shaped(yvals, ypred, |yvals|) && datapt < |yvals| && bitnum < NumBits && nBins >= 1
    requires hdata.Length0 == NumBits && hdata.Length1 == 4 && hdata.Length2 == nBins
    requires forall c, k :: 0 <= c < 4 && 0 <= k < nBins ==>
               hdata[bitnum, c, k] == Count(yvals, ypred, bitnum, c, k, nBins, datapt)
    modifies hdata
    ensures forall c, k :: 0 <= c < 4 && 0 <= k < nBins ==>
              hdata[bitnum, c, k] == Count(yvals, ypred, bitnum, c, k, nBins, datapt + 1)
    ensures forall bit, c, k :: 0 <= bit < NumBits && bit != bitnum && 0 <= c < 4 && 0 <= k < nBins ==>
              hdata[bit, c, k] == old(hdata[bit, c, k])
  {
    var truth, pred := yvals[datapt][bitnum], ypred[datapt][bitnum];
    var binnum := HistBinNum(pred, nBins);
    if truth == 0.0 {
      if pred < 0.5 {
        hdata[bitnum, 0, binnum] := hdata[bitnum, 0, binnum] + 1;
      } else {
        hdata[bitnum, 2, binnum] := hdata[bitnum, 2, binnum] + 1;
      }
    } else {
      if pred < 0.5 {
        hdata[bitnum, 1, binnum] := hdata[bitnum, 1, binnum] + 1;
      } else {
        hdata[bitnum, 3, binnum] := hdata[bitnum, 3, binnum] + 1;
      }
    }
  }

  // ------------------------------------------------------------- the script

  /** Lines 59-132: a refusal, or the histogram when one is asked for with
      test data (None otherwise); with no bins and no points the ten
      histogram files are written with no rows. */
  method Predict(a: Args, yvals: seq<seq<real>>, ypred: seq<seq<real>>, npts: nat)
    returns (r: Result<Option<array3<int>>, PredictorError>)
    requires Shaped(yvals, ypred, npts)
    ensures CheckArgs(a).Some? ==> r == Err(CheckArgs(a).value)
    ensures CheckArgs(a).None? && a.withHist && a.histBins < 0 ==> r == Err(NegativeDimensions)
    ensures CheckArgs(a).None? && a.withHist && a.histBins == 0 && a.candidates != "" && npts > 0 ==> r == Err(IndexError)
    ensures r.Ok? ==> (r.value.Some? <==> a.withHist && a.candidates != "" && a.histBins >= 0)
    ensures r.Ok? && r.value.Some? ==>
              var hdata := r.value.value;
              hdata.Length0 == NumBits && hdata.Length1 == 4 && hdata.Length2 == a.histBins &&
              forall bit, c, k :: 0 <= bit < NumBits && 0 <= c < 4 && 0 <= k < a.histBins ==>
                hdata[bit, c, k] == Count(yvals, ypred, bit, c, k, a.histBins, npts)
    ensures r.Ok? <==> CheckArgs(a).None? && (a.withHist ==> a.histBins >= 1 || (a.histBins == 0 && (a.candidates == "" || npts == 0)))
  {
    var check := CheckArgs(a);
    if check.Some? {
      return Err(check.value);
    }
    if a.withHist && a.histBins < 0 {
      return Err(NegativeDimensions);
    }
    if a.candidates == "" || !a.withHist {
      return Ok(None);
    }
    if a.histBins == 0 {
      if npts > 0 {
        return Err(IndexError);
      }
      var empty := new int[NumBits, 4, 0];
      return Ok(Some(empty));
    }
    var hdata := Histogram(yvals, ypred, npts, a.histBins);
    r := Ok(Some(hdata));
  }
}
