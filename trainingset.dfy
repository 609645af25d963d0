/** get-training-set.py: the true-value records of one hash are indexed by
    sequence number, runs of 36 consecutive sequence numbers are found, and
    each run yields one candidate row per rotation: the rain flag of its
    sixth snapshot and ten bins ORing the rain and heavy flags of the five
    following blocks of six. */
module TrainingSet {
  import opened Util
  import Sorting

  /** The fields of a prepare-true-vals.py record the script reads:
      field 0 (seqno), 2 (hash), 3 (rotation count) and 4 onwards (flags). */
  datatype TrueVal = TrueVal(seqno: int, hash: string, nRots: int, flags: seq<int>)

  /** One emitted line: `<FIRST_SEQ_NO> <HASH> <IS_RAINING> <N_ROTS> <ROTNUM>`
      and the ten bins. */
  datatype Row = Row(seqno: int, hash: string, rainingNow: int, nRots: int, rot: int, bins: seq<int>)

  datatype TrainError = IndexError

  const RunLength := 36

  // ------------------------------------------------------------ loading

  /** Lines 79-80: the records of the wanted hash, in file order. */
  function Matching(records: seq<TrueVal>, hashval: string): (ms: seq<TrueVal>)
    ensures forall k :: 0 <= k < |ms| ==> ms[k].hash == hashval
  {
    if records == [] then []
    else
      var init := Matching(records[..|records| - 1], hashval);
      if records[|records| - 1].hash == hashval then init + [records[|records| - 1]] else init
  }

  lemma {:induction false} Matching_Member(records: seq<TrueVal>, hashval: string, r: TrueVal)
    ensures r in Matching(records, hashval) <==> r in records && r.hash == hashval
  {
    if records != [] {
      Matching_Member(records[..|records| - 1], hashval, r);
      assert records == records[..|records| - 1] + [records[|records| - 1]];
    }
  }

  function Seqnos(ms: seq<TrueVal>): (s: seq<int>)
    ensures |s| == |ms| && forall k :: 0 <= k < |ms| ==> s[k] == ms[k].seqno
  {
    if ms == [] then [] else Seqnos(ms[..|ms| - 1]) + [ms[|ms| - 1].seqno]
  }

  /** Lines 88-90: seqno to [nRots, flags...]; a later record replaces an
      earlier one. */
  function Data(ms: seq<TrueVal>): map<int, seq<int>>
  {
    if ms == [] then map[]
    else
      var r := ms[|ms| - 1];
      Data(ms[..|ms| - 1])[r.seqno := [r.nRots] + r.flags]
  }

  /** The map holds exactly the sequence numbers read, each with the value
      of its last record. */
  lemma {:induction false} Data_Lookup(ms: seq<TrueVal>, n: int)
    ensures n in Data(ms) <==> n in Seqnos(ms)
    ensures n in Data(ms) ==>
              exists k :: 0 <= k < |ms| && ms[k].seqno == n && Data(ms)[n] == [ms[k].nRots] + ms[k].flags &&
                          forall j :: k < j < |ms| ==> ms[j].seqno != n
  {
    if ms != [] {
      Data_Lookup(ms[..|ms| - 1], n);
      var last := |ms| - 1;
      assert Seqnos(ms) == Seqnos(ms[..last]) + [ms[last].seqno];
      if n in Data(ms) && ms[last].seqno != n {
        var k :| 0 <= k < last && ms[..last][k].seqno == n &&
                 Data(ms[..last])[n] == [ms[..last][k].nRots] + ms[..last][k].flags &&
                 forall j :: k < j < last ==> ms[..last][j].seqno != n;
        assert ms[k] == ms[..last][k];
      }
    }
  }

  /** Lines 83-86: the last rotation count read, and whether some record's
      count differed from the count before it (not checked while that is -1). */
  function RotState(ms: seq<TrueVal>): (int, bool)
  {
    if ms == [] then (-1, false)
    else
      var (n, skip) := RotState(ms[..|ms| - 1]);
      var r := ms[|ms| - 1];
      (r.nRots, skip || (n != -1 && n != r.nRots))
  }

  /** Lines 93-94: nRots after loading. */
  function NRots(ms: seq<TrueVal>): int
  {
    var (n, skip) := RotState(ms);
    if skip then 0 else n
  }

  predicate SameRots(ms: seq<TrueVal>)
  {
    forall i, j :: 0 <= i < |ms| && 0 <= j < |ms| ==> ms[i].nRots == ms[j].nRots
  }

  /** With one rotation count throughout nRots is that count (-1 with no
      record); with two different counts, none being -1, it is forced to 0. */
  lemma {:induction false} NRots_Consistency(ms: seq<TrueVal>)
    ensures SameRots(ms) ==> NRots(ms) == (if ms == [] then -1 else ms[0].nRots)
    ensures !SameRots(ms) && (forall k :: 0 <= k < |ms| ==> ms[k].nRots != -1) ==> NRots(ms) == 0
  {
    RotState_Props(ms);
  }

  lemma {:induction false} RotState_Props(ms: seq<TrueVal>)
    ensures ms != [] ==> RotState(ms).0 == ms[|ms| - 1].nRots
    ensures ms == [] ==> RotState(ms) == (-1, false)
    ensures SameRots(ms) ==> !RotState(ms).1
    ensures !SameRots(ms) && (forall k :: 0 <= k < |ms| ==> ms[k].nRots != -1) ==> RotState(ms).1
  {
    if ms != [] {
      var init := ms[..|ms| - 1];
      RotState_Props(init);
      if SameRots(ms) {
        assert SameRots(init) by {
          forall i, j | 0 <= i < |init| && 0 <= j < |init| ensures init[i].nRots == init[j].nRots {
            assert init[i] == ms[i] && init[j] == ms[j];
          }
        }
      } else if forall k :: 0 <= k < |ms| ==> ms[k].nRots != -1 {
        if SameRots(init) && init != [] {
          var last := ms[|ms| - 1];
          assert init[|init| - 1] == ms[|ms| - 2];
          if last.nRots == init[0].nRots {
            forall i, j | 0 <= i < |ms| && 0 <= j < |ms| ensures ms[i].nRots == ms[j].nRots {
              if i < |init| { assert ms[i] == init[i]; }
              if j < |init| { assert ms[j] == init[j]; }
            }
            assert false;
          }
        } else if init != [] {
          forall k | 0 <= k < |init| ensures init[k].nRots != -1 { assert init[k] == ms[k]; }
        }
      }
    }
  }

  // ------------------------------------------------------------ runs of 36

  /** seqnoList[i+k] == seqnoList[i+k-1] + 1 fails at offset k. */
  predicate Gap(s: seq<int>, i: nat, k: nat)
    requires 1 <= k && i + k < |s|
  {
    s[i + k] != s[i + k - 1] + 1
  }

  /** 36 consecutive sequence numbers start at i. */
  predicate Run(s: seq<int>, i: nat)
    requires i + RunLength <= |s|
  {
    forall k :: 1 <= k < RunLength ==> !Gap(s, i, k)
  }

  /** The first gap at offset k or later (lines 105-112). */
  function FirstGap(s: seq<int>, i: nat, k: nat): (g: Option<nat>)
    requires 1 <= k && i + RunLength <= |s|
    ensures g.Some? ==> k <= g.value < RunLength && Gap(s, i, g.value) &&
                        forall m :: k <= m < g.value ==> !Gap(s, i, m)
    ensures g.None? ==> forall m :: k <= m < RunLength ==> !Gap(s, i, m)
    decreases RunLength - k
  {
    if k >= RunLength then None
    else if Gap(s, i, k) then Some(k)
    else FirstGap(s, i, k + 1)
  }

  /** The start indices the scan of lines 101-133 emits from idx on, trying
      only indices below `limit`: after a gap at offset k it resumes at
      idx + k, after a run at idx + 1. */
  function Starts(s: seq<int>, idx: nat, limit: int): seq<nat>
    requires limit + RunLength - 1 <= |s|
    decreases |s| - idx
  {
    if idx >= limit then []
    else match FirstGap(s, idx, 1)
      case Some(k) => Starts(s, idx + k, limit)
      case None => [idx] + Starts(s, idx + 1, limit)
  }

  /** A gap at offset g from idx rules out every start strictly between idx
      and idx + g. */
  lemma Skipped(s: seq<int>, idx: nat, g: nat, j: nat)
    requires 1 <= g < RunLength && idx + RunLength <= |s| && Gap(s, idx, g)
    requires idx < j < idx + g && j + RunLength <= |s|
    ensures !Run(s, j)
  {
    assert Gap(s, j, idx + g - j);
  }

  /** The scan emits, in increasing order, exactly the starts of runs of 36
      in [idx, limit). */
  lemma Starts_Exact(s: seq<int>, idx: nat, limit: int)
    requires limit + RunLength - 1 <= |s|
    ensures forall i :: i in Starts(s, idx, limit) <==> idx <= i < limit && Run(s, i)
    ensures forall a, b :: 0 <= a < b < |Starts(s, idx, limit)| ==> Starts(s, idx, limit)[a] < Starts(s, idx, limit)[b]
  {
    Starts_Member(s, idx, limit);
    Starts_Increasing(s, idx, limit);
  }

  lemma {:induction false} Starts_Member(s: seq<int>, idx: nat, limit: int)
    requires limit + RunLength - 1 <= |s|
    ensures forall i :: i in Starts(s, idx, limit) <==> idx <= i < limit && Run(s, i)
    decreases |s| - idx
  {
    if idx < limit {
      match FirstGap(s, idx, 1)
      case Some(g) =>
        Starts_Member(s, idx + g, limit);
        forall j: nat | idx <= j < idx + g && j < limit ensures !Run(s, j) {
          if j == idx { assert Gap(s, idx, g); } else { Skipped(s, idx, g, j); }
        }
      case None =>
        Starts_Member(s, idx + 1, limit);
    }
  }

  lemma {:induction false} Starts_Increasing(s: seq<int>, idx: nat, limit: int)
    requires limit + RunLength - 1 <= |s|
    ensures forall a, b :: 0 <= a < b < |Starts(s, idx, limit)| ==> Starts(s, idx, limit)[a] < Starts(s, idx, limit)[b]
    decreases |s| - idx
  {
    if idx < limit {
      match FirstGap(s, idx, 1)
      case Some(g) =>
        Starts_Increasing(s, idx + g, limit);
      case None =>
        Starts_Increasing(s, idx + 1, limit);
        Starts_Member(s, idx + 1, limit);
        var rest := Starts(s, idx + 1, limit);
        assert forall k :: 0 <= k < |rest| ==> rest[k] in rest;
    }
  }

  /** As written, a list that is one run of 36 yields no candidate. */
  lemma Starts_MissesLastRun()
    ensures var s := seq(36, i => i);
            Run(s, 0) && Starts(s, 0, |s| - RunLength) == []
  {
  }

  /** With the bound idx <= len - 36 every run, the last one included, is
      found. */
  lemma AllRuns(s: seq<int>)
    ensures forall i :: i in Starts(s, 0, Limit(s)) <==> 0 <= i && i + RunLength <= |s| && Run(s, i)
  {
    Starts_Exact(s, 0, Limit(s));
  }

  /** In a run the sequence numbers are s[i] + k. */
  lemma {:induction false} Run_Values(s: seq<int>, i: nat, k: nat)
    requires i + RunLength <= |s| && Run(s, i) && k < RunLength
    ensures s[i + k] == s[i] + k
  {
    if k > 0 {
      Run_Values(s, i, k - 1);
      assert !Gap(s, i, k);
    }
  }

  // ------------------------------------------------------------ one candidate

  /** Every sequence number of the candidate's run is indexed. */
  predicate Indexed(data: map<int, seq<int>>, cand: int)
  {
    forall q :: cand <= q < cand + RunLength ==> q in data
  }

  /** All 30 future records hold both flags of rotation rot. */
  predicate Readable(data: map<int, seq<int>>, cand: int, rot: nat)
    requires Indexed(data, cand)
  {
    forall q :: cand + 6 <= q < cand + RunLength ==> |data[q]| > 2 + 2 * rot
  }

  /** Entry i of a record; 0 past its end (never read there). */
  function Flag(rec: seq<int>, i: nat): int
  {
    if i < |rec| then rec[i] else 0
  }

  /** Flag h (0 rain, 1 heavy) of rotation rot in block t, snapshot n. */
  function SnapFlag(data: map<int, seq<int>>, cand: int, rot: nat, t: nat, n: nat, h: nat): int
  {
    var key := cand + 6 + t * 6 + n;
    if key in data then Flag(data[key], 1 + rot * 2 + h) else 0
  }

  /** Bin j: whether any of the six snapshots of block j/2 has flag j%2 set to 1. */
  predicate AnyFlag(data: map<int, seq<int>>, cand: int, rot: nat, j: nat)
  {
    exists n :: 0 <= n < 6 && SnapFlag(data, cand, rot, j / 2, n, j % 2) == 1
  }

  /** Lines 122-129: the ten bins, or an IndexError for a short record. */
  function Bins(data: map<int, seq<int>>, cand: int, rot: nat): (r: Result<seq<int>, TrainError>)
    requires Indexed(data, cand)
    ensures r.Ok? ==> |r.value| == 10
  {
    if !Readable(data, cand, rot) then Err(IndexError)
    else Ok(seq(10, j requires 0 <= j < 10 => if AnyFlag(data, cand, rot, j) then 1 else 0))
  }

  /** The binning loop of lines 122-129. */
  method BinFlags(data: map<int, seq<int>>, cand: int, rot: nat) returns (r: Result<seq<int>, TrainError>)
    requires Indexed(data, cand)
    ensures r == Bins(data, cand, rot)
  {
    var binnedValues := [0, 0, 0, 0, 0, 0, 0, 0, 0, 0];
    for timeInterval := 0 to 5
      invariant |binnedValues| == 10
      invariant forall q :: cand + 6 <= q < cand + 6 + timeInterval * 6 ==> |data[q]| > 2 + 2 * rot
      invariant forall j :: 0 <= j < 2 * timeInterval ==> (binnedValues[j] == 1 <==> AnyFlag(data, cand, rot, j))
      invariant forall j :: 2 * timeInterval <= j < 10 ==> binnedValues[j] == 0
      invariant forall j :: 0 <= j < 10 ==> binnedValues[j] == 0 || binnedValues[j] == 1
    {
      ghost var before := binnedValues;
      for snapshot := 0 to 6
        invariant |binnedValues| == 10
        invariant forall q :: cand + 6 <= q < cand + 6 + timeInterval * 6 + snapshot ==> |data[q]| > 2 + 2 * rot
        invariant forall j :: 0 <= j < 10 && j != 2 * timeInterval && j != 2 * timeInterval + 1 ==>
                    binnedValues[j] == before[j]
        invariant binnedValues[2 * timeInterval] == 1 <==>
                    exists n :: 0 <= n < snapshot && SnapFlag(data, cand, rot, timeInterval, n, 0) == 1
        invariant binnedValues[2 * timeInterval + 1] == 1 <==>
                    exists n :: 0 <= n < snapshot && SnapFlag(data, cand, rot, timeInterval, n, 1) == 1
        invariant forall j :: 0 <= j < 10 ==> binnedValues[j] == 0 || binnedValues[j] == 1
      {
        var oneRec := data[cand + 6 + timeInterval * 6 + snapshot];
        if |oneRec| <= 2 + 2 * rot {
          ghost var q := cand + 6 + timeInterval * 6 + snapshot;
          assert cand + 6 <= q < cand + RunLength && |data[q]| <= 2 + 2 * rot;
          return Err(IndexError);
        }
        assert SnapFlag(data, cand, rot, timeInterval, snapshot, 0) == oneRec[1 + rot * 2];
        assert SnapFlag(data, cand, rot, timeInterval, snapshot, 1) == oneRec[1 + rot * 2 + 1];
        if oneRec[1 + rot * 2] == 1 {
          binnedValues := binnedValues[timeInterval * 2 := 1];
        }
        if oneRec[1 + rot * 2 + 1] == 1 {
          binnedValues := binnedValues[timeInterval * 2 + 1 := 1];
        }
      }
      assert (2 * timeInterval) / 2 == timeInterval && (2 * timeInterval) % 2 == 0;
      assert (2 * timeInterval + 1) / 2 == timeInterval && (2 * timeInterval + 1) % 2 == 1;
    }
    assert Readable(data, cand, rot);
    assert binnedValues == Bins(data, cand, rot).value;
    r := Ok(binnedValues);
  }

  /** Lines 118-121 and 131 for one rotation. */
  function CandidateRow(data: map<int, seq<int>>, cand: int, hashval: string, nRots: int, rot: nat)
    : Result<Row, TrainError>
    requires Indexed(data, cand)
  {
    var last := data[cand + 5];
    if |last| <= 1 + rot * 2 then Err(IndexError)
    else
      var bins :- Bins(data, cand, rot);
      Ok(Row(cand, hashval, last[1 + rot * 2], nRots, rot, bins))
  }

  /** The rows of rotations 0 .. n-1. */
  function CandidateRows(data: map<int, seq<int>>, cand: int, hashval: string, nRots: int, n: nat)
    : Result<seq<Row>, TrainError>
    requires Indexed(data, cand)
  {
    if n == 0 then Ok([])
    else
      var init :- CandidateRows(data, cand, hashval, nRots, n - 1);
      var row :- CandidateRow(data, cand, hashval, nRots, n - 1);
      Ok(init + [row])
  }

  /** A failed rotation fails every longer list of rotations the same way. */
  lemma {:induction false} CandidateRows_Stuck(data: map<int, seq<int>>, cand: int, hashval: string, nRots: int, m: nat, n: nat)
    requires Indexed(data, cand) && m <= n
    requires CandidateRows(data, cand, hashval, nRots, m).Err?
    ensures CandidateRows(data, cand, hashval, nRots, n) == CandidateRows(data, cand, hashval, nRots, m)
  {
    if n > m {
      CandidateRows_Stuck(data, cand, hashval, nRots, m, n - 1);
    }
  }

  /** `range(nRots + 1)`. */
  function RotCount(nRots: int): nat
  {
    if nRots + 1 > 0 then nRots + 1 else 0
  }

  /** A candidate's rows are rotations 0, 1, ... in order, each with the
      candidate's first seqno, the hash, nRots, the sixth snapshot's rain
      flag and the bins of that rotation. */
  lemma {:induction false} CandidateRows_Shape(data: map<int, seq<int>>, cand: int, hashval: string, nRots: int, n: nat)
    requires Indexed(data, cand)
    requires CandidateRows(data, cand, hashval, nRots, n).Ok?
    ensures var rows := CandidateRows(data, cand, hashval, nRots, n).value;
            |rows| == n &&
            forall k :: 0 <= k < n ==>
              rows[k].seqno == cand && rows[k].hash == hashval && rows[k].nRots == nRots && rows[k].rot == k &&
              |data[cand + 5]| > 1 + 2 * k && rows[k].rainingNow == data[cand + 5][1 + 2 * k] &&
              Bins(data, cand, k) == Ok(rows[k].bins)
  {
    if n > 0 {
      CandidateRows_Shape(data, cand, hashval, nRots, n - 1);
    }
  }

  /** Lines 117-131: one row per rotation. */
  method EmitCandidate(data: map<int, seq<int>>, cand: int, hashval: string, nRots: int)
    returns (r: Result<seq<Row>, TrainError>)
    requires Indexed(data, cand)
    ensures r == CandidateRows(data, cand, hashval, nRots, RotCount(nRots))
  {
    var rows: seq<Row> := [];
    for rot := 0 to RotCount(nRots)
      invariant CandidateRows(data, cand, hashval, nRots, rot) == Ok(rows)
    {
      var lastHistoricalRecord := data[cand + 5];
      if |lastHistoricalRecord| <= 1 + rot * 2 {
        CandidateRows_Stuck(data, cand, hashval, nRots, rot + 1, RotCount(nRots));
        return Err(IndexError);
      }
      var rainingNow := lastHistoricalRecord[1 + rot * 2];
      var binned := BinFlags(data, cand, rot);
      if binned.Err? {
        CandidateRows_Stuck(data, cand, hashval, nRots, rot + 1, RotCount(nRots));
        return Err(binned.error);
      }
      rows := rows + [Row(cand, hashval, rainingNow, nRots, rot, binned.value)];
    }
    return Ok(rows);
  }

  // ------------------------------------------------------------ the scan

  /** Every listed sequence number is indexed. */
  predicate AllIndexed(s: seq<int>, data: map<int, seq<int>>)
  {
    forall k :: 0 <= k < |s| ==> s[k] in data
  }

  lemma Run_Indexed(s: seq<int>, data: map<int, seq<int>>, i: nat)
    requires AllIndexed(s, data) && i + RunLength <= |s| && Run(s, i)
    ensures Indexed(data, s[i])
  {
    forall q | s[i] <= q < s[i] + RunLength ensures q in data {
      Run_Values(s, i, q - s[i]);
    }
  }

  /** Each index starts a run of 36. */
  predicate RunStarts(s: seq<int>, starts: seq<nat>)
  {
    forall k :: 0 <= k < |starts| ==> starts[k] + RunLength <= |s| && Run(s, starts[k])
  }

  /** The rows of the given run starts, in order; the first error stops all. */
  function Emit(s: seq<int>, data: map<int, seq<int>>, hashval: string, nRots: int, starts: seq<nat>)
    : Result<seq<Row>, TrainError>
    requires AllIndexed(s, data) && RunStarts(s, starts)
  {
    if starts == [] then Ok([])
    else
      Run_Indexed(s, data, starts[0]);
      var rows :- CandidateRows(data, s[starts[0]], hashval, nRots, RotCount(nRots));
      var rest :- Emit(s, data, hashval, nRots, starts[1..]);
      Ok(rows + rest)
  }

  function Prepend(out: seq<Row>, r: Result<seq<Row>, TrainError>): Result<seq<Row>, TrainError>
  {
    match r
    case Err(e) => Err(e)
    case Ok(rest) => Ok(out + rest)
  }

  /** The start list used by the script, with its run property. */
  lemma Starts_Runs(s: seq<int>, idx: nat, limit: int)
    requires limit + RunLength - 1 <= |s|
    ensures RunStarts(s, Starts(s, idx, limit))
  {
    Starts_Exact(s, idx, limit);
    var st := Starts(s, idx, limit);
    assert forall k :: 0 <= k < |st| ==> st[k] in st;
  }

  /** The rows the scan of lines 101-133 emits from idx on, trying start
      indices below limit. */
  function ScanFrom(s: seq<int>, data: map<int, seq<int>>, hashval: string, nRots: int, limit: int, idx: nat)
    : Result<seq<Row>, TrainError>
    requires AllIndexed(s, data) && limit + RunLength - 1 <= |s|
    decreases |s| - idx, 1
  {
    if idx >= limit then Ok([]) else ScanAt(s, data, hashval, nRots, limit, idx)
  }

  /** The outer loop's pass at idx and what follows it. */
  function ScanAt(s: seq<int>, data: map<int, seq<int>>, hashval: string, nRots: int, limit: int, idx: nat)
    : Result<seq<Row>, TrainError>
    requires AllIndexed(s, data) && idx < limit && limit + RunLength - 1 <= |s|
    decreases |s| - idx, 0
  {
    match FirstGap(s, idx, 1)
    case Some(k) => ScanFrom(s, data, hashval, nRots, limit, idx + k)
    case None =>
      Run_Indexed(s, data, idx);
      var rows :- CandidateRows(data, s[idx], hashval, nRots, RotCount(nRots));
      var rest :- ScanFrom(s, data, hashval, nRots, limit, idx + 1);
      Ok(rows + rest)
  }

  lemma ScanFrom_Skip(s: seq<int>, data: map<int, seq<int>>, hashval: string, nRots: int, limit: int, idx: nat)
    requires AllIndexed(s, data) && idx < limit && limit + RunLength - 1 <= |s| && FirstGap(s, idx, 1).Some?
    ensures ScanFrom(s, data, hashval, nRots, limit, idx) ==
            PrependResult(Ok([]), ScanFrom(s, data, hashval, nRots, limit, idx + FirstGap(s, idx, 1).value))
  {
    var rest := ScanFrom(s, data, hashval, nRots, limit, idx + FirstGap(s, idx, 1).value);
    if rest.Ok? {
      assert [] + rest.value == rest.value;
    }
  }

  lemma ScanFrom_Hit(s: seq<int>, data: map<int, seq<int>>, hashval: string, nRots: int, limit: int, idx: nat)
    requires AllIndexed(s, data) && idx < limit && limit + RunLength - 1 <= |s| && FirstGap(s, idx, 1).None?
    ensures idx + RunLength <= |s| && Run(s, idx) && Indexed(data, s[idx])
    ensures ScanFrom(s, data, hashval, nRots, limit, idx) ==
            PrependResult(CandidateRows(data, s[idx], hashval, nRots, RotCount(nRots)), ScanFrom(s, data, hashval, nRots, limit, idx + 1))
  {
    Run_Indexed(s, data, idx);
  }

  /** The scan emits the rows of the run starts Starts finds, in order. */
  lemma {:induction false} ScanFrom_Emit(s: seq<int>, data: map<int, seq<int>>, hashval: string, nRots: int, limit: int, idx: nat)
    requires AllIndexed(s, data) && limit + RunLength - 1 <= |s|
    ensures (Starts_Runs(s, idx, limit);
             ScanFrom(s, data, hashval, nRots, limit, idx) == Emit(s, data, hashval, nRots, Starts(s, idx, limit)))
    decreases |s| - idx, 1
  {
    Starts_Runs(s, idx, limit);
    if idx < limit {
      if FirstGap(s, idx, 1).Some? {
        Emit_Gap(s, data, hashval, nRots, limit, idx);
      } else {
        Emit_Hit(s, data, hashval, nRots, limit, idx);
      }
    }
  }

  /** The inductive step of ScanFrom_Emit at a gap. */
  lemma {:induction false} Emit_Gap(s: seq<int>, data: map<int, seq<int>>, hashval: string, nRots: int, limit: int, idx: nat)
    requires AllIndexed(s, data) && idx < limit && limit + RunLength - 1 <= |s| && FirstGap(s, idx, 1).Some?
    ensures (Starts_Runs(s, idx, limit);
             ScanFrom(s, data, hashval, nRots, limit, idx) == Emit(s, data, hashval, nRots, Starts(s, idx, limit)))
    decreases |s| - idx, 0
  {
    var next := idx + FirstGap(s, idx, 1).value;
    assert idx < next <= |s|;
    ScanFrom_Emit(s, data, hashval, nRots, limit, next);
    Starts_Runs(s, idx, limit);
    ScanFrom_Gap(s, data, hashval, nRots, limit, idx);
  }

  /** The inductive step of ScanFrom_Emit at a run start. */
  lemma {:induction false} Emit_Hit(s: seq<int>, data: map<int, seq<int>>, hashval: string, nRots: int, limit: int, idx: nat)
    requires AllIndexed(s, data) && idx < limit && limit + RunLength - 1 <= |s| && FirstGap(s, idx, 1).None?
    ensures (Starts_Runs(s, idx, limit);
             ScanFrom(s, data, hashval, nRots, limit, idx) == Emit(s, data, hashval, nRots, Starts(s, idx, limit)))
    decreases |s| - idx, 0
  {
    ScanFrom_Emit(s, data, hashval, nRots, limit, idx + 1);
    Starts_Runs(s, idx, limit);
    Starts_Runs(s, idx + 1, limit);
    ScanFrom_Hit(s, data, hashval, nRots, limit, idx);
    var rest := Starts(s, idx + 1, limit);
    assert Starts(s, idx, limit) == [idx] + rest;
    Emit_Cons(s, data, hashval, nRots, idx, rest);
  }

  /** On a gap both the scan and the start list resume after it. */
  lemma ScanFrom_Gap(s: seq<int>, data: map<int, seq<int>>, hashval: string, nRots: int, limit: int, idx: nat)
    requires AllIndexed(s, data) && idx < limit && limit + RunLength - 1 <= |s| && FirstGap(s, idx, 1).Some?
    ensures var next := idx + FirstGap(s, idx, 1).value;
            ScanFrom(s, data, hashval, nRots, limit, idx) == ScanFrom(s, data, hashval, nRots, limit, next) &&
            Starts(s, idx, limit) == Starts(s, next, limit)
  {
  }

  /** Emit on one more start: its rows, then the others'. */
  lemma Emit_Cons(s: seq<int>, data: map<int, seq<int>>, hashval: string, nRots: int, idx: nat, rest: seq<nat>)
    requires AllIndexed(s, data) && RunStarts(s, [idx] + rest) && RunStarts(s, rest)
    ensures idx + RunLength <= |s| && Run(s, idx) && Indexed(data, s[idx])
    ensures Emit(s, data, hashval, nRots, [idx] + rest) ==
            PrependResult(CandidateRows(data, s[idx], hashval, nRots, RotCount(nRots)), Emit(s, data, hashval, nRots, rest))
  {
    assert ([idx] + rest)[0] == idx && ([idx] + rest)[1..] == rest;
    Run_Indexed(s, data, idx);
  }

  /** Lines 105-112: looks for a gap in the 35 steps after idx; on a gap at
      offset k the scan position moves to idx + k. */
  method CheckRun(s: seq<int>, idx: nat) returns (invalid: bool, next: nat)
    requires idx + RunLength <= |s|
    ensures invalid <==> FirstGap(s, idx, 1).Some?
    ensures invalid ==> next == idx + FirstGap(s, idx, 1).value
    ensures !invalid ==> next == idx && Run(s, idx)
  {
    next := idx;
    var offset := 1;
    invalid := false;
    while !invalid && offset < RunLength
      invariant 1 <= offset <= RunLength
      invariant !invalid ==> next == idx && FirstGap(s, idx, 1) == FirstGap(s, idx, offset)
      invariant invalid ==> 2 <= offset && FirstGap(s, idx, 1) == Some(offset - 1) && next == idx + offset - 1
    {
      if s[next + offset] != s[next + offset - 1] + 1 {
        invalid := true;
        next := next + offset;
      }
      offset := offset + 1;
    }
  }

  /** One pass of the outer loop (lines 103-133) at idx: the rows it prints
      and the next scan position. */
  method ScanStep(s: seq<int>, data: map<int, seq<int>>, hashval: string, nRots: int, limit: int, idx: nat)
    returns (r: Result<seq<Row>, TrainError>, next: nat)
    requires AllIndexed(s, data) && idx < limit && limit + RunLength - 1 <= |s|
    ensures idx < next
    ensures ScanFrom(s, data, hashval, nRots, limit, idx) == PrependResult(r, ScanFrom(s, data, hashval, nRots, limit, next))
  {
    var candSeqNo := s[idx];
    var invalid;
    invalid, next := CheckRun(s, idx);
    if invalid {
      ScanFrom_Skip(s, data, hashval, nRots, limit, idx);
      return Ok([]), next;
    }
    ScanFrom_Hit(s, data, hashval, nRots, limit, idx);
    r := EmitCandidate(data, candSeqNo, hashval, nRots);
    next := idx + 1;
  }

  /** The rows r, then those of rest; an error in either stops. */
  function PrependResult(r: Result<seq<Row>, TrainError>, rest: Result<seq<Row>, TrainError>): Result<seq<Row>, TrainError>
  {
    match r
    case Err(e) => Err(e)
    case Ok(rows) => Prepend(rows, rest)
  }

  /** Rows already printed absorb the next pass's rows. */
  lemma Prepend_Step(out: seq<Row>, rows: seq<Row>, rest: Result<seq<Row>, TrainError>)
    ensures Prepend(out, PrependResult(Ok(rows), rest)) == Prepend(out + rows, rest)
  {
    if rest.Ok? {
      assert out + (rows + rest.value) == (out + rows) + rest.value;
    }
  }

  /** The bound of the scan: every start index whose 36 entries fit in the
      list; line 102 stops one short of it. */
  function Limit(s: seq<int>): int
  {
    |s| - RunLength + 1
  }

  /** Lines 101-133, with the corrected bound idx <= len - 36: the scan for
      runs of 36 and their rows. */
  method FindCandidates(s: seq<int>, data: map<int, seq<int>>, hashval: string, nRots: int)
    returns (r: Result<seq<Row>, TrainError>)
    requires AllIndexed(s, data)
    ensures r == ScanFrom(s, data, hashval, nRots, Limit(s), 0)
  {
    var out: seq<Row> := [];
    var idx := 0;
    var limit := Limit(s);
    ghost var all := ScanFrom(s, data, hashval, nRots, limit, 0);
    if all.Ok? {
      assert out + all.value == all.value;
    }
    while idx < limit
      invariant all == Prepend(out, ScanFrom(s, data, hashval, nRots, limit, idx))
      decreases |s| - idx
    {
      var rows, next := ScanStep(s, data, hashval, nRots, limit, idx);
      if rows.Err? {
        return Err(rows.error);
      }
      Prepend_Step(out, rows.value, ScanFrom(s, data, hashval, nRots, limit, next));
      out := out + rows.value;
      idx := next;
    }
    assert out + [] == out;
    return Ok(out);
  }

  // ------------------------------------------------------------ the script

  /** Lines 76-90: the records of the wanted hash, in file order, with the
      rotation-count tracking of lines 83-86. */
  method LoadTrueVals(records: seq<TrueVal>, hashval: string)
    returns (seqnoList: seq<int>, parsedData: map<int, seq<int>>, nRots: int, skipRotations: bool)
    ensures seqnoList == Seqnos(Matching(records, hashval))
    ensures parsedData == Data(Matching(records, hashval))
    ensures (nRots, skipRotations) == RotState(Matching(records, hashval))
  {
    seqnoList, parsedData, nRots, skipRotations := [], map[], -1, false;
    ghost var ms: seq<TrueVal> := [];
    for i := 0 to |records|
      invariant ms == Matching(records[..i], hashval)
      invariant seqnoList == Seqnos(ms) && parsedData == Data(ms) && (nRots, skipRotations) == RotState(ms)
    {
      var record := records[i];
      Matching_Step(records, i, hashval);
      if record.hash != hashval {
        continue;
      }
      Loaded_Step(ms, record);
      if nRots != -1 && nRots != record.nRots {
        skipRotations := true;
      }
      nRots := record.nRots;
      seqnoList := seqnoList + [record.seqno];
      parsedData := parsedData[record.seqno := [record.nRots] + record.flags];
      ms := ms + [record];
    }
    assert records[..|records|] == records;
  }

  /** One more record read: it is kept exactly when its hash is the wanted one. */
  lemma Matching_Step(records: seq<TrueVal>, i: nat, hashval: string)
    requires i < |records|
    ensures records[i].hash != hashval ==> Matching(records[..i + 1], hashval) == Matching(records[..i], hashval)
    ensures records[i].hash == hashval ==>
              Matching(records[..i + 1], hashval) == Matching(records[..i], hashval) + [records[i]]
  {
    assert records[..i + 1][..i] == records[..i];
  }

  /** One more matching record: its sequence number is listed, its data
      stored and its rotation count tracked. */
  lemma Loaded_Step(ms: seq<TrueVal>, r: TrueVal)
    ensures Seqnos(ms + [r]) == Seqnos(ms) + [r.seqno]
    ensures Data(ms + [r]) == Data(ms)[r.seqno := [r.nRots] + r.flags]
    ensures RotState(ms + [r]) == (r.nRots, RotState(ms).1 || (RotState(ms).0 != -1 && RotState(ms).0 != r.nRots))
  {
    assert (ms + [r])[..|ms|] == ms;
  }

  /** After sorting, every listed sequence number is indexed. */
  lemma Sorted_Indexed(ms: seq<TrueVal>)
    ensures AllIndexed(Sorting.SortedOf(Seqnos(ms), Sorting.IntLe), Data(ms))
  {
    Sorting.IntLe_Total();
    var s := Sorting.SortedOf(Seqnos(ms), Sorting.IntLe);
    Sorting.SortedOf_Props(Seqnos(ms), Sorting.IntLe);
    forall k | 0 <= k < |s| ensures s[k] in Data(ms) {
      assert s[k] in multiset(s);
      assert s[k] in multiset(Seqnos(ms));
      Data_Lookup(ms, s[k]);
    }
  }

  /** The whole script: its printed rows, or the IndexError it stops with. */
  function TrainingSetRows(records: seq<TrueVal>, hashval: string): Result<seq<Row>, TrainError>
  {
    var ms := Matching(records, hashval);
    var s := Sorting.SortedOf(Seqnos(ms), Sorting.IntLe);
    Sorted_Indexed(ms);
    ScanFrom(s, Data(ms), hashval, NRots(ms), Limit(s), 0)
  }

  /** Lines 76-133. */
  method GetTrainingSet(records: seq<TrueVal>, hashval: string) returns (r: Result<seq<Row>, TrainError>)
    ensures r == TrainingSetRows(records, hashval)
  {
    var seqnoList, parsedData, nRots, skipRotations := LoadTrueVals(records, hashval);
    Sorting.IntLe_Total();
    seqnoList := Sorting.Sort(seqnoList, Sorting.IntLe);
    if skipRotations {
      nRots := 0;
    }
    Sorted_Indexed(Matching(records, hashval));
    r := FindCandidates(seqnoList, parsedData, hashval, nRots);
  }
}
