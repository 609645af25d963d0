/** datasplit.py: the candidate lines not on the veto list are shuffled and
    split into a validation set (the first numReserved) and a training set
    (the rest), each written in sorted line order. `random.shuffle` is a
    parameter that may return any permutation. */
module DataSplit {
  import opened Util
  import Sorting

  datatype SplitError =
    | IndexError   // a line with no fields
    | NameError    // line 46 appends to `vetolist`, which is never defined

  /** A line of a candidates or veto file: its text, and `int(fields[0])`,
      None when the line has no fields. */
  datatype Line = Line(text: string, key: Option<int>)

  // ---------------------------------------------------------- veto list

  /** Lines 40-46 as written: Python looks up `vetolist.append` before it
      evaluates `fields[0]`, so every record of a veto file, blank or not,
      stops the script with a NameError, and `vetoes` can only ever be
      empty. */
  function VetoesAsWritten(vetoFile: Option<seq<Line>>): (r: Result<seq<int>, SplitError>)
    ensures r.Ok? ==> r.value == []
    ensures r.Ok? <==> vetoFile.None? || vetoFile.value == []
    ensures r.Err? ==> r.error == NameError
  {
    match vetoFile
    case None => Ok([])
    case Some(records) => if records == [] then Ok([]) else Err(NameError)
  }

  /** Lines 40-46 as evidently intended: the first field of every record
      is appended to `vetoes`. */
  function VetoKeys(vetoFile: Option<seq<Line>>): (r: Result<seq<int>, SplitError>)
  {
    match vetoFile
    case None => Ok([])
    case Some(records) => Keys(records)
  }

  function Keys(records: seq<Line>): (r: Result<seq<int>, SplitError>)
    ensures r.Err? ==> r.error == IndexError
    ensures r.Ok? <==> forall k :: 0 <= k < |records| ==> records[k].key.Some?
    ensures r.Ok? ==> |r.value| == |records| && forall k :: 0 <= k < |records| ==> r.value[k] == records[k].key.value
  {
    if records == [] then Ok([])
    else
      var init := Keys(records[..|records| - 1]);
      assert forall k :: 0 <= k < |records| - 1 ==> records[..|records| - 1][k] == records[k];
      match records[|records| - 1].key
      case None => Err(IndexError)
      case Some(v) => if init.Err? then init else Ok(init.value + [v])
  }

  /** A veto file with the one record "5" is refused as written, so the
      candidate with seqno 5 is never vetoed; the intended reading vetoes it. */
  lemma VetoListNeverFilled()
    ensures VetoesAsWritten(Some([Line("5\n", Some(5))])) == Err(NameError)
    ensures VetoKeys(Some([Line("5\n", Some(5))])) == Ok([5])
  {
    var records := [Line("5\n", Some(5))];
    var r := Keys(records);
    assert r.Ok? && |r.value| == 1 && r.value[0] == 5;
    assert r.value == [5];
  }

  lemma {:induction false} KeysStuck(records: seq<Line>, n: nat)
    requires n <= |records| && Keys(records[..n]).Err?
    ensures Keys(records).Err?
  {
    var k :| 0 <= k < n && records[..n][k].key.None?;
    assert records[k].key.None?;
  }

  /** The corrected loop of lines 42-46. */
  method LoadVetoes(vetoFile: Option<seq<Line>>) returns (r: Result<seq<int>, SplitError>)
    ensures r == VetoKeys(vetoFile)
  {
    var vetoes: seq<int> := [];
    if vetoFile.Some? {
      var records := vetoFile.value;
      for i := 0 to |records|
        invariant Keys(records[..i]) == Ok(vetoes)
      {
        assert records[..i + 1][..i] == records[..i];
        if records[i].key.None? {
          KeysStuck(records, i + 1);
          return Err(IndexError);
        }
        vetoes := vetoes + [records[i].key.value];
      }
      assert records[..|records|] == records;
    }
    r := Ok(vetoes);
  }

  // ---------------------------------------------------------- candidates

  /** Lines 52-57: the text of each line whose seqno is not vetoed, in file
      order. */
  function Valid(lines: seq<Line>, vetoes: seq<int>): (r: Result<seq<string>, SplitError>)
    ensures r.Err? ==> r.error == IndexError
    ensures r.Ok? <==> forall k :: 0 <= k < |lines| ==> lines[k].key.Some?
  {
    if lines == [] then Ok([])
    else
      var init := Valid(lines[..|lines| - 1], vetoes);
      assert forall k :: 0 <= k < |lines| - 1 ==> lines[..|lines| - 1][k] == lines[k];
      var l := lines[|lines| - 1];
      match l.key
      case None => Err(IndexError)
      case Some(v) => if init.Err? then init else if v in vetoes then init else Ok(init.value + [l.text])
  }

  /** Every candidate line kept is a line whose seqno is not vetoed, and
      every such line is kept. */
  lemma {:induction false} Valid_Exact(lines: seq<Line>, vetoes: seq<int>)
    requires Valid(lines, vetoes).Ok?
    ensures forall t :: t in Valid(lines, vetoes).value ==>
              exists k :: 0 <= k < |lines| && lines[k].text == t && lines[k].key.value !in vetoes
    ensures forall k :: 0 <= k < |lines| && lines[k].key.value !in vetoes ==> lines[k].text in Valid(lines, vetoes).value
  {
    if lines != [] {
      var init := lines[..|lines| - 1];
      Valid_Exact(init, vetoes);
      assert forall k :: 0 <= k < |init| ==> init[k] == lines[k];
    }
  }

  lemma {:induction false} ValidStuck(lines: seq<Line>, vetoes: seq<int>, n: nat)
    requires n <= |lines| && Valid(lines[..n], vetoes).Err?
    ensures Valid(lines, vetoes).Err?
  {
    var k :| 0 <= k < n && lines[..n][k].key.None?;
    assert lines[k].key.None?;
  }

  /** The loop of lines 53-57. */
  method FilterCandidates(lines: seq<Line>, vetoes: seq<int>) returns (r: Result<seq<string>, SplitError>)
    ensures r == Valid(lines, vetoes)
  {
    var validcandidates: seq<string> := [];
    for i := 0 to |lines|
      invariant Valid(lines[..i], vetoes) == Ok(validcandidates)
    {
      assert lines[..i + 1][..i] == lines[..i];
      if lines[i].key.None? {
        ValidStuck(lines, vetoes, i + 1);
        return Err(IndexError);
      }
      if lines[i].key.value in vetoes {
        continue;
      }
      validcandidates := validcandidates + [lines[i].text];
    }
    assert lines[..|lines|] == lines;
    r := Ok(validcandidates);
  }

  // ---------------------------------------------------------- the split

  /** Lines 60-66: the validation count, or else the fraction of the valid
      candidates, truncated. */
  function NumReserved(validationCount: int, validationFrac: real, numValid: nat): (n: int)
    ensures validationCount != 0 ==> n == validationCount
    ensures validationCount == 0 && 0.0 <= validationFrac <= 1.0 ==> 0 <= n <= numValid
    ensures validationCount == 0 && 0.0 <= validationFrac ==> n as real <= validationFrac * numValid as real < n as real + 1.0
  {
    if validationCount == 0 then
      var x := validationFrac * numValid as real;
      FractionBounds(validationFrac, numValid);
      TruncReal(x)
    else validationCount
  }

  lemma FractionBounds(f: real, n: nat)
    ensures 0.0 <= f ==> 0.0 <= f * n as real
    ensures 0.0 <= f <= 1.0 ==> f * n as real <= n as real
  {
    if 0.0 <= f {
      assert f * n as real >= 0.0 * n as real;
    }
    if 0.0 <= f <= 1.0 {
      assert f * n as real <= 1.0 * n as real;
    }
  }

  /** `random.shuffle`: some permutation of its argument. */
  ghost predicate IsShuffle(shuffle: seq<string> -> seq<string>)
  {
    forall s :: multiset(shuffle(s)) == multiset(s)
  }

  /** What the script writes: the training lines and the validation lines. */
  datatype Split = Split(training: seq<string>, validation: seq<string>)

  function SplitOf(valid: seq<string>, shuffle: seq<string> -> seq<string>, validationCount: int, validationFrac: real)
    : Split
  {
    var shuffled := shuffle(valid);
    var cut := SliceIndex(NumReserved(validationCount, validationFrac, |shuffled|), |shuffled|);
    Split(Sorting.SortedOf(shuffled[cut..], Sorting.StringLe), Sorting.SortedOf(shuffled[..cut], Sorting.StringLe))
  }

  function DataSplitSpec(vetoFile: Option<seq<Line>>, lines: seq<Line>, shuffle: seq<string> -> seq<string>,
                         validationCount: int, validationFrac: real): Result<Split, SplitError>
  {
    var vetoes :- VetoKeys(vetoFile);
    var valid :- Valid(lines, vetoes);
    Ok(SplitOf(valid, shuffle, validationCount, validationFrac))
  }

  /** The two sets are sorted, together they are a permutation of the valid
      candidates, and a validation count within range is the size of the
      validation set. */
  lemma Split_Partition(valid: seq<string>, shuffle: seq<string> -> seq<string>, validationCount: int,
                        validationFrac: real)
    requires IsShuffle(shuffle)
    ensures var sp := SplitOf(valid, shuffle, validationCount, validationFrac);
            Sorting.SortedBy(sp.training, Sorting.StringLe) && Sorting.SortedBy(sp.validation, Sorting.StringLe) &&
            multiset(sp.training) + multiset(sp.validation) == multiset(valid) &&
            (0 <= validationCount <= |valid| && validationCount != 0 ==> |sp.validation| == validationCount)
  {
    Sorting.StringLe_Total();
    var shuffled := shuffle(valid);
    assert |shuffled| == |multiset(shuffled)| == |valid|;
    var cut := SliceIndex(NumReserved(validationCount, validationFrac, |shuffled|), |shuffled|);
    Sorting.SortedOf_Props(shuffled[cut..], Sorting.StringLe);
    Sorting.SortedOf_Props(shuffled[..cut], Sorting.StringLe);
    assert shuffled == shuffled[..cut] + shuffled[cut..];
  }

  /** With the intended veto list no vetoed seqno reaches either set, and
      every other candidate line reaches one of them. */
  lemma Split_SkipsVetoed(vetoFile: Option<seq<Line>>, lines: seq<Line>, shuffle: seq<string> -> seq<string>,
                          validationCount: int, validationFrac: real)
    requires IsShuffle(shuffle)
    requires DataSplitSpec(vetoFile, lines, shuffle, validationCount, validationFrac).Ok?
    ensures var vetoes := VetoKeys(vetoFile).value;
            var sp := DataSplitSpec(vetoFile, lines, shuffle, validationCount, validationFrac).value;
            (forall t :: t in sp.training || t in sp.validation ==>
               exists k :: 0 <= k < |lines| && lines[k].text == t && lines[k].key.value !in vetoes) &&
            (forall k :: 0 <= k < |lines| && lines[k].key.value !in vetoes ==>
               lines[k].text in sp.training || lines[k].text in sp.validation)
  {
    var vetoes := VetoKeys(vetoFile).value;
    var valid := Valid(lines, vetoes).value;
    Valid_Exact(lines, vetoes);
    Split_Partition(valid, shuffle, validationCount, validationFrac);
    var sp := SplitOf(valid, shuffle, validationCount, validationFrac);
    InEither(sp.training, sp.validation, valid);
  }

  lemma InEither(a: seq<string>, b: seq<string>, s: seq<string>)
    requires multiset(a) + multiset(b) == multiset(s)
    ensures forall t :: t in a || t in b <==> t in s
  {
    forall t
      ensures t in a || t in b <==> t in s
    {
      assert t in a <==> t in multiset(a);
      assert t in b <==> t in multiset(b);
      assert t in s <==> t in multiset(s);
    }
  }

  /** Lines 40-78 with the intended veto list. */
  method DataSplitScript(vetoFile: Option<seq<Line>>, lines: seq<Line>, shuffle: seq<string> -> seq<string>,
                         validationCount: int, validationFrac: real)
    returns (r: Result<Split, SplitError>)
    ensures r == DataSplitSpec(vetoFile, lines, shuffle, validationCount, validationFrac)
  {
    var vetoes := LoadVetoes(vetoFile);
    if vetoes.Err? {
      return Err(vetoes.error);
    }
    var validcandidates := FilterCandidates(lines, vetoes.value);
    if validcandidates.Err? {
      return Err(validcandidates.error);
    }
    var shuffled := shuffle(validcandidates.value);
    var numValid := |shuffled|;
    var numReserved := NumReserved(validationCount, validationFrac, numValid);
    var cut := SliceIndex(numReserved, numValid);
    Sorting.StringLe_Total();
    var trainingset := Sorting.Sort(shuffled[cut..], Sorting.StringLe);
    var validationset := Sorting.Sort(shuffled[..cut], Sorting.StringLe);
    r := Ok(Split(trainingset, validationset));
  }
}
