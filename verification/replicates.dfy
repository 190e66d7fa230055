/**
 The replicate helpers of utils.py: `double_set_generator`, which files the
 first field of each line by the third field, and `return_two_list`, which
 lists positions and the reads to plot.
 */
module Replicates {
  import opened Results
  import opened Text
  import opened Builtins
  import opened Tables

  /** Where the try/except of `double_set_generator` files a line. */
  datatype Filing = Replicate | NonReplicate | Neither

  /**
   The source's rule, given the fields of a line: a third field that `int()`
   reads as 2 goes to the replicate set; a missing third field (IndexError)
   or one `int()` rejects (ValueError) is caught and goes to the
   non-replicate set; any other integer raises nothing and files nowhere.
   */
  function Classify(t: seq<string>): Filing {
    if |t| < 3 then NonReplicate
    else
      match ParseInt(t[2])
      case None => NonReplicate
      case Some(n) => if n == 2 then Replicate else Neither
  }

  /** The rule the docstring describes: a line not seen in both replicas was seen in one. */
  function ClassifyIntended(t: seq<string>): Filing {
    if |t| >= 3 && ParseInt(t[2]) == Some(2) then Replicate else NonReplicate
  }

  /** Line `line` has a first field `x` and is filed under `f` by `classify`. */
  predicate FiledAs(line: string, classify: seq<string> -> Filing, f: Filing, x: string) {
    |Tokens(line)| > 0 && Tokens(line)[0] == x && classify(Tokens(line)) == f
  }

  /**
   The loop over the lines: a blank line raises IndexError (from `line[0]`
   in the except clause); otherwise the first field joins the set its filing
   names.
   */
  function Partition(lines: seq<string>, classify: seq<string> -> Filing): (r: Result<(set<string>, set<string>)>)
    ensures r.Ok? <==> forall i :: 0 <= i < |lines| ==> |Tokens(lines[i])| > 0
    ensures r.Err? ==> r.error == IndexError
    ensures r.Ok? ==> forall x :: x in r.value.0 <==> exists i :: 0 <= i < |lines| && FiledAs(lines[i], classify, Replicate, x)
    ensures r.Ok? ==> forall x :: x in r.value.1 <==> exists i :: 0 <= i < |lines| && FiledAs(lines[i], classify, NonReplicate, x)
  {
    if |lines| == 0 then Ok(({}, {}))
    else
      var t := Tokens(lines[0]);
      if |t| == 0 then Err(IndexError)
      else
        var rest := Partition(lines[1..], classify);
        PartitionStep(lines, classify, rest);
        var sets :- rest;
        match classify(t)
        case Replicate => Ok(({t[0]} + sets.0, sets.1))
        case NonReplicate => Ok((sets.0, {t[0]} + sets.1))
        case Neither => Ok(sets)
  }

  lemma PartitionStep(lines: seq<string>, classify: seq<string> -> Filing, rest: Result<(set<string>, set<string>)>)
    requires |lines| > 0 && |Tokens(lines[0])| > 0
    requires rest.Ok? <==> forall i :: 0 <= i < |lines| - 1 ==> |Tokens(lines[1..][i])| > 0
    requires rest.Ok? ==> forall x :: x in rest.value.0 <==> exists i :: 0 <= i < |lines| - 1 && FiledAs(lines[1..][i], classify, Replicate, x)
    requires rest.Ok? ==> forall x :: x in rest.value.1 <==> exists i :: 0 <= i < |lines| - 1 && FiledAs(lines[1..][i], classify, NonReplicate, x)
    ensures rest.Ok? <==> forall i :: 0 <= i < |lines| ==> |Tokens(lines[i])| > 0
    ensures rest.Ok? ==> forall f, x :: f != Neither ==>
      ((exists i :: 0 <= i < |lines| && FiledAs(lines[i], classify, f, x)) <==>
       FiledAs(lines[0], classify, f, x) || exists i :: 0 <= i < |lines| - 1 && FiledAs(lines[1..][i], classify, f, x))
  {
    assert forall i :: 0 < i < |lines| ==> lines[i] == lines[1..][i - 1];
    if rest.Ok? {
      forall f, x | f != Neither && exists i :: 0 <= i < |lines| && FiledAs(lines[i], classify, f, x)
        ensures FiledAs(lines[0], classify, f, x) || exists i :: 0 <= i < |lines| - 1 && FiledAs(lines[1..][i], classify, f, x)
      {
        var i :| 0 <= i < |lines| && FiledAs(lines[i], classify, f, x);
        if i > 0 {
          assert FiledAs(lines[1..][i - 1], classify, f, x);
        }
      }
    }
  }

  /**
   `double_set_generator` (its `index` argument is ignored): the replicate
   set holds the first field of every line whose third field is the integer
   2, the non-replicate set that of every line whose third field is missing
   or not an integer.
   */
  function DoubleSetGenerator(lines: seq<string>): (r: Result<(set<string>, set<string>)>)
    ensures r.Ok? <==> forall i :: 0 <= i < |lines| ==> |Tokens(lines[i])| > 0
    ensures r.Err? ==> r.error == IndexError
    ensures r.Ok? ==> forall x :: x in r.value.0 <==>
      exists i :: 0 <= i < |lines| && |Tokens(lines[i])| >= 3 && Tokens(lines[i])[0] == x && ParseInt(Tokens(lines[i])[2]) == Some(2)
    ensures r.Ok? ==> forall x :: x in r.value.1 <==>
      exists i :: 0 <= i < |lines| && |Tokens(lines[i])| > 0 && Tokens(lines[i])[0] == x
                  && (|Tokens(lines[i])| < 3 || ParseInt(Tokens(lines[i])[2]).None?)
  {
    var r := Partition(lines, Classify);
    assert forall i, x :: 0 <= i < |lines| ==>
      (FiledAs(lines[i], Classify, Replicate, x) <==> |Tokens(lines[i])| >= 3 && Tokens(lines[i])[0] == x && ParseInt(Tokens(lines[i])[2]) == Some(2));
    r
  }

  /**
   A line whose third field is an integer other than 2 lands in neither set:
   its first field is absent from both unless another line files it.
   */
  lemma OtherCountFilesNowhere(lines: seq<string>, i: int)
    requires DoubleSetGenerator(lines).Ok?
    requires 0 <= i < |lines| && |Tokens(lines[i])| >= 3
    requires ParseInt(Tokens(lines[i])[2]).Some? && ParseInt(Tokens(lines[i])[2]) != Some(2)
    requires forall j :: 0 <= j < |lines| && j != i ==> Tokens(lines[j])[0] != Tokens(lines[i])[0]
    ensures Tokens(lines[i])[0] !in DoubleSetGenerator(lines).value.0
    ensures Tokens(lines[i])[0] !in DoubleSetGenerator(lines).value.1
  {
  }

  /** The docstring's partition: every line's first field is filed in one of the two sets. */
  function DoubleSetGeneratorIntended(lines: seq<string>): (r: Result<(set<string>, set<string>)>)
    ensures r.Ok? <==> forall i :: 0 <= i < |lines| ==> |Tokens(lines[i])| > 0
    ensures r.Ok? ==> forall i :: 0 <= i < |lines| ==> Tokens(lines[i])[0] in r.value.0 + r.value.1
    ensures r.Ok? ==> forall x :: x in r.value.0 <==>
      exists i :: 0 <= i < |lines| && |Tokens(lines[i])| >= 3 && Tokens(lines[i])[0] == x && ParseInt(Tokens(lines[i])[2]) == Some(2)
    ensures r.Ok? ==> forall x :: x in r.value.1 <==>
      exists i :: 0 <= i < |lines| && |Tokens(lines[i])| > 0 && Tokens(lines[i])[0] == x
                  && (|Tokens(lines[i])| < 3 || ParseInt(Tokens(lines[i])[2]) != Some(2))
  {
    var r := Partition(lines, ClassifyIntended);
    assert forall i :: 0 <= i < |lines| && |Tokens(lines[i])| > 0 ==>
      FiledAs(lines[i], ClassifyIntended, ClassifyIntended(Tokens(lines[i])), Tokens(lines[i])[0]);
    assert forall i, x :: 0 <= i < |lines| ==>
      (FiledAs(lines[i], ClassifyIntended, NonReplicate, x) <==>
         (|Tokens(lines[i])| > 0 && Tokens(lines[i])[0] == x && (|Tokens(lines[i])| < 3 || ParseInt(Tokens(lines[i])[2]) != Some(2))));
    r
  }

  /** When no position occurs on two lines, the intended sets are disjoint. */
  lemma IntendedSetsDisjoint(lines: seq<string>)
    requires DoubleSetGeneratorIntended(lines).Ok?
    requires forall i, j :: 0 <= i < j < |lines| ==> Tokens(lines[i])[0] != Tokens(lines[j])[0]
    ensures DoubleSetGeneratorIntended(lines).value.0 !! DoubleSetGeneratorIntended(lines).value.1
  {
    var r := Partition(lines, ClassifyIntended);
    forall x | x in r.value.0
      ensures x !in r.value.1
    {
      var i :| 0 <= i < |lines| && FiledAs(lines[i], ClassifyIntended, Replicate, x);
      forall j | 0 <= j < |lines| && FiledAs(lines[j], ClassifyIntended, NonReplicate, x)
        ensures false
      {
      }
    }
  }

  lemma ParseOne()
    ensures ParseInt("1") == Some(1)
  {
    ParseShowInt(1);
  }

  lemma ParseTwo()
    ensures ParseInt("2") == Some(2)
  {
    ParseShowInt(2);
  }

  lemma ParsePaddedTwo()
    ensures ParseInt("02") == Some(2)
  {
    StripUnpadded("02");
    assert "02"[..1] == "0";
    assert "0"[..0] == "";
    assert DigitsValue("0") == 0;
    assert DigitsValue("02") == 2;
  }

  /** The file of the single line `p v 1`. */
  function OneReplicaFile(p: string, v: string): seq<string> {
    [Join([p, v, "1"], " ")]
  }

  lemma OneReplicaTokens(p: string, v: string)
    requires IsWord(p) && IsWord(v)
    ensures var t := Tokens(OneReplicaFile(p, v)[0]);
      t == [p, v, "1"] && Classify(t) == Neither && ClassifyIntended(t) == NonReplicate
  {
    TokensOfJoinedWords([p, v, "1"]);
    ParseOne();
  }

  /**
   Counterexample to the docstring: a position seen in one replica, marked
   by a third field of 1, is in neither set as written ...
   */
  lemma SingleReplicaDropped(p: string, v: string)
    requires IsWord(p) && IsWord(v)
    ensures DoubleSetGenerator(OneReplicaFile(p, v)) == Ok(({}, {}))
  {
    var lines := OneReplicaFile(p, v);
    OneReplicaTokens(p, v);
    assert lines[1..] == [];
    assert Partition(lines[1..], Classify) == Ok(({}, {}));
  }

  /** ... and in the non-replicate set under the intended rule. */
  lemma SingleReplicaFiledIntended(p: string, v: string)
    requires IsWord(p) && IsWord(v)
    ensures DoubleSetGeneratorIntended(OneReplicaFile(p, v)) == Ok(({}, {p}))
  {
    var lines := OneReplicaFile(p, v);
    OneReplicaTokens(p, v);
    assert lines[1..] == [];
    assert Partition(lines[1..], ClassifyIntended) == Ok(({}, {}));
    assert {p} + {} == {p};
  }

  /** One line of `return_two_list`: its position, its reads, and whether the reads are kept. */
  function TwoListRow<F>(line: string, parseFloat: string -> Option<F>): Result<(int, F, bool)> {
    var t := Tokens(line);
    var p :- Index(t, 0);
    var position :- ToInt(p);
    var v :- Index(t, 1);
    var count :- ToFloat(parseFloat, v);
    Ok((position, count, KeepsReads(line)))
  }

  /** `line[2] == '2'`, or `line[2]` raises IndexError: the reads of the line are listed. */
  predicate KeepsReads(line: string) {
    |Tokens(line)| < 3 || Tokens(line)[2] == "2"
  }

  function TwoListParser<F>(parseFloat: string -> Option<F>): string -> Result<(int, F, bool)> {
    line => TwoListRow(line, parseFloat)
  }

  function Positions<F>(rows: seq<(int, F, bool)>): (ps: seq<int>)
    ensures |ps| == |rows| && forall i :: 0 <= i < |rows| ==> ps[i] == rows[i].0
  {
    seq(|rows|, i requires 0 <= i < |rows| => rows[i].0)
  }

  function KeptReads<F>(rows: seq<(int, F, bool)>): seq<F> {
    if |rows| == 0 then [] else (if rows[0].2 then [rows[0].1] else []) + KeptReads(rows[1..])
  }

  /**
   `return_two_list`: the position of every line, and the reads of the lines
   that keep them, both in file order. The two lists differ in length as
   soon as one line has a third field other than the string `2`.
   */
  function ReturnTwoList<F>(lines: seq<string>, parseFloat: string -> Option<F>): (r: Result<(seq<int>, seq<F>)>)
    ensures r.Ok? <==> forall i :: 0 <= i < |lines| ==> TwoListRow(lines[i], parseFloat).Ok?
    ensures r.Ok? ==> |r.value.0| == |lines| && forall i :: 0 <= i < |lines| ==> |Tokens(lines[i])| >= 2 && Some(r.value.0[i]) == ParseInt(Tokens(lines[i])[0])
    ensures r.Ok? ==> var kept := Filter(lines, KeepsReads);
      && |r.value.1| == |kept|
      && forall j :: 0 <= j < |kept| ==> |Tokens(kept[j])| >= 2 && Some(r.value.1[j]) == parseFloat(Tokens(kept[j])[1])
    ensures r.Err? ==> FirstFailure(lines, 0, TwoListParser(parseFloat), r.error)
  {
    var rows :- MapAll(lines, TwoListParser(parseFloat));
    PositionsParsed(lines, parseFloat, rows);
    KeptReadsAreFiltered(lines, parseFloat, rows);
    Ok((Positions(rows), KeptReads(rows)))
  }

  lemma PositionsParsed<F>(lines: seq<string>, parseFloat: string -> Option<F>, rows: seq<(int, F, bool)>)
    requires |rows| == |lines| && forall i :: 0 <= i < |lines| ==> TwoListParser(parseFloat)(lines[i]) == Ok(rows[i])
    ensures forall i :: 0 <= i < |lines| ==> |Tokens(lines[i])| >= 2 && Some(rows[i].0) == ParseInt(Tokens(lines[i])[0])
  {
    forall i | 0 <= i < |lines|
      ensures |Tokens(lines[i])| >= 2 && Some(rows[i].0) == ParseInt(Tokens(lines[i])[0])
    {
      assert TwoListRow(lines[i], parseFloat) == Ok(rows[i]);
    }
  }

  lemma {:induction false} KeptReadsAreFiltered<F>(lines: seq<string>, parseFloat: string -> Option<F>, rows: seq<(int, F, bool)>)
    requires |rows| == |lines| && forall i :: 0 <= i < |lines| ==> TwoListRow(lines[i], parseFloat) == Ok(rows[i])
    ensures var kept := Filter(lines, KeepsReads);
      && |KeptReads(rows)| == |kept|
      && forall j :: 0 <= j < |kept| ==> |Tokens(kept[j])| >= 2 && Some(KeptReads(rows)[j]) == parseFloat(Tokens(kept[j])[1])
  {
    if |lines| > 0 {
      var lines', rows' := lines[1..], rows[1..];
      forall i | 0 <= i < |lines'|
        ensures TwoListRow(lines'[i], parseFloat) == Ok(rows'[i])
      {
        assert lines'[i] == lines[i + 1];
      }
      KeptReadsAreFiltered(lines', parseFloat, rows');
      var head := TwoListRow(lines[0], parseFloat);
      assert head == Ok(rows[0]);
      var kept', counts' := Filter(lines', KeepsReads), KeptReads(rows');
      if KeepsReads(lines[0]) {
        KeptHead(lines[0], parseFloat, rows[0], kept', counts');
      } else {
        assert Filter(lines, KeepsReads) == kept';
        assert KeptReads(rows) == counts';
      }
    }
  }

  lemma KeptHead<F>(line: string, parseFloat: string -> Option<F>, row: (int, F, bool), kept: seq<string>, counts: seq<F>)
    requires TwoListRow(line, parseFloat) == Ok(row) && KeepsReads(line)
    requires |counts| == |kept|
    requires forall j :: 0 <= j < |kept| ==> |Tokens(kept[j])| >= 2 && Some(counts[j]) == parseFloat(Tokens(kept[j])[1])
    ensures var kept', counts' := [line] + kept, [row.1] + counts;
      forall j :: 0 <= j < |kept'| ==> |Tokens(kept'[j])| >= 2 && Some(counts'[j]) == parseFloat(Tokens(kept'[j])[1])
  {
    var kept', counts' := [line] + kept, [row.1] + counts;
    forall j | 0 <= j < |kept'|
      ensures |Tokens(kept'[j])| >= 2 && Some(counts'[j]) == parseFloat(Tokens(kept'[j])[1])
    {
      if j > 0 {
        assert kept'[j] == kept[j - 1] && counts'[j] == counts[j - 1];
      }
    }
  }

  /**
   Every line whose reads `return_two_list` keeps is filed by
   `double_set_generator`: its position is in one of the two sets.
   */
  lemma KeptReadsAreFiled<F>(lines: seq<string>, parseFloat: string -> Option<F>, i: int)
    requires ReturnTwoList(lines, parseFloat).Ok?
    requires 0 <= i < |lines| && KeepsReads(lines[i])
    ensures DoubleSetGenerator(lines).Ok?
    ensures Tokens(lines[i])[0] in DoubleSetGenerator(lines).value.0 + DoubleSetGenerator(lines).value.1
  {
    assert forall j :: 0 <= j < |lines| ==> TwoListRow(lines[j], parseFloat).Ok?;
    ParseTwo();
  }

  /**
   The converse fails: a third field `02` is the integer 2 for
   `double_set_generator`, which files the position as replicated ...
   */
  lemma PaddedTwoIsReplicate(p: string, v: string)
    requires IsWord(p) && IsWord(v)
    ensures DoubleSetGenerator([Join([p, v, "02"], " ")]) == Ok(({p}, {}))
  {
    var line := Join([p, v, "02"], " ");
    TokensOfJoinedWords([p, v, "02"]);
    assert [line][1..] == [];
    var t := Tokens([line][0]);
    assert t == [p, v, "02"];
    assert Classify(t) == Replicate by {
      ParsePaddedTwo();
    }
    assert Partition([line][1..], Classify) == Ok(({}, {}));
    assert {p} + {} == {p};
    assert Partition([line], Classify) == Ok(({p}, {}));
  }

  /** ... but not the string `2` for `return_two_list`, which drops its reads. */
  lemma PaddedTwoNotPlotted<F>(p: string, v: string, parseFloat: string -> Option<F>)
    requires IsWord(p) && IsWord(v) && ParseInt(p).Some? && parseFloat(v).Some?
    ensures var r := ReturnTwoList([Join([p, v, "02"], " ")], parseFloat);
      r.Ok? && |r.value.0| == 1 && |r.value.1| == 0
  {
    var line := Join([p, v, "02"], " ");
    TokensOfJoinedWords([p, v, "02"]);
    assert [line][1..] == [];
    assert Tokens(line)[2] == "02";
    assert !KeepsReads(line);
    var row := TwoListRow(line, parseFloat);
    assert row.Ok? && !row.value.2;
    assert TwoListParser(parseFloat)(line) == row;
    assert MapAll([line][1..], TwoListParser(parseFloat)) == Ok([]);
    assert [row.value] + [] == [row.value];
    assert MapAll([line], TwoListParser(parseFloat)) == Ok([row.value]);
    assert KeptReads([row.value]) == [];
  }
}
