/**
 The column extractors of utils.py: `list_generator`, `set_generator` and
 `ins2positions`. A file is its sequence of lines; each line is split on
 whitespace and one column is read from it.
 */
module Columns {
  import opened Results
  import opened Text
  import opened Builtins
  import opened Tables

  /** `line.strip().split()[index]`. */
  function Cell(line: string, index: int): Result<string> {
    Index(Tokens(line), index)
  }

  /** Column `index` of every line, in file order (the source returns a list, not a set). */
  function ListGenerator(lines: seq<string>, index: int): (r: Result<seq<string>>)
    ensures r.Ok? <==> forall i :: 0 <= i < |lines| ==> -|Tokens(lines[i])| <= index < |Tokens(lines[i])|
    ensures r.Ok? ==> |r.value| == |lines| && forall i :: 0 <= i < |lines| ==> Cell(lines[i], index) == Ok(r.value[i])
    ensures r.Err? ==> r.error == IndexError
  {
    var r := MapAll(lines, line => Cell(line, index));
    assert r.Err? ==> r.error == IndexError by {
      if r.Err? {
        var i :| 0 <= i < |lines| && Cell(lines[i], index) == Err(r.error);
      }
    }
    r
  }

  /** Column `index` of every line, collected into a set. */
  function SetGenerator(lines: seq<string>, index: int): (r: Result<set<string>>)
    ensures r.Ok? <==> forall i :: 0 <= i < |lines| ==> Cell(lines[i], index).Ok?
    ensures r.Ok? ==> forall x :: x in r.value <==> exists i :: 0 <= i < |lines| && Cell(lines[i], index) == Ok(x)
    ensures r.Err? ==> r.error == IndexError
    decreases |lines|
  {
    if |lines| == 0 then Ok({})
    else
      var x :- Cell(lines[0], index);
      var rest := SetGenerator(lines[1..], index);
      SetStep(lines, index, x, rest);
      var seen :- rest;
      Ok({x} + seen)
  }

  lemma SetStep(lines: seq<string>, index: int, x: string, rest: Result<set<string>>)
    requires |lines| > 0 && Cell(lines[0], index) == Ok(x)
    requires rest.Ok? <==> forall i :: 0 <= i < |lines| - 1 ==> Cell(lines[1..][i], index).Ok?
    requires rest.Ok? ==> forall y :: y in rest.value <==> exists i :: 0 <= i < |lines| - 1 && Cell(lines[1..][i], index) == Ok(y)
    ensures rest.Ok? <==> forall i :: 0 <= i < |lines| ==> Cell(lines[i], index).Ok?
    ensures rest.Ok? ==> forall y :: y in {x} + rest.value <==> exists i :: 0 <= i < |lines| && Cell(lines[i], index) == Ok(y)
  {
    assert forall i :: 0 < i < |lines| ==> lines[i] == lines[1..][i - 1];
    if rest.Ok? {
      forall y | y in {x} + rest.value
        ensures exists i :: 0 <= i < |lines| && Cell(lines[i], index) == Ok(y)
      {
        if y != x {
          var i :| 0 <= i < |lines| - 1 && Cell(lines[1..][i], index) == Ok(y);
          assert Cell(lines[i + 1], index) == Ok(y);
        }
      }
    }
  }

  /** The set is exactly the elements of the list `list_generator` returns for the same file and column. */
  lemma SetIsListElements(lines: seq<string>, index: int)
    ensures SetGenerator(lines, index).Ok? <==> ListGenerator(lines, index).Ok?
    ensures SetGenerator(lines, index).Ok? ==>
      SetGenerator(lines, index).value == set i | 0 <= i < |lines| :: ListGenerator(lines, index).value[i]
  {
    var s := SetGenerator(lines, index);
    var l := ListGenerator(lines, index);
    if s.Ok? {
      forall y | y in s.value
        ensures y in set i | 0 <= i < |lines| :: l.value[i]
      {
        var i :| 0 <= i < |lines| && Cell(lines[i], index) == Ok(y);
      }
    }
  }

  /** The first whitespace-separated field of a line of an insertion file, as an integer. */
  function Position(line: string): Result<int> {
    var first :- Index(Tokens(line), 0);
    ToInt(first)
  }

  /**
   `ins2positions`: the set of integers in the first column. A blank line
   raises IndexError and a non-integer first field raises ValueError.
   */
  function Ins2Positions(lines: seq<string>): (r: Result<set<int>>)
    ensures r.Ok? <==> forall i :: 0 <= i < |lines| ==> |Tokens(lines[i])| > 0 && ParseInt(Tokens(lines[i])[0]).Some?
    ensures r.Ok? ==> forall n :: n in r.value <==> exists i :: 0 <= i < |lines| && Position(lines[i]) == Ok(n)
    ensures r.Err? ==> FirstFailure(lines, 0, Position, r.error)
    ensures r.Err? ==> r.error == IndexError || r.error == ValueError
  {
    var ns :- MapAll(lines, Position);
    var s := set i | 0 <= i < |ns| :: ns[i];
    assert forall n :: n in s ==> exists i :: 0 <= i < |lines| && Position(lines[i]) == Ok(n);
    Ok(s)
  }
}
