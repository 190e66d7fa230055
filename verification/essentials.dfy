/**
 The essentiality helpers of utils.py: `genes_coordinates` reads a gene
 coordinate table, `return_ene_set` picks the genes of one class (E or NE)
 from a gold-set table, and `process_ene_set` trims each chosen gene's
 interval by a percentage of its length, half on each side. The two readers
 open fixed files; here the file's lines are a parameter.
 */
module Essentials {
  import opened Results
  import opened Text
  import opened Builtins
  import opened Tables

  /** The key under which a gene is stored: upper-cased when `caps` is set. */
  function GeneKey(name: string, caps: bool): string {
    if caps then Upper(name) else name
  }

  /**
   One line of `genes_coordinates`. The list `[line[1], line[2]]` on the
   right-hand side is built before `line[0]` is read.
   */
  function CoordinateRow(line: string, caps: bool): Result<(string, seq<string>)> {
    var t := Tokens(line);
    var a :- Index(t, 1);
    var b :- Index(t, 2);
    var name :- Index(t, 0);
    Ok((GeneKey(name, caps), [a, b]))
  }

  function CoordinateParser(caps: bool): string -> Result<(string, seq<string>)> {
    line => CoordinateRow(line, caps)
  }

  /**
   `genes_coordinates`: every line needs three fields; the gene name (upper-
   cased when `caps`) maps to its second and third fields, still as text,
   and a later line for the same gene wins.
   */
  function GenesCoordinates(lines: seq<string>, caps: bool): (r: Result<map<string, seq<string>>>)
    ensures r.Ok? <==> forall i :: 0 <= i < |lines| ==> |Tokens(lines[i])| >= 3
    ensures r.Err? ==> r.error == IndexError
    ensures r.Ok? ==> r.value.Keys == set i | 0 <= i < |lines| && |Tokens(lines[i])| >= 3 :: GeneKey(Tokens(lines[i])[0], caps)
    ensures r.Ok? ==> forall g :: g in r.value ==> |r.value[g]| == 2
    ensures r.Ok? ==> forall i :: 0 <= i < |lines| && IsLastRow(lines, CoordinateParser(caps), i)
                                  ==> |Tokens(lines[i])| >= 3 && GeneKey(Tokens(lines[i])[0], caps) in r.value
                                      && r.value[GeneKey(Tokens(lines[i])[0], caps)] == Tokens(lines[i])[1..3]
  {
    var r := BuildDict(lines, 0, CoordinateParser(caps));
    CoordinateParserRows(lines, caps, r);
    GenesCoordinatesFacts(lines, caps, r);
    r
  }

  /** `BuildDict`'s contract for the coordinate parser, read as one on `CoordinateRow`. */
  lemma CoordinateParserRows(lines: seq<string>, caps: bool, r: Result<map<string, seq<string>>>)
    requires r == BuildDict(lines, 0, CoordinateParser(caps))
    ensures r.Ok? <==> forall i :: 0 <= i < |lines| ==> CoordinateRow(lines[i], caps).Ok?
    ensures r.Err? ==> exists i :: 0 <= i < |lines| && CoordinateRow(lines[i], caps) == Err(r.error)
    ensures r.Ok? ==> r.value.Keys == set i | 0 <= i < |lines| && CoordinateRow(lines[i], caps).Ok? :: CoordinateRow(lines[i], caps).value.0
    ensures r.Ok? ==> forall i :: 0 <= i < |lines| && IsLastRow(lines, CoordinateParser(caps), i)
                                  ==> r.value[CoordinateRow(lines[i], caps).value.0] == CoordinateRow(lines[i], caps).value.1
  {
    assert forall i :: 0 <= i < |lines| ==> CoordinateParser(caps)(lines[i]) == CoordinateRow(lines[i], caps);
  }

  /** What `BuildDict` promises about the coordinate rows, restated per line. */
  lemma GenesCoordinatesFacts(lines: seq<string>, caps: bool, r: Result<map<string, seq<string>>>)
    requires r.Ok? <==> forall i :: 0 <= i < |lines| ==> CoordinateRow(lines[i], caps).Ok?
    requires r.Err? ==> exists i :: 0 <= i < |lines| && CoordinateRow(lines[i], caps) == Err(r.error)
    requires r.Ok? ==> r.value.Keys == set i | 0 <= i < |lines| && CoordinateRow(lines[i], caps).Ok? :: CoordinateRow(lines[i], caps).value.0
    requires r.Ok? ==> forall i :: 0 <= i < |lines| && IsLastRow(lines, CoordinateParser(caps), i)
                                  ==> r.value[CoordinateRow(lines[i], caps).value.0] == CoordinateRow(lines[i], caps).value.1
    ensures r.Ok? <==> forall i :: 0 <= i < |lines| ==> |Tokens(lines[i])| >= 3
    ensures r.Err? ==> r.error == IndexError
    ensures r.Ok? ==> r.value.Keys == set i | 0 <= i < |lines| && |Tokens(lines[i])| >= 3 :: GeneKey(Tokens(lines[i])[0], caps)
    ensures r.Ok? ==> forall g :: g in r.value ==> |r.value[g]| == 2
    ensures r.Ok? ==> forall i :: 0 <= i < |lines| && IsLastRow(lines, CoordinateParser(caps), i)
                                  ==> |Tokens(lines[i])| >= 3 && GeneKey(Tokens(lines[i])[0], caps) in r.value
                                      && r.value[GeneKey(Tokens(lines[i])[0], caps)] == Tokens(lines[i])[1..3]
  {
    CoordinateRowsShape(lines, caps);
    if r.Ok? {
      CoordinateKeys(lines, caps, r.value);
      forall g | g in r.value
        ensures |r.value[g]| == 2
      {
        var i :| 0 <= i < |lines| && CoordinateRow(lines[i], caps).Ok? && CoordinateRow(lines[i], caps).value.0 == g;
        var last := KeyHasLastRow(lines, CoordinateParser(caps), i);
      }
    }
  }

  lemma CoordinateKeys(lines: seq<string>, caps: bool, m: map<string, seq<string>>)
    requires m.Keys == set i | 0 <= i < |lines| && CoordinateRow(lines[i], caps).Ok? :: CoordinateRow(lines[i], caps).value.0
    requires forall i :: 0 <= i < |lines| ==> (CoordinateRow(lines[i], caps).Ok? <==> |Tokens(lines[i])| >= 3)
    requires forall i :: 0 <= i < |lines| && CoordinateRow(lines[i], caps).Ok? ==>
               CoordinateRow(lines[i], caps).value == (GeneKey(Tokens(lines[i])[0], caps), Tokens(lines[i])[1..3])
    ensures m.Keys == set i | 0 <= i < |lines| && |Tokens(lines[i])| >= 3 :: GeneKey(Tokens(lines[i])[0], caps)
  {
    var named := set i | 0 <= i < |lines| && |Tokens(lines[i])| >= 3 :: GeneKey(Tokens(lines[i])[0], caps);
    forall g | g in m
      ensures g in named
    {
      var i :| 0 <= i < |lines| && CoordinateRow(lines[i], caps).Ok? && CoordinateRow(lines[i], caps).value.0 == g;
    }
    forall g | g in named
      ensures g in m
    {
      var i :| 0 <= i < |lines| && |Tokens(lines[i])| >= 3 && GeneKey(Tokens(lines[i])[0], caps) == g;
      assert CoordinateRow(lines[i], caps).Ok?;
    }
  }

  lemma CoordinateRowsShape(lines: seq<string>, caps: bool)
    ensures forall i :: 0 <= i < |lines| ==> (CoordinateRow(lines[i], caps).Ok? <==> |Tokens(lines[i])| >= 3)
    ensures forall i :: 0 <= i < |lines| && CoordinateRow(lines[i], caps).Err? ==> CoordinateRow(lines[i], caps).error == IndexError
    ensures forall i :: 0 <= i < |lines| && CoordinateRow(lines[i], caps).Ok? ==>
              CoordinateRow(lines[i], caps).value == (GeneKey(Tokens(lines[i])[0], caps), Tokens(lines[i])[1..3])
  {
    forall i | 0 <= i < |lines|
      ensures CoordinateRow(lines[i], caps).Ok? <==> |Tokens(lines[i])| >= 3
      ensures CoordinateRow(lines[i], caps).Err? ==> CoordinateRow(lines[i], caps).error == IndexError
      ensures CoordinateRow(lines[i], caps).Ok? ==> CoordinateRow(lines[i], caps).value == (GeneKey(Tokens(lines[i])[0], caps), Tokens(lines[i])[1..3])
    {
      CoordinateRowShape(lines[i], caps);
    }
  }

  lemma CoordinateRowShape(line: string, caps: bool)
    ensures CoordinateRow(line, caps).Ok? <==> |Tokens(line)| >= 3
    ensures CoordinateRow(line, caps).Err? ==> CoordinateRow(line, caps).error == IndexError
    ensures CoordinateRow(line, caps).Ok? ==> CoordinateRow(line, caps).value == (GeneKey(Tokens(line)[0], caps), Tokens(line)[1..3])
  {
    var t := Tokens(line);
    if |t| >= 3 {
      assert t[1..3] == [t[1], t[2]];
    }
  }

  /** Line `line` of a gold-set table names gene `x` (upper-cased) with class `regionType`. */
  predicate InClass(line: string, regionType: string, x: string) {
    |Tokens(line)| >= 2 && Tokens(line)[1] == regionType && Upper(Tokens(line)[0]) == x
  }

  /** One line of `return_ene_set`: its fields, once `line[1]` has been read. */
  function EneRow(line: string): Result<seq<string>> {
    var t := Tokens(line);
    var _ :- Index(t, 1);
    Ok(t)
  }

  /**
   `return_ene_set`: the upper-cased first field of every line whose second
   field is `regionType`. A line with fewer than two fields raises
   IndexError.
   */
  function EneSet(lines: seq<string>, regionType: string): (r: Result<set<string>>)
    ensures r.Ok? <==> forall i :: 0 <= i < |lines| ==> |Tokens(lines[i])| >= 2
    ensures r.Err? ==> r.error == IndexError
    ensures r.Ok? ==> forall x :: x in r.value <==> exists i :: 0 <= i < |lines| && InClass(lines[i], regionType, x)
  {
    var rows := MapAll(lines, EneRow);
    assert rows.Err? ==> rows.error == IndexError by {
      if rows.Err? {
        var i :| 0 <= i < |lines| && EneRow(lines[i]) == Err(rows.error);
      }
    }
    var ts :- rows;
    var s := set i | 0 <= i < |ts| && ts[i][1] == regionType :: Upper(ts[i][0]);
    assert forall i :: 0 <= i < |lines| ==> ts[i] == Tokens(lines[i]);
    Ok(s)
  }

  lemma UpperCharIdempotent(c: char)
    ensures UpperChar(UpperChar(c)) == UpperChar(c)
  {
  }

  /** Upper-casing twice is upper-casing once. */
  lemma UpperIdempotent(s: string)
    ensures Upper(Upper(s)) == Upper(s)
  {
    forall i | 0 <= i < |s|
      ensures Upper(Upper(s))[i] == Upper(s)[i]
    {
      UpperCharIdempotent(s[i]);
    }
  }

  /**
   The names `return_ene_set` yields are already upper-case, so they are
   the form under which `genes_coordinates(caps=True)` stores a gene.
   */
  lemma EneSetIsUpperCase(lines: seq<string>, regionType: string, x: string)
    requires EneSet(lines, regionType).Ok? && x in EneSet(lines, regionType).value
    ensures Upper(x) == x && GeneKey(x, true) == x
  {
    var i :| 0 <= i < |lines| && InClass(lines[i], regionType, x);
    UpperIdempotent(Tokens(lines[i])[0]);
  }

  /**
   Python 2 `int(round(n * 0.01))` on an integer `n`: the nearest integer
   to n / 100, halves rounded away from zero. Computed exactly; Dafny's `/`
   with a positive divisor is floor division.
   */
  function RoundHundredth(n: int): (r: int)
    ensures n >= 0 ==> -50 <= n - 100 * r < 50
    ensures n < 0 ==> -50 < n - 100 * r <= 50
    ensures n >= 0 ==> r >= 0
    ensures n <= 0 ==> r <= 0
  {
    if n >= 0 then (2 * n + 100) / 200 else -((100 - 2 * n) / 200)
  }

  /**
   `bases_to_remove`: `percentage / 2` is Python 2 integer (floor) division,
   so an odd percentage loses its half before it scales the length.
   */
  function BasesToRemove(length: int, percentage: int): (b: int)
    ensures var n := length * (percentage / 2);
      && (n >= 0 ==> -50 <= n - 100 * b < 50)
      && (n < 0 ==> -50 < n - 100 * b <= 50)
    ensures length >= 0 && percentage >= 0 ==> b >= 0
  {
    var half := percentage / 2;
    assert length >= 0 && percentage >= 0 ==> length * half >= 0;
    RoundHundredth(length * half)
  }

  /**
   The new interval of one gene in `process_ene_set`: `gene_coord_dic[gene]`
   raises KeyError for a gene without coordinates; then the start is read
   and converted, then the end, each raising IndexError when missing and
   ValueError when not an integer.
   */
  function TrimGene(coords: map<string, seq<string>>, g: string, percentage: int): (r: Result<seq<int>>)
    ensures r == Err(KeyError) <==> g !in coords
    ensures r.Err? && g in coords ==>
              (r.error == IndexError <==> |coords[g]| == 0 || (|coords[g]| == 1 && ParseInt(coords[g][0]).Some?))
    ensures r.Err? && g in coords ==> r.error == IndexError || r.error == ValueError
    ensures r.Ok? <==> g in coords && |coords[g]| >= 2 && ParseInt(coords[g][0]).Some? && ParseInt(coords[g][1]).Some?
    ensures r.Ok? ==> |r.value| == 2
                      && r.value[0] - ParseInt(coords[g][0]).value == ParseInt(coords[g][1]).value - r.value[1]
                      == BasesToRemove(ParseInt(coords[g][1]).value - ParseInt(coords[g][0]).value, percentage)
  {
    if g !in coords then Err(KeyError)
    else
      var v := coords[g];
      var s :- Index(v, 0);
      var start :- ToInt(s);
      var e :- Index(v, 1);
      var end :- ToInt(e);
      var b := BasesToRemove(end - start, percentage);
      Ok([start + b, end - b])
  }

  /**
   `process_ene_set`: Python walks the set in an order it does not promise,
   so the gene chosen at each step is arbitrary. Every gene of the set must
   have a trimmable interval; otherwise the exception of some failing gene
   escapes.
   */
  method ProcessEneSet(eneSet: set<string>, coords: map<string, seq<string>>, percentage: int)
    returns (r: Result<map<string, seq<int>>>)
    ensures r.Ok? <==> forall g :: g in eneSet ==> TrimGene(coords, g, percentage).Ok?
    ensures r.Err? ==> exists g :: g in eneSet && TrimGene(coords, g, percentage) == Err(r.error)
    ensures r.Ok? ==> r.value.Keys == eneSet
    ensures r.Ok? ==> forall g :: g in eneSet ==> TrimGene(coords, g, percentage) == Ok(r.value[g])
  {
    var remaining := eneSet;
    var trimmed: map<string, seq<int>> := map[];
    while remaining != {}
      invariant remaining <= eneSet
      invariant trimmed.Keys == eneSet - remaining
      invariant forall g :: g in trimmed ==> TrimGene(coords, g, percentage) == Ok(trimmed[g])
      decreases |remaining|
    {
      var g :| g in remaining;
      var t := TrimGene(coords, g, percentage);
      if t.Err? {
        return Err(t.error);
      }
      trimmed := trimmed[g := t.value];
      remaining := remaining - {g};
    }
    return Ok(trimmed);
  }

  /**
   For a percentage from 0 to 99 and a well-ordered interval, the trimmed
   interval lies inside the original one and is still well ordered.
   */
  lemma TrimStaysWithin(start: int, end: int, percentage: int)
    requires 0 <= percentage < 100 && start <= end
    ensures var b := BasesToRemove(end - start, percentage);
            start <= start + b && end - b <= end && start + b <= end - b
  {
    var len := end - start;
    var half := percentage / 2;
    assert half <= 49;
    assert len * half <= 49 * len;
  }

  /** A zero percentage leaves every interval as it was. */
  lemma ZeroPercentKeeps(coords: map<string, seq<string>>, g: string)
    requires TrimGene(coords, g, 0).Ok?
    ensures TrimGene(coords, g, 0).value == [ParseInt(coords[g][0]).value, ParseInt(coords[g][1]).value]
  {
  }

  /**
   A gene read by `genes_coordinates` always has both ends, so trimming it
   can only fail on a field that is not an integer.
   */
  lemma TrimReadCoordinates(lines: seq<string>, caps: bool, g: string, percentage: int)
    requires GenesCoordinates(lines, caps).Ok? && g in GenesCoordinates(lines, caps).value
    ensures TrimGene(GenesCoordinates(lines, caps).value, g, percentage).Err?
            ==> TrimGene(GenesCoordinates(lines, caps).value, g, percentage).error == ValueError
  {
  }

  lemma ParseThreeHundred()
    ensures ParseInt("300") == Some(300)
  {
    StripUnpadded("300");
    assert "300"[..2] == "30" && "30"[..1] == "3" && "3"[..0] == "";
    assert DigitsValue("3") == 3;
    assert DigitsValue("30") == 30;
  }

  lemma ParseFiveHundred()
    ensures ParseInt("500") == Some(500)
  {
    StripUnpadded("500");
    assert "500"[..2] == "50" && "50"[..1] == "5" && "5"[..0] == "";
    assert DigitsValue("5") == 5;
    assert DigitsValue("50") == 50;
  }

  /** The default 10% on a gene at 300..500 removes 10 bases from each end. */
  lemma TrimDefaultExample()
    ensures TrimGene(map["MG_001" := ["300", "500"]], "MG_001", 10) == Ok([310, 490])
  {
    var coords := map["MG_001" := ["300", "500"]];
    ParseThreeHundred();
    ParseFiveHundred();
    assert coords["MG_001"] == ["300", "500"];
    TrimParsed(coords, "MG_001", 10, 300, 500);
    TenPercentOfTwoHundred();
  }

  lemma TenPercentOfTwoHundred()
    ensures BasesToRemove(200, 10) == 10
  {
    assert 200 * (10 / 2) == 1000;
  }

  lemma TrimParsed(coords: map<string, seq<string>>, g: string, percentage: int, start: int, end: int)
    requires g in coords && |coords[g]| == 2
    requires ParseInt(coords[g][0]) == Some(start) && ParseInt(coords[g][1]) == Some(end)
    ensures TrimGene(coords, g, percentage)
            == Ok([start + BasesToRemove(end - start, percentage), end - BasesToRemove(end - start, percentage)])
  {
  }

  /**
   A start written with a space after its minus sign is read like any other
   integer: -5..10 at 10% loses one base at each end.
   */
  lemma TrimSpacedSignExample()
    ensures TrimGene(map["G" := ["- 5", "10"]], "G", 10) == Ok([-4, 9])
  {
    var coords := map["G" := ["- 5", "10"]];
    SpacedMinus();
    ParseTen();
    assert coords["G"] == ["- 5", "10"];
    TrimParsed(coords, "G", 10, -5, 10);
    assert 15 * (10 / 2) == 75;
  }

  lemma ParseTen()
    ensures ParseInt("10") == Some(10)
  {
    StripUnpadded("10");
    assert "10"[..1] == "1" && "1"[..0] == "";
    assert DigitsValue("1") == 1;
  }
}
