/**
 `load_annotation` of utils.py: each line of an annotation file names a
 feature and gives its two end coordinates in either order, possibly mixed
 with strand marks `+` and `-`. The feature maps to `[start, end]` (sorted)
 followed by its strand marks in file order.
 */
module Annotations {
  import opened Results
  import opened Text
  import opened Builtins
  import opened Tables

  /** The list `[st, en] + strand` the source stores, with the two integers apart from the marks. */
  datatype Annotation = Annotation(st: int, en: int, strands: seq<string>)

  /** `x in ['+', '-']`. */
  predicate IsStrand(x: string) {
    x == "+" || x == "-"
  }

  predicate NotStrand(x: string) {
    !IsStrand(x)
  }

  /** The fields after the name that are not strand marks: the ones `int()` is applied to. */
  function CoordinateFields(t: seq<string>): seq<string> {
    if |t| == 0 then [] else Filter(t[1..], NotStrand)
  }

  /** `st, en = sorted(ns)`: unpacking raises ValueError unless there are exactly two. */
  function SortedPair(ns: seq<int>): (r: Result<(int, int)>)
    ensures r.Ok? <==> |ns| == 2
    ensures r.Err? ==> r.error == ValueError
    ensures r.Ok? ==> r.value.0 <= r.value.1 && multiset{r.value.0, r.value.1} == multiset(ns)
  {
    if |ns| != 2 then Err(ValueError)
    else
      assert ns == [ns[0], ns[1]];
      if ns[0] <= ns[1] then Ok((ns[0], ns[1]))
    else Ok((ns[1], ns[0]))
  }

  /** The conversion of one line's fields `t`, as the source performs it. */
  function ParseAnnotation(t: seq<string>): Result<(string, Annotation)> {
    if |t| == 0 then Err(IndexError)
    else
      var rest := t[1..];
      if |rest| == 2 then
        var ns :- MapAll(rest, ToInt);
        var p :- SortedPair(ns);
        Ok((t[0], Annotation(p.0, p.1, [])))
      else
        var ns :- MapAll(Filter(rest, NotStrand), ToInt);
        var p :- SortedPair(ns);
        Ok((t[0], Annotation(p.0, p.1, Filter(rest, IsStrand))))
  }

  /** What a line of the annotation file loads as. */
  ghost predicate LoadsAs(t: seq<string>, r: Result<(string, Annotation)>) {
    && (r.Ok? <==> var c := CoordinateFields(t);
                   |t| > 0 && |c| == 2 && ParseInt(c[0]).Some? && ParseInt(c[1]).Some?)
    && (r.Err? ==> (r.error == IndexError <==> |t| == 0))
    && (r.Err? ==> r.error == IndexError || r.error == ValueError)
    && (r.Ok? ==> var c := CoordinateFields(t);
                  && r.value.0 == t[0]
                  && r.value.1.st <= r.value.1.en
                  && multiset{r.value.1.st, r.value.1.en} == multiset{ParseInt(c[0]).value, ParseInt(c[1]).value}
                  && r.value.1.strands == Filter(t[1..], IsStrand))
  }

  /**
   One line of `load_annotation`, from its fields `t`. A line with exactly
   two fields after the name converts both; any other line converts the
   fields that are not strand marks and keeps the marks.
   */
  function AnnotationFields(t: seq<string>): (r: Result<(string, Annotation)>)
    ensures r.Ok? <==> var c := CoordinateFields(t);
                       |t| > 0 && |c| == 2 && ParseInt(c[0]).Some? && ParseInt(c[1]).Some?
    ensures r.Err? ==> (r.error == IndexError <==> |t| == 0)
    ensures r.Err? ==> r.error == IndexError || r.error == ValueError
    ensures r.Ok? ==> var c := CoordinateFields(t);
                      && r.value.0 == t[0]
                      && r.value.1.st <= r.value.1.en
                      && multiset{r.value.1.st, r.value.1.en} == multiset{ParseInt(c[0]).value, ParseInt(c[1]).value}
                      && r.value.1.strands == Filter(t[1..], IsStrand)
  {
    var r := ParseAnnotation(t);
    if |t| == 3 then
      TwoFieldsLoad(t);
      r
    else if |t| == 0 then
      r
    else
      MarkedFieldsLoad(t);
      r
  }

  /** A line with exactly two fields after the name carries no strand. */
  lemma TwoFieldsNoStrand(t: seq<string>)
    requires |t| == 3 && AnnotationFields(t).Ok?
    ensures AnnotationFields(t).value.1.strands == []
  {
    TwoFieldsAgree(t[1..], MapAll(t[1..], ToInt));
  }

  lemma TwoFieldsLoad(t: seq<string>)
    requires |t| == 3
    ensures LoadsAs(t, ParseAnnotation(t))
  {
    var rest := t[1..];
    var ns := MapAll(rest, ToInt);
    TwoFieldsAgree(rest, ns);
    if ns.Ok? {
      ParsedPair(rest, ns.value);
    }
  }

  lemma MarkedFieldsLoad(t: seq<string>)
    requires |t| > 0 && |t| != 3
    ensures LoadsAs(t, ParseAnnotation(t))
  {
    var c := Filter(t[1..], NotStrand);
    var ns := MapAll(c, ToInt);
    MapAllErrors(c, ns);
    if ns.Ok? && |c| == 2 {
      ParsedPair(c, ns.value);
    }
  }

  lemma ParsedPair(c: seq<string>, ns: seq<int>)
    requires |c| == 2 && MapAll(c, ToInt) == Ok(ns)
    ensures ParseInt(c[0]).Some? && ParseInt(c[1]).Some?
    ensures multiset(ns) == multiset{ParseInt(c[0]).value, ParseInt(c[1]).value}
  {
    assert ToInt(c[0]) == Ok(ns[0]) && ToInt(c[1]) == Ok(ns[1]);
    assert ns == [ns[0], ns[1]];
  }

  /** The name a line gives its feature: `line.split()[0]`, or "" for a blank line (which fails to load). */
  function FirstField(line: string): string {
    var t := Tokens(line);
    if |t| == 0 then "" else t[0]
  }

  /** A line that loads is keyed by its first field. */
  function AnnotationRow(line: string): (r: Result<(string, Annotation)>)
    ensures r.Ok? ==> |Tokens(line)| > 0 && r.value.0 == FirstField(line)
  {
    AnnotationFields(Tokens(line))
  }

  /** Every failure of `[int(x) for x in xs]` is a ValueError. */
  lemma MapAllErrors(xs: seq<string>, ns: Result<seq<int>>)
    requires ns == MapAll(xs, ToInt)
    ensures ns.Err? ==> ns.error == ValueError
  {
    if ns.Err? {
      var i :| 0 <= i < |xs| && ToInt(xs[i]) == Err(ns.error);
    }
  }

  /** A strand mark is not an integer. */
  lemma StrandIsNotInt(x: string)
    requires IsStrand(x)
    ensures ParseInt(x).None?
  {
    StripUnpadded(x);
  }

  /**
   The two-field branch agrees with the general one: when both fields are
   integers neither is a strand mark, so nothing is filtered out; otherwise
   the line fails in both.
   */
  lemma TwoFieldsAgree(rest: seq<string>, ns: Result<seq<int>>)
    requires |rest| == 2 && ns == MapAll(rest, ToInt)
    ensures ns.Err? ==> ns.error == ValueError
    ensures ns.Ok? <==> (var c := Filter(rest, NotStrand); |c| == 2 && ParseInt(c[0]).Some? && ParseInt(c[1]).Some?)
    ensures ns.Ok? ==> Filter(rest, NotStrand) == rest && Filter(rest, IsStrand) == []
  {
    MapAllErrors(rest, ns);
    if ns.Ok? {
      forall i | 0 <= i < |rest|
        ensures NotStrand(rest[i])
      {
        if IsStrand(rest[i]) {
          StrandIsNotInt(rest[i]);
        }
      }
      FilterKeepsAll(rest, NotStrand);
      FilterDropsAll(rest, IsStrand);
    } else {
      var c := Filter(rest, NotStrand);
      if forall i :: 0 <= i < |rest| ==> NotStrand(rest[i]) {
        FilterKeepsAll(rest, NotStrand);
      } else {
        FilterShrinks(rest, NotStrand);
      }
    }
  }

  function AnnotationParser(): string -> Result<(string, Annotation)> {
    line => AnnotationRow(line)
  }

  /**
   `load_annotation`: every line must parse; the keys are the names of the
   lines and a name holds the annotation of its last line.
   */
  function LoadAnnotation(lines: seq<string>): (r: Result<map<string, Annotation>>)
    ensures r.Ok? <==> forall i :: 0 <= i < |lines| ==> AnnotationRow(lines[i]).Ok?
    ensures r.Err? ==> FirstFailure(lines, 0, AnnotationParser(), r.error)
    ensures r.Ok? ==> r.value.Keys == set i | 0 <= i < |lines| :: FirstField(lines[i])
    ensures r.Ok? ==> forall i :: 0 <= i < |lines| && IsLastRow(lines, AnnotationParser(), i)
                                  ==> r.value[FirstField(lines[i])] == AnnotationRow(lines[i]).value.1
  {
    BuildDictNamed(lines, AnnotationParser(), FirstField);
    BuildDict(lines, 0, AnnotationParser())
  }

  /** Both integer fields of a loaded line are not strand marks and load as themselves. */
  lemma IntsAreCoordinates(x: int, y: int)
    ensures NotStrand(ShowInt(x)) && NotStrand(ShowInt(y))
    ensures ParseInt(ShowInt(x)) == Some(x) && ParseInt(ShowInt(y)) == Some(y)
  {
    ParseShowInt(x);
    ParseShowInt(y);
    if IsStrand(ShowInt(x)) {
      StrandIsNotInt(ShowInt(x));
    }
    if IsStrand(ShowInt(y)) {
      StrandIsNotInt(ShowInt(y));
    }
  }

  /** The fields of the line `name x y`, with the integers spelt as `str()` prints them. */
  function PlainLine(name: string, x: int, y: int): string {
    Join([name, ShowInt(x), ShowInt(y)], " ")
  }

  /** The fields of the line `name x y mark`. */
  function MarkedLine(name: string, x: int, y: int, mark: string): string {
    Join([name, ShowInt(x), ShowInt(y), mark], " ")
  }

  function Min(x: int, y: int): int {
    if x <= y then x else y
  }

  function Max(x: int, y: int): int {
    if x <= y then y else x
  }

  lemma SortedEnds(a: Annotation, x: int, y: int)
    requires a.st <= a.en && multiset{a.st, a.en} == multiset{x, y}
    ensures a.st == Min(x, y) && a.en == Max(x, y)
  {
    assert a.st in multiset{x, y} && a.en in multiset{x, y};
    if x != y {
      assert x in multiset{a.st, a.en} && y in multiset{a.st, a.en};
    }
  }

  lemma PlainLineTokens(name: string, x: int, y: int)
    requires IsWord(name)
    ensures Tokens(PlainLine(name, x, y)) == [name, ShowInt(x), ShowInt(y)]
  {
    ShowIntIsWord(x);
    ShowIntIsWord(y);
    TokensOfJoinedWords([name, ShowInt(x), ShowInt(y)]);
  }

  lemma MarkedLineTokens(name: string, x: int, y: int, mark: string)
    requires IsWord(name) && IsStrand(mark)
    ensures Tokens(MarkedLine(name, x, y, mark)) == [name, ShowInt(x), ShowInt(y), mark]
  {
    ShowIntIsWord(x);
    ShowIntIsWord(y);
    TokensOfJoinedWords([name, ShowInt(x), ShowInt(y), mark]);
  }

  lemma PlainFilters(x: int, y: int)
    ensures Filter([ShowInt(x), ShowInt(y)], NotStrand) == [ShowInt(x), ShowInt(y)]
    ensures Filter([ShowInt(x), ShowInt(y)], IsStrand) == []
  {
    IntsAreCoordinates(x, y);
    FilterPair(ShowInt(x), ShowInt(y), NotStrand);
    FilterPair(ShowInt(x), ShowInt(y), IsStrand);
  }

  lemma MarkedFilters(x: int, y: int, mark: string)
    requires IsStrand(mark)
    ensures Filter([ShowInt(x), ShowInt(y), mark], NotStrand) == [ShowInt(x), ShowInt(y)]
    ensures Filter([ShowInt(x), ShowInt(y), mark], IsStrand) == [mark]
  {
    IntsAreCoordinates(x, y);
    FilterTriple(ShowInt(x), ShowInt(y), mark, NotStrand);
    FilterTriple(ShowInt(x), ShowInt(y), mark, IsStrand);
  }

  /** A line `name x y` loads as the interval from min(x, y) to max(x, y) without strand. */
  lemma PlainLineLoads(name: string, x: int, y: int)
    requires IsWord(name)
    ensures AnnotationRow(PlainLine(name, x, y)) == Ok((name, Annotation(Min(x, y), Max(x, y), [])))
  {
    var t := [name, ShowInt(x), ShowInt(y)];
    PlainLineTokens(name, x, y);
    PlainFilters(x, y);
    assert t[1..] == [ShowInt(x), ShowInt(y)];
    IntsAreCoordinates(x, y);
    FieldsLoad(t, x, y, []);
  }

  /** A line `name x y mark` with a strand mark loads as the same interval carrying that mark. */
  lemma MarkedLineLoads(name: string, x: int, y: int, mark: string)
    requires IsWord(name) && IsStrand(mark)
    ensures AnnotationRow(MarkedLine(name, x, y, mark)) == Ok((name, Annotation(Min(x, y), Max(x, y), [mark])))
  {
    var t := [name, ShowInt(x), ShowInt(y), mark];
    MarkedLineTokens(name, x, y, mark);
    IntsAreCoordinates(x, y);
    assert t[1..] == [ShowInt(x), ShowInt(y), mark];
    MarkedFilters(x, y, mark);
    FieldsLoad(t, x, y, [mark]);
  }

  /** Fields whose coordinates spell x and y, among strand marks `marks`, load as the sorted interval. */
  lemma FieldsLoad(t: seq<string>, x: int, y: int, marks: seq<string>)
    requires |t| > 0 && CoordinateFields(t) == [ShowInt(x), ShowInt(y)] && Filter(t[1..], IsStrand) == marks
    requires ParseInt(ShowInt(x)) == Some(x) && ParseInt(ShowInt(y)) == Some(y)
    ensures AnnotationFields(t) == Ok((t[0], Annotation(Min(x, y), Max(x, y), marks)))
  {
    var r := AnnotationFields(t);
    SortedEnds(r.value.1, x, y);
  }

  /** The order of the two coordinates on a line does not matter. */
  lemma CoordinateOrderIrrelevant(name: string, x: int, y: int)
    requires IsWord(name)
    ensures AnnotationRow(PlainLine(name, x, y)) == AnnotationRow(PlainLine(name, y, x))
  {
    PlainLineLoads(name, x, y);
    PlainLineLoads(name, y, x);
  }
}
