/**
 The keyed table builders of utils.py: `dic_generator` (integer keys, float
 values), `new_dic_generator` (always columns 0 and 1) and
 `str_dic_generator` (string keys and values, a header counter and an
 optional literal delimiter). All three fill a dict line by line, so a later
 line overwrites the value of an earlier line with the same key.
 */
module KeyedTables {
  import opened Results
  import opened Text
  import opened Builtins
  import opened Tables

  /** `value_index` when it is truthy, else `key_index + 1` (None and 0 are both falsy). */
  function ValueColumn(keyIndex: int, valueIndex: Option<int>): int {
    if valueIndex.None? || valueIndex.value == 0 then keyIndex + 1 else valueIndex.value
  }

  /**
   One line of `dic_generator`. Python evaluates the right-hand side of
   `results[int(key)] = float(value)` first, so the value cell is read and
   converted before the key cell.
   */
  function DicRow<F>(line: string, keyIndex: int, valueIndex: Option<int>, parseFloat: string -> Option<F>): Result<(int, F)> {
    var t := Tokens(line);
    var v :- Index(t, ValueColumn(keyIndex, valueIndex));
    var value :- ToFloat(parseFloat, v);
    var k :- Index(t, keyIndex);
    var key :- ToInt(k);
    Ok((key, value))
  }

  function DicParser<F>(keyIndex: int, valueIndex: Option<int>, parseFloat: string -> Option<F>): string -> Result<(int, F)> {
    line => DicRow(line, keyIndex, valueIndex, parseFloat)
  }

  /**
   `dic_generator`: a truthy `header` skips the first line only; every other
   line must parse, and a key holds the value of the last line carrying it.
   */
  function DicGenerator<F>(lines: seq<string>, keyIndex: int, valueIndex: Option<int>, header: bool,
                           parseFloat: string -> Option<F>): (r: Result<map<int, F>>)
    ensures r.Ok? <==> forall i :: (if header then 1 else 0) <= i < |lines| ==> DicRow(lines[i], keyIndex, valueIndex, parseFloat).Ok?
    ensures r.Err? ==> FirstFailure(lines, if header && |lines| > 0 then 1 else 0, DicParser(keyIndex, valueIndex, parseFloat), r.error)
    ensures r.Ok? ==> r.value.Keys == set i | (if header then 1 else 0) <= i < |lines| && DicRow(lines[i], keyIndex, valueIndex, parseFloat).Ok?
                                          :: DicRow(lines[i], keyIndex, valueIndex, parseFloat).value.0
    ensures r.Ok? ==> forall i :: (if header then 1 else 0) <= i < |lines| && IsLastRow(lines, DicParser(keyIndex, valueIndex, parseFloat), i)
                                  ==> r.value[DicRow(lines[i], keyIndex, valueIndex, parseFloat).value.0] == DicRow(lines[i], keyIndex, valueIndex, parseFloat).value.1
  {
    BuildDict(lines, if header && |lines| > 0 then 1 else 0, DicParser(keyIndex, valueIndex, parseFloat))
  }

  /**
   One line of `new_dic_generator`: the first two fields of `l.split()`
   unpacked into `k, v`, which raises ValueError unless there are two.
   */
  function NewDicRow<F>(line: string, parseFloat: string -> Option<F>): Result<(int, F)> {
    var t := Tokens(line);
    var pair := if |t| < 2 then t else t[..2];
    if |pair| != 2 then Err(ValueError)
    else
      var value :- ToFloat(parseFloat, pair[1]);
      var key :- ToInt(pair[0]);
      Ok((key, value))
  }

  function NewDicParser<F>(parseFloat: string -> Option<F>): string -> Result<(int, F)> {
    line => NewDicRow(line, parseFloat)
  }

  /**
   `new_dic_generator`: its two index arguments are ignored; columns 0 and 1
   of every line give the key and value, and every failure is a ValueError.
   */
  function NewDicGenerator<F>(lines: seq<string>, parseFloat: string -> Option<F>): (r: Result<map<int, F>>)
    ensures r.Ok? <==> forall i :: 0 <= i < |lines| ==> NewDicRow(lines[i], parseFloat).Ok?
    ensures r.Ok? ==> forall i :: 0 <= i < |lines| ==> |Tokens(lines[i])| >= 2 && NewDicRow(lines[i], parseFloat).value.0 in r.value
    ensures r.Ok? ==> r.value.Keys == set i | 0 <= i < |lines| && NewDicRow(lines[i], parseFloat).Ok? :: NewDicRow(lines[i], parseFloat).value.0
    ensures r.Ok? ==> forall i :: 0 <= i < |lines| && IsLastRow(lines, NewDicParser(parseFloat), i)
                                  ==> r.value[NewDicRow(lines[i], parseFloat).value.0] == NewDicRow(lines[i], parseFloat).value.1
    ensures r.Err? ==> r.error == ValueError
  {
    var r := BuildDict(lines, 0, NewDicParser(parseFloat));
    forall i | 0 <= i < |lines|
      ensures NewDicRow(lines[i], parseFloat).Ok? ==> |Tokens(lines[i])| >= 2
      ensures NewDicRow(lines[i], parseFloat).Err? ==> NewDicRow(lines[i], parseFloat).error == ValueError
    {
      NewDicRowShape(lines[i], parseFloat);
    }
    r
  }

  lemma NewDicRowShape<F>(line: string, parseFloat: string -> Option<F>)
    ensures NewDicRow(line, parseFloat).Ok? ==> |Tokens(line)| >= 2
    ensures NewDicRow(line, parseFloat).Err? ==> NewDicRow(line, parseFloat).error == ValueError
  {
  }

  /**
   On a file whose every line has at least two fields, `new_dic_generator`
   agrees with `dic_generator` reading key column 0 and its default value
   column, without a header.
   */
  lemma NewDicMatchesDic<F>(lines: seq<string>, parseFloat: string -> Option<F>)
    requires forall i :: 0 <= i < |lines| ==> |Tokens(lines[i])| >= 2
    ensures NewDicGenerator(lines, parseFloat) == DicGenerator(lines, 0, None, false, parseFloat)
  {
    forall i | 0 <= i < |lines|
      ensures NewDicRow(lines[i], parseFloat) == DicRow(lines[i], 0, None, parseFloat)
    {
    }
    BuildDictCongruent(lines, NewDicParser(parseFloat), DicParser(0, None, parseFloat));
  }

  /**
   The lines left after the header loop of `str_dic_generator`: each line
   decrements a non-zero counter instead of being parsed. A counter of n >= 0
   (True counts as 1) skips the first n lines; a negative counter never
   reaches 0 and skips every line.
   */
  function SkipHeader(lines: seq<string>, header: int): (rest: seq<string>)
    ensures header >= 0 ==> rest == lines[if header < |lines| then header else |lines|..]
    ensures header < 0 ==> rest == []
  {
    if |lines| == 0 then lines
    else if header != 0 then SkipHeader(lines[1..], header - 1)
    else lines
  }

  /** How many lines the header counter consumes. */
  function HeaderLines(header: int, n: nat): nat {
    if header < 0 || header > n then n else header
  }

  /** The fields of a line: `line.strip().split(split_by)` for a non-empty delimiter, else `line.strip().split()`. */
  function Fields(line: string, splitBy: Option<string>): seq<string> {
    if splitBy.Some? && |splitBy.value| > 0 then SplitOn(Strip(line), splitBy.value) else Tokens(line)
  }

  /**
   One line of `str_dic_generator`. The value is read first (right-hand side);
   when `value_index` is not `key_index + 1` it subscripts with
   `value_index` itself, which is None by default and raises TypeError.
   */
  function StrRow(line: string, keyIndex: int, valueIndex: Option<int>, splitBy: Option<string>): Result<(string, string)> {
    var fields := Fields(line, splitBy);
    var v :- if valueIndex != Some(keyIndex + 1) then IndexOrNone(fields, valueIndex) else Index(fields, keyIndex + 1);
    var k :- Index(fields, keyIndex);
    Ok((k, v))
  }

  function StrParser(keyIndex: int, valueIndex: Option<int>, splitBy: Option<string>): string -> Result<(string, string)> {
    line => StrRow(line, keyIndex, valueIndex, splitBy)
  }

  /**
   `str_dic_generator`: the first `header` lines are skipped (all of them
   when the counter is negative); every later line must parse, and a key holds
   the value of the last line carrying it.
   */
  function StrDicGenerator(lines: seq<string>, keyIndex: int, valueIndex: Option<int>, header: int,
                           splitBy: Option<string>): (r: Result<map<string, string>>)
    ensures r.Ok? <==> forall i :: HeaderLines(header, |lines|) <= i < |lines| ==> StrRow(lines[i], keyIndex, valueIndex, splitBy).Ok?
    ensures r.Err? ==> FirstFailure(lines, HeaderLines(header, |lines|), StrParser(keyIndex, valueIndex, splitBy), r.error)
    ensures r.Ok? ==> r.value.Keys == set i | HeaderLines(header, |lines|) <= i < |lines| && StrRow(lines[i], keyIndex, valueIndex, splitBy).Ok?
                                          :: StrRow(lines[i], keyIndex, valueIndex, splitBy).value.0
    ensures r.Ok? ==> forall i :: HeaderLines(header, |lines|) <= i < |lines| && IsLastRow(lines, StrParser(keyIndex, valueIndex, splitBy), i)
                                  ==> r.value[StrRow(lines[i], keyIndex, valueIndex, splitBy).value.0] == StrRow(lines[i], keyIndex, valueIndex, splitBy).value.1
  {
    var from := |lines| - |SkipHeader(lines, header)|;
    assert from == HeaderLines(header, |lines|);
    assert lines[from..] == SkipHeader(lines, header);
    BuildDict(lines, from, StrParser(keyIndex, valueIndex, splitBy))
  }

  /**
   With the default `value_index=None` every parsed line raises TypeError,
   so the call fails as soon as one line survives the header, and returns
   an empty dict otherwise.
   */
  lemma StrDicNoValueIndex(lines: seq<string>, keyIndex: int, header: int, splitBy: Option<string>)
    ensures HeaderLines(header, |lines|) < |lines| ==> StrDicGenerator(lines, keyIndex, None, header, splitBy) == Err(TypeError)
    ensures HeaderLines(header, |lines|) == |lines| ==> StrDicGenerator(lines, keyIndex, None, header, splitBy) == Ok(map[])
  {
  }

  /** A truthy `header` in `dic_generator` drops the first line and nothing else. */
  lemma DicHeaderSkipsFirstLine<F>(lines: seq<string>, keyIndex: int, valueIndex: Option<int>, parseFloat: string -> Option<F>)
    requires |lines| > 0
    ensures DicGenerator(lines, keyIndex, valueIndex, true, parseFloat) == DicGenerator(lines[1..], keyIndex, valueIndex, false, parseFloat)
  {
    assert lines[1..][0..] == lines[1..];
  }

  /** `str_dic_generator` with a header counter of n (at most the file length) reads the file from line n on. */
  lemma StrHeaderSkipsLines(lines: seq<string>, keyIndex: int, valueIndex: Option<int>, header: int, splitBy: Option<string>)
    requires 0 <= header <= |lines|
    ensures StrDicGenerator(lines, keyIndex, valueIndex, header, splitBy) == StrDicGenerator(lines[header..], keyIndex, valueIndex, 0, splitBy)
  {
    var row := StrParser(keyIndex, valueIndex, splitBy);
    assert |SkipHeader(lines, header)| == |lines| - header;
    assert StrDicGenerator(lines, keyIndex, valueIndex, header, splitBy) == BuildDict(lines, header, row);
    assert SkipHeader(lines[header..], 0) == lines[header..];
    assert StrDicGenerator(lines[header..], keyIndex, valueIndex, 0, splitBy) == BuildDict(lines[header..], 0, row);
    assert lines[header..][0..] == lines[header..];
  }
}
