# pyutils `utils.py` in Dafny

A model of the text-table helpers in `utils.py` of the pyutils scripts
(Python 2). These helpers read whitespace-separated files line by line and
build lists, sets and dicts from chosen columns:

- column extractors: `list_generator`, `set_generator`, `ins2positions`;
- keyed tables: `dic_generator`, `new_dic_generator`, `str_dic_generator`;
- the replicate partition `double_set_generator` and the plotting lists of
  `return_two_list`;
- the essentiality helpers: `genes_coordinates`, `return_ene_set`, and the
  ORF trimmer `process_ene_set`;
- the annotation loader `load_annotation`;
- three small helpers: `indexes`, `lists2dict`, `reverse_complement`.

A file is its sequence of lines (`seq<string>`). An exception is a value:
`Results.Result` is `Ok(value)` or `Err(error)`, where the error is one of
IndexError, ValueError, KeyError and TypeError. Every loop that can raise
yields the exception of the first line that fails.

The Python built-ins the helpers rely on are defined once:

- `Text.Tokens` is `str.split()`, the maximal runs of non-whitespace over
  Python 2's six whitespace characters.
- `Text.Strip` is `str.strip()`.
- `Text.SplitOn` is `str.split(sep)`, which keeps empty fields.
- `Text.Upper` is the ASCII `str.upper()` of a byte string.
- `Builtins.Index` is list subscription, negative indices included.
- `Builtins.ListIndex` is `list.index`.
- `Builtins.ParseInt` is base-10 `int()` on a byte string.
- `Tables.MapAll` is a list comprehension that may raise.
- `Tables.BuildDict` is a dict filled key after key, so the last line with a key wins.

`float()` is a parameter `parseFloat: string -> Option<F>`.

Modules, one per file: `Results`, `Text`, `Builtins`, `Tables` (shared
definitions), `Columns`, `KeyedTables`, `Replicates`, `Essentials`,
`Annotations`, `Helpers` (one per group of helpers above).

Behaviour of the source worth knowing, which the model keeps:

- `double_set_generator` files a line whose third field is an integer other
  than 2 in neither set. It does not put it in the non-replicate set (see
  Findings).
- The two sets of `double_set_generator` share a position only when two of
  its lines are filed differently. For example, one line has third field 2
  and another has no third field. Two lines filed the same way keep the sets
  disjoint.
- A blank line after the header is never skipped. Most readers raise IndexError on it:
  `list_generator`, `set_generator`, `ins2positions`, `dic_generator`,
  `double_set_generator`, `genes_coordinates`, `return_ene_set`,
  `return_two_list` and `load_annotation`. `new_dic_generator` raises
  ValueError, from unpacking an empty list. `str_dic_generator` raises
  whatever its subscripts raise. With the default `value_index` that is
  TypeError. With `split_by` set, `''.split(sep)` is `['']`, so indices 0
  and -1 read an empty key and value without error. A blank line within the
  header count is skipped like any other header line.
- `str_dic_generator` keys and values are strings, not integers.
- The trimmed interval of `process_ene_set` can invert by one base when the
  percentage is 100 or 101 and the length is odd. `TrimStaysWithin` proves
  that it stays well ordered for percentages 0 to 99.

## Model

| member | source | states |
|---|---|---|
| Text.Tokens | utils.py:30 | every field `split()` returns is a non-empty run without whitespace, and there is no field exactly when the line is all whitespace |
| Text.TokensAreRuns | utils.py:30 | every line is its `split()` fields woven with whitespace: whitespace before the first and after the last field, and a non-empty whitespace run between two fields; so the fields are the maximal non-whitespace runs, in order |
| Text.StripThenTokens | utils.py:30 | `line.strip().split()` has the same fields as `line.split()`, so stripping first changes nothing |
| Text.Strip | utils.py:30 | the result has no leading or trailing whitespace and is the input with whitespace padding removed |
| Text.SplitOn | utils.py:95-96 | `split(sep)` yields at least one field; joining the fields with `sep` gives back the line; no field contains `sep`, and each cut is at the leftmost occurrence, since no occurrence starts inside a field and runs on into the separator after it |
| Text.TokensOfJoinedWords | utils.py:30 | splitting words joined by single spaces gives the words back |
| Text.Upper | utils.py:162 | `upper()` keeps the length, changes each ASCII lower-case letter to its capital and leaves every other character alone; no lower-case ASCII letter remains |
| Builtins.ListIndex | utils.py:19 | `lista.index(x)` succeeds iff x is in the list; it returns the first position holding x; otherwise it raises ValueError |
| Builtins.IndexSemantics | utils.py:31 | `line[index]` succeeds iff -len <= index < len, else IndexError; a non-negative index reads that position; a negative index reads position len + index |
| Builtins.ParseIntLiteral | utils.py:41 | `int()` succeeds iff the stripped text is an optional sign, optional whitespace after the sign, then at least one decimal digit; the value is that of the digits, negated after `-` |
| Builtins.SpacedMinus | utils.py:176 | `int('- 5')` is -5: whitespace between the sign and the digits is skipped |
| Builtins.SpacedPlus | utils.py:176 | `int('+\t7')` is 7 |
| Builtins.ParseShowInt | utils.py:176-177 | `int()` reads back every integer as `str()` prints it |
| Tables.MapAll | utils.py:41 | a comprehension succeeds iff every element converts; values are pointwise and in order; an error is that of the first failing element |
| Tables.BuildDict | utils.py:68-70 | filling a dict from the lines: it fails iff some line fails, with the first failure; the keys are the keys of the lines; each key holds the value of its last line |
| Tables.Assign | utils.py:353 | dict assignment in sequence: keys are the old keys plus the new ones; untouched keys keep their values; the last assignment to a key wins |
| Tables.Filter | utils.py:350-351 | a filtered comprehension keeps only elements that pass, and every element that passes is kept |
| Tables.FilterAppend | utils.py:350-351 | filtering keeps order: filtering a concatenation gives the filtered parts concatenated |
| Tables.FilterMultiset | utils.py:350-351 | filtering keeps multiplicities: the result is a sub-multiset of the list, and an element that passes occurs as often in the result as in the list |
| Tables.Zip | utils.py:359 | `zip` stops at the shorter list and pairs elements position by position |
| Columns.ListGenerator | utils.py:23-32 | the column of every line, in file order, iff every line has that column; otherwise IndexError |
| Columns.SetGenerator | utils.py:44-53 | x is in the set iff some line has x in the column; a short line raises IndexError |
| Columns.SetIsListElements | utils.py:23-53 | `set_generator` is exactly the set of elements of `list_generator`, and fails exactly when it fails |
| Columns.Ins2Positions | utils.py:35-41 | n is in the set iff some line's first field is n; it fails iff some line is blank or has a non-integer first field; the error is that of the first such line, IndexError for a blank line and ValueError otherwise |
| KeyedTables.DicGenerator | utils.py:56-71 | after the optional header line, it fails iff some line fails, with the first failure; keys are the parsed keys; the last line with a key wins |
| KeyedTables.DicHeaderSkipsFirstLine | utils.py:63-64 | a truthy header drops exactly the first line |
| KeyedTables.NewDicGenerator | utils.py:73-80 | it succeeds iff every line has two fields, an integer then a float; the keys are exactly the lines' keys; the last line with a key wins; every failure is a ValueError |
| KeyedTables.NewDicMatchesDic | utils.py:73-80 | on lines with two or more fields it equals `dic_generator` on columns 0 and 1 without a header |
| KeyedTables.SkipHeader | utils.py:86-93 | a header counter n >= 0 skips the first n lines; a negative counter skips every line |
| KeyedTables.StrDicGenerator | utils.py:82-103 | the lines after the header decide it: it fails iff one of them fails, with the first failure; the last line with a key wins |
| KeyedTables.StrHeaderSkipsLines | utils.py:86-93 | a header counter n reads the file from line n on |
| KeyedTables.StrDicNoValueIndex | utils.py:99-100 | with `value_index=None`, any line after the header raises TypeError; with no such line the dict is empty |
| Replicates.Partition | utils.py:124-131 | a blank line raises IndexError; otherwise x is in a set iff some line with first field x is filed there |
| Replicates.DoubleSetGenerator | utils.py:115-133 | the replicate set holds the first fields of lines whose third field is the integer 2; the non-replicate set holds those of lines with no third field or a non-integer one |
| Replicates.OtherCountFilesNowhere | utils.py:126-131 | a position whose only line has an integer third field other than 2 is in neither set |
| Replicates.SingleReplicaDropped | utils.py:126-131 | the one-line file `p v 1` gives two empty sets |
| Replicates.DoubleSetGeneratorIntended | utils.py:116-119 | corrected rule: the replicate set is unchanged; the non-replicate set holds exactly the first fields of lines whose third field is missing or not the integer 2; so every line's first field is in one of the two sets |
| Replicates.SingleReplicaFiledIntended | utils.py:116-119 | under the corrected rule the file `p v 1` files p as non-replicate |
| Replicates.IntendedSetsDisjoint | utils.py:116-119 | under the corrected rule, with no position repeated, the two sets are disjoint |
| Replicates.ReturnTwoList | utils.py:188-207 | positions are the parsed first fields of all lines, in order; reads are the parsed second fields of exactly the kept lines (no third field, or third field the string `2`), in order; a failure is the IndexError or ValueError of the first line that fails |
| Replicates.KeptReadsAreFiled | utils.py:199-205 | every line whose reads are kept has its position filed in one of the two `double_set_generator` sets |
| Replicates.PaddedTwoIsReplicate | utils.py:128-129 | a third field `02` counts as a replicate for `double_set_generator` |
| Replicates.PaddedTwoNotPlotted | utils.py:201-205 | the same line keeps its position but drops its reads in `return_two_list` |
| Essentials.GenesCoordinates | utils.py:141-151 | it succeeds iff every line has three fields; the keys are the (upper-cased if `caps`) first fields; each value is the two following fields of the last line for that gene; otherwise IndexError |
| Essentials.EneSet | utils.py:153-163 | x is in the set iff some line has second field `region_type` and upper-cased first field x; a line with fewer than two fields raises IndexError |
| Essentials.EneSetIsUpperCase | utils.py:162 | the genes `return_ene_set` yields are already upper-case, the form `genes_coordinates(caps=True)` keys them by |
| Essentials.UpperIdempotent | utils.py:162 | upper-casing twice is upper-casing once |
| Essentials.RoundHundredth | utils.py:179 | the result is the integer nearest to n/100, with halves rounded away from zero |
| Essentials.BasesToRemove | utils.py:179 | the result is `round(length * (percentage // 2) / 100)`, halves rounded away from zero: it lies within half a unit of that quotient; for a non-negative length and percentage it is non-negative |
| Essentials.TrimGene | utils.py:176-183 | KeyError iff the gene has no coordinates; IndexError or ValueError for a missing or non-integer end; otherwise both ends move inward by the same `bases_to_remove` |
| Essentials.ProcessEneSet | utils.py:166-185 | it succeeds iff every gene of the set trims; the result's keys are exactly the set; each gene maps to its trimmed interval; a failure is the error of some gene in the set |
| Essentials.TrimStaysWithin | utils.py:178-181 | for percentages 0 to 99, the trimmed interval lies inside the original and stays well ordered |
| Essentials.ZeroPercentKeeps | utils.py:179-181 | a zero percentage leaves the interval unchanged |
| Essentials.TrimReadCoordinates | utils.py:176-177 | a gene read by `genes_coordinates` has both ends, so trimming it fails only with ValueError |
| Essentials.TrimDefaultExample | utils.py:166-183 | with the default 10%, the interval 300..500 becomes 310..490 |
| Essentials.TrimSpacedSignExample | utils.py:176-183 | a start written `- 5` reads as -5, so at 10% the interval -5..10 becomes -4..9 |
| Annotations.SortedPair | utils.py:347-350 | unpacking `sorted(ns)` succeeds iff there are two numbers; the pair is ordered and is a permutation of them |
| Annotations.AnnotationFields | utils.py:344-352 | a line loads iff it has a name and exactly two non-strand fields after it, both integers; then start <= end, {start, end} are those two integers, and the strands are the `+`/`-` fields in order; a blank line raises IndexError, any other failure is a ValueError |
| Annotations.TwoFieldsAgree | utils.py:346-352 | the two-field branch agrees with the general rule: it succeeds in exactly the same cases, and then has no strand |
| Annotations.TwoFieldsNoStrand | utils.py:346-348 | a line with exactly two fields after the name carries no strand |
| Annotations.LoadAnnotation | utils.py:340-354 | it fails iff some line fails, with the first failure; the keys are the lines' first fields; the last line with a name wins |
| Annotations.PlainLineLoads | utils.py:346-348 | `name x y` loads as min(x, y)..max(x, y) without strand |
| Annotations.MarkedLineLoads | utils.py:349-352 | `name x y +` loads as the same interval with the mark |
| Annotations.CoordinateOrderIrrelevant | utils.py:347 | for a whitespace-free name and any integers x and y written as `str()` prints them, the plain lines `name x y` and `name y x` load the same |
| Helpers.Indexes | utils.py:11-20 | it succeeds iff every value is in the list; each index is the first position of its value; otherwise ValueError |
| Helpers.IndexesOfDistinctSelf | utils.py:11-20 | on a list without repeats, the indexes of its own elements are 0, 1, 2, ... |
| Helpers.ListsToDict | utils.py:357-359 | keys are the elements of the first list paired by `zip`; a key not repeated later maps to its partner |
| Helpers.ListsToDictPairs | utils.py:357-359 | two equal-length lists without repeated keys give a dict with one entry per position, pairing them |
| Helpers.ReverseComplement | utils.py:370-372 | it succeeds iff every character is A, C, G or T (else KeyError); the result has the same length, and position i holds the complement of position n-1-i |
| Helpers.ReverseComplementInvolutive | utils.py:370-372 | the reverse complement of a reverse complement is the input |

## Left out

- File opening and the hard-coded paths of `genes_coordinates` and `return_ene_set`. A file is its list of lines, passed in.
- The ignored arguments. `new_dic_generator`'s `key_index`/`value_index` and `double_set_generator`'s `index` have no effect in the source, so the model omits them.
- `float()`: its syntax is not modelled. Values are of an arbitrary type F, and the caller supplies the conversion.
- Essentials.RoundHundredth: it computes `round(n * 0.01)` exactly. Floating-point `0.01` is inexact, so the source may round the other way when n/100 lies within rounding error of a half.
- Essentials.BasesToRemove: it takes an integer percentage. A float percentage would make `percentage/2` a true division; that case is not modelled.
- KeyedTables.DicGenerator: its `header` is a bool (Python truthiness).
- KeyedTables.StrDicGenerator: its `header` is an integer counter, with True taken as 1. Non-integer truthy headers are not modelled.
- Builtins.ParseInt: it models `int()` on byte strings, the only kind the readers pass it. The syntax is surrounding whitespace, an optional sign, optional whitespace after the sign, then ASCII digits; a trailing `L` is rejected, as Python 2's `int()` rejects it. The non-ASCII digits `int()` accepts in unicode strings are not modelled.
- Essentials.ProcessEneSet: the source iterates the set in hash order. The model picks genes in an arbitrary order, so when several genes fail it states only that the error comes from one of them.
- `file_len`: it runs the external `wc` command.
- `mapping_figure`, `mapping_figure_from_dictionary`, `histogram`: matplotlib plotting.
- `load_multifasta`, `load_multifasta_info`, `load_genome`, `load_genome_DB`: thin wrappers over Biopython.
- `remove_column`: a numpy call.
- `dict2file`: file writing and `str()` of floats.

## Findings

| source | as written | input that shows it | evidently intended | confidence | as-written member | corrected member |
|---|---|---|---|---|---|---|
| utils.py:126-131 | a third field that `int()` reads as anything but 2 raises nothing, so the line is added to neither set | the one-line file `p v 1` (a position seen in one replica) gives `(set(), set())` | per the docstring, a position in only one replica goes to the second set, so every line's position is filed somewhere | medium, not executed | Replicates.SingleReplicaDropped | Replicates.DoubleSetGeneratorIntended |
