# VCF data-line parser, modelled in Dafny

This project models `VCFParser/vcf_parser.py`, a small streaming parser for
VCF (Variant Call Format) files. The model covers everything in that file
except opening the file and building the pandas DataFrame:

- **Header capture** (`VcfParser.set_header`). The parser counts every line
  that starts with `#`, wherever it stands. It then rewinds and re-reads that
  many lines from the start, concatenating them into `header`.
- **Record decomposition** (`VcfParser.next`). The parser reads one line and
  splits it on tabs. It keeps the first eight tokens and assigns them to
  `CHROM, POS, ID, REF, ALT, QUAL, FILTER, INFO`. It then splits INFO on `;`
  and inserts each segment as a key/value pair at its first `=`. A segment
  without `=` becomes a flag with value `None`. Finally it removes `INFO`.
- **Iteration**. `__next__` turns the `None` returned at end of file into
  `StopIteration`.
- **Bulk extraction** (`extract_vcf_to_dataframe`). It drains the parser and
  restricts every record to the requested columns.

Modules, one per component:

- `Wrappers` holds `Option` (Python's `None` or a value) and `Result` (a value
  or the exception the code raises).
- `PyStr` holds the Python string built-ins the parser relies on:
  - `str.split` with one separator: empty pieces are kept, and n separators
    give n + 1 pieces;
  - `''.join` and `str.startswith('#')`;
  - `in` / `index` for a character;
  - the line iteration of a text file, where each line keeps its `"\n"`.

  `str.split` and the line iteration come with their inverses. `Join`, which
  the parser itself never calls, is the inverse of `Split`:
  `Split(Join(p)) == p` holds for a non-empty list of separator-free pieces, and
  `Join(Split(s)) == s` holds for every `s`. The concatenation `Concat` of the
  lines of a text gives back the text, and splitting a concatenation of
  well-formed lines gives back those lines.
- `Decomposer` has `Decompose`, the reference decomposition of one line as a
  function, and the loops of `next` as methods proved against it.
- `Parser` has the class `VcfParser`. Its fields are the file's `lines`, the
  read position `cursor`, `closed` and `header`. Its methods are
  `SetHeader`, `ReadLine`, `Next`, `IterNext` and `Close`.
- `Extractor` has `Project`, the reference drain `ExtractRows`/`Extract` and
  the method `ExtractVcfToDataframe`.
- `WorkedRecords` decomposes particular lines. Each line is written as its
  tokens joined by tabs.

A record is a `map<string, Option<string>>`. A flag (`None`) is therefore
distinct from an empty value (`Some("")`).

These behaviours of the code are modelled as written, and lemmas show them:

- Empty INFO segments are not skipped. An empty INFO, or a trailing or doubled
  `;`, yields the key `""` with `None`.
- An INFO key named like a fixed column replaces that column's value. An INFO
  entry with the key `INFO` is inserted and then removed by the final `pop`.
- Nothing is stripped. When a line has exactly eight tokens, its `"\n"` stays
  at the end of the last INFO entry, so a final flag `DB` becomes `DB\n`.
- A file without any `#` line puts every line into the header, and iteration
  then yields nothing.
- A `#` line after a body line still counts. The header then holds the first
  k lines whatever they are.

A line with fewer than eight tab tokens makes line 85 raise `IndexError`.
The model returns this as an explicit error, `Err(IndexError(n))`, where n is
the number of tokens. It is not a precondition. The line has been consumed
all the same, so the read position has advanced. `Extract` propagates the
first such error and produces no rows, as the exception does through the
`with` block.

## Model

| member | source | states |
|---|---|---|
| `PyStr.Find` | VCFParser/vcf_parser.py:88-89 | the index is that of the first `=` (or the length when there is none): every earlier character differs |
| `PyStr.Split` | VCFParser/vcf_parser.py:73 | `str.split` yields at least one piece and no piece contains the separator |
| `PyStr.JoinSplit` | VCFParser/vcf_parser.py:73 | joining the pieces of a split with the separator gives back the original text |
| `PyStr.SplitJoin` | VCFParser/vcf_parser.py:87 | for a non-empty list of separator-free pieces, splitting their join gives back exactly those pieces, empty pieces included |
| `PyStr.SplitCount` | VCFParser/vcf_parser.py:73 | a split has exactly one more piece than the text has separators |
| `PyStr.SplitLines` | VCFParser/vcf_parser.py:51 | line iteration yields non-empty lines, each ending in `"\n"` except possibly the last, with no `"\n"` inside |
| `PyStr.ConcatSplitLines` | VCFParser/vcf_parser.py:59-64 | the lines of a text, concatenated, are the text |
| `PyStr.SplitLinesConcat` | VCFParser/vcf_parser.py:51 | line iteration over the concatenation of well-formed lines yields those lines |
| `PyStr.Concat` | VCFParser/vcf_parser.py:64 | reference definition of `''.join`; its properties are proved in `ConcatAppend`, `ConcatSplitLines` and `SplitLinesConcat` |
| `PyStr.StartsWithHash` | VCFParser/vcf_parser.py:52 | reference definition of `line.startswith('#')`, used by `CountHeaderLines` |
| `PyStr.ConcatAppend` | VCFParser/vcf_parser.py:64 | `''.join` of two lists appended is the join of the first followed by the join of the second |
| `Decomposer.InfoEntry` | VCFParser/vcf_parser.py:88-93 | a segment with no `=` gives (segment, None), and the value is `None` only then; otherwise the key has no `=` and key + "=" + value is the segment, so the value may contain `=` |
| `Decomposer.FixedFields` | VCFParser/vcf_parser.py:83-85 | reference definition of the first n fixed columns; its properties are proved in `FixedFieldsAt` |
| `Decomposer.ApplyInfo` | VCFParser/vcf_parser.py:87-94 | reference definition of the INFO merge, each segment inserted over the previous ones; its properties are proved in `ApplyInfoKeys`, `ApplyInfoUntouched` and `ApplyInfoLastWins` |
| `Decomposer.Decompose` | VCFParser/vcf_parser.py:73-98 | the result is an error exactly when the line has fewer than eight tab tokens, and the error is `IndexError` with that token count; a record never has the key `INFO` |
| `Decomposer.TakeFields` | VCFParser/vcf_parser.py:75-81 | the loop keeps exactly the first min(8, n) tokens, in order |
| `Decomposer.AssignFixed` | VCFParser/vcf_parser.py:83-85 | with fewer than eight tokens the assignment loop raises `IndexError`; otherwise it yields the map of the fixed names to the tokens |
| `Decomposer.MergeInfo` | VCFParser/vcf_parser.py:87-94 | the loop's map is the reference merge of every `;` segment in order, each insertion overwriting |
| `Decomposer.DecomposeLine` | VCFParser/vcf_parser.py:73-98 | the loops of `next` compute exactly the reference decomposition `Decompose` |
| `Decomposer.KeysDistinct` | VCFParser/vcf_parser.py:10-19 | the eight fixed column names are pairwise different |
| `Decomposer.FixedFieldsAt` | VCFParser/vcf_parser.py:83-85 | the first n fixed names are exactly the keys, and each holds its token verbatim |
| `Decomposer.FixedNames` | VCFParser/vcf_parser.py:10-19 | the eight fixed columns are the seven kept ones plus INFO |
| `Decomposer.ApplyInfoKeys` | VCFParser/vcf_parser.py:87-94 | after the merge the keys are the old keys plus the keys of all segments |
| `Decomposer.ApplyInfoUntouched` | VCFParser/vcf_parser.py:87-94 | a key that no segment names keeps its presence and its value |
| `Decomposer.ApplyInfoLastWins` | VCFParser/vcf_parser.py:87-94 | a key ends with the value of the last segment that names it |
| `Decomposer.DecomposeKeys` | VCFParser/vcf_parser.py:83-96 | the key set of a record is exactly {CHROM, POS, ID, REF, ALT, QUAL, FILTER} plus the INFO segment keys, minus `INFO` |
| `Decomposer.DecomposeFixed` | VCFParser/vcf_parser.py:73-85 | a fixed column that no INFO segment names holds the line's token at its position, verbatim |
| `Decomposer.DecomposeInfoLastWins` | VCFParser/vcf_parser.py:87-96 | an INFO key other than INFO has the value of its last occurrence, replacing a fixed column of the same name |
| `Decomposer.DecomposeIgnoresExtraColumns` | VCFParser/vcf_parser.py:75-81 | tab tokens after the eighth do not affect the record: the line and its first eight tokens decompose alike |
| `Parser.CountHeaderLines` | VCFParser/vcf_parser.py:50-53 | the count of `#` lines never exceeds the number of lines |
| `Parser.CaptureEnd` | VCFParser/vcf_parser.py:57-63 | the position where re-reading k lines stops lies between k and the end of the file |
| `Parser.HeaderEnd` | VCFParser/vcf_parser.py:49-63 | the position after header capture on a fresh handle is at least the number of `#` lines and at most the end of the file |
| `Parser.AsNext` | VCFParser/vcf_parser.py:96-98 | `next` never returns `None` for a line it has read; it returns the record, or raises the line's error |
| `Parser.AsIteration` | VCFParser/vcf_parser.py:42-47 | `__next__` never raises `StopIteration` for a line it has read; it returns the record, or re-raises the line's error |
| `Parser.VcfParser.constructor` | VCFParser/vcf_parser.py:21-26 | a new parser is open, holds the file's lines, is positioned at the header's end and has the header captured |
| `Parser.VcfParser.SetHeader` | VCFParser/vcf_parser.py:49-64 | counts `#` lines from the position to end of file, rewinds, and captures that many lines (all lines when the count is 0); the position ends after the last captured line |
| `Parser.VcfParser.ReadLine` | VCFParser/vcf_parser.py:67 | `readline` returns the next line and advances one line, or returns "" at end of file and stays there |
| `Parser.VcfParser.Next` | VCFParser/vcf_parser.py:66-98 | at end of file returns `None` and stays there, so repeated calls keep returning `None`; otherwise advances exactly one line and returns that line's decomposition or its error; `None` comes back exactly at end of file; a closed handle raises `ValueError` |
| `Parser.VcfParser.IterNext` | VCFParser/vcf_parser.py:42-47 | `__next__` raises `StopIteration` exactly where `next` returns `None`, and otherwise returns the record or re-raises the error |
| `Parser.VcfParser.Close` | VCFParser/vcf_parser.py:100-101 | the handle is closed afterwards |
| `Parser.CountContiguousHeader` | VCFParser/vcf_parser.py:50-53 | for n `#` lines followed by none, the count is n |
| `Parser.CountZero` | VCFParser/vcf_parser.py:50-53 | the count is zero exactly when no line starts with `#` |
| `Parser.HeaderOfHashLines` | VCFParser/vcf_parser.py:49-64 | with k >= 1 `#` lines, the position ends at k and the header is the first k lines; the header followed by the remaining lines is the text |
| `Parser.HeaderPrefix` | VCFParser/vcf_parser.py:57-64 | the captured header is a prefix of the file text and the remaining lines are the rest of it |
| `Parser.ContiguousHeader` | VCFParser/vcf_parser.py:49-64 | for a `#` prefix of n >= 1 lines, exactly those n lines are the header and reading resumes at line n + 1 |
| `Parser.NoHashLines` | VCFParser/vcf_parser.py:57-64 | for a file without `#` lines, the header is the whole text and the position is at end of file |
| `Parser.ScatteredHashLines` | VCFParser/vcf_parser.py:50-63 | for lines `#a`, `x`, `#b`, the header is `#a` `x` and reading resumes at `#b` |
| `Extractor.Project` | VCFParser/vcf_parser.py:110 | a row has exactly the record's keys that are among the columns, with their values unchanged |
| `Extractor.ExtractRows` | VCFParser/vcf_parser.py:104-111 | reference definition of the drain over the body lines; its properties are proved in `ExtractRowsOk`, `ExtractRowsFirstError` and `ExtractRowsErrorPersists` |
| `Extractor.Extract` | VCFParser/vcf_parser.py:104-111 | when the extraction of a file succeeds, it has one row per line after the header |
| `Extractor.ExtractVcfToDataframe` | VCFParser/vcf_parser.py:104-113 | the drain loop yields the reference rows `Extract`, or the first error; the parser it returns is closed on both paths |
| `Extractor.ExtractRowsErrorPersists` | VCFParser/vcf_parser.py:108-111 | an error in a prefix of the body is the error of the whole extraction |
| `Extractor.ExtractRowsOk` | VCFParser/vcf_parser.py:108-111 | extraction succeeds exactly when every body line decomposes; it then yields one row per body line, in file order, each the projection of that line's record |
| `Extractor.ExtractRowsFirstError` | VCFParser/vcf_parser.py:108-111 | a failed extraction carries the error of the first body line that does not decompose |
| `Extractor.RowCount` | VCFParser/vcf_parser.py:104-111 | when the extraction succeeds, a file of n >= 1 `#` lines followed by R body lines yields exactly R rows |
| `Extractor.NoHashLinesNoRows` | VCFParser/vcf_parser.py:57-64 | a file without `#` lines yields no rows at all |
| `WorkedRecords.ValueAndFlag` | VCFParser/vcf_parser.py:73-98 | INFO `DP=10;DB` gives the seven fixed tokens, DP = "10" and the flag DB = None, and nothing else |
| `WorkedRecords.LastWriteWins` | VCFParser/vcf_parser.py:87-94 | INFO `A=1;A=2` gives A = "2" |
| `WorkedRecords.FlagIsNotEmptyValue` | VCFParser/vcf_parser.py:88-94 | INFO `DB` gives DB = None, while `DB=` gives DB = "" |
| `WorkedRecords.EmptyInfo` | VCFParser/vcf_parser.py:87-94 | an empty INFO is not skipped: it yields the key "" with None |
| `WorkedRecords.TrailingSemicolon` | VCFParser/vcf_parser.py:87-94 | INFO `DP=10;` gives DP = "10" and also the key "" with None |
| `WorkedRecords.InfoOverwritesFixed` | VCFParser/vcf_parser.py:83-94 | INFO `POS=7` replaces the POS token with "7" |
| `WorkedRecords.NewlineStaysInInfo` | VCFParser/vcf_parser.py:67-94 | when INFO is the last column, the line's "\n" stays in the last entry: the key is `DB\n`, and `DB` is absent |
| `WorkedRecords.ProjectTwoLines` | VCFParser/vcf_parser.py:106-111 | two body lines projected on CHROM, POS, AF give two rows in order; the first has AF = "0.5" and the second has no AF cell |

## Left out

- Opening the file, `gzip` decompression and an open failure are I/O. The
  constructor takes the file's text and splits it into lines. Python's
  universal-newline translation of `"\r\n"` is not modelled: only `"\n"` ends
  a line, and a `"\r"` stays in the line's text.
- The context manager (`__enter__`/`__exit__`) is resource plumbing. Its effect
  is modelled as `Close` on both exit paths of `ExtractVcfToDataframe`.
  Closing an already-closed handle is not given any error.
- `__iter__` returns the object itself and is not modelled. Iteration is
  modelled only as `IterNext`.
- The pandas `DataFrame` is a library whose code is not part of this model.
  That covers its column order, its NaN filling for missing cells and how it
  treats a record key outside `columns`. The model stops at the sequence of
  projected maps.
- Python dict insertion order is not kept: a record is an unordered `map`.
  Only the DataFrame, which lists its columns explicitly, consumes the order.
- Parser.VcfParser.SetHeader: requires an open handle. The Python code only calls it from the constructor, on a handle it has just opened.
- A read on a closed handle is modelled as `Err(ValueError)` only in `Next`
  and `IterNext`, the reads that the Python code can reach after `close()`.
