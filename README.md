# Character co-occurrence extraction, modelled in Dafny

This project models `RelationExtractor` from `main.py`. The extractor reads
three controlled vocabularies: a name dictionary, a stop-word list and an
alias list. It then walks a novel line by line and recognises character
names among the segmented words. It counts every name's mentions and builds
a weighted co-occurrence graph: two names are linked when they appear in
the same paragraph (line).

The model has six modules:

- `Text` (`text.dfy`): the parts of Python's `str` the loaders use.
  - `Strip` is `str.strip()` with the whitespace of `str.isspace`.
  - `Split` is `str.split(sep)`, which keeps empty fields.
  - `Join` is the inverse of `Split`.
- `Results` (`results.dfy`): `Option`, and a `Result` whose error is the load
  failure `AliasFieldMissing(line)`.
- `Dictionaries` (`dictionaries.dfy`): `RelationExtractor.__init__`.
  - Each dictionary line is parsed as the comprehensions at `main.py:11-16` do.
  - Alias pairs are collected as `dict(...)` does: a later key wins.
  - An alias line without a comma is the error path. Python raises an
    `IndexError` there; here it is `Err(AliasFieldMissing(i))` for the first
    such line.
  - The extractor never changes its fields after construction, so the
    loaded vocabularies are one immutable `Dictionaries` value.
- `Recognition` (`recognition.dfy`): the per-token decision of the token loop.
  - First the stop-word test.
  - Then one alias lookup. It is taken only when the alias value is
    non-empty, because `alias_names.get(word)` is tested for truth.
  - Then the name test.
  - These decisions give, for each line, the list of recognised names.
    These lists are the reference definition that the loops are proved
    against.
- `CoOccurrence` (`cooccurrence.dfy`): the weight that a paragraph adds to an
  edge from `a` to `b`.
  - It is `count(a) * count(b)` when `a != b`, and 0 otherwise.
  - The weight of an edge is this value summed over paragraphs.
- `Extractor` (`extractor.dfy`): `RelationExtractor.extract` as imperative
  Dafny.
  - The local dictionaries `relationship` and `name_frequency` and the list
    `name_in_paragraph` are maps and a sequence.
  - The loops reassign them.
  - The token loop and the triple paragraph/name1/name2 loop carry
    invariants that tie the partial state to the reference definitions.

`Extract` proves the following about its results:

- the frequency map counts exactly the mentioned names;
- both maps have the same keys;
- `relationship[a]` holds `b` exactly when the summed weight is positive,
  and then holds that weight;
- no name is linked to itself;
- every edge is stored in both directions with the same weight, and that
  weight is at least 1.

The segmenter is replaced by its output: the text is one sequence of words
per line, and part-of-speech tags are never read.

Three consequences of the order and form of the tests in `main.py` are
proved as lemmas:

- **Stop-word names.** The stop-word test looks at the token as written.
  A name that is also a stop word is therefore still counted when a
  non-stop-word alias reaches it (`StopWordTestBeforeAlias`). Otherwise it
  is never counted (`StopWordNameNotCounted`).
- **Empty alias values.** An alias whose value is the empty string is not
  applied: the token is looked up as written (`EmptyAliasIgnored`).
- **Alias fields.** An alias line may have more than two comma-separated
  fields; the fields after the second are ignored (`AliasEntryOfFields`).
  Loading fails only on a line with no comma at all (`ParseAliases`).

## Model

| member | source | states |
|---|---|---|
| Text.StripSpec | main.py:13 | `strip()` returns a slice of the line with only whitespace outside it, and that slice neither starts nor ends with whitespace |
| Text.StripIdempotent | main.py:13 | stripping an already stripped line changes nothing |
| Text.Split | main.py:15 | `split(sep)` yields one field more than the line has separators |
| Text.SplitFields | main.py:11 | no field contains the separator; the first field is the part of the line before its first separator |
| Text.JoinSplit | main.py:15 | joining the fields of a split with the separator gives back the line |
| Text.SplitJoin | main.py:15 | splitting a join of separator-free fields gives back those fields |
| Dictionaries.NameEntry | main.py:11 | a name is the longest space-free prefix of the stripped line, ending at the first space |
| Dictionaries.ParseNames | main.py:11 | one name per line of the name dictionary, in line order |
| Dictionaries.StopWordEntry | main.py:13 | a stop word is the stripped line, with no surrounding whitespace |
| Dictionaries.ParseStopWords | main.py:13 | one stop word per line of the stop-word list, in line order |
| Dictionaries.AliasEntry | main.py:15 | an alias line gives a pair exactly when it contains a comma |
| Dictionaries.AliasEntryOfFields | main.py:15 | the pair is the first two comma-separated fields, each stripped; later fields are ignored |
| Dictionaries.AliasPairs | main.py:15-16 | the list of pairs exists exactly when every line gives one, and it is those pairs in line order; otherwise the error names the first line without a pair |
| Dictionaries.PairsToMapKeys | main.py:15-16 | the keys of `dict(pairs)` are exactly the keys of the pairs |
| Dictionaries.PairsToMapLastWins | main.py:15-16 | for a repeated key, `dict(pairs)` keeps the value of its last pair |
| Dictionaries.ParseAliases | main.py:15-16 | loading the alias list fails exactly when some line has no comma, and reports the first such line |
| Dictionaries.LaterAliasLineWins | main.py:15-16 | the alias map sends a key to the value on the last line carrying that key |
| Dictionaries.AliasKeys | main.py:15-16 | the keys of the alias map are exactly the aliases of the lines |
| Dictionaries.Load | main.py:9-16 | construction fails exactly when an alias line lacks a comma, with the alias-list error; otherwise the names are the name entries of the name lines and the stop words are the stop-word entries of the stop lines, one per line in line order, and the aliases are the parsed alias map |
| Recognition.Recognize | main.py:36-44 | the recognised word is determined in every case: a stop word is dropped; an alias key with a non-empty value is replaced by that value, which is kept exactly when it is a known name; any other token (not an alias key, or an alias key with an empty value) is kept exactly when it is itself a known name |
| Recognition.ParagraphNames | main.py:33-46 | the names of a line are known names, at most one per token |
| Recognition.Paragraphs | main.py:30-46 | exactly one list of names per line of text, empty lines included |
| Recognition.StopWordsIgnored | main.py:36-37 | removing every occurrence of a stop word from a line leaves its recognised names unchanged |
| Recognition.StopWordNameNotCounted | main.py:36-43 | a name that is a stop word is never recorded unless some non-stop-word alias leads to it |
| Recognition.AliasNotChained | main.py:40-41 | alias resolution is a single lookup, even when the alias value is itself an alias |
| Recognition.StopWordTestBeforeAlias | main.py:36-41 | the stop-word test looks at the token as written, so an alias of a stop-word name still counts for that name |
| Recognition.AliasShadowsName | main.py:40-44 | a known name that is an alias key with a non-empty, unknown value is dropped |
| Recognition.EmptyAliasIgnored | main.py:40-41 | an alias whose value is empty is not applied |
| Recognition.InFlatten | main.py:46 | a name occurs among all recorded names exactly when some paragraph records it |
| CoOccurrence.NoSelfWeight | main.py:56-57 | the weight from a name to itself is 0 |
| CoOccurrence.WeightSymmetric | main.py:53-61 | the weight from `a` to `b` equals the weight from `b` to `a` |
| CoOccurrence.WeightAppend | main.py:53 | paragraphs contribute independently: the weight over two runs of paragraphs is the sum of their weights |
| CoOccurrence.WeightPositive | main.py:53-61 | the weight is positive exactly when the names differ and some paragraph mentions both |
| Extractor.FrequenciesCount | main.py:47-50 | the frequency map has exactly the mentioned names as keys, and a name's value is its number of mentions |
| Extractor.Extract | main.py:20-64 | the frequency map counts mentions; both maps have the same keys; each adjacency map holds exactly the positive summed weights; no self-edges; every edge is stored in both directions with the same weight; every stored weight is at least 1 |
| Extractor.MentionedNamesCounted | main.py:47-58 | every name in a paragraph has a frequency entry, so the adjacency lookup of the second loop never fails |
| Extractor.GraphShape | main.py:53-61 | a graph holding the summed weights has no self-edges, stores every edge in both directions with equal weight, and every stored weight is at least 1 |
| Extractor.LinkedIffSharedParagraph | main.py:53-61 | two names are linked exactly when they differ and share a paragraph |
| Extractor.CollectMentions | main.py:30-50 | the line loop yields the reference paragraphs and their mention counts, with an empty adjacency map per counted name |
| Extractor.CollectLine | main.py:33-50 | the token loop appends a line's recognised names, in order, to the new last paragraph and counts each one |
| Extractor.SkipToken | main.py:36-44 | an unrecognised token leaves paragraphs, counts and adjacency maps unchanged |
| Extractor.RecordToken | main.py:46-50 | a recognised token is appended to the current paragraph and counted once; count and adjacency map are created on first sighting |
| Extractor.CountMention | main.py:47-50 | a mention of a name creates its count at zero and an empty adjacency map on first sighting, then adds one: the count map is the previous one bumped once for that name |
| Extractor.AddCoOccurrences | main.py:53-61 | the paragraph loop leaves the keys unchanged and produces exactly the summed co-occurrence weights |
| Extractor.AddParagraph | main.py:54-61 | the loops over one paragraph add exactly that paragraph's weights to the graph |
| Extractor.AddRow | main.py:55-61 | the innermost loop pairs the outer name with every position of the paragraph |
| Extractor.Increment | main.py:58-61 | the edge from the first name to the second is created at 1 when absent and otherwise goes up by one, and no other entry changes |
| Extractor.PairStep | main.py:56-61 | a pair of equal names changes nothing; a pair of different names adds one to its edge, creating it at 1 |
| Extractor.Example | main.py:20-64 | on a concrete text, a stop word is skipped, an alias counts toward its name, an empty line leaves an empty paragraph, and the counts and the single weight come out as expected |

## Left out

- The segmenter (`main.py:18`, `main.py:31`) is an external engine. Each line of text is given as the sequence of words it would produce, and part-of-speech tags are not modelled.
- Opening and reading files and their encodings (`main.py:11-16`, `main.py:29`) are I/O. Each loader receives the lines as `readlines()` returns them, and the text arrives as word sequences.
- `export_gephi` (`main.py:67-79`) writes CSV files and is not part of this model.
- `export_ECharts` (`main.py:82-124`) does floating-point normalisation and rendering through a charting library. It is not part of this model.
- The `__main__` block (`main.py:127-135`) only wires fixed paths and is not part of this model.
- Python dictionaries keep insertion order; Dafny maps do not. The order in which names and edges were first inserted is not modelled. It affects only the order of the exported output.
- `Text.IsSpace` lists the characters `str.isspace` accepts as a fixed set. It does not consult a Unicode database.
- Extract: `main.py` reports an unreadable or undecodable text file as an I/O error. That path is part of the left-out file reading.
