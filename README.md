# emqu core, modelled in Dafny

emqu is a command-line tool with three commands. `chunk` splits text files
into token-bounded chunks and writes each chunk to its own file, under a
header that gives the lines it covers. `embed` turns files into labeled
documents, embeds them with a pretrained model, and stores the
(label, vector) pairs. `query` embeds a query text and prints the stored
documents most similar to it. This project models the logic of those
commands that belongs to the tool itself:

- `chunking.dfy` (module `Chunking`):
  - the line count of a chunk, which is Rust's `str::lines().count()`, with a reference split into lines;
  - the running-accumulator `scan` that gives every chunk a 1-based inclusive line range;
  - decimal formatting of the numbers;
  - the chunk file names `<base>-<i+1>.<ext>` and the headers `From <base>, lines <start> - <end>` followed by a blank line.
- `embedding.dfy` (module `Embedding`):
  - Rust's `{:?}` quoting of a file name, with a reader that undoes it;
  - the document label `From: "<name>"` + newline + content;
  - the loop that builds one document per matched file and aborts on the first unreadable entry;
  - the `zip` of documents with the model's vectors.
- `ranking.dfy` (module `Ranking`):
  - scoring every stored record against the query vector;
  - the stable descending `sort_by`, as an in-place insertion sort on an array;
  - the failure of its `partial_cmp(..).unwrap()` comparator on NaN;
  - `take(top_k)`;
  - the whole query step after the store is read.
- `prelude.dfy` (module `Prelude`): the error kinds, `Result`, `Option` and `Min`.

The embedding model is an opaque batch function `seq<string> -> Option<seq<V>>`
over an opaque vector type `V`. The similarity function is an opaque
`(V, V) -> Score`. A `Score` is a real number or NaN.

Points where the code's behaviour is easy to misread, and which the model follows:

- The label writes the file name with Rust's Debug formatting, so it is quoted and escaped: `From: "a.txt"`, with double quotes around the name.
- NaN scores make the query panic when two or more records are scored. They are not sorted last or unpredictably.
- There is no dimension-mismatch error: the code never compares vector lengths.
- The code does not ensure that the chunks put back together give the file, or that the last range ends at the file's line count. Neither is claimed.

The stable sort is specified by `IsRanking(s, t)`. It holds when `t` is in
non-increasing score order, is a permutation of `s`, and keeps, for every
score value, the records with that score in their order in `s`.
`RankingUnique` shows that this fixes `t` completely.

## Model

| member | source | states |
|---|---|---|
| `Chunking.LineCount` | src/main.rs:105 | a chunk has at most one line per character, and no lines exactly when it is empty |
| `Chunking.LineCountIsNumberOfLines` | src/main.rs:105 | the chunk's line count (newlines, plus one for a non-empty unterminated tail) equals the number of lines of the reference split |
| `Chunking.SplitLinesConcat` | src/main.rs:105 | the lines counted, put back together, are exactly the chunk text |
| `Chunking.SplitLinesShape` | src/main.rs:105 | every counted line is non-empty with a newline only at its end, and every line but the last ends in a newline |
| `Chunking.LineRanges` | src/main.rs:102-110 | one range per chunk in chunk order; the first starts at line 1; chunk i ends at the total line count of chunks 0..i; end - start + 1 is the chunk's own line count; chunk i+1 starts right after chunk i ends |
| `Chunking.Decimal` | src/main.rs:113-114 | a number is written as a non-empty string of decimal digits with no leading zero |
| `Chunking.DecimalRoundTrip` | src/main.rs:113-114 | reading the decimal text back gives the number |
| `Chunking.DecimalInjective` | src/main.rs:113-114 | different numbers are written differently |
| `Chunking.ChunkFileNameShape` | src/main.rs:114 | a chunk file name is the base name and a dash, then the ordinal in decimal digits that read back as the ordinal, then a dot and the extension |
| `Chunking.ChunkHeaderShape` | src/main.rs:113 | a header starts with `From <base>, lines ` and ends with a blank line |
| `Chunking.DecimalPrefixInjective` | src/main.rs:113 | a decimal number followed by text that does not start with a digit determines both the number and the text |
| `Chunking.ChunkHeaderInjective` | src/main.rs:113 | the header of a chunk file determines the start and end lines it announces |
| `Chunking.ChunkFileNamesDistinct` | src/main.rs:114 | two chunks of one document never get the same file name `<base>-<n>.<ext>` |
| `Chunking.ChunkDocument` | src/main.rs:112-116 | one file per chunk; file i is `ChunkFileFor` chunk i: named `<base>-<i+1>.<ext>`, holding the header with the range the scan gave chunk i (`RangeOf`), followed by the unchanged chunk text |
| `Embedding.EscapeCharShape` | src/main.rs:132 | Debug formatting writes every character as a non-empty text; a character is left as itself when it is not a control, DEL, a double quote, an apostrophe or a backslash; it is written as two or more characters starting with a backslash exactly when it is one of those; an escape is made of printable ASCII only |
| `Embedding.ReadEscapeChar` | src/main.rs:132 | every backslash escape that Debug formatting writes for an ASCII character (`\0`, `\t`, `\r`, `\n`, `\"`, `\'`, `\\`, and `\u{..}` in lower-case hex for the other controls and DEL) reads back as that character |
| `Embedding.ReadCharOf` | src/main.rs:132 | every written character, escaped or not, is read back as itself, consuming exactly its written form, and never starts with the closing quote |
| `Embedding.ReadQuotedCons` | src/main.rs:132 | reading past one escaped character: the reader decodes it and continues with what follows, adding its written length to the length read |
| `Embedding.ReadEncoded` | src/main.rs:132 | the reader takes an escaped name, its closing quote and any following text apart one written character at a time, returning the name and stopping right after the closing quote |
| `Embedding.ReadQuotedRoundTrip` | src/main.rs:132 | a Debug-quoted file name reads back as the same name, whatever follows it |
| `Embedding.QuotedShape` | src/main.rs:132 | the quoted form of a name is its escaped text between two double quotes |
| `Embedding.QuotedReadsBack` | src/main.rs:132 | the quoted form of a name, after its opening quote, reads back as the name, up to and including its closing quote |
| `Embedding.LabelShape` | src/main.rs:132 | a label is `From: "`, the escaped name, the closing quote, a line break and the content, unchanged |
| `Embedding.LabelRoundTrip` | src/main.rs:132 | the label `From: "<name>"` + newline + content parses back into the file name and the content |
| `Embedding.LabelInjective` | src/main.rs:132 | two labels are equal only if file name and content are both equal |
| `Embedding.DocumentsProvenance` | src/main.rs:128-133 | one document per file, in glob order; document i is the label of file i and parses back into file i's name and content |
| `Embedding.DocumentsAppend` | src/main.rs:132 | pushing a file's label extends the documents by exactly that label |
| `Embedding.BuildDocuments` | src/main.rs:128-133 | succeeds iff every entry was matched and read, with the documents of all files in order; otherwise fails with the error of the first bad entry, all earlier entries being readable |
| `Embedding.Zip` | src/main.rs:136-137 | the records are as many as the shorter of documents and vectors, and record i pairs document i with vector i |
| `Embedding.EmbedCommand` | src/main.rs:123-137 | an unreadable entry aborts with the error of the first bad entry, all earlier entries being readable; a model failure aborts; otherwise there are min(files, vectors) records, and record i holds embedding i and exactly the label of file i, which parses back into file i's name and content |
| `Ranking.WithScoreAppend` | src/main.rs:165 | the records of one score in a concatenation are those of the first part followed by those of the second |
| `Ranking.WithScoreMember` | src/main.rs:165 | a record of a score group is a record of the sequence, with that score |
| `Ranking.SwapKeepsTies` | src/main.rs:165 | swapping two neighbours with different scores keeps the order inside every group of equal scores |
| `Ranking.SameHead` | src/main.rs:165 | two descending orders with the same groups of equal scores start with the same record |
| `Ranking.TailTies` | src/main.rs:165 | after a common first record, the rest of two sequences with the same groups of equal scores still have the same groups |
| `Ranking.TiesDetermineOrder` | src/main.rs:165 | two descending orders with the same groups of equal scores are identical |
| `Ranking.TiesTransitive` | src/main.rs:165 | keeping the tie groups of a sequence is transitive across successive rearrangements |
| `Ranking.ComparablePermutation` | src/main.rs:165 | rearranging the records does not change whether the comparator can order them |
| `Ranking.RankingUnique` | src/main.rs:165 | the stable descending sort of a sequence is unique, so ranking is deterministic |
| `Ranking.SwapLastTwo` | src/main.rs:165 | swapping the last two of three records with different scores keeps the records and every group of equal scores |
| `Ranking.OutOfOrderLast` | src/main.rs:165 | three records whose last two are out of score order rank with those two swapped |
| `Ranking.ThreeRecordExample` | src/main.rs:157-167 | records scoring 1, 0 and 0.7 rank as the first, the third, the second, so top-2 is the first and the third |
| `Ranking.ScoreAll` | src/main.rs:157-163 | one scored pair per stored record, in store order, pairing the record's own document with the score of its own vector against the query |
| `Ranking.ComparableScores` | src/main.rs:157-165 | the comparator can order the scored store exactly when it has at most one record or no record scores NaN |
| `Ranking.SortByScore` | src/main.rs:165 | the array is rearranged into the stable descending sort of its old contents: sorted, a permutation, equal scores in original order |
| `Ranking.InsertAt` | src/main.rs:165 | one insertion step extends the sorted prefix by one while keeping the permutation and every group of equal scores, and leaves the records after the inserted one untouched |
| `Ranking.InsertingSwap` | src/main.rs:165 | swapping the inserted record with a lower-scoring left neighbour keeps the rest of the prefix sorted, with the inserted record still above everything after it |
| `Ranking.InsertingDone` | src/main.rs:165 | once the inserted record's left neighbour scores at least as high, the whole prefix is sorted |
| `Ranking.SortedCopy` | src/main.rs:165 | the scored records come back in the stable descending sort, with the same length |
| `Ranking.TopOfRanking` | src/main.rs:167 | the first n records of a ranking are sorted, come from the ranked records, are all of them when n is the whole length, and each scores at least as high as every record left out |
| `Ranking.Rank` | src/main.rs:157-167 | fails exactly when two or more records are scored and one score is NaN; otherwise returns the first min(top_k, n) records of the stable descending sort: sorted, no record more often than in the store, every record left out scoring no higher than any returned, and the whole store when top_k >= n |
| `Ranking.QueryCommand` | src/main.rs:155-167 | a model failure or an empty model output aborts; otherwise, against the first query vector, it fails with the incomparable-scores error exactly when the scores cannot be compared, and else returns the first min(top_k, n) records of the stable descending sort of the scored store, each scoring at least as high as every record left out |

## Left out

- Command-line parsing, progress bars and the final printing of the results with `trim`: interface plumbing.
- Loading the embedding model and running it: a foreign library. The model is an opaque batch function.
- The tokenizer and the text splitter that choose chunk boundaries: foreign code. The chunk list is an input of `Chunking.LineRanges` and `Chunking.ChunkDocument`.
- The floating-point arithmetic of `cosine_similarity`, including `sqrt`: the score is an opaque function. f32 values are modelled as reals plus NaN, so infinities and rounding are not modelled.
- JSON writing and reading of the store: a library round trip the model cannot see.
- Glob expansion, directory creation, file reads and writes: I/O. `Embedding.Entry` stands for each glob result as read.
- The `chunk` command's loop over files: it reads each file and aborts on the first error, leaving earlier chunk files written. `Chunking.ChunkDocument` models one document.
- Taking the file stem, extension and file name of a path, with the `unknown` and `txt` defaults: Rust path semantics. These are given strings.
- Embedding.EscapeChar: ASCII is escaped as Rust's Debug formatting does, but non-ASCII characters that it escapes as `\u{..}` (the non-printable and grapheme-extending ones) are kept unchanged, because Rust's Unicode printability tables are not modelled. Non-UTF-8 file-name bytes, which it writes as `\x..` with upper-case hex digits, are not modelled either, because names are modelled as strings of characters.
- Chunking.LineRanges: the `usize` accumulator is an unbounded natural number, so overflow is not modelled.
