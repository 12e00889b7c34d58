# Probabilistic CKY parser

A model of `CKYParser` in `Parsing/parser.py`. The parser reads the counts of a binarized probabilistic context-free grammar and estimates rule probabilities from them:

- q1, the unary probability, with a `_RARE_` fallback for rare and unseen words;
- q2, the binary probability.

It then fills the CKY chart `pi` and the backpointer table `bp` of a sentence, span length by span length. It rebuilds the most probable tree of the root symbol `SBARQ` as a nested JSON array.

Modules:

- `Grammar`: the four count dictionaries as one value, `WellFormed` and `Bounded`, and q1 and q2 as exact ratios `count / total`.
- `Counts`: the records `load` reads, already split into fields. The accumulation it performs is a fold, `TallyFrom`, proved against an independent sum, `Total`.
- `Chart`: the specification of every chart cell, `Best`.
  - A one-word span holds q1.
  - A longer span holds the running maximum over every binary rule, in the order the rules are enumerated, and every split point. It is replaced only by a strictly greater candidate.
  - The imperative fill (`FillChart`, `FillCell`, `ScanAllRules`, `ScanRule`, `DiagonalCell`) is proved to leave exactly those entries in `pi` and `bp`.
- `Trees`: the tree `getJson` rebuilds from the backpointers (`Rebuild`), its JSON text (`Render`, `GetJson`), and what the chart guarantees about it:
  - it spans exactly the words;
  - it has the stored probability;
  - no tree of the same root over the same words is more probable.
- `Parser`: the `CKYParser` class. Its four dictionaries are fields that `Load` updates line by line. `Parse` fills the chart and rebuilds the root's tree.
- `Tokens`: `sentence_iterator`'s whitespace split of each line.

Edge cases, as the code handles them:

- **Zero or missing nonterminal total.** q1 and q2 divide by `nonterm[sym]` with no guard. A missing total raises `KeyError` and a zero total divides by zero, so `WellFormed` is a precondition. A guard returning 0 is not modelled.
- **Empty sentence.** `parse` indexes `pi[0]` at line 101, which raises `IndexError`, so a non-empty sentence is a precondition.
- **Unparseable sentence.** When the root has no backpointer, `getJson` raises `KeyError` at line 79, and `Parse` returns `None` for the tree and the JSON. A one-word sentence always gets the leaf `["SBARQ", "word"]`, whatever its probability.

## Model

| member | source | states |
|---|---|---|
| Grammar.Ratio | Parsing/parser.py:62 | `1.0 * count / total` is non-negative, positive exactly when the count is, and at most 1 exactly when the count is at most the total |
| Grammar.Q1 | Parsing/parser.py:60-68 | q1 is never negative; Q1Exact and Q1Fallback give its value |
| Grammar.Q2 | Parsing/parser.py:70-74 | q2 is never negative; Q2Lookup gives its value |
| Grammar.Q1Exact | Parsing/parser.py:61-62 | an existing exact unary rule gives `unary[(sym, word)] / nonterm[sym]`, even for a rare word |
| Grammar.Q1Fallback | Parsing/parser.py:63-68 | without an exact rule, q1 is `unary[(sym, "_RARE_")] / nonterm[sym]` exactly when the word is absent or counted fewer than 5 times and the `_RARE_` rule exists, and 0 otherwise |
| Grammar.Q1Positive | Parsing/parser.py:60-68 | q1 is positive iff the rule it reads, exact or `_RARE_`, has a positive count |
| Grammar.Q2Lookup | Parsing/parser.py:70-74 | q2 is `binary[(sym, y1, y2)] / nonterm[sym]` when the rule exists, else 0 |
| Grammar.Q1Bounded | Parsing/parser.py:60-68 | with every rule count at most its nonterminal total, q1 lies in [0, 1] |
| Grammar.Q2Bounded | Parsing/parser.py:70-74 | with every rule count at most its nonterminal total, q2 lies in [0, 1] |
| Counts.TallyFrom | Parsing/parser.py:30-56 | the accumulation over a sequence of lines only adds keys, never removes one; TallyIsTotal gives each value |
| Counts.AddTo | Parsing/parser.py:36-56 | one line's `setdefault(key, 0)` then `+= count`: the key is present afterwards with its old count, or 0, plus the line's count; a line without a key changes nothing; every other key keeps its count |
| Counts.TallyIsTotal | Parsing/parser.py:30-56 | after the accumulation, a key is present iff it was before or some line carries it, and its count is the old count plus the sum of the counts of all lines with that key |
| Counts.TotalSnoc | Parsing/parser.py:30-56 | one more line adds its count to the sum of its own key only |
| Counts.TallyNext | Parsing/parser.py:36-46 | taking one more line into the accumulation is `setdefault(key, 0)` then `+= count` under that line's key |
| Counts.UnknownTagIgnored | Parsing/parser.py:35-46 | a line whose tag is none of NONTERMINAL, UNARYRULE and BINARYRULE leaves the three rule tables unchanged |
| Parser.CKYParser.constructor | Parsing/parser.py:20-26 | a new parser holds exactly the accumulated counts of the two record sequences, starting from empty dictionaries |
| Parser.CKYParser.Load | Parsing/parser.py:28-57 | each table becomes its old contents with every matching line's count added, in line order |
| Parser.CKYParser.AddCountLine | Parsing/parser.py:31-46 | one count line adds its count to the table its tag names, under its key, and leaves the other tables unchanged |
| Parser.CKYParser.AddWordLine | Parsing/parser.py:51-56 | one word line adds its count to the word's frequency and leaves the three rule tables unchanged |
| Chart.Splits | Parsing/parser.py:96 | the split points of a span are `i, i+1, ..., j-1` in increasing order |
| Chart.Cands | Parsing/parser.py:95-96 | a span with no split point (`j <= i`) has no candidates; CandsSound and CandsComplete give its members; the rule-then-split order comes from the body, and ScanAllRules proves the loops follow it |
| Chart.CandsSound | Parsing/parser.py:95-96 | every candidate tried for `sym` over `i..j` is a listed rule of `sym` with a split `i <= s < j` |
| Chart.CandsComplete | Parsing/parser.py:95-96 | every listed rule of `sym` with every split `i <= s < j` is tried |
| Chart.Step | Parsing/parser.py:97-99 | one comparison of the loop: the result is at least the old entry and the candidate's value; a value not strictly greater (a tie included) keeps the old entry, and any change replaces it by the candidate's value and split |
| Chart.Scan | Parsing/parser.py:97-99 | the running maximum is non-negative, has a backpointer iff it is positive, and is at most 1 when every value is |
| Chart.ScanFirstMax | Parsing/parser.py:97-99 | the running maximum bounds every value, and its backpointer is the first candidate in order that attains it |
| Chart.Best | Parsing/parser.py:87-99 | every chart entry is non-negative, and at most 1 when the grammar's counts are bounded |
| Chart.CandidateValue | Parsing/parser.py:97 | a candidate's product `q2 * pi[i][s][y1] * pi[s+1][j][y2]` is non-negative, and at most 1 when the counts are bounded |
| Chart.Valued | Parsing/parser.py:97 | each candidate is paired with a value that is non-negative, and at most 1 when the counts are bounded |
| Chart.BestIsMaximum | Parsing/parser.py:92-99 | over two or more words, the entry is the maximum candidate value over all rules of `sym` and splits of the span, 0 when none is positive, and its backpointer names a rule of `sym`, a split inside the span and a candidate that attains it |
| Chart.BestIsFirstMaximum | Parsing/parser.py:95-99 | the backpointer is the first candidate, in rule order then split order, whose value is the maximum; every earlier candidate is strictly smaller |
| Chart.DiagonalCell | Parsing/parser.py:87-90 | the diagonal cell of a word holds exactly the nonterminals, each with q1 of the word |
| Chart.DiagonalIsBest | Parsing/parser.py:87-90 | the diagonal cell holds the specified one-word entries and no backpointers |
| Chart.ChartValuedIsValued | Parsing/parser.py:97 | once the shorter spans hold their specified entries, the products read from the chart are the specified candidate values |
| Chart.ScanSplitsIsScan | Parsing/parser.py:96-99 | running the maximum on over one rule's splits is the maximum over the earlier candidates followed by those splits |
| Chart.ScanRule | Parsing/parser.py:96-99 | the split loop of one rule continues the running maximum of its left-hand symbol over every split in order, and leaves every other symbol's entry unchanged |
| Chart.ScanAllRules | Parsing/parser.py:95-99 | after the rule loop, every symbol holds the running maximum over all its candidates in enumeration order |
| Chart.FillCell | Parsing/parser.py:94-99 | once every shorter span is final, the cell over `i..j` gets each symbol's specified probability and backpointer |
| Chart.Store | Parsing/parser.py:98-99 | the assignment to one cell of the nested lists changes that cell only |
| Chart.FillChart | Parsing/parser.py:85-99 | after the loops, every cell over `a <= b` of `pi` and `bp` holds its specified probability and backpointer |
| Trees.Rebuild | Parsing/parser.py:76-80 | the rebuilt tree, when there is one, has the requested symbol at its root |
| Trees.RebuildLeaves | Parsing/parser.py:76-80 | the leaves of the rebuilt tree, read left to right, are exactly `sentence[st..ed]` |
| Trees.NodeLeaves | Parsing/parser.py:79-80 | a node whose halves were rebuilt over `st..m` and `m+1..ed` has the words `st..ed` as its leaves |
| Trees.Render | Parsing/parser.py:76-80 | the text of a tree starts with `[` and ends with `]`; symbols and words are copied unescaped, so the text is JSON only when they hold no `"` or `\` |
| Trees.GetJson | Parsing/parser.py:76-78 | a one-token span gives `["sym", "word"]` |
| Trees.FilledChart | Parsing/parser.py:85-99 | the filled chart is consistent and maximal: every backpointer splits its span with `i <= s < j`, every backpointer reproduces its probability from two positive halves, and no rule or split beats a stored entry |
| Trees.BackInRange | Parsing/parser.py:99 | every stored split satisfies `i <= s < j` |
| Trees.BestBackIffPositive | Parsing/parser.py:97-99 | a span has a backpointer for a symbol exactly when its probability is positive |
| Trees.BestHalves | Parsing/parser.py:97-99 | the stored backpointer splits the span, and the stored probability is its q2 times the entries of its two halves |
| Trees.RebuildExists | Parsing/parser.py:77-80 | `getJson` finds a tree exactly for a one-word span or a positive probability |
| Trees.RebuildFound | Parsing/parser.py:79-80 | from a positive entry, every backpointer followed leads to another positive entry, so the rebuild never misses a key |
| Trees.RebuildProb | Parsing/parser.py:76-80 | the rebuilt tree's probability, q1 at the leaves times q2 at the nodes, is the chart entry of its span |
| Trees.RebuildFollows | Parsing/parser.py:79-80 | the tree rebuilt from the filled backpointer table splits at the chart's first maximum for its symbol at every node, not only at its root |
| Trees.RebuildStored | Parsing/parser.py:79-80 | every node of the rebuilt tree, with its span, symbol and split, is a backpointer stored in the table for that span and symbol |
| Trees.RootTree | Parsing/parser.py:101-102 | the root's tree spans the whole sentence, has the root's entry as its probability, splits where the root's backpointer says, and, from the specified backpointers, follows the first maximum at every node |
| Trees.Optimal | Parsing/parser.py:92-99 | when the rules enumerate every binary rule, no tree over `w[i..j]` has a higher probability than the chart entry of its root symbol |
| Trees.OptimalRoot | Parsing/parser.py:101-102 | no tree of the root over the whole sentence is more probable than the root's entry |
| Parser.CKYParser.Parse | Parsing/parser.py:83-102 | `parse` computes the root's entry over the whole sentence. The tree exists iff the sentence has one word or that entry is positive. The tree spans the sentence, has that probability, splits at the first maximum at its root and at every node below it, no tree of the root is more probable, and the JSON is the tree's rendering |
| Tokens.Split | Parsing/parser.py:14-16 | `l.split()` yields non-empty tokens without whitespace that together hold exactly the line's non-whitespace characters, in order; SplitLayout and LayoutOf fix where each token ends |
| Tokens.SplitLayout | Parsing/parser.py:14-16 | tokens separated by non-empty whitespace runs, with any whitespace (a trailing newline included) before the first and after the last, split back into exactly those tokens |
| Tokens.LayoutOf | Parsing/parser.py:14-16 | every line is such a layout of tokens and whitespace runs, and those tokens are exactly what the line splits into |

## Left out

- File handling (lines 25, 48-49, 57, 129-135) is not modelled: `load` takes the two files' lines already split into records, and `parse` takes the sentence as a token sequence.
- Malformed input lines are not modelled: a non-numeric or negative count (`int()` at lines 32 and 54), or a line with too few fields. Counts are `nat`. The record types always carry the tag and symbol fields. `Splittable` is a precondition of `Load` for the words a UNARYRULE or BINARYRULE line reads.
- `replaceRare` (lines 105-124) is not modelled: it is an offline rewrite of one file into another.
- The `print` of the root probability (line 101) and the `__main__` driver (lines 127-135) are not modelled. `Parse` returns that probability.
- Floating point: probabilities are exact reals, so the rounding of `1.0 * ... / ...` and of the products is not modelled.
- JSON escaping: `Render` concatenates raw symbol and word text, as `getJson` does, and quotes inside them are not escaped.
- Hash order of `dict.iteritems()` (line 95) is not modelled. The rules are a sequence parameter that lists the keys of `binary` in some order, and ties are broken by that order.
- Parser.CKYParser.Parse returns the rebuilt tree and the probability beside the JSON text that the source returns, and it reports the `KeyError` of a missing backpointer as `None`.
- Parser.CKYParser.Parse requires `WellFormed` for every sentence, although a one-word sentence never calls q2 and the diagonal calls q1 only for nonterminals.
- `pi` and `bp` are `seq<seq<map>>` values that the fill replaces cell by cell (`Store`), not Python lists updated in place. They are created inside `parse` and never shared, so no aliasing is lost.
- The cell over `i..j` is built in local maps and stored once, whereas the source updates `pi[i][j]` in place. The loop reads only strictly shorter spans, so the values are the same.
- The default-value reads of `pi` (lines 97-98) insert the key with 0.0 into the defaultdict. The model reads an absent key as 0 and does not insert it, so a cell's key set can differ from the source's, but no value read differs.
- Tokens.Split splits on the six ASCII whitespace characters of a Python 2 byte string; Unicode whitespace is not modelled.
