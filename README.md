# word2vec data preparation in Dafny

This project models the two data-preparation routines of the TensorFlow word2vec
tutorial script `word2vec.py` and proves what they promise.

- **`build_dataset(words, n_words)`** (`vocabulary.dfy`, module `Vocabulary`):
  - seeds the `count` list with `UNK`;
  - appends the `n_words - 1` most common symbols of the corpus;
  - numbers the keys 0, 1, 2, … in that order;
  - encodes the corpus as ids, with 0 for every symbol outside the table;
  - writes the number of such symbols back into `count[0]`;
  - inverts the dictionary.

  The model is a method built from the same loops:
  - `NumberKeys` fills the dictionary;
  - `Encode` builds `data` and `unk_count`;
  - `Reverse` builds `reversed_dictionary`.

  The method is proved against three specification functions: `CountTable` (the final
  `count`), `Id` (the id of a symbol) and `UnknownCount`. The lemmas beside them state
  the vocabulary's properties:
  - the table has at most `max(n_words, 1)` rows (`UNK` is there even when `n_words <= 0`);
  - the kept symbols are distinct, with positive, non-increasing frequencies;
  - id 0 is exactly "not kept";
  - the frequencies add up to the corpus length;
  - the reversed dictionary is the inverse of the dictionary and has the same size.

- **`generate_batch(batch_size, num_skips, skip_window)`** with its global cursor
  `data_index` (`skipgram.dfy`, module `SkipGram`):
  - The class `BatchGenerator` holds the encoded corpus `data` and the cursor
    `dataIndex`.
  - `GenerateBatch` does three things:
    - it checks the arguments in the source's order, and also covers the failures that
      follow when the window is wider than the corpus;
    - it allocates the `batch` array and the `batch_size` x 1 `labels` matrix;
    - it slides a window of `span = 2 * skip_window + 1` words over the corpus,
      wrapping back to its start.
  - The deque `buffer` is a local sequence. `Extend` gives its contents after
    `extend`/`append`, under the `maxlen` bound.
  - Each call is proved against `Pairs`: the (centre, context) pairs of the windows
    starting at `FirstStart(data_index)`, sliding by `NextStart`.
  - The lemmas show four things:
    - pair `g * num_skips + j` is the centre of window `g` with its `j`-th drawn
      context word;
    - every pair is a skip-gram of the corpus;
    - window starts cycle through `(s0 + g) % (len(data) - span + 1)`;
    - two consecutive calls resume where the first stopped, so windows are neither
      skipped nor repeated.

`collections.Counter(words).most_common(k)` and `random.sample(context_words, num_skips)`
are library calls whose results enter the model as parameters:
- `ranked` is constrained by `IsMostCommon`: exact counts, a higher count first, equal
  counts in order of first occurrence, truncated to `k`. `MostCommonExists` shows such a
  list always exists.
- `samples` is constrained by `AreSamples`: per window, `num_skips` distinct context
  offsets. `SamplesExist` shows such draws always exist.

## Model

| member | source | states |
|---|---|---|
| `Vocabulary.Occurrences` | word2vec.py:44 | `Counter(words)[s]`: how often `s` occurs, never more than the corpus length |
| `Vocabulary.IsMostCommon` | word2vec.py:44 | definition of the possible results of `Counter(words).most_common(k)`: `min(max(k, 0), number of distinct symbols)` symbols with their exact counts, a higher count first, equal counts in order of first occurrence, each ranked above every symbol left out |
| `Vocabulary.OccursIffPresent` | word2vec.py:44 | a symbol's `Counter` count is positive exactly when it occurs in the corpus |
| `Vocabulary.MostCommonOrder` | word2vec.py:44 | the symbols `most_common` keeps are distinct, with positive, non-increasing counts, and no left-out symbol occurs more often than a kept one |
| `Vocabulary.SymbolsRanked` | word2vec.py:44 | proof helper: of two different corpus symbols one ranks above the other in `most_common` order, their first occurrences being different |
| `Vocabulary.BestSymbol` | word2vec.py:44 | proof helper: a non-empty set of corpus symbols has one that ranks above all the others |
| `Vocabulary.MostCommonValue` | word2vec.py:44 | for every corpus and every `k`, the list built by repeatedly appending the best symbol not yet kept satisfies `IsMostCommon` |
| `Vocabulary.MostCommonExists` | word2vec.py:44 | every corpus and every `k` have a `most_common(k)` result, so `BuildDataset` can be called on every corpus and every `n_words` |
| `Vocabulary.Id` | word2vec.py:45-51 | the id of a symbol is one plus the position of its first occurrence among the kept symbols, or 0 when it is not kept; it never exceeds the number of kept symbols |
| `Vocabulary.UnknownCount` | word2vec.py:49-53 | definition of the final `unk_count`: the number of corpus positions whose symbol is not kept, at most the corpus length |
| `Vocabulary.CountTable` | word2vec.py:43-55 | definition of the final `count`: `UNK` with the number of unknown positions, then the rows of `most_common(n_words - 1)` |
| `Vocabulary.CountTableOrdered` | word2vec.py:43-44 | `count` has `UNK` first and at most `max(n_words, 1)` rows; the other rows are the kept symbols with positive, non-increasing frequencies; no key appears twice |
| `Vocabulary.CountTableTotal` | word2vec.py:49-55 | the frequencies in the final `count` add up to the length of the corpus |
| `Vocabulary.EveryWordCounted` | word2vec.py:49-55 | every corpus position is counted once, either as unknown or under the one kept symbol it equals |
| `Vocabulary.RankedTotal` | word2vec.py:44 | the frequencies of the appended rows add up to the occurrences of the kept symbols |
| `Vocabulary.UnknownIsLeftOut` | word2vec.py:50-53 | a symbol gets id 0 exactly when it is not kept, and a left-out corpus symbol is no more frequent than any kept symbol |
| `Vocabulary.IdNamesSymbol` | word2vec.py:43-47 | the row of `count` at a symbol's id is that symbol when it is kept and `UNK` otherwise |
| `Vocabulary.LookupIsId` | word2vec.py:45-51 | in a dictionary numbered in `count` order, `UNK` is 0, the symbol keys are exactly the kept symbols, and `dictionary.get(word, 0)` is the symbol's id |
| `Vocabulary.ZerosAreUnknowns` | word2vec.py:49-54 | when id 0 marks exactly the unkept positions, the zeros of `data` are the unknown positions of the corpus |
| `Vocabulary.IdKeyedSize` | word2vec.py:56 | proof helper: a map keyed by exactly the ids below `n` has `n` entries; the size of `reversed_dictionary` is stated by `Reverse` |
| `Vocabulary.NumberedInOrder` | word2vec.py:45-47 | definition of the dictionary the numbering loop leaves: every key of `count` maps to its position in `count`, and there is no other key |
| `Vocabulary.NumberKeys` | word2vec.py:45-47 | each key of `count` gets the number of keys inserted before it, and the dictionary has no other key |
| `Vocabulary.Encode` | word2vec.py:48-54 | `data` has one entry per word, equal to `dictionary.get(word, 0)`, and `unk_count` is the number of zeros in `data` |
| `Vocabulary.KeysDistinct` | word2vec.py:43-44 | the keys of `count` as first built are `UNK` followed by the kept symbols, none twice |
| `Vocabulary.EncodingIsId` | word2vec.py:48-54 | the encoded corpus holds each word's id, and its zeros are the unknown positions |
| `Vocabulary.SetUnknownCount` | word2vec.py:55 | writing `unk_count` into `count[0]` sets UNK's frequency and changes no key |
| `Vocabulary.Reverse` | word2vec.py:56 | `reversed_dictionary` maps exactly the ids `0 .. len(count)-1` back to their keys; it inverts the dictionary and has the same size |
| `Vocabulary.BuildDataset` | word2vec.py:42-57 | `count` is `UNK` with the number of unknown words, then `most_common(n_words - 1)`; the dictionary numbers `count` in order; `data[i]` is the id of `words[i]`; `reversed_dictionary` is the inverse of the dictionary, of the same size |
| `SkipGram.ArgumentError` | word2vec.py:70-71 | a call passes its checks exactly when `num_skips > 0`, `batch_size % num_skips == 0` and `num_skips <= 2 * skip_window`; `num_skips == 0` gives the ZeroDivisionError of `batch_size % num_skips`, checked first |
| `SkipGram.ShortCorpusError` | word2vec.py:76-92 | definition of what a call with passing arguments raises when the window is wider than the corpus: IndexError in the first iteration when `batch_size > 0`, otherwise ZeroDivisionError from `% len(data)` on an empty corpus, and nothing on a non-empty one |
| `SkipGram.ContextOffsets` | word2vec.py:81 | `context_words` holds exactly the positions below `span` other than `skip_window`, in increasing order, `span - 1` of them |
| `SkipGram.AdmissibleArguments` | word2vec.py:70-71 | arguments that pass the checks split the batch into whole groups of `num_skips`, and there are at least `num_skips` context positions to sample from |
| `SkipGram.IsSample` | word2vec.py:82 | definition of a possible value of `random.sample(population, k)`: `k` distinct members of the population |
| `SkipGram.AreSamples` | word2vec.py:80-82 | definition of the draws of one call: one `random.sample(context_words, num_skips)` per window |
| `SkipGram.SamplesExist` | word2vec.py:81-82 | for arguments that pass the checks, some draws of `random.sample` satisfy the sampling contract |
| `SkipGram.SamplesInWindow` | word2vec.py:81-82 | every drawn offset is a position of the window, and each draw has `num_skips` offsets |
| `SkipGram.FirstStart` | word2vec.py:76-77 | the first window fits in the corpus, and it starts at `data_index` whenever a whole window fits there |
| `SkipGram.NextStart` | word2vec.py:86-91 | the window slides one word on, or wraps to the start of the corpus when it reaches the end; the next window fits in the corpus |
| `SkipGram.StartAfter` | word2vec.py:86-91 | every window the loop visits fits in the corpus |
| `SkipGram.StartAfterIsModular` | word2vec.py:86-91 | after `g` slides from `s0`, the window starts at `(s0 + g) % (len(data) - span + 1)` |
| `SkipGram.StartAfterCompose` | word2vec.py:86-91 | sliding `a` times and then `b` times is sliding `a + b` times |
| `SkipGram.Extend` | word2vec.py:75-90 | `deque(maxlen=span)` after `extend`/`append`: the newest elements of the old contents followed by the new ones, all of them when they fit and otherwise exactly `maxlen` |
| `SkipGram.SlideWindow` | word2vec.py:89-91 | appending the next word to a full deque moves the window one word on |
| `SkipGram.RefillWindow` | word2vec.py:86-88 | extending the deque by `data[0:span]` replaces its contents with the first window |
| `SkipGram.GroupPairs` | word2vec.py:83-85 | definition of the pairs of one window: its centre word paired with the word at each drawn offset, in draw order |
| `SkipGram.Pairs` | word2vec.py:80-85 | definition of the contents of `batch` and `labels`: for each window from the first start on, sliding once per group, the centre word paired with the word at each drawn offset |
| `SkipGram.PairAt` | word2vec.py:80-85 | a call yields `num_skips` pairs per window; entry `i * num_skips + j` is the centre of window `i` with its `j`-th drawn context word |
| `SkipGram.PairAfterPrefix` | word2vec.py:80-85 | the pairs of window `g` follow the pairs of the windows before it |
| `SkipGram.PairsSnoc` | word2vec.py:80-85 | the pairs of the first `i + 1` windows are those of the first `i` followed by those of window `i` |
| `SkipGram.PairsLength` | word2vec.py:72-73 | with `num_skips` draws per window, a call yields `num_skips` pairs per window |
| `SkipGram.IsSkipGram` | word2vec.py:81-85 | definition of a skip-gram pair of the corpus: the words at two distinct positions at most `skip_window` apart |
| `SkipGram.PairsAreSkipGrams` | word2vec.py:81-85 | every pair is two words of the corpus at distinct positions at most `skip_window` apart |
| `SkipGram.BatchPairsAreSkipGrams` | word2vec.py:80-85 | with valid `random.sample` draws, every (batch, label) pair of a call is two corpus words at distinct positions at most `skip_window` apart, so every value written is an element of `data` |
| `SkipGram.PairsCompose` | word2vec.py:92 | the cursor left by one call makes the next call resume at the first unused window: two calls together yield the pairs of one call over both calls' draws |
| `SkipGram.PairsAppend` | word2vec.py:80-91 | the pairs of draws joined end to end are the pairs of the first draws followed by those of the second draws, from the window the first ones end at |
| `SkipGram.InWindowConcat` | word2vec.py:81-82 | draws joined end to end stay within the window |
| `SkipGram.InWindowPrefix` | word2vec.py:81-82 | a prefix of the draws stays within the window |
| `SkipGram.BatchGenerator.constructor` | word2vec.py:67 | the generator starts with `data_index = 0` over the given corpus |
| `SkipGram.BatchGenerator.GenerateBatch` | word2vec.py:68-93 | failing arguments raise the matching error and leave `data_index` unchanged; with passing arguments and a corpus shorter than the window, the call fails as `ShortCorpusError` says with `data_index == span`, or returns empty arrays with `data_index == 0`; otherwise fresh `batch` and `labels` of `batch_size` rows hold exactly the pairs of the windows from `FirstStart(data_index)` on, and `data_index` becomes the start of the first unused window, inside the corpus |
| `SkipGram.BatchGenerator.FillBatch` | word2vec.py:78-91 | after `batch_size // num_skips` iterations, the arrays hold all the pairs, and the cursor sits one window past the last start |
| `SkipGram.BatchGenerator.Step` | word2vec.py:81-91 | one iteration writes the pairs of the current window after the pairs already written, and slides the window and the cursor once |
| `SkipGram.BatchGenerator.WriteGroup` | word2vec.py:83-85 | the inner loop writes the centre word and the drawn context words of the window into the next `num_skips` rows, keeping the rows before |
| `SkipGram.BatchGenerator.Slide` | word2vec.py:86-91 | the deque and the cursor move to the next window start, wrapping to `data[0:span]` at the end of the corpus |
| `SkipGram.NextGroup` | word2vec.py:81-85 | the pairs read off the deque for window `i` are exactly the pairs of window `i` in the corpus |
| `SkipGram.GroupFromBuffer` | word2vec.py:84-85 | indexing the deque that holds a window is indexing the corpus at the window's start |
| `SkipGram.GroupFits` | word2vec.py:84-85 | proof helper: an arithmetic fact putting group `i`'s rows `i * num_skips` to `(i + 1) * num_skips - 1` inside the batch; the filled rows are stated by `FillBatch` and `PairAt` |

## Left out

- `read_data` and the module-level reading of the corpus file (word2vec.py:30-37): file I/O. The corpus is a parameter.
- The TensorFlow graph, NCE loss, optimizer, training loop, similarity reports, t-SNE and plotting (word2vec.py:100-212): floating-point numerics inside foreign libraries, and image output.
- `np.random.choice` for the validation examples: randomness used only for diagnostics.
- Every `print`: console output.
- `collections.Counter(...).most_common` and `random.sample`: library calls. Their results are parameters constrained by `IsMostCommon` and `AreSamples`. Which valid draw `random.sample` makes is not modelled.
- Vocabulary.BuildDataset: the dictionary key type `Token` keeps `UNK` apart from every corpus symbol. In the script the corpus symbols are single characters, so the three-letter `'UNK'` cannot collide with them. A corpus that did contain `'UNK'` would have that key overwritten, and this case is not modelled.
- Vocabulary.Reverse: the model iterates `count` in order. The script iterates the dictionary's values and keys, which Python yields in insertion order, the same order.
- SkipGram.BatchGenerator.GenerateBatch: the assertion failures, the division by zero for `num_skips == 0`, and the IndexError or ZeroDivisionError on a corpus shorter than the window are returned as a `Failed` outcome rather than raised as exceptions. In the IndexError case the script may have written some rows of its local arrays; the model allocates them as the script does at lines 72-73, but writes nothing to them and returns neither.
- SkipGram.BatchGenerator.GenerateBatch: `batch_size`, `num_skips` and `skip_window` are natural numbers; negative arguments are not modelled.
- SkipGram.BatchGenerator.GenerateBatch: the `np.int32` element type of `batch` and `labels` is modelled as unbounded integers. The ids stored are below the vocabulary size (5000), so no value is truncated.
- The deque object: `buffer` is modelled as a sequence value, its contents after `extend`/`append` given by `Extend`. A `collections.deque` object that could be aliased is not modelled.
