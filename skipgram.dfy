/** Skip-gram training batches drawn from an encoded corpus by a sliding window, and the
    cursor that carries the window from one batch to the next. */
module SkipGram {

  datatype Option<T> = None | Some(value: T)

  /** Why `generate_batch` stops before producing a batch. */
  datatype BatchError =
    | ZeroSkips              // `batch_size % num_skips` divides by zero
    | SkipsDoNotDivideBatch  // `assert batch_size % num_skips == 0` fails
    | TooManySkips           // `assert num_skips <= 2 * skip_window` fails
    | WindowOutsideCorpus    // the window is wider than the corpus: indexing the deque or `data` fails
    | EmptyCorpus            // `% len(data)` divides by zero

  /** A batch of centre words with their context labels (a `batch_size` x 1 matrix), or
      the error raised instead. */
  datatype Outcome =
    | Generated(batch: array<int>, labels: array2<int>)
    | Failed(error: BatchError)

  /** Width of the window: the centre word and `skip_window` words on either side. */
  function Span(skipWindow: nat): nat {
    2 * skipWindow + 1
  }

  /** The checks `generate_batch` makes before touching any state, in the order it makes them. */
  function ArgumentError(batchSize: nat, numSkips: nat, skipWindow: nat): (r: Option<BatchError>)
    ensures r == None <==> numSkips > 0 && batchSize % numSkips == 0 && numSkips <= 2 * skipWindow
    ensures r == Some(ZeroSkips) <==> numSkips == 0
  {
    if numSkips == 0 then Some(ZeroSkips)
    else if batchSize % numSkips != 0 then Some(SkipsDoNotDivideBatch)
    else if numSkips > 2 * skipWindow then Some(TooManySkips)
    else None
  }

  /** What a call whose arguments pass the checks raises when the window is wider than the
      corpus of `n` words: the first iteration indexes past the deque or past `data`, and
      with no iteration the final `% len(data)` fails on an empty corpus. */
  function ShortCorpusError(batchSize: nat, n: nat): Option<BatchError> {
    if batchSize > 0 then Some(WindowOutsideCorpus)
    else if n == 0 then Some(EmptyCorpus)
    else None
  }

  /** `[w for w in range(span) if w != centre]`: the buffer positions other than the centre,
      in increasing order. */
  function ContextOffsets(span: nat, centre: nat): (r: seq<nat>)
    ensures forall x: nat :: x in r <==> x < span && x != centre
    ensures forall i :: 0 <= i < |r| ==> r[i] < span
    ensures forall i, j :: 0 <= i < j < |r| ==> r[i] < r[j]
    ensures |r| == if centre < span then span - 1 else span
  {
    if span == 0 then []
    else
      var r := ContextOffsets(span - 1, centre);
      if span - 1 == centre then r else r + [span - 1]
  }

  /** `s` is a possible value of `random.sample(population, k)`: `k` distinct members of
      the population. */
  predicate IsSample(s: seq<nat>, population: seq<nat>, k: nat) {
    && |s| == k
    && (forall i, j :: 0 <= i < j < |s| ==> s[i] != s[j])
    && (forall i :: 0 <= i < |s| ==> s[i] in population)
  }

  /** One draw of `random.sample(context_words, num_skips)` for each of the `groups`
      centre words of a batch. */
  predicate AreSamples(samples: seq<seq<nat>>, groups: nat, numSkips: nat, skipWindow: nat) {
    && |samples| == groups
    && (forall g :: 0 <= g < groups ==> IsSample(samples[g], ContextOffsets(Span(skipWindow), skipWindow), numSkips))
  }

  /** Every drawn offset is a position of the window. */
  predicate InWindow(samples: seq<seq<nat>>, skipWindow: nat) {
    forall g, j :: 0 <= g < |samples| && 0 <= j < |samples[g]| ==> samples[g][j] < Span(skipWindow)
  }

  /** When the arguments pass the checks, the batch splits into whole groups of `num_skips`
      and `random.sample` has enough context positions to draw from. */
  lemma AdmissibleArguments(batchSize: nat, numSkips: nat, skipWindow: nat)
    requires ArgumentError(batchSize, numSkips, skipWindow) == None
    ensures numSkips > 0 && (batchSize / numSkips) * numSkips == batchSize
    ensures numSkips <= |ContextOffsets(Span(skipWindow), skipWindow)|
  {
  }

  /** Draws the generator can be given exist for all arguments that pass the checks:
      the first `num_skips` context positions, for every group. */
  lemma SamplesExist(batchSize: nat, numSkips: nat, skipWindow: nat)
    requires ArgumentError(batchSize, numSkips, skipWindow) == None
    ensures AreSamples(seq(batchSize / numSkips, _ => ContextOffsets(Span(skipWindow), skipWindow)[..numSkips]),
                       batchSize / numSkips, numSkips, skipWindow)
  {
    var offsets := ContextOffsets(Span(skipWindow), skipWindow);
    var draw := offsets[..numSkips];
    assert forall i :: 0 <= i < |draw| ==> draw[i] == offsets[i];
    assert IsSample(draw, offsets, numSkips);
  }

  /** Where the window starts at the beginning of a call: `data_index`, or 0 when a whole
      window no longer fits after it. */
  function FirstStart(cursor: nat, span: nat, n: nat): (s: nat)
    requires span <= n
    ensures s + span <= n
    ensures cursor + span <= n ==> s == cursor
    ensures cursor + span > n ==> s == 0
  {
    if cursor + span > n then 0 else cursor
  }

  /** Where the window starts after sliding once: one word on, or back to the beginning
      of the corpus once the window has reached its end. */
  function NextStart(s: nat, span: nat, n: nat): (r: nat)
    requires s + span <= n
    ensures r + span <= n
    ensures s + span < n ==> r == s + 1
    ensures s + span == n ==> r == 0
  {
    if s + span == n then 0 else s + 1
  }

  /** Where the window starts after sliding `g` times from `s0`. */
  function StartAfter(s0: nat, g: nat, span: nat, n: nat): (s: nat)
    requires s0 + span <= n
    ensures s + span <= n
    decreases g
  {
    if g == 0 then s0 else NextStart(StartAfter(s0, g - 1, span, n), span, n)
  }

  /** `a % m` is the remainder of any division of `a` into whole multiples of `m`. */
  lemma ModUnique(a: int, m: int, q: int, r: int)
    requires m > 0 && 0 <= r < m && a == q * m + r
    ensures a % m == r
  {
    var d := q - a / m;
    assert a == (a / m) * m + a % m;
    assert d * m == a % m - r;
  }

  /** Counting on by one modulo `m` wraps from `m - 1` to 0. */
  lemma ModNext(x: nat, m: nat)
    requires m > 0
    ensures (x + 1) % m == if x % m == m - 1 then 0 else x % m + 1
  {
    var q := x / m;
    assert x == q * m + x % m;
    if x % m == m - 1 {
      ModUnique(x + 1, m, q + 1, 0);
    } else {
      ModUnique(x + 1, m, q, x % m + 1);
    }
  }

  /** The window visits the `n - span + 1` possible starts cyclically, in order. */
  lemma {:induction false} StartAfterIsModular(s0: nat, g: nat, span: nat, n: nat)
    requires s0 + span <= n
    ensures StartAfter(s0, g, span, n) == (s0 + g) % (n - span + 1)
    decreases g
  {
    var m := n - span + 1;
    if g == 0 {
      ModUnique(s0, m, 0, s0);
    } else {
      StartAfterIsModular(s0, g - 1, span, n);
      ModNext(s0 + g - 1, m);
    }
  }

  /** Sliding `a` times and then `b` times is sliding `a + b` times. */
  lemma {:induction false} StartAfterCompose(s0: nat, a: nat, b: nat, span: nat, n: nat)
    requires s0 + span <= n
    ensures StartAfter(StartAfter(s0, a, span, n), b, span, n) == StartAfter(s0, a + b, span, n)
    decreases b
  {
    if b > 0 {
      StartAfterCompose(s0, a, b - 1, span, n);
    }
  }

  /** The contents of a `collections.deque(maxlen=maxLen)` holding `d` after `extend(xs)`
      (or `append` of a single element): the newest `maxLen` elements. */
  function Extend<T>(d: seq<T>, xs: seq<T>, maxLen: nat): (r: seq<T>)
    ensures |r| <= maxLen && |r| <= |d + xs|
    ensures |r| == maxLen || r == d + xs
    ensures r == (d + xs)[|d + xs| - |r|..]
  {
    var all := d + xs;
    if |all| <= maxLen then all else all[|all| - maxLen..]
  }

  /** Appending the word after a full window to the deque slides the window by one. */
  lemma SlideWindow(corpus: seq<int>, start: nat, span: nat)
    requires start + span < |corpus|
    ensures Extend(corpus[start..start + span], [corpus[start + span]], span) == corpus[start + 1..start + span + 1]
  {
    var all := corpus[start..start + span] + [corpus[start + span]];
    assert all == corpus[start..start + span + 1];
  }

  /** Extending a full deque by a whole window's worth of words replaces its contents. */
  lemma RefillWindow(corpus: seq<int>, start: nat, span: nat)
    requires start + span <= |corpus| && span <= |corpus|
    ensures Extend(corpus[start..start + span], corpus[0..span], span) == corpus[0..span]
  {
    var all := corpus[start..start + span] + corpus[0..span];
    assert all[|all| - span..] == corpus[0..span];
  }

  /** The (centre, context) pairs produced for one position of the window: the centre
      word paired with the word at each drawn offset. */
  function GroupPairs(corpus: seq<int>, start: nat, skipWindow: nat, offsets: seq<nat>): seq<(int, int)>
    requires start + Span(skipWindow) <= |corpus|
    requires forall j :: 0 <= j < |offsets| ==> offsets[j] < Span(skipWindow)
  {
    seq(|offsets|, j requires 0 <= j < |offsets| => (corpus[start + skipWindow], corpus[start + offsets[j]]))
  }

  /** The (batch, label) pairs of a call whose window starts at `s0` and draws `samples`:
      one group per window position, the window sliding once after each group. */
  function Pairs(corpus: seq<int>, skipWindow: nat, s0: nat, samples: seq<seq<nat>>): seq<(int, int)>
    requires s0 + Span(skipWindow) <= |corpus|
    requires InWindow(samples, skipWindow)
    decreases |samples|
  {
    if samples == [] then []
    else
      var g := |samples| - 1;
      Pairs(corpus, skipWindow, s0, samples[..g])
        + GroupPairs(corpus, StartAfter(s0, g, Span(skipWindow), |corpus|), skipWindow, samples[g])
  }

  /** Pair `g * num_skips + j` has the centre of the `g`-th window as its first word and
      the `j`-th drawn context word of that window as its second. */
  lemma PairAt(corpus: seq<int>, skipWindow: nat, s0: nat, samples: seq<seq<nat>>,
                 numSkips: nat, g: nat, j: nat)
    requires s0 + Span(skipWindow) <= |corpus|
    requires InWindow(samples, skipWindow)
    requires forall h :: 0 <= h < |samples| ==> |samples[h]| == numSkips
    requires g < |samples| && j < numSkips
    ensures |Pairs(corpus, skipWindow, s0, samples)| == |samples| * numSkips
    ensures g * numSkips + j < |samples| * numSkips
    ensures var start := StartAfter(s0, g, Span(skipWindow), |corpus|);
      Pairs(corpus, skipWindow, s0, samples)[g * numSkips + j] == (corpus[start + skipWindow], corpus[start + samples[g][j]])
  {
    InWindowPrefix(samples, g, skipWindow);
    PairsLength(corpus, skipWindow, s0, samples[..g], numSkips);
    PairsLength(corpus, skipWindow, s0, samples, numSkips);
    GroupFits(g, |samples|, numSkips);
    PairAfterPrefix(corpus, skipWindow, s0, samples, g, j);
    assert |Pairs(corpus, skipWindow, s0, samples[..g])| + j == g * numSkips + j;
  }

  /** The pairs of window `g` follow the pairs of the windows before it. */
  lemma {:induction false} PairAfterPrefix(corpus: seq<int>, skipWindow: nat, s0: nat, samples: seq<seq<nat>>, g: nat, j: nat)
    requires s0 + Span(skipWindow) <= |corpus|
    requires InWindow(samples, skipWindow)
    requires g < |samples| && j < |samples[g]|
    ensures InWindow(samples[..g], skipWindow)
    ensures var k := |Pairs(corpus, skipWindow, s0, samples[..g])| + j;
      var start := StartAfter(s0, g, Span(skipWindow), |corpus|);
      && k < |Pairs(corpus, skipWindow, s0, samples)|
      && Pairs(corpus, skipWindow, s0, samples)[k] == (corpus[start + skipWindow], corpus[start + samples[g][j]])
    decreases |samples|
  {
    InWindowPrefix(samples, g, skipWindow);
    var last := |samples| - 1;
    var prefix := samples[..last];
    InWindowPrefix(samples, last, skipWindow);
    var all := Pairs(corpus, skipWindow, s0, samples);
    var front := Pairs(corpus, skipWindow, s0, prefix);
    assert all[..|front|] == front;
    if g < last {
      PairAfterPrefix(corpus, skipWindow, s0, prefix, g, j);
      assert prefix[..g] == samples[..g];
    } else {
      assert samples[..g] == prefix;
    }
  }

  /** The pairs of the first `i + 1` windows are those of the first `i` followed by those
      of window `i`. */
  lemma PairsSnoc(corpus: seq<int>, skipWindow: nat, s0: nat, samples: seq<seq<nat>>, i: nat)
    requires s0 + Span(skipWindow) <= |corpus|
    requires InWindow(samples, skipWindow) && i < |samples|
    ensures InWindow(samples[..i], skipWindow) && InWindow(samples[..i + 1], skipWindow)
    ensures Pairs(corpus, skipWindow, s0, samples[..i + 1])
            == Pairs(corpus, skipWindow, s0, samples[..i])
               + GroupPairs(corpus, StartAfter(s0, i, Span(skipWindow), |corpus|), skipWindow, samples[i])
  {
    InWindowPrefix(samples, i, skipWindow);
    InWindowPrefix(samples, i + 1, skipWindow);
    assert samples[..i + 1][..i] == samples[..i];
  }

  /** With `num_skips` draws per window, a call yields `num_skips` pairs per window. */
  lemma {:induction false} PairsLength(corpus: seq<int>, skipWindow: nat, s0: nat, samples: seq<seq<nat>>, numSkips: nat)
    requires s0 + Span(skipWindow) <= |corpus|
    requires InWindow(samples, skipWindow)
    requires forall h :: 0 <= h < |samples| ==> |samples[h]| == numSkips
    ensures |Pairs(corpus, skipWindow, s0, samples)| == |samples| * numSkips
    decreases |samples|
  {
    if samples != [] {
      var last := |samples| - 1;
      PairsLength(corpus, skipWindow, s0, samples[..last], numSkips);
      assert |samples| * numSkips == last * numSkips + numSkips;
    }
  }

  /** `pair` is a skip-gram of the corpus: two words at distinct positions at most
      `skipWindow` apart. */
  ghost predicate IsSkipGram(corpus: seq<int>, skipWindow: nat, pair: (int, int)) {
    exists p, q :: 0 <= p < |corpus| && 0 <= q < |corpus| && p != q
      && p - skipWindow <= q <= p + skipWindow && pair == (corpus[p], corpus[q])
  }

  /** Every pair a call produces is a skip-gram of the corpus, the first word being the
      window's centre and the second a word of its window other than the centre. */
  lemma {:induction false} PairsAreSkipGrams(corpus: seq<int>, skipWindow: nat, s0: nat, samples: seq<seq<nat>>)
    requires s0 + Span(skipWindow) <= |corpus|
    requires InWindow(samples, skipWindow)
    requires forall g, j :: 0 <= g < |samples| && 0 <= j < |samples[g]| ==> samples[g][j] != skipWindow
    ensures forall k :: 0 <= k < |Pairs(corpus, skipWindow, s0, samples)| ==>
              IsSkipGram(corpus, skipWindow, Pairs(corpus, skipWindow, s0, samples)[k])
    decreases |samples|
  {
    if samples != [] {
      var g := |samples| - 1;
      var prefix := samples[..g];
      PairsAreSkipGrams(corpus, skipWindow, s0, prefix);
      var pairs := Pairs(corpus, skipWindow, s0, samples);
      var before := Pairs(corpus, skipWindow, s0, prefix);
      var start := StartAfter(s0, g, Span(skipWindow), |corpus|);
      assert pairs == before + GroupPairs(corpus, start, skipWindow, samples[g]);
      forall k | 0 <= k < |pairs| ensures IsSkipGram(corpus, skipWindow, pairs[k]) {
        if k < |before| {
          assert pairs[k] == before[k];
        } else {
          var j := k - |before|;
          var p, q := start + skipWindow, start + samples[g][j];
          assert pairs[k] == (corpus[p], corpus[q]);
        }
      }
    }
  }

  /** Every (batch, label) pair of a call with valid `random.sample` draws is a skip-gram
      of the corpus; in particular both of its words are words of `data`. */
  lemma BatchPairsAreSkipGrams(corpus: seq<int>, groups: nat, numSkips: nat, skipWindow: nat,
                               s0: nat, samples: seq<seq<nat>>)
    requires s0 + Span(skipWindow) <= |corpus|
    requires AreSamples(samples, groups, numSkips, skipWindow)
    ensures InWindow(samples, skipWindow)
    ensures forall k :: 0 <= k < |Pairs(corpus, skipWindow, s0, samples)| ==>
              IsSkipGram(corpus, skipWindow, Pairs(corpus, skipWindow, s0, samples)[k])
  {
    SamplesInWindow(samples, groups, numSkips, skipWindow);
    forall g, j | 0 <= g < |samples| && 0 <= j < |samples[g]| ensures samples[g][j] != skipWindow {
      assert samples[g][j] in ContextOffsets(Span(skipWindow), skipWindow);
    }
    PairsAreSkipGrams(corpus, skipWindow, s0, samples);
  }

  /** Two consecutive calls produce the pairs of one call drawing both calls' samples: the
      second call resumes at the window where the first stopped, and none is skipped or
      repeated. */
  lemma PairsCompose(corpus: seq<int>, skipWindow: nat, s0: nat, first: seq<seq<nat>>, second: seq<seq<nat>>)
    requires s0 + Span(skipWindow) <= |corpus|
    requires InWindow(first, skipWindow) && InWindow(second, skipWindow)
    ensures InWindow(first + second, skipWindow)
    ensures var resume := StartAfter(s0, |first|, Span(skipWindow), |corpus|);
      && FirstStart(resume, Span(skipWindow), |corpus|) == resume
      && Pairs(corpus, skipWindow, s0, first + second)
         == Pairs(corpus, skipWindow, s0, first) + Pairs(corpus, skipWindow, resume, second)
  {
    InWindowConcat(first, second, skipWindow);
    PairsAppend(corpus, skipWindow, s0, first, second);
  }

  /** The pairs of draws joined end to end are the pairs of the first draws followed by
      the pairs of the second, from the window the first ones end at. */
  lemma {:induction false} PairsAppend(corpus: seq<int>, skipWindow: nat, s0: nat, first: seq<seq<nat>>, second: seq<seq<nat>>)
    requires s0 + Span(skipWindow) <= |corpus|
    requires InWindow(first, skipWindow) && InWindow(second, skipWindow) && InWindow(first + second, skipWindow)
    ensures Pairs(corpus, skipWindow, s0, first + second)
            == Pairs(corpus, skipWindow, s0, first)
               + Pairs(corpus, skipWindow, StartAfter(s0, |first|, Span(skipWindow), |corpus|), second)
    decreases |second|
  {
    if second == [] {
      assert first + second == first;
    } else {
      var last := |second| - 1;
      var init := second[..last];
      var both := first + second;
      InWindowPrefix(second, last, skipWindow);
      InWindowConcat(first, init, skipWindow);
      PairsAppend(corpus, skipWindow, s0, first, init);
      assert both[..|both| - 1] == first + init && both[|both| - 1] == second[last];
      StartAfterCompose(s0, |first|, last, Span(skipWindow), |corpus|);
    }
  }

  /** Draws joined end to end stay within the window. */
  lemma InWindowConcat(first: seq<seq<nat>>, second: seq<seq<nat>>, skipWindow: nat)
    requires InWindow(first, skipWindow) && InWindow(second, skipWindow)
    ensures InWindow(first + second, skipWindow)
  {
    var both := first + second;
    forall g, j | 0 <= g < |both| && 0 <= j < |both[g]| ensures both[g][j] < Span(skipWindow) {
      if g >= |first| {
        assert both[g] == second[g - |first|];
      }
    }
  }

  /** The first `m` draws stay within the window. */
  lemma InWindowPrefix(samples: seq<seq<nat>>, m: nat, skipWindow: nat)
    requires InWindow(samples, skipWindow) && m <= |samples|
    ensures InWindow(samples[..m], skipWindow)
  {
    forall g, j | 0 <= g < m && 0 <= j < |samples[..m][g]| ensures samples[..m][g][j] < Span(skipWindow) {
      assert samples[..m][g] == samples[g];
    }
  }

  /** The state of the skip-gram generator: the encoded corpus and the global cursor
      `data_index`. */
  class BatchGenerator {
    /** The encoded corpus `data`, a list the generator only reads. */
    const data: seq<int>
    /** Where the next call looks for its first window. */
    var dataIndex: nat

    /** The module state before the first call: `data_index = 0`. */
    constructor (corpus: seq<int>)
      ensures data == corpus && dataIndex == 0
    {
      data := corpus;
      dataIndex := 0;
    }

    /** `generate_batch(batch_size, num_skips, skip_window)`, where `samples[i]` is the value
        `random.sample(context_words, num_skips)` returns in iteration `i`. */
    method GenerateBatch(batchSize: nat, numSkips: nat, skipWindow: nat, samples: seq<seq<nat>>)
      returns (outcome: Outcome)
      requires ArgumentError(batchSize, numSkips, skipWindow) == None ==>
                 AreSamples(samples, batchSize / numSkips, numSkips, skipWindow)
      modifies this
      ensures ArgumentError(batchSize, numSkips, skipWindow).Some? ==>
                outcome == Failed(ArgumentError(batchSize, numSkips, skipWindow).value)
                && dataIndex == old(dataIndex)
      ensures ArgumentError(batchSize, numSkips, skipWindow) == None && |data| < Span(skipWindow) ==>
                var error := ShortCorpusError(batchSize, |data|);
                && (error.Some? ==> outcome == Failed(error.value) && dataIndex == Span(skipWindow))
                && (error == None ==>
                      && outcome.Generated?
                      && fresh(outcome.batch) && fresh(outcome.labels)
                      && outcome.batch.Length == 0
                      && outcome.labels.Length0 == 0 && outcome.labels.Length1 == 1
                      && dataIndex == 0)
      ensures ArgumentError(batchSize, numSkips, skipWindow) == None && Span(skipWindow) <= |data| ==>
                var s0 := FirstStart(old(dataIndex), Span(skipWindow), |data|);
                && outcome.Generated?
                && fresh(outcome.batch) && fresh(outcome.labels)
                && outcome.batch.Length == batchSize
                && outcome.labels.Length0 == batchSize && outcome.labels.Length1 == 1
                && InWindow(samples, skipWindow)
                && |Pairs(data, skipWindow, s0, samples)| == batchSize
                && (forall k :: 0 <= k < batchSize ==>
                      (outcome.batch[k], outcome.labels[k, 0]) == Pairs(data, skipWindow, s0, samples)[k])
                && dataIndex == StartAfter(s0, |samples|, Span(skipWindow), |data|)
                && dataIndex + Span(skipWindow) <= |data|
    {
      var error := ArgumentError(batchSize, numSkips, skipWindow);
      if error.Some? {
        return Failed(error.value);
      }
      AdmissibleArguments(batchSize, numSkips, skipWindow);
      SamplesInWindow(samples, batchSize / numSkips, numSkips, skipWindow);
      var batch := new int[batchSize];
      var labels := new int[batchSize, 1];
      var span := 2 * skipWindow + 1;
      if dataIndex + span > |data| {
        dataIndex := 0;
      }
      if span > |data| {
        dataIndex := span;
        var shortError := ShortCorpusError(batchSize, |data|);
        if shortError.Some? {
          return Failed(shortError.value);
        }
        ModUnique(dataIndex + |data| - span, |data|, 1, 0);
        dataIndex := (dataIndex + |data| - span) % |data|;
        return Generated(batch, labels);
      }
      ghost var s0 := dataIndex;
      var buffer := data[dataIndex..dataIndex + span];
      dataIndex := dataIndex + span;
      FillBatch(batch, labels, buffer, batchSize / numSkips, numSkips, skipWindow, samples, s0);
      ghost var next := StartAfter(s0, |samples|, span, |data|);
      ModUnique(dataIndex + |data| - span, |data|, 1, next);
      dataIndex := (dataIndex + |data| - span) % |data|;
      return Generated(batch, labels);
    }

    /** The loop of `generate_batch`: `groups` times, write the pairs of the window held in
        `buffer` and slide the window on. */
    method FillBatch(batch: array<int>, labels: array2<int>, buffer: seq<int>, groups: nat, numSkips: nat,
                     skipWindow: nat, samples: seq<seq<nat>>, ghost s0: nat)
      requires batch.Length == groups * numSkips == labels.Length0 && labels.Length1 == 1
      requires s0 + Span(skipWindow) <= |data|
      requires dataIndex == s0 + Span(skipWindow) && buffer == data[s0..s0 + Span(skipWindow)]
      requires InWindow(samples, skipWindow) && |samples| == groups
      requires forall g :: 0 <= g < groups ==> |samples[g]| == numSkips
      modifies this, batch, labels
      ensures dataIndex == StartAfter(s0, groups, Span(skipWindow), |data|) + Span(skipWindow)
      ensures |Pairs(data, skipWindow, s0, samples)| == batch.Length
      ensures forall k :: 0 <= k < batch.Length ==>
                (batch[k], labels[k, 0]) == Pairs(data, skipWindow, s0, samples)[k]
    {
      var buffer := buffer;
      ghost var pairs: seq<(int, int)> := [];
      assert Holds(batch, labels, pairs);
      var base := 0;
      for i := 0 to groups
        invariant dataIndex == StartAfter(s0, i, Span(skipWindow), |data|) + Span(skipWindow)
        invariant buffer == data[StartAfter(s0, i, Span(skipWindow), |data|)..dataIndex]
        invariant pairs == Pairs(data, skipWindow, s0, samples[..i])
        invariant |pairs| == i * numSkips == base
        invariant InWindow(samples[..i], skipWindow)
        invariant Holds(batch, labels, pairs)
      {
        GroupFits(i, groups, numSkips);
        buffer, pairs := Step(batch, labels, buffer, numSkips, skipWindow, samples, s0, i, base, pairs);
        base := base + numSkips;
      }
      assert samples[..groups] == samples;
    }

    /** One iteration of the loop of `generate_batch`: the pairs of window `i`, held in
        `buffer`, go to rows `base` on, and the window slides on. */
    method Step(batch: array<int>, labels: array2<int>, buffer: seq<int>, numSkips: nat, skipWindow: nat,
                samples: seq<seq<nat>>, ghost s0: nat, i: nat, base: nat, ghost pairs: seq<(int, int)>)
      returns (next: seq<int>, ghost pairs': seq<(int, int)>)
      requires s0 + Span(skipWindow) <= |data|
      requires InWindow(samples, skipWindow) && i < |samples| && |samples[i]| == numSkips
      requires dataIndex == StartAfter(s0, i, Span(skipWindow), |data|) + Span(skipWindow)
      requires buffer == data[StartAfter(s0, i, Span(skipWindow), |data|)..dataIndex]
      requires pairs == Pairs(data, skipWindow, s0, samples[..i]) && InWindow(samples[..i], skipWindow)
      requires |pairs| == base && base + numSkips <= batch.Length
      requires Holds(batch, labels, pairs)
      modifies this, batch, labels
      ensures dataIndex == StartAfter(s0, i + 1, Span(skipWindow), |data|) + Span(skipWindow)
      ensures next == data[StartAfter(s0, i + 1, Span(skipWindow), |data|)..dataIndex]
      ensures pairs' == Pairs(data, skipWindow, s0, samples[..i + 1]) && InWindow(samples[..i + 1], skipWindow)
      ensures |pairs'| == base + numSkips
      ensures Holds(batch, labels, pairs')
    {
      ghost var start := StartAfter(s0, i, Span(skipWindow), |data|);
      NextGroup(data, skipWindow, s0, samples, numSkips, i, start, buffer, pairs);
      var wordsToUse := samples[i];
      WriteGroup(batch, labels, base, buffer, skipWindow, wordsToUse, pairs);
      pairs' := pairs + GroupPairs(buffer, 0, skipWindow, wordsToUse);
      next := Slide(buffer, Span(skipWindow), start);
    }

    /** The first `|pairs|` rows of `batch` and of the single column of `labels` hold `pairs`. */
    static predicate Holds(batch: array<int>, labels: array2<int>, pairs: seq<(int, int)>)
      reads batch, labels
    {
      && |pairs| <= batch.Length == labels.Length0 && labels.Length1 == 1
      && forall k :: 0 <= k < |pairs| ==> (batch[k], labels[k, 0]) == pairs[k]
    }

    /** The inner loop of `generate_batch`: rows `base` on of `batch` and `labels` receive
        the pairs of the window held in `buffer`; the rows before keep the pairs `written`. */
    static method WriteGroup(batch: array<int>, labels: array2<int>, base: nat, buffer: seq<int>,
                             skipWindow: nat, wordsToUse: seq<nat>, ghost written: seq<(int, int)>)
      requires |written| == base && base + |wordsToUse| <= batch.Length
      requires Span(skipWindow) <= |buffer|
      requires forall j :: 0 <= j < |wordsToUse| ==> wordsToUse[j] < Span(skipWindow)
      requires Holds(batch, labels, written)
      modifies batch, labels
      ensures Holds(batch, labels, written + GroupPairs(buffer, 0, skipWindow, wordsToUse))
    {
      ghost var all := written + GroupPairs(buffer, 0, skipWindow, wordsToUse);
      for j := 0 to |wordsToUse|
        invariant forall k :: 0 <= k < base + j ==> (batch[k], labels[k, 0]) == all[k]
      {
        var contextWord := wordsToUse[j];
        batch[base + j] := buffer[skipWindow];
        labels[base + j, 0] := buffer[contextWord];
      }
    }

    /** The end of an iteration of `generate_batch`: when the window has reached the end of
        the corpus the deque is refilled from its beginning, otherwise the next word is
        appended. */
    method Slide(buffer: seq<int>, span: nat, ghost start: nat) returns (next: seq<int>)
      requires start + span <= |data| && span <= |data|
      requires dataIndex == start + span && buffer == data[start..start + span]
      modifies this
      ensures var s := NextStart(start, span, |data|);
        dataIndex == s + span && next == data[s..s + span]
    {
      if dataIndex == |data| {
        RefillWindow(data, start, span);
        next := Extend(buffer, data[0..span], span);
        dataIndex := span;
      } else {
        SlideWindow(data, start, span);
        next := Extend(buffer, [data[dataIndex]], span);
        dataIndex := dataIndex + 1;
      }
    }
  }

  /** One more group of pairs, read off the deque holding window `i`, extends the pairs of
      the first `i` windows to those of the first `i + 1`. */
  lemma NextGroup(corpus: seq<int>, skipWindow: nat, s0: nat, samples: seq<seq<nat>>, numSkips: nat,
                  i: nat, start: nat, buffer: seq<int>, pairs: seq<(int, int)>)
    requires s0 + Span(skipWindow) <= |corpus|
    requires InWindow(samples, skipWindow) && i < |samples| && |samples[i]| == numSkips
    requires start == StartAfter(s0, i, Span(skipWindow), |corpus|)
    requires buffer == corpus[start..start + Span(skipWindow)]
    requires InWindow(samples[..i], skipWindow) && pairs == Pairs(corpus, skipWindow, s0, samples[..i])
    ensures Span(skipWindow) <= |buffer|
    ensures forall j :: 0 <= j < |samples[i]| ==> samples[i][j] < Span(skipWindow)
    ensures InWindow(samples[..i + 1], skipWindow)
    ensures pairs + GroupPairs(buffer, 0, skipWindow, samples[i]) == Pairs(corpus, skipWindow, s0, samples[..i + 1])
    ensures |pairs + GroupPairs(buffer, 0, skipWindow, samples[i])| == |pairs| + numSkips
  {
    GroupFromBuffer(corpus, start, skipWindow, samples[i]);
    PairsSnoc(corpus, skipWindow, s0, samples, i);
  }

  /** The pairs of a window are read off the deque that holds it. */
  lemma GroupFromBuffer(corpus: seq<int>, start: nat, skipWindow: nat, offsets: seq<nat>)
    requires start + Span(skipWindow) <= |corpus|
    requires forall j :: 0 <= j < |offsets| ==> offsets[j] < Span(skipWindow)
    ensures GroupPairs(corpus[start..start + Span(skipWindow)], 0, skipWindow, offsets)
            == GroupPairs(corpus, start, skipWindow, offsets)
  {
  }

  /** Draws of `random.sample(context_words, num_skips)` are offsets into the window. */
  lemma SamplesInWindow(samples: seq<seq<nat>>, groups: nat, numSkips: nat, skipWindow: nat)
    requires AreSamples(samples, groups, numSkips, skipWindow)
    ensures InWindow(samples, skipWindow)
    ensures forall g :: 0 <= g < |samples| ==> |samples[g]| == numSkips
  {
    forall g, j | 0 <= g < |samples| && 0 <= j < |samples[g]| ensures samples[g][j] < Span(skipWindow) {
      assert samples[g][j] in ContextOffsets(Span(skipWindow), skipWindow);
    }
  }

  /** Group `i` of `groups` groups of `size` ends within the batch. */
  lemma GroupFits(i: nat, groups: nat, size: nat)
    requires i < groups
    ensures (i + 1) * size == i * size + size <= groups * size
  {
    var rest := groups - (i + 1);
    assert groups * size == (i + 1) * size + rest * size;
    assert rest * size >= 0;
  }
}
