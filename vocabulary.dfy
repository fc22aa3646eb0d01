/** Vocabulary construction and corpus encoding: `build_dataset` in word2vec.py.

    The corpus is a sequence of symbols (single characters in the script). The
    vocabulary keeps the `n_words - 1` most frequent symbols behind a reserved
    unknown bucket `UNK`, numbers them 0, 1, 2, ... in that order, and encodes the
    corpus as ids, with 0 for every symbol that did not make the cut.
 */
module Vocabulary {

  /** A key of the dictionary: the reserved `UNK` bucket or a corpus symbol. */
  datatype Token<S> = Unk | Word(symbol: S)

  /** One row of `count`: a key and its frequency (`UNK` starts at -1). */
  datatype Entry<S> = Entry(token: Token<S>, freq: int)

  function Max(a: int, b: int): int { if a < b then b else a }

  function Min(a: int, b: int): int { if a < b then a else b }

  predicate Distinct<T(==)>(s: seq<T>) {
    forall i, j :: 0 <= i < j < |s| ==> s[i] != s[j]
  }

  /** The set of different symbols of the corpus (the keys of `Counter(words)`). */
  function Symbols<S>(words: seq<S>): set<S> {
    set s | s in words
  }

  /** How often `s` occurs in `words` (`Counter(words)[s]`). */
  function Occurrences<S(==)>(words: seq<S>, s: S): (n: nat)
    ensures n <= |words|
  {
    if words == [] then 0
    else Occurrences(words[..|words| - 1], s) + (if words[|words| - 1] == s then 1 else 0)
  }

  /** A symbol has a positive count exactly when it occurs in the corpus. */
  lemma {:induction false} OccursIffPresent<S>(words: seq<S>, s: S)
    ensures Occurrences(words, s) > 0 <==> s in words
  {
    if words != [] {
      var prefix, last := words[..|words| - 1], words[|words| - 1];
      OccursIffPresent(prefix, s);
      assert words == prefix + [last];
    }
  }

  /** Position of the first occurrence of `s` in `words`, or `|words|` when there is none. */
  function FirstIndex<S(==)>(words: seq<S>, s: S): (k: nat)
    ensures k < |words| <==> s in words
  {
    if words == [] then 0
    else if words[0] == s then 0
    else 1 + FirstIndex(words[1..], s)
  }

  /** `Counter.most_common` order: a higher count first, equal counts in order of first occurrence. */
  predicate RanksBefore<S(==)>(words: seq<S>, a: (S, nat), b: (S, nat)) {
    a.1 > b.1 || (a.1 == b.1 && FirstIndex(words, a.0) < FirstIndex(words, b.0))
  }

  /** A ranked entry comes before symbol `s` of the corpus in `most_common` order. */
  predicate RanksAbove<S(==)>(words: seq<S>, e: (S, nat), s: S) {
    RanksBefore(words, e, (s, Occurrences(words, s)))
  }

  /** The symbols of a ranked list, in rank order. */
  function KeptSymbols<S>(ranked: seq<(S, nat)>): seq<S> {
    seq(|ranked|, i requires 0 <= i < |ranked| => ranked[i].0)
  }

  /** `ranked` is what `collections.Counter(words).most_common(k)` returns: the
      min(k, number of distinct symbols) symbols of highest count (none when k <= 0),
      each with its exact count, in `most_common` order, and ahead of every symbol
      left out. */
  ghost predicate IsMostCommon<S>(words: seq<S>, k: int, ranked: seq<(S, nat)>) {
    && |ranked| == Min(Max(k, 0), |Symbols(words)|)
    && (forall i {:trigger Occurrences(words, ranked[i].0)} ::
          0 <= i < |ranked| ==> ranked[i].0 in words && ranked[i].1 == Occurrences(words, ranked[i].0))
    && (forall i, j {:trigger RanksBefore(words, ranked[i], ranked[j])} ::
          0 <= i < j < |ranked| ==> RanksBefore(words, ranked[i], ranked[j]))
    && (forall s, i {:trigger RanksAbove(words, ranked[i], s)} ::
          s in words && s !in KeptSymbols(ranked) && 0 <= i < |ranked| ==> RanksAbove(words, ranked[i], s))
  }

  /** The rows that `count.extend(...)` appends after `['UNK', -1]`. */
  function Entries<S>(ranked: seq<(S, nat)>): seq<Entry<S>> {
    seq(|ranked|, i requires 0 <= i < |ranked| => Entry(Word(ranked[i].0), ranked[i].1))
  }

  /** Number of positions of `words` whose symbol is not in `kept`. */
  function UnknownCount<S(==)>(words: seq<S>, kept: seq<S>): (n: nat)
    ensures n <= |words|
  {
    if words == [] then 0
    else
      var prefix, last := words[..|words| - 1], words[|words| - 1];
      UnknownCount(prefix, kept) + (if last in kept then 0 else 1)
  }

  /** Sum of the frequencies of a `count` list. */
  function TotalFreq<S>(count: seq<Entry<S>>): int {
    if count == [] then 0 else count[0].freq + TotalFreq(count[1..])
  }

  /** Sum over `syms` of how often each occurs in `words`. */
  function SumOccurrences<S(==)>(words: seq<S>, syms: seq<S>): nat {
    if syms == [] then 0 else Occurrences(words, syms[0]) + SumOccurrences(words, syms[1..])
  }

  /** The ids `0 .. n-1`; there are `n` of them. */
  function Ids(n: nat): (r: set<nat>)
    ensures forall i: nat :: i in r <==> i < n
    ensures |r| == n
  {
    if n == 0 then {}
    else
      var r := Ids(n - 1) + {n - 1};
      assert forall i: nat :: i in r <==> i < n by {
        forall i: nat ensures i in r <==> i < n {
          assert i in r <==> i in Ids(n - 1) || i == n - 1;
        }
      }
      r
  }

  /** Appending one word adds one to the total occurrence count of a list of
      distinct symbols exactly when the word is one of them. */
  lemma {:induction false} SumOccurrencesSnoc<S>(words: seq<S>, w: S, syms: seq<S>)
    requires Distinct(syms)
    ensures SumOccurrences(words + [w], syms) == SumOccurrences(words, syms) + (if w in syms then 1 else 0)
  {
    if syms != [] {
      assert Distinct(syms[1..]) by {
        forall i, j | 0 <= i < j < |syms[1..]| ensures syms[1..][i] != syms[1..][j] {
          assert syms[1..][i] == syms[i + 1] && syms[1..][j] == syms[j + 1];
        }
      }
      SumOccurrencesSnoc(words, w, syms[1..]);
      assert (words + [w])[..|words + [w]| - 1] == words;
      assert syms == [syms[0]] + syms[1..];
      assert w == syms[0] ==> w !in syms[1..];
    }
  }

  /** Every position of the corpus is counted exactly once: either as an unknown
      word or under the one kept symbol it equals. */
  lemma {:induction false} EveryWordCounted<S>(words: seq<S>, kept: seq<S>)
    requires Distinct(kept)
    ensures UnknownCount(words, kept) + SumOccurrences(words, kept) == |words|
  {
    if words == [] {
      SumOccurrencesEmpty(words, kept);
    } else {
      var prefix, last := words[..|words| - 1], words[|words| - 1];
      EveryWordCounted(prefix, kept);
      assert words == prefix + [last];
      SumOccurrencesSnoc(prefix, last, kept);
    }
  }

  lemma {:induction false} SumOccurrencesEmpty<S>(words: seq<S>, syms: seq<S>)
    requires words == []
    ensures SumOccurrences(words, syms) == 0
  {
    if syms != [] {
      SumOccurrencesEmpty(words, syms[1..]);
    }
  }

  /** When every ranked count is the exact occurrence count, the frequencies of the
      appended `count` rows add up to the occurrences of the kept symbols. */
  lemma {:induction false} RankedTotal<S>(words: seq<S>, ranked: seq<(S, nat)>)
    requires forall i :: 0 <= i < |ranked| ==> ranked[i].1 == Occurrences(words, ranked[i].0)
    ensures TotalFreq(Entries(ranked)) == SumOccurrences(words, KeptSymbols(ranked))
  {
    if ranked != [] {
      RankedTotal(words, ranked[1..]);
      assert Entries(ranked)[1..] == Entries(ranked[1..]);
      assert KeptSymbols(ranked)[1..] == KeptSymbols(ranked[1..]);
    }
  }

  /** What `most_common` promises about the symbols it keeps: they are distinct corpus
      symbols of positive, non-increasing counts, and no symbol it leaves out occurs
      more often than any symbol it keeps. */
  lemma MostCommonOrder<S>(words: seq<S>, k: int, ranked: seq<(S, nat)>)
    requires IsMostCommon(words, k, ranked)
    ensures Distinct(KeptSymbols(ranked))
    ensures forall i :: 0 <= i < |ranked| ==> ranked[i].1 > 0
    ensures forall i, j :: 0 <= i < j < |ranked| ==> ranked[i].1 >= ranked[j].1
    ensures forall s, i {:trigger Occurrences(words, s), ranked[i]} ::
              s in words && s !in KeptSymbols(ranked) && 0 <= i < |ranked| ==> Occurrences(words, s) <= ranked[i].1
  {
    var kept := KeptSymbols(ranked);
    forall i | 0 <= i < |ranked| ensures ranked[i].1 > 0 {
      assert ranked[i].1 == Occurrences(words, ranked[i].0);
      OccursIffPresent(words, ranked[i].0);
    }
    forall i, j | 0 <= i < j < |ranked| ensures ranked[i].1 >= ranked[j].1 && kept[i] != kept[j] {
      assert RanksBefore(words, ranked[i], ranked[j]);
      assert ranked[i].1 == Occurrences(words, ranked[i].0) && ranked[j].1 == Occurrences(words, ranked[j].0);
    }
    forall s, i | s in words && s !in kept && 0 <= i < |ranked|
      ensures Occurrences(words, s) <= ranked[i].1
    {
      assert RanksAbove(words, ranked[i], s);
    }
  }

  /** The first occurrence of a corpus symbol is that symbol. */
  lemma {:induction false} FirstIndexFinds<S>(words: seq<S>, s: S)
    requires s in words
    ensures FirstIndex(words, s) < |words| && words[FirstIndex(words, s)] == s
  {
    if words[0] != s {
      assert s in words[1..];
      FirstIndexFinds(words[1..], s);
    }
  }

  /** `most_common` order is total on the corpus symbols: of two different symbols, one
      ranks above the other, since their first occurrences differ. */
  lemma SymbolsRanked<S>(words: seq<S>, a: S, b: S)
    requires a in words && b in words && a != b
    ensures RanksAbove(words, (a, Occurrences(words, a)), b) || RanksAbove(words, (b, Occurrences(words, b)), a)
  {
    FirstIndexFinds(words, a);
    FirstIndexFinds(words, b);
  }

  /** A non-empty set of corpus symbols has one that ranks above all the others. */
  lemma {:induction false} BestSymbol<S>(words: seq<S>, t: set<S>) returns (best: S)
    requires t != {} && forall s :: s in t ==> s in words
    ensures best in t
    ensures forall s :: s in t && s != best ==> RanksAbove(words, (best, Occurrences(words, best)), s)
    decreases |t|
  {
    var x :| x in t;
    var rest := t - {x};
    if rest == {} {
      assert forall s :: s in t ==> s == x by {
        forall s | s in t ensures s == x {
          assert s !in rest;
        }
      }
      best := x;
    } else {
      var m := BestSymbol(words, rest);
      SymbolsRanked(words, x, m);
      if RanksAbove(words, (x, Occurrences(words, x)), m) {
        forall s | s in t && s != x ensures RanksAbove(words, (x, Occurrences(words, x)), s) {
          if s != m {
            assert RanksAbove(words, (m, Occurrences(words, m)), s);
          }
        }
        best := x;
      } else {
        best := m;
      }
    }
  }

  /** A sequence has no more different elements than positions. */
  lemma {:induction false} ElementsAtMostLength<S>(xs: seq<S>)
    ensures |set x | x in xs| <= |xs|
  {
    if xs != [] {
      var init := xs[..|xs| - 1];
      ElementsAtMostLength(init);
      assert (set x | x in xs) == (set x | x in init) + {xs[|xs| - 1]};
    }
  }

  /** A value of `most_common(k)`: nothing when no symbol is asked for, otherwise the best
      symbol left out appended to the value for one symbol fewer. */
  lemma {:induction false} MostCommonValue<S>(words: seq<S>, k: int) returns (ranked: seq<(S, nat)>)
    ensures IsMostCommon(words, k, ranked)
    decreases Min(Max(k, 0), |Symbols(words)|)
  {
    var m := Min(Max(k, 0), |Symbols(words)|);
    if m == 0 {
      ranked := [];
    } else {
      var prev := MostCommonValue(words, m - 1);
      var kept := KeptSymbols(prev);
      var keptSet := set x | x in kept;
      assert keptSet <= Symbols(words) by {
        forall x | x in keptSet ensures x in Symbols(words) {
          var i :| 0 <= i < |kept| && kept[i] == x;
          assert prev[i].1 == Occurrences(words, prev[i].0);
        }
      }
      ElementsAtMostLength(kept);
      var left := Symbols(words) - keptSet;
      assert Symbols(words) * keptSet == keptSet;
      assert |left| > 0;
      var best := BestSymbol(words, left);
      ranked := prev + [(best, Occurrences(words, best))];
      assert KeptSymbols(ranked) == kept + [best];
      forall i | 0 <= i < |ranked|
        ensures ranked[i].0 in words && ranked[i].1 == Occurrences(words, ranked[i].0)
      {
        if i < m - 1 {
          assert ranked[i] == prev[i] && prev[i].1 == Occurrences(words, prev[i].0);
        }
      }
      forall i, j | 0 <= i < j < |ranked| ensures RanksBefore(words, ranked[i], ranked[j]) {
        assert ranked[i] == prev[i];
        if j < m - 1 {
          assert ranked[j] == prev[j];
        } else {
          assert best !in kept;
          assert RanksAbove(words, prev[i], best);
        }
      }
      forall s, i | s in words && s !in KeptSymbols(ranked) && 0 <= i < |ranked|
        ensures RanksAbove(words, ranked[i], s)
      {
        assert s !in kept && s != best;
        if i < m - 1 {
          assert ranked[i] == prev[i];
        } else {
          assert s in Symbols(words) && s !in keptSet;
        }
      }
    }
  }

  /** Every corpus and every `k` have a `most_common(k)` result. */
  lemma MostCommonExists<S>(words: seq<S>, k: int)
    ensures exists ranked :: IsMostCommon(words, k, ranked)
  {
    var ranked := MostCommonValue(words, k);
  }

  /** The id `build_dataset` gives symbol `s`: its position among the kept symbols plus
      one, or 0 (the id of UNK) when it was not kept. */
  function Id<S(==)>(ranked: seq<(S, nat)>, s: S): (id: nat)
    ensures id <= |ranked|
    ensures id > 0 ==> ranked[id - 1].0 == s
    ensures forall j :: 0 <= j < |ranked| && (id == 0 || j < id - 1) ==> ranked[j].0 != s
  {
    if ranked == [] then 0
    else if ranked[0].0 == s then 1
    else
      var id := Id(ranked[1..], s);
      assert forall j :: 1 <= j < |ranked| ==> ranked[1..][j - 1] == ranked[j];
      if id == 0 then 0 else id + 1
  }

  /** The value of `count` on return: UNK with its final count, then `most_common`. */
  function CountTable<S(==)>(words: seq<S>, ranked: seq<(S, nat)>): seq<Entry<S>> {
    [Entry(Unk, UnknownCount(words, KeptSymbols(ranked)))] + Entries(ranked)
  }

  /** `count` holds at most `n_words` rows (at least UNK's), with the frequencies of the
      kept symbols non-increasing and positive and no key twice. */
  lemma CountTableOrdered<S>(words: seq<S>, nWords: int, ranked: seq<(S, nat)>)
    requires IsMostCommon(words, nWords - 1, ranked)
    ensures var count := CountTable(words, ranked);
      && |count| == |ranked| + 1 <= Max(nWords, 1)
      && count[0].token == Unk
      && (forall i :: 1 <= i < |count| ==> count[i].token == Word(ranked[i - 1].0) && count[i].freq > 0)
      && (forall i, j :: 0 <= i < j < |count| ==> count[i].token != count[j].token)
      && (forall i, j :: 1 <= i < j < |count| ==> count[i].freq >= count[j].freq)
  {
    MostCommonOrder(words, nWords - 1, ranked);
    var count, kept := CountTable(words, ranked), KeptSymbols(ranked);
    forall i, j | 0 <= i < j < |count| ensures count[i].token != count[j].token {
      if i > 0 {
        assert count[i].token == Word(kept[i - 1]) && count[j].token == Word(kept[j - 1]);
      }
    }
  }

  /** The frequencies in `count` add up to the length of the corpus: every position is
      counted once, under UNK or under its kept symbol. */
  lemma CountTableTotal<S>(words: seq<S>, nWords: int, ranked: seq<(S, nat)>)
    requires IsMostCommon(words, nWords - 1, ranked)
    ensures TotalFreq(CountTable(words, ranked)) == |words|
  {
    MostCommonOrder(words, nWords - 1, ranked);
    var count, kept := CountTable(words, ranked), KeptSymbols(ranked);
    assert count[1..] == Entries(ranked);
    assert forall i :: 0 <= i < |ranked| ==> ranked[i].1 == Occurrences(words, ranked[i].0);
    RankedTotal(words, ranked);
    EveryWordCounted(words, kept);
  }

  /** Id 0 marks exactly the symbols that are not kept, and a symbol that is left out
      occurs no more often than any kept symbol. */
  lemma UnknownIsLeftOut<S>(words: seq<S>, nWords: int, ranked: seq<(S, nat)>, s: S)
    requires IsMostCommon(words, nWords - 1, ranked)
    ensures Id(ranked, s) == 0 <==> s !in KeptSymbols(ranked)
    ensures s in words && Id(ranked, s) == 0 ==>
              forall j :: 1 <= j < |CountTable(words, ranked)| ==> Occurrences(words, s) <= CountTable(words, ranked)[j].freq
  {
    MostCommonOrder(words, nWords - 1, ranked);
    var kept := KeptSymbols(ranked);
    if Id(ranked, s) > 0 {
      assert kept[Id(ranked, s) - 1] == s;
    }
    if Id(ranked, s) == 0 {
      forall j | 0 <= j < |kept| ensures kept[j] != s {
        assert ranked[j].0 != s;
      }
    }
    if Id(ranked, s) == 0 && s in words {
      forall j | 1 <= j < |CountTable(words, ranked)|
        ensures Occurrences(words, s) <= CountTable(words, ranked)[j].freq
      {
        assert Occurrences(words, s) <= ranked[j - 1].1;
      }
    }
  }

  /** Decoding an id through `count` gives back the symbol for every kept symbol and
      UNK for every other one. */
  lemma IdNamesSymbol<S>(words: seq<S>, nWords: int, ranked: seq<(S, nat)>, s: S)
    requires IsMostCommon(words, nWords - 1, ranked)
    ensures Id(ranked, s) < |CountTable(words, ranked)|
    ensures CountTable(words, ranked)[Id(ranked, s)].token == if s in KeptSymbols(ranked) then Word(s) else Unk
  {
    UnknownIsLeftOut(words, nWords, ranked, s);
  }

  /** The dictionary numbers the keys of `count` 0, 1, 2, ... in list order, and has no other key. */
  ghost predicate NumberedInOrder<S>(count: seq<Entry<S>>, dictionary: map<Token<S>, nat>) {
    && |dictionary| == |count|
    && (forall j :: 0 <= j < |count| ==> count[j].token in dictionary && dictionary[count[j].token] == j)
    && (forall t :: t in dictionary ==> dictionary[t] < |count| && count[dictionary[t]].token == t)
  }

  /** Looking a symbol up with `dictionary.get(Word(s), 0)` gives its id; UNK is 0 and the
      corpus symbols in the dictionary are exactly the kept ones. */
  lemma {:induction false} LookupIsId<S>(count: seq<Entry<S>>, dictionary: map<Token<S>, nat>, ranked: seq<(S, nat)>)
    requires |count| == |ranked| + 1 && count[0].token == Unk
    requires forall i :: 1 <= i < |count| ==> count[i].token == Word(ranked[i - 1].0)
    requires Distinct(KeptSymbols(ranked))
    requires NumberedInOrder(count, dictionary)
    ensures Unk in dictionary && dictionary[Unk] == 0
    ensures forall s :: Word(s) in dictionary <==> s in KeptSymbols(ranked)
    ensures forall s :: (if Word(s) in dictionary then dictionary[Word(s)] else 0) == Id(ranked, s)
  {
    var kept := KeptSymbols(ranked);
    forall s ensures Word(s) in dictionary <==> s in kept {
      if Word(s) in dictionary {
        var d := dictionary[Word(s)];
        assert count[d].token == Word(s) && d > 0;
        assert kept[d - 1] == s;
      }
      if s in kept {
        var m :| 0 <= m < |kept| && kept[m] == s;
        assert count[m + 1].token == Word(s);
      }
    }
    forall s ensures (if Word(s) in dictionary then dictionary[Word(s)] else 0) == Id(ranked, s) {
      var id := Id(ranked, s);
      assert id > 0 ==> kept[id - 1] == s;
      if Word(s) in dictionary {
        var d := dictionary[Word(s)];
        assert count[d].token == Word(s) && d > 0;
        assert ranked[d - 1].0 == s && kept[d - 1] == s;
        assert id > 0 && kept[id - 1] == s;
      } else {
        assert s !in kept;
      }
    }
  }

  /** A dictionary keyed by exactly the ids below `n` has `n` entries; so
      `reversed_dictionary` is as large as the dictionary it inverts. */
  lemma IdKeyedSize<V>(reversed: map<nat, V>, n: nat)
    requires forall id: nat :: id in reversed <==> id < n
    ensures |reversed| == n
  {
    assert reversed.Keys == Ids(n);
  }

  /** Number of zero ids in an encoded corpus. */
  function CountZeros(data: seq<nat>): nat {
    if data == [] then 0 else CountZeros(data[..|data| - 1]) + (if data[|data| - 1] == 0 then 1 else 0)
  }

  /** When id 0 marks exactly the positions whose symbol was not kept, the zeros of the
      encoding are the unknown positions of the corpus. */
  lemma {:induction false} ZerosAreUnknowns<S>(words: seq<S>, data: seq<nat>, kept: seq<S>)
    requires |data| == |words|
    requires forall i :: 0 <= i < |data| ==> (data[i] == 0 <==> words[i] !in kept)
    ensures CountZeros(data) == UnknownCount(words, kept)
  {
    if data != [] {
      ZerosAreUnknowns(words[..|words| - 1], data[..|data| - 1], kept);
    }
  }

  /** The loop `for word, _ in count: dictionary[word] = len(dictionary)`: each key gets
      the number of keys inserted before it. */
  method NumberKeys<S(==)>(count: seq<Entry<S>>) returns (dictionary: map<Token<S>, nat>)
    requires forall i, j :: 0 <= i < j < |count| ==> count[i].token != count[j].token
    ensures NumberedInOrder(count, dictionary)
  {
    dictionary := map[];
    for i := 0 to |count|
      invariant |dictionary| == i
      invariant forall j :: 0 <= j < i ==> count[j].token in dictionary && dictionary[count[j].token] == j
      invariant forall t :: t in dictionary ==> dictionary[t] < i && count[dictionary[t]].token == t
    {
      assert count[i].token !in dictionary;
      dictionary := dictionary[count[i].token := |dictionary|];
    }
  }

  /** The loop over `words`: look each symbol up with `dictionary.get(word, 0)`, append the
      id to `data` and count the zeros in `unk_count`. */
  method Encode<S(==)>(words: seq<S>, dictionary: map<Token<S>, nat>) returns (data: seq<nat>, unkCount: nat)
    ensures |data| == |words|
    ensures forall i :: 0 <= i < |data| ==>
              data[i] == (if Word(words[i]) in dictionary then dictionary[Word(words[i])] else 0)
    ensures unkCount == CountZeros(data)
  {
    data := [];
    unkCount := 0;
    for i := 0 to |words|
      invariant |data| == i
      invariant forall j :: 0 <= j < i ==>
                  data[j] == (if Word(words[j]) in dictionary then dictionary[Word(words[j])] else 0)
      invariant unkCount == CountZeros(data)
    {
      var index := if Word(words[i]) in dictionary then dictionary[Word(words[i])] else 0;
      if index == 0 {
        unkCount := unkCount + 1;
      }
      assert (data + [index])[..i] == data;
      data := data + [index];
    }
  }

  /** The keys of `count` as first built are UNK and the kept symbols, none twice. */
  lemma KeysDistinct<S>(words: seq<S>, nWords: int, ranked: seq<(S, nat)>, count: seq<Entry<S>>)
    requires IsMostCommon(words, nWords - 1, ranked)
    requires count == [Entry(Unk, -1)] + Entries(ranked)
    ensures forall i, j :: 0 <= i < j < |count| ==> count[i].token != count[j].token
    ensures |count| == |ranked| + 1 && count[0].token == Unk
    ensures forall i :: 1 <= i < |count| ==> count[i].token == Word(ranked[i - 1].0)
  {
    CountTableOrdered(words, nWords, ranked);
    assert forall i :: 0 <= i < |count| ==> count[i].token == CountTable(words, ranked)[i].token;
  }

  /** Looking every corpus symbol up in the numbered dictionary gives its id, and the
      zeros counted on the way are the unknown positions. */
  lemma EncodingIsId<S>(words: seq<S>, nWords: int, ranked: seq<(S, nat)>, count: seq<Entry<S>>,
                        dictionary: map<Token<S>, nat>, data: seq<nat>)
    requires IsMostCommon(words, nWords - 1, ranked)
    requires |count| == |ranked| + 1 && count[0].token == Unk
    requires forall i :: 1 <= i < |count| ==> count[i].token == Word(ranked[i - 1].0)
    requires NumberedInOrder(count, dictionary)
    requires |data| == |words|
    requires forall i :: 0 <= i < |data| ==>
               data[i] == (if Word(words[i]) in dictionary then dictionary[Word(words[i])] else 0)
    ensures forall i :: 0 <= i < |words| ==> data[i] == Id(ranked, words[i])
    ensures CountZeros(data) == UnknownCount(words, KeptSymbols(ranked))
  {
    MostCommonOrder(words, nWords - 1, ranked);
    LookupIsId(count, dictionary, ranked);
    forall i | 0 <= i < |words| ensures data[i] == 0 <==> words[i] !in KeptSymbols(ranked) {
      UnknownIsLeftOut(words, nWords, ranked, words[i]);
    }
    ZerosAreUnknowns(words, data, KeptSymbols(ranked));
  }

  /** `count[0][1] = unk_count` replaces UNK's placeholder frequency, changing no key. */
  lemma SetUnknownCount<S>(ranked: seq<(S, nat)>, count: seq<Entry<S>>, dictionary: map<Token<S>, nat>, unkCount: nat)
    requires count == [Entry(Unk, -1)] + Entries(ranked)
    requires NumberedInOrder(count, dictionary)
    ensures count[0 := Entry(Unk, unkCount)] == [Entry(Unk, unkCount)] + Entries(ranked)
    ensures NumberedInOrder(count[0 := Entry(Unk, unkCount)], dictionary)
  {
    var updated := count[0 := Entry(Unk, unkCount)];
    assert forall i :: 0 <= i < |count| ==> updated[i].token == count[i].token;
    assert updated[1..] == count[1..];
  }

  /** `dict(zip(dictionary.values(), dictionary.keys()))`: the dictionary is iterated in
      insertion order, which is the order of `count`, and each id is mapped back to its key. */
  method Reverse<S(==)>(count: seq<Entry<S>>, dictionary: map<Token<S>, nat>) returns (reversed: map<nat, Token<S>>)
    requires NumberedInOrder(count, dictionary)
    ensures forall id: nat :: id in reversed <==> id < |count|
    ensures forall id :: 0 <= id < |count| ==> reversed[id] == count[id].token
    ensures forall t :: t in dictionary ==> dictionary[t] in reversed && reversed[dictionary[t]] == t
    ensures |reversed| == |dictionary|
  {
    reversed := map[];
    for i := 0 to |count|
      invariant forall id: nat :: id in reversed <==> id < i
      invariant forall id :: 0 <= id < i ==> reversed[id] == count[id].token
    {
      var word := count[i].token;
      reversed := reversed[dictionary[word] := word];
    }
    IdKeyedSize(reversed, |count|);
  }

  /** `build_dataset(words, n_words)`, where `ranked` is the value of
      `collections.Counter(words).most_common(n_words - 1)`. Returns `data`, `count`,
      `dictionary` and `reversed_dictionary`. */
  method BuildDataset<S(==)>(words: seq<S>, nWords: int, ranked: seq<(S, nat)>)
    returns (data: seq<nat>, count: seq<Entry<S>>, dictionary: map<Token<S>, nat>, reversed: map<nat, Token<S>>)
    requires IsMostCommon(words, nWords - 1, ranked)
    ensures count == CountTable(words, ranked)
    ensures NumberedInOrder(count, dictionary)
    ensures |data| == |words|
    ensures forall i :: 0 <= i < |words| ==> data[i] == Id(ranked, words[i])
    ensures forall id: nat :: id in reversed <==> id < |count|
    ensures forall id :: 0 <= id < |count| ==> reversed[id] == count[id].token
    ensures forall t :: t in dictionary ==> dictionary[t] in reversed && reversed[dictionary[t]] == t
    ensures |reversed| == |dictionary|
  {
    count := [Entry(Unk, -1)] + Entries(ranked);
    KeysDistinct(words, nWords, ranked, count);
    dictionary := NumberKeys(count);

    var unkCount;
    data, unkCount := Encode(words, dictionary);
    EncodingIsId(words, nWords, ranked, count, dictionary, data);

    SetUnknownCount(ranked, count, dictionary, unkCount);
    count := count[0 := Entry(Unk, unkCount)];

    reversed := Reverse(count, dictionary);
  }
}
