/** conll03.py: the CoNLL-03 word and character dictionaries, the sentence
  * loaders and load_dict. A file is given as its lines, each line as the
  * list of tokens `line.split()` yields; a blank line has no tokens. */
module Conll03 {
  import opened Wrappers

  /** The key of the unknown word or character. */
  const Unk: string := "<unk>"

  /** The whitespace-separated tokens of one line. */
  type Line = seq<string>

  // ----- the lexicographic order of Python strings -----

  /** Python's `<` on strings: code point by code point, a proper prefix first. */
  predicate LexLess(a: string, b: string)
  {
    if |a| == 0 then |b| > 0
    else |b| > 0 && (a[0] < b[0] || (a[0] == b[0] && LexLess(a[1..], b[1..])))
  }

  lemma {:induction false} LexLessIrreflexive(a: string)
    ensures !LexLess(a, a)
  {
    if |a| > 0 {
      LexLessIrreflexive(a[1..]);
    }
  }

  lemma {:induction false} LexLessTransitive(a: string, b: string, c: string)
    requires LexLess(a, b) && LexLess(b, c)
    ensures LexLess(a, c)
  {
    if |a| > 0 && a[0] == b[0] && b[0] == c[0] {
      LexLessTransitive(a[1..], b[1..], c[1..]);
    }
  }

  lemma {:induction false} LexLessTotal(a: string, b: string)
    requires a != b
    ensures LexLess(a, b) || LexLess(b, a)
  {
    if |a| > 0 && |b| > 0 && a[0] == b[0] {
      assert a == [a[0]] + a[1..] && b == [b[0]] + b[1..];
      LexLessTotal(a[1..], b[1..]);
    }
  }

  /** The sort key (-frequency, word): a word comes before another when it is
    * more frequent, or as frequent and lexicographically smaller. */
  predicate Before(a: (string, int), b: (string, int))
  {
    a.1 > b.1 || (a.1 == b.1 && LexLess(a.0, b.0))
  }

  /** Before is a strict total order on entries with distinct words. */
  lemma BeforeOrder(a: (string, int), b: (string, int), c: (string, int))
    ensures !Before(a, a)
    ensures Before(a, b) ==> !Before(b, a)
    ensures Before(a, b) && Before(b, c) ==> Before(a, c)
    ensures a.0 != b.0 ==> Before(a, b) || Before(b, a)
  {
    LexLessIrreflexive(a.0);
    if Before(a, b) && Before(b, a) {
      LexLessTransitive(a.0, b.0, a.0);
    }
    if Before(a, b) && Before(b, c) && a.1 == b.1 && b.1 == c.1 {
      LexLessTransitive(a.0, b.0, c.0);
    }
    if a.0 != b.0 {
      LexLessTotal(a.0, b.0);
    }
  }

  // ----- counting -----

  /** How often each key occurs: the defaultdict(int) after one `+= 1` per key. */
  function FreqOf(keys: seq<string>): (f: map<string, int>)
    ensures forall w :: w in f <==> w in keys
  {
    map w | w in keys :: multiset(keys)[w]
  }

  /** `freq` holds the number of occurrences of each key. */
  ghost predicate Counts(freq: map<string, int>, keys: seq<string>)
  {
    (forall w :: w in freq <==> w in keys) &&
    (forall w :: w in freq ==> freq[w] == multiset(keys)[w])
  }

  /** One `word_freq[w] += 1` on a defaultdict counts one more key. */
  lemma CountsSnoc(freq: map<string, int>, keys: seq<string>, w: string)
    requires Counts(freq, keys)
    ensures Counts(freq[w := (if w in freq then freq[w] else 0) + 1], keys + [w])
  {
    assert multiset(keys + [w]) == multiset(keys) + multiset{w};
    assert forall v :: v in keys + [w] <==> v in keys || v == w;
  }

  lemma CountsIsFreqOf(freq: map<string, int>, keys: seq<string>)
    requires Counts(freq, keys)
    ensures freq == FreqOf(keys)
  {
  }

  /** `words[pos]` of a two-token line, with Python's negative indices. */
  function Pick(line: Line, pos: int): string
    requires |line| == 2 && -2 <= pos < 2
  {
    if pos < 0 then line[pos + 2] else line[pos]
  }

  /** The words build_dict counts: `words[pos]` of every two-token line. */
  function WordKeys(lines: seq<Line>, pos: int): seq<string>
    requires -2 <= pos < 2
  {
    if lines == [] then []
    else
      var last := lines[|lines| - 1];
      WordKeys(lines[..|lines| - 1], pos) + if |last| == 2 then [Pick(last, pos)] else []
  }

  /** The characters of a word, each as a one-character string. */
  function Chars(w: string): (r: seq<string>)
    ensures |r| == |w| && forall i :: 0 <= i < |w| ==> r[i] == [w[i]]
  {
    seq(|w|, i requires 0 <= i < |w| => [w[i]])
  }

  /** The characters build_char_dict counts: those of `words[pos]` of every two-token line. */
  function CharKeys(lines: seq<Line>, pos: int): seq<string>
    requires -2 <= pos < 2
  {
    if lines == [] then []
    else
      var last := lines[|lines| - 1];
      CharKeys(lines[..|lines| - 1], pos) + if |last| == 2 then Chars(Pick(last, pos)) else []
  }

  /** build_dict's counting loop. */
  method CountWords(lines: seq<Line>, pos: int) returns (freq: map<string, int>)
    requires -2 <= pos < 2
    ensures freq == FreqOf(WordKeys(lines, pos))
  {
    freq := map[];
    var i := 0;
    while i < |lines|
      invariant 0 <= i <= |lines|
      invariant Counts(freq, WordKeys(lines[..i], pos))
    {
      assert lines[..i + 1][..i] == lines[..i];
      var words := lines[i];
      if |words| == 2 {
        var w := Pick(words, pos);
        CountsSnoc(freq, WordKeys(lines[..i], pos), w);
        freq := freq[w := (if w in freq then freq[w] else 0) + 1];
      }
      i := i + 1;
    }
    assert lines[..i] == lines;
    CountsIsFreqOf(freq, WordKeys(lines, pos));
  }

  /** CharKeys over one more line. */
  lemma CharKeysStep(lines: seq<Line>, i: nat, pos: int)
    requires i < |lines| && -2 <= pos < 2
    ensures CharKeys(lines[..i + 1], pos) ==
      CharKeys(lines[..i], pos) + if |lines[i]| == 2 then Chars(Pick(lines[i], pos)) else []
  {
    assert lines[..i + 1][..i] == lines[..i];
  }

  /** build_char_dict's inner loop over the characters of one word. */
  method CountWordChars(freq: map<string, int>, ghost before: seq<string>, w: string) returns (freq': map<string, int>)
    requires Counts(freq, before)
    ensures Counts(freq', before + Chars(w))
  {
    freq' := freq;
    var j := 0;
    while j < |w|
      invariant 0 <= j <= |w|
      invariant Counts(freq', before + Chars(w)[..j])
    {
      var c: string := [w[j]];
      CountsSnoc(freq', before + Chars(w)[..j], c);
      assert before + Chars(w)[..j + 1] == before + Chars(w)[..j] + [c];
      freq' := freq'[c := (if c in freq' then freq'[c] else 0) + 1];
      j := j + 1;
    }
    assert Chars(w)[..j] == Chars(w);
  }

  /** build_char_dict's counting loops. */
  method CountChars(lines: seq<Line>, pos: int) returns (freq: map<string, int>)
    requires -2 <= pos < 2
    ensures freq == FreqOf(CharKeys(lines, pos))
  {
    freq := map[];
    var i := 0;
    while i < |lines|
      invariant 0 <= i <= |lines|
      invariant Counts(freq, CharKeys(lines[..i], pos))
    {
      CharKeysStep(lines, i, pos);
      var words := lines[i];
      if |words| == 2 {
        var tmpWords := Pick(words, pos);
        freq := CountWordChars(freq, CharKeys(lines[..i], pos), tmpWords);
      }
      i := i + 1;
    }
    assert lines[..i] == lines;
    CountsIsFreqOf(freq, CharKeys(lines, pos));
  }

  // ----- filtering, sorting and indexing -----

  /** The entries whose frequency exceeds the cutoff. */
  function Kept(freq: map<string, int>, cutoff: int): (k: map<string, int>)
    ensures forall w :: w in k <==> w in freq && freq[w] > cutoff
    ensures forall w :: w in k ==> k[w] == freq[w]
  {
    map w | w in freq && freq[w] > cutoff :: freq[w]
  }

  /** `d` numbers the words of `kept` below n in the order of `sorted` by
    * (-frequency, word). */
  ghost predicate Ranks(d: map<string, int>, kept: map<string, int>, n: int)
  {
    d.Keys == kept.Keys &&
    (forall w :: w in d ==> 0 <= d[w] < n) &&
    (forall w1, w2 :: w1 in d && w2 in d ==>
       (d[w1] < d[w2] <==> Before((w1, kept[w1]), (w2, kept[w2]))))
  }

  /** Distinct words get distinct numbers. */
  lemma RanksInjective(d: map<string, int>, kept: map<string, int>, n: int, w1: string, w2: string)
    requires Ranks(d, kept, n) && w1 in d && w2 in d && w1 != w2
    ensures d[w1] != d[w2]
  {
    BeforeOrder((w1, kept[w1]), (w2, kept[w2]), (w1, kept[w1]));
  }

  predicate SortedEntries(s: seq<(string, int)>)
  {
    forall i, j :: 0 <= i < j < |s| ==> Before(s[i], s[j])
  }

  /** Insert an entry with a new word into a sorted list of entries. */
  function Insert(s: seq<(string, int)>, x: (string, int)): (r: seq<(string, int)>)
    requires SortedEntries(s) && forall i :: 0 <= i < |s| ==> s[i].0 != x.0
    ensures SortedEntries(r) && |r| == |s| + 1
    ensures forall e :: e in r <==> e in s || e == x
  {
    if s == [] then [x]
    else if Before(x, s[0]) then
      assert forall j :: 0 <= j < |s| ==> Before(x, s[j]) by {
        forall j | 0 <= j < |s| ensures Before(x, s[j]) {
          BeforeOrder(x, s[0], s[j]);
        }
      }
      [x] + s
    else
      var rest := Insert(s[1..], x);
      assert Before(s[0], x) by { BeforeOrder(x, s[0], x); }
      assert forall e :: e in rest ==> Before(s[0], e);
      [s[0]] + rest
  }

  /** `sorted(filter(...), key=lambda x: (-x[1], x[0]))`: the kept entries,
    * taken from the dictionary in any order, end sorted. */
  method SortEntries(kept: map<string, int>) returns (dictionary: seq<(string, int)>)
    ensures SortedEntries(dictionary) && |dictionary| == |kept|
    ensures forall e :: e in dictionary <==> e.0 in kept && e.1 == kept[e.0]
  {
    dictionary := [];
    var remaining := kept.Keys;
    while remaining != {}
      invariant remaining <= kept.Keys
      invariant SortedEntries(dictionary) && |dictionary| == |kept.Keys| - |remaining|
      invariant forall e :: e in dictionary <==> e.0 in kept.Keys - remaining && e.1 == kept[e.0]
      decreases |remaining|
    {
      var w :| w in remaining;
      dictionary := Insert(dictionary, (w, kept[w]));
      remaining := remaining - {w};
    }
  }

  /** The words of a sorted entry list are distinct. */
  lemma SortedWordsDistinct(s: seq<(string, int)>, kept: map<string, int>, i: int, j: int)
    requires SortedEntries(s) && forall e :: e in s ==> e.0 in kept && e.1 == kept[e.0]
    requires 0 <= i < |s| && 0 <= j < |s| && i != j
    ensures s[i].0 != s[j].0
  {
    BeforeOrder(s[i], s[j], s[i]);
    assert s[i] in s && s[j] in s;
  }

  /** `dict(zip(words, xrange(len(words))))`: each word of the list is
    * numbered by its position. */
  method NumberWords(dictionary: seq<(string, int)>) returns (wordIdx: map<string, int>)
    requires forall i, j :: 0 <= i < j < |dictionary| ==> dictionary[i].0 != dictionary[j].0
    ensures forall w :: w in wordIdx <==> exists k :: 0 <= k < |dictionary| && dictionary[k].0 == w
    ensures forall k :: 0 <= k < |dictionary| ==> dictionary[k].0 in wordIdx && wordIdx[dictionary[k].0] == k
    ensures |wordIdx| == |dictionary|
  {
    wordIdx := map[];
    var i := 0;
    while i < |dictionary|
      invariant 0 <= i <= |dictionary|
      invariant forall w :: w in wordIdx <==> exists k :: 0 <= k < i && dictionary[k].0 == w
      invariant forall k :: 0 <= k < i ==> dictionary[k].0 in wordIdx && wordIdx[dictionary[k].0] == k
      invariant |wordIdx| == i
    {
      wordIdx := wordIdx[dictionary[i].0 := i];
      i := i + 1;
    }
  }

  /** Numbering a sorted list of the kept entries by position ranks them. */
  lemma NumberingRanks(dictionary: seq<(string, int)>, kept: map<string, int>, wordIdx: map<string, int>)
    requires SortedEntries(dictionary) && |dictionary| == |kept|
    requires forall e :: e in dictionary <==> e.0 in kept && e.1 == kept[e.0]
    requires forall w :: w in wordIdx <==> exists k :: 0 <= k < |dictionary| && dictionary[k].0 == w
    requires forall k :: 0 <= k < |dictionary| ==> dictionary[k].0 in wordIdx && wordIdx[dictionary[k].0] == k
    ensures Ranks(wordIdx, kept, |kept|)
  {
    forall w | w in wordIdx ensures w in kept && 0 <= wordIdx[w] < |kept| && dictionary[wordIdx[w]] == (w, kept[w]) {
      var k :| 0 <= k < |dictionary| && dictionary[k].0 == w;
      assert dictionary[k] in dictionary;
    }
    forall w | w in kept ensures w in wordIdx {
      assert (w, kept[w]) in dictionary;
    }
    forall w1, w2 | w1 in wordIdx && w2 in wordIdx
      ensures wordIdx[w1] < wordIdx[w2] <==> Before((w1, kept[w1]), (w2, kept[w2]))
    {
      var a, b := wordIdx[w1], wordIdx[w2];
      BeforeOrder(dictionary[a], dictionary[b], dictionary[a]);
    }
  }

  /** Lines 35-39 of build_dict and 56-60 of build_char_dict: keep the
    * frequencies above the cutoff, sort them, and number the words 0, 1, ...
    * in that order; unpacking an empty sorted list fails. */
  method MakeIndex(freq: map<string, int>, cutoff: int) returns (r: Result<map<string, int>>)
    ensures r.Ok? <==> |Kept(freq, cutoff)| > 0
    ensures r.Ok? ==> |r.value| == |Kept(freq, cutoff)|
    ensures r.Ok? ==> Ranks(r.value, Kept(freq, cutoff), |Kept(freq, cutoff)|)
  {
    var kept := Kept(freq, cutoff);
    var dictionary := SortEntries(kept);
    if |dictionary| == 0 {
      return Err("not enough values to unpack");
    }
    forall i, j | 0 <= i < j < |dictionary| ensures dictionary[i].0 != dictionary[j].0 {
      SortedWordsDistinct(dictionary, kept, i, j);
    }
    var wordIdx := NumberWords(dictionary);
    NumberingRanks(dictionary, kept, wordIdx);
    return Ok(wordIdx);
  }

  /** build_dict: count `words[pos]` over the two-token lines, number the
    * words above the cutoff by (-frequency, word), and unless pos is 1 give
    * '<unk>' the next number (overwriting a counted '<unk>'). */
  method BuildDict(lines: seq<Line>, cutoff: int, pos: int) returns (r: Result<map<string, int>>)
    requires -2 <= pos < 2
    ensures var kept := Kept(FreqOf(WordKeys(lines, pos)), cutoff);
      (r.Ok? <==> |kept| > 0) &&
      (r.Ok? && pos == 1 ==> Ranks(r.value, kept, |kept|)) &&
      (r.Ok? && pos != 1 ==> Unk in r.value && r.value[Unk] == |kept| &&
                             Ranks(r.value - {Unk}, kept - {Unk}, |kept|))
  {
    var freq := CountWords(lines, pos);
    r := MakeIndex(freq, cutoff);
    if r.Ok? && pos != 1 {
      r := Ok(WithUnk(r.value, Kept(freq, cutoff)));
    }
  }

  /** `word_idx['<unk>'] = len(words)`. */
  function WithUnk(d: map<string, int>, kept: map<string, int>): (r: map<string, int>)
    requires |d| == |kept| && Ranks(d, kept, |kept|)
    ensures Unk in r && r[Unk] == |kept| && Ranks(r - {Unk}, kept - {Unk}, |kept|)
  {
    d[Unk := |d|]
  }

  /** build_char_dict: as build_dict over the characters of `words[pos]`,
    * and '<unk>' is always added. */
  method BuildCharDict(lines: seq<Line>, cutoff: int, pos: int) returns (r: Result<map<string, int>>)
    requires -2 <= pos < 2
    ensures var kept := Kept(FreqOf(CharKeys(lines, pos)), cutoff);
      (r.Ok? <==> |kept| > 0) &&
      (r.Ok? ==> Unk in r.value && r.value[Unk] == |kept| &&
                 Ranks(r.value - {Unk}, kept - {Unk}, |kept|))
  {
    var freq := CountChars(lines, pos);
    r := MakeIndex(freq, cutoff);
    if r.Ok? {
      r := Ok(WithUnk(r.value, Kept(freq, cutoff)));
    }
  }

  // ----- loading sentences -----

  /** `d.get(k, dflt)`. */
  function Lookup(d: map<string, int>, k: string, dflt: int): int
  {
    if k in d then d[k] else dflt
  }

  /** One sentence as reader_creator yields it: word ids, label ids and,
    * per word, the ids of its characters. */
  datatype Sentence = Sentence(words: seq<int>, labels: seq<int>, chars: seq<seq<int>>)

  /** The load loop's state: the sentences emitted so far and the buffers
    * out_tmp_words, out_tmp_labels and out_tmp_sent_char. */
  datatype LoadState = LoadState(out: seq<Sentence>, words: seq<int>, labels: seq<int>, sentChar: seq<seq<int>>)

  /** The character ids of a word; unknown characters get the word UNK id. */
  function CharIds(w: string, charIdx: map<string, int>, unk: int): (r: seq<int>)
    ensures |r| == |w| && forall i :: 0 <= i < |w| ==> r[i] == Lookup(charIdx, [w[i]], unk)
  {
    seq(|w|, i requires 0 <= i < |w| => Lookup(charIdx, [w[i]], unk))
  }

  /** One line of the load loop: a blank line emits the buffered sentence and
    * empties the buffers; another line buffers its word's id, its label's id
    * and its characters' ids. A missing second token or an unknown label fails. */
  function LoadStep(st: LoadState, line: Line, wordIdx: map<string, int>, labelIdx: map<string, int>,
                    charIdx: map<string, int>, unk: int): Result<LoadState>
  {
    if line == [] then Ok(LoadState(st.out + [Sentence(st.words, st.labels, st.sentChar)], [], [], []))
    else if |line| < 2 then Err("list index out of range")
    else if line[1] !in labelIdx then Err("KeyError")
    else Ok(LoadState(st.out, st.words + [Lookup(wordIdx, line[0], unk)], st.labels + [labelIdx[line[1]]],
                      st.sentChar + [CharIds(line[0], charIdx, unk)]))
  }

  /** The load loop over the lines it does not skip. */
  function LoadFrom(ls: seq<Line>, wordIdx: map<string, int>, labelIdx: map<string, int>,
                    charIdx: map<string, int>, unk: int): Result<LoadState>
  {
    if ls == [] then Ok(LoadState([], [], [], []))
    else
      var prev := LoadFrom(ls[..|ls| - 1], wordIdx, labelIdx, charIdx, unk);
      if prev.Err? then prev else LoadStep(prev.value, ls[|ls| - 1], wordIdx, labelIdx, charIdx, unk)
  }

  /** Once the loop has failed, further lines do not matter. */
  lemma {:induction false} LoadFromErrPersists(ls: seq<Line>, ext: seq<Line>, wordIdx: map<string, int>,
                                               labelIdx: map<string, int>, charIdx: map<string, int>, unk: int)
    requires LoadFrom(ls, wordIdx, labelIdx, charIdx, unk).Err?
    ensures LoadFrom(ls + ext, wordIdx, labelIdx, charIdx, unk) == LoadFrom(ls, wordIdx, labelIdx, charIdx, unk)
  {
    if ext != [] {
      var e := ext[..|ext| - 1];
      LoadFromErrPersists(ls, e, wordIdx, labelIdx, charIdx, unk);
      assert (ls + ext)[..|ls + ext| - 1] == ls + e;
    } else {
      assert ls + ext == ls;
    }
  }

  /** The lines after the first two, which the loader skips. */
  function Body(lines: seq<Line>): seq<Line>
  {
    if |lines| <= 2 then [] else lines[2..]
  }

  /** What reader_creator's load leaves in INS. */
  function Load(lines: seq<Line>, wordIdx: map<string, int>, labelIdx: map<string, int>,
                charIdx: map<string, int>): Result<seq<Sentence>>
  {
    if Unk !in wordIdx then Err("KeyError")
    else
      var st := LoadFrom(Body(lines), wordIdx, labelIdx, charIdx, wordIdx[Unk]);
      if st.Err? then Err(st.error) else Ok(st.value.out)
  }

  /** The load loop over one more line: the first two lines leave the body
    * empty, a later one takes one LoadStep unless the loop has failed. */
  lemma LoadFromStep(lines: seq<Line>, i: nat, wordIdx: map<string, int>, labelIdx: map<string, int>,
                     charIdx: map<string, int>, unk: int)
    requires i < |lines|
    ensures i < 2 ==> Body(lines[..i + 1]) == [] && Body(lines[..i]) == []
    ensures 2 <= i ==>
      var prev := LoadFrom(Body(lines[..i]), wordIdx, labelIdx, charIdx, unk);
      LoadFrom(Body(lines[..i + 1]), wordIdx, labelIdx, charIdx, unk) ==
        if prev.Err? then prev else LoadStep(prev.value, lines[i], wordIdx, labelIdx, charIdx, unk)
  {
    if 2 <= i {
      var pb := Body(lines[..i]);
      assert Body(lines[..i + 1]) == pb + [lines[i]];
      assert (pb + [lines[i]])[..|pb|] == pb;
    }
  }

  /** The inner loop building out_tmp_word_char. */
  method WordCharIds(w: string, charIdx: map<string, int>, unk: int) returns (ids: seq<int>)
    ensures ids == CharIds(w, charIdx, unk)
  {
    ids := [];
    var j := 0;
    while j < |w|
      invariant 0 <= j <= |w|
      invariant ids == CharIds(w, charIdx, unk)[..j]
    {
      ids := ids + [Lookup(charIdx, [w[j]], unk)];
      j := j + 1;
    }
    assert CharIds(w, charIdx, unk)[..j] == CharIds(w, charIdx, unk);
  }

  /** reader_creator's load: UNK is word_idx['<unk>'], the first two lines
    * are skipped (ln < 2), then each line is handled as LoadStep says. */
  method ReaderCreator(lines: seq<Line>, wordIdx: map<string, int>, labelIdx: map<string, int>,
                       charIdx: map<string, int>) returns (r: Result<seq<Sentence>>)
    ensures r == Load(lines, wordIdx, labelIdx, charIdx)
  {
    if Unk !in wordIdx {
      return Err("KeyError");
    }
    var unk := wordIdx[Unk];
    var out: seq<Sentence> := [];
    var outTmpWords: seq<int> := [];
    var outTmpLabels: seq<int> := [];
    var outTmpSentChar: seq<seq<int>> := [];
    var ln := -1;
    var i := 0;
    while i < |lines|
      invariant 0 <= i <= |lines| && ln == i - 1
      invariant LoadFrom(Body(lines[..i]), wordIdx, labelIdx, charIdx, unk) ==
        Ok(LoadState(out, outTmpWords, outTmpLabels, outTmpSentChar))
    {
      LoadFromStep(lines, i, wordIdx, labelIdx, charIdx, unk);
      ln := ln + 1;
      if ln < 2 {
        i := i + 1;
        continue;
      }
      var line := lines[i];
      if line != [] {
        var words := line;
        if |words| < 2 || words[1] !in labelIdx {
          FailureIsFinal(lines, i, wordIdx, labelIdx, charIdx, unk);
          if |words| < 2 {
            return Err("list index out of range");
          }
          outTmpWords := outTmpWords + [Lookup(wordIdx, words[0], unk)];
          return Err("KeyError");
        }
        outTmpWords := outTmpWords + [Lookup(wordIdx, words[0], unk)];
        outTmpLabels := outTmpLabels + [labelIdx[words[1]]];
        var outTmpWordChar := WordCharIds(words[0], charIdx, unk);
        outTmpSentChar := outTmpSentChar + [outTmpWordChar];
      } else {
        out := out + [Sentence(outTmpWords, outTmpLabels, outTmpSentChar)];
        outTmpWords := [];
        outTmpLabels := [];
        outTmpSentChar := [];
      }
      i := i + 1;
    }
    assert lines[..i] == lines;
    return Ok(out);
  }

  /** A line the loader cannot read decides the result of the whole load. */
  lemma FailureIsFinal(lines: seq<Line>, i: int, wordIdx: map<string, int>, labelIdx: map<string, int>,
                       charIdx: map<string, int>, unk: int)
    requires 2 <= i < |lines| && LoadFrom(Body(lines[..i]), wordIdx, labelIdx, charIdx, unk).Ok?
    requires lines[i] != [] && (|lines[i]| < 2 || lines[i][1] !in labelIdx)
    ensures LoadFrom(Body(lines), wordIdx, labelIdx, charIdx, unk) ==
      Err(if |lines[i]| < 2 then "list index out of range" else "KeyError")
  {
    var pb := Body(lines[..i]);
    BodySplit(lines, i);
    StepFails(pb, lines[i], wordIdx, labelIdx, charIdx, unk);
    LoadFromErrPersists(pb + [lines[i]], lines[i + 1..], wordIdx, labelIdx, charIdx, unk);
  }

  lemma BodySplit(lines: seq<Line>, i: int)
    requires 2 <= i < |lines|
    ensures Body(lines) == Body(lines[..i]) + [lines[i]] + lines[i + 1..]
  {
  }

  lemma StepFails(pb: seq<Line>, line: Line, wordIdx: map<string, int>, labelIdx: map<string, int>,
                  charIdx: map<string, int>, unk: int)
    requires LoadFrom(pb, wordIdx, labelIdx, charIdx, unk).Ok?
    requires line != [] && (|line| < 2 || line[1] !in labelIdx)
    ensures LoadFrom(pb + [line], wordIdx, labelIdx, charIdx, unk) ==
      Err(if |line| < 2 then "list index out of range" else "KeyError")
  {
    assert (pb + [line])[..|pb|] == pb;
  }

  // ----- what the loader yields -----

  predicate ValidLine(line: Line, labelIdx: map<string, int>)
  {
    line == [] || (|line| >= 2 && line[1] in labelIdx)
  }

  /** The sentences of the lines, as the blank lines close them: the complete
    * groups and the group still open at the end. */
  function Groups(ls: seq<Line>): seq<seq<Line>>
  {
    if ls == [] then []
    else if ls[|ls| - 1] == [] then Groups(ls[..|ls| - 1]) + [Pending(ls[..|ls| - 1])]
    else Groups(ls[..|ls| - 1])
  }

  function Pending(ls: seq<Line>): seq<Line>
  {
    if ls == [] || ls[|ls| - 1] == [] then [] else Pending(ls[..|ls| - 1]) + [ls[|ls| - 1]]
  }

  /** A group of non-blank lines encoded as the loader encodes it. */
  function Encode(g: seq<Line>, wordIdx: map<string, int>, labelIdx: map<string, int>,
                  charIdx: map<string, int>, unk: int): Sentence
  {
    Sentence(seq(|g|, i requires 0 <= i < |g| => if |g[i]| > 0 then Lookup(wordIdx, g[i][0], unk) else unk),
             seq(|g|, i requires 0 <= i < |g| => if |g[i]| > 1 && g[i][1] in labelIdx then labelIdx[g[i][1]] else 0),
             seq(|g|, i requires 0 <= i < |g| => if |g[i]| > 0 then CharIds(g[i][0], charIdx, unk) else []))
  }

  function Blanks(ls: seq<Line>): nat
  {
    if ls == [] then 0 else Blanks(ls[..|ls| - 1]) + if ls[|ls| - 1] == [] then 1 else 0
  }

  /** The loader succeeds exactly when every line it reads is blank or has a
    * known label in its second token. */
  lemma {:induction false} LoadFromOk(ls: seq<Line>, wordIdx: map<string, int>, labelIdx: map<string, int>,
                                      charIdx: map<string, int>, unk: int)
    ensures LoadFrom(ls, wordIdx, labelIdx, charIdx, unk).Ok? <==>
      forall i :: 0 <= i < |ls| ==> ValidLine(ls[i], labelIdx)
  {
    if ls != [] {
      var init := ls[..|ls| - 1];
      LoadFromOk(init, wordIdx, labelIdx, charIdx, unk);
      assert forall i :: 0 <= i < |init| ==> init[i] == ls[i];
    }
  }

  /** A successful load has emitted one encoded sentence per blank line, each
    * the group of lines before it, and buffers the open group. */
  lemma {:induction false} LoadFromGroups(ls: seq<Line>, wordIdx: map<string, int>, labelIdx: map<string, int>,
                                          charIdx: map<string, int>, unk: int)
    requires LoadFrom(ls, wordIdx, labelIdx, charIdx, unk).Ok?
    ensures var st := LoadFrom(ls, wordIdx, labelIdx, charIdx, unk).value;
      var g := Groups(ls);
      |st.out| == |g| &&
      (forall k :: 0 <= k < |g| ==> st.out[k] == Encode(g[k], wordIdx, labelIdx, charIdx, unk)) &&
      Sentence(st.words, st.labels, st.sentChar) == Encode(Pending(ls), wordIdx, labelIdx, charIdx, unk)
  {
    if ls != [] {
      var init := ls[..|ls| - 1];
      var line := ls[|ls| - 1];
      LoadFromGroups(init, wordIdx, labelIdx, charIdx, unk);
      var prev := LoadFrom(init, wordIdx, labelIdx, charIdx, unk).value;
      assert LoadFrom(ls, wordIdx, labelIdx, charIdx, unk) == LoadStep(prev, line, wordIdx, labelIdx, charIdx, unk);
      if line != [] {
        assert Groups(ls) == Groups(init) && Pending(ls) == Pending(init) + [line];
        EncodeSnoc(Pending(init), line, wordIdx, labelIdx, charIdx, unk);
      } else {
        assert Groups(ls) == Groups(init) + [Pending(init)] && Pending(ls) == [];
      }
    }
  }

  /** Encoding one more line of a group appends its ids. */
  lemma EncodeSnoc(p: seq<Line>, line: Line, wordIdx: map<string, int>, labelIdx: map<string, int>,
                   charIdx: map<string, int>, unk: int)
    requires |line| >= 2 && line[1] in labelIdx
    ensures var e0 := Encode(p, wordIdx, labelIdx, charIdx, unk);
      Encode(p + [line], wordIdx, labelIdx, charIdx, unk) ==
        Sentence(e0.words + [Lookup(wordIdx, line[0], unk)], e0.labels + [labelIdx[line[1]]],
                 e0.chars + [CharIds(line[0], charIdx, unk)])
  {
    var e := Encode(p + [line], wordIdx, labelIdx, charIdx, unk);
    var e0 := Encode(p, wordIdx, labelIdx, charIdx, unk);
    assert e.words == e0.words + [Lookup(wordIdx, line[0], unk)];
    assert e.labels == e0.labels + [labelIdx[line[1]]];
    assert e.chars == e0.chars + [CharIds(line[0], charIdx, unk)];
  }

  lemma {:induction false} GroupsCount(ls: seq<Line>)
    ensures |Groups(ls)| == Blanks(ls)
  {
    if ls != [] {
      GroupsCount(ls[..|ls| - 1]);
    }
  }

  /** What reader_creator yields: Ok exactly when '<unk>' is a word and every
    * line after the first two is blank or carries a known label; then one
    * sentence per blank line, the encoding of the lines since the previous
    * blank line, with as many word ids, label ids and character lists as lines. */
  lemma LoadYieldsSentences(lines: seq<Line>, wordIdx: map<string, int>, labelIdx: map<string, int>,
                            charIdx: map<string, int>)
    ensures var r := Load(lines, wordIdx, labelIdx, charIdx);
      (r.Ok? <==> Unk in wordIdx && forall i :: 2 <= i < |lines| ==> ValidLine(lines[i], labelIdx)) &&
      (r.Ok? ==> |r.value| == Blanks(Body(lines)) == |Groups(Body(lines))|) &&
      (r.Ok? ==> forall k :: 0 <= k < |r.value| ==>
          r.value[k] == Encode(Groups(Body(lines))[k], wordIdx, labelIdx, charIdx, wordIdx[Unk]) &&
          |r.value[k].words| == |r.value[k].labels| == |r.value[k].chars|)
  {
    if Unk in wordIdx {
      var b := Body(lines);
      LoadFromOk(b, wordIdx, labelIdx, charIdx, wordIdx[Unk]);
      assert forall i :: 2 <= i < |lines| ==> lines[i] == b[i - 2];
      if Load(lines, wordIdx, labelIdx, charIdx).Ok? {
        LoadFromGroups(b, wordIdx, labelIdx, charIdx, wordIdx[Unk]);
        GroupsCount(b);
      }
    }
  }

  /** A last sentence that no blank line closes is never emitted: adding
    * valid non-blank lines at the end changes nothing. */
  lemma TrailingLineNotEmitted(lines: seq<Line>, line: Line, wordIdx: map<string, int>,
                               labelIdx: map<string, int>, charIdx: map<string, int>)
    requires |lines| >= 2 && line != [] && ValidLine(line, labelIdx)
    ensures Load(lines + [line], wordIdx, labelIdx, charIdx) == Load(lines, wordIdx, labelIdx, charIdx)
  {
    assert Body(lines + [line]) == Body(lines) + [line];
    assert Body(lines + [line])[..|Body(lines + [line])| - 1] == Body(lines);
  }

  /** A word sentence as reader_creator_word yields it. */
  datatype WordSentence = WordSentence(words: seq<int>, labels: seq<int>)

  /** reader_creator_word's load: the same loop without the character ids. */
  method ReaderCreatorWord(lines: seq<Line>, wordIdx: map<string, int>, labelIdx: map<string, int>)
    returns (r: Result<seq<WordSentence>>)
    ensures var full := Load(lines, wordIdx, labelIdx, map[]);
      (r.Ok? <==> full.Ok?) &&
      (r.Ok? ==> |r.value| == |full.value|) &&
      (r.Ok? ==> forall k :: 0 <= k < |r.value| ==>
          r.value[k] == WordSentence(full.value[k].words, full.value[k].labels))
  {
    if Unk !in wordIdx {
      return Err("KeyError");
    }
    var unk := wordIdx[Unk];
    ghost var noChars: map<string, int> := map[];
    var out: seq<WordSentence> := [];
    var outTmpWords: seq<int> := [];
    var outTmpLabels: seq<int> := [];
    var ln := -1;
    var i := 0;
    while i < |lines|
      invariant 0 <= i <= |lines| && ln == i - 1
      invariant LoadFrom(Body(lines[..i]), wordIdx, labelIdx, noChars, unk).Ok?
      invariant var st := LoadFrom(Body(lines[..i]), wordIdx, labelIdx, noChars, unk).value;
        st.words == outTmpWords && st.labels == outTmpLabels && |out| == |st.out| &&
        forall k :: 0 <= k < |out| ==> out[k] == WordSentence(st.out[k].words, st.out[k].labels)
    {
      LoadFromStep(lines, i, wordIdx, labelIdx, noChars, unk);
      ln := ln + 1;
      if ln < 2 {
        i := i + 1;
        continue;
      }
      var line := lines[i];
      if line != [] {
        var words := line;
        if |words| < 2 || words[1] !in labelIdx {
          FailureIsFinal(lines, i, wordIdx, labelIdx, noChars, unk);
          if |words| < 2 {
            return Err("list index out of range");
          }
          outTmpWords := outTmpWords + [Lookup(wordIdx, words[0], unk)];
          return Err("KeyError");
        }
        outTmpWords := outTmpWords + [Lookup(wordIdx, words[0], unk)];
        outTmpLabels := outTmpLabels + [labelIdx[words[1]]];
      } else {
        out := out + [WordSentence(outTmpWords, outTmpLabels)];
        outTmpWords := [];
        outTmpLabels := [];
      }
      i := i + 1;
    }
    assert lines[..i] == lines;
    return Ok(out);
  }

  // ----- load_dict -----

  /** The whitespace Python 2's str.strip() removes. */
  predicate IsSpace(c: char)
  {
    c == ' ' || c == '\t' || c == '\n' || c == '\r' || c as int == 11 || c as int == 12
  }

  function StripLeft(s: string): string
  {
    if s != [] && IsSpace(s[0]) then StripLeft(s[1..]) else s
  }

  function StripRight(s: string): string
  {
    if s != [] && IsSpace(s[|s| - 1]) then StripRight(s[..|s| - 1]) else s
  }

  /** `line.strip()`. */
  function Strip(s: string): string
  {
    StripRight(StripLeft(s))
  }

  /** StripLeft drops a prefix of whitespace and leaves none at the front. */
  lemma {:induction false} StripLeftSuffix(s: string)
    ensures var r := StripLeft(s); |r| <= |s| && r == s[|s| - |r|..] && (r == [] || !IsSpace(r[0]))
    ensures forall k :: 0 <= k < |s| - |StripLeft(s)| ==> IsSpace(s[k])
  {
    if s != [] && IsSpace(s[0]) {
      var t := s[1..];
      StripLeftSuffix(t);
      var r := StripLeft(t);
      assert StripLeft(s) == r;
      assert t[|t| - |r|..] == s[|s| - |r|..];
      forall k | 0 <= k < |s| - |r|
        ensures IsSpace(s[k])
      {
        if k > 0 {
          assert s[k] == t[k - 1];
        }
      }
    } else {
      assert s[|s| - |s|..] == s;
    }
  }

  /** StripRight drops a suffix of whitespace and leaves none at the end. */
  lemma {:induction false} StripRightPrefix(s: string)
    ensures var r := StripRight(s); |r| <= |s| && r == s[..|r|] && (r == [] || !IsSpace(r[|r| - 1]))
    ensures forall k :: |StripRight(s)| <= k < |s| ==> IsSpace(s[k])
  {
    if s != [] && IsSpace(s[|s| - 1]) {
      var t := s[..|s| - 1];
      StripRightPrefix(t);
      var r := StripRight(t);
      assert StripRight(s) == r;
      assert t[..|r|] == s[..|r|];
      forall k | |r| <= k < |s|
        ensures IsSpace(s[k])
      {
        if k < |s| - 1 {
          assert s[k] == t[k];
        }
      }
    } else {
      assert s[..|s|] == s;
    }
  }

  /** A stripped string has no whitespace at either end, so stripping it again changes nothing. */
  lemma StripIdempotent(s: string)
    ensures var t := Strip(s); (t == [] || (!IsSpace(t[0]) && !IsSpace(t[|t| - 1]))) && Strip(t) == t
  {
    var l := StripLeft(s);
    var t := StripRight(l);
    StripLeftSuffix(s);
    StripRightPrefix(l);
    if t != [] {
      assert t[0] == l[0];
    }
  }

  /** load_dict: each stripped line is numbered by its line index; a line
    * that occurs again keeps the number of its last occurrence. */
  method LoadDict(lines: seq<string>) returns (wordIdx: map<string, int>)
    ensures forall w :: w in wordIdx <==> exists i :: 0 <= i < |lines| && Strip(lines[i]) == w
    ensures forall w :: w in wordIdx ==>
      0 <= wordIdx[w] < |lines| && Strip(lines[wordIdx[w]]) == w &&
      forall j :: wordIdx[w] < j < |lines| ==> Strip(lines[j]) != w
  {
    var words: seq<string> := [];
    var i := 0;
    while i < |lines|
      invariant 0 <= i <= |lines| && |words| == i
      invariant forall k :: 0 <= k < i ==> words[k] == Strip(lines[k])
    {
      words := words + [Strip(lines[i])];
      i := i + 1;
    }
    wordIdx := map[];
    i := 0;
    while i < |words|
      invariant 0 <= i <= |words|
      invariant forall w :: w in wordIdx <==> exists k :: 0 <= k < i && words[k] == w
      invariant forall w :: w in wordIdx ==>
        0 <= wordIdx[w] < i && words[wordIdx[w]] == w &&
        forall j :: wordIdx[w] < j < i ==> words[j] != w
    {
      wordIdx := wordIdx[words[i] := i];
      i := i + 1;
    }
  }
}
