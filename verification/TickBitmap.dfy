/** Tick bitmaps: 256 initialized flags per word (section 6.2.4 of the Uniswap v3 Core whitepaper),
    decoded to tick indexes, compared, and requested word by word. */
module TickBitmap {
  import opened Arithmetic
  import opened Indexing
  import opened Outcome

  const MIN_TICK := -887272
  const MAX_TICK := 887272

  /** Word position to word; a nil word reads as zero. */
  type Bitmap = map<int, nat>

  predicate Bit(w: nat, i: nat) {
    if i == 0 then w % 2 == 1 else Bit(w / 2, i - 1)
  }

  function Pow2(i: nat): (p: nat)
    ensures p > 0
  {
    if i == 0 then 1 else 2 * Pow2(i - 1)
  }

  /** Bit `i` is the binary digit of weight 2 to the power `i`. */
  lemma {:induction false} BitIsDigit(w: nat, i: nat)
    ensures Bit(w, i) <==> w / Pow2(i) % 2 == 1
  {
    if i > 0 {
      BitIsDigit(w / 2, i - 1);
      DivideTwice(w, Pow2(i - 1));
    }
  }

  function Xor(a: nat, b: nat): nat {
    if a == 0 && b == 0 then 0
    else (if a % 2 != b % 2 then 1 else 0) + 2 * Xor(a / 2, b / 2)
  }

  lemma {:induction false} XorBit(a: nat, b: nat, i: nat)
    ensures Bit(Xor(a, b), i) <==> Bit(a, i) != Bit(b, i)
    decreases i
  {
    var x := Xor(a, b);
    if a == 0 && b == 0 {
      BitOfZero(i);
    } else {
      assert x / 2 == Xor(a / 2, b / 2);
      if i > 0 { XorBit(a / 2, b / 2, i - 1); }
    }
  }

  lemma {:induction false} BitOfZero(i: nat)
    ensures !Bit(0, i)
  {
    if i > 0 { BitOfZero(i - 1); }
  }

  function WordAt(bm: Bitmap, w: int): nat {
    if w in bm then bm[w] else 0
  }

  function TickAt(w: int, b: int, spacing: int): int {
    (w * 256 + b) * spacing
  }

  /** What a bitmap means: the ticks of its set bits. */
  ghost function TickSet(bm: Bitmap, spacing: int): set<int> {
    set w, b: nat | w in bm && b < 256 && Bit(bm[w], b) :: TickAt(w, b, spacing)
  }

  lemma TickAtInjective(w: int, b: nat, v: int, c: nat, spacing: int)
    requires spacing != 0 && b < 256 && c < 256 && TickAt(w, b, spacing) == TickAt(v, c, spacing)
    ensures w == v && b == c
  {
    MulEqual(w * 256 + b, v * 256 + c, spacing);
  }

  /** The ticks of one word, bit by bit. */
  ghost function WordTicks(word: nat, w: int, n: nat, spacing: int): set<int> {
    set b: nat | b < n && Bit(word, b) :: TickAt(w, b, spacing)
  }

  method DecodeWord(word: nat, w: int, spacing: int) returns (r: seq<int>)
    ensures Elements(r) == WordTicks(word, w, 256, spacing)
    ensures spacing != 0 ==> Distinct(r)
  {
    r := [];
    for bit := 0 to 256
      invariant Elements(r) == WordTicks(word, w, bit, spacing)
      invariant spacing != 0 ==> Distinct(r)
    {
      WordGrows(word, w, bit, spacing);
      if Bit(word, bit) {
        var compressed := w * 256 + bit;
        r := r + [compressed * spacing];
      }
    }
  }

  lemma WordGrows(word: nat, w: int, n: nat, spacing: int)
    requires n < 256
    ensures WordTicks(word, w, n + 1, spacing) ==
            WordTicks(word, w, n, spacing) + if Bit(word, n) then {TickAt(w, n, spacing)} else {}
    ensures spacing != 0 ==> TickAt(w, n, spacing) !in WordTicks(word, w, n, spacing)
  {
    if spacing != 0 && TickAt(w, n, spacing) in WordTicks(word, w, n, spacing) {
      var b: nat :| b < n && Bit(word, b) && TickAt(w, b, spacing) == TickAt(w, n, spacing);
      TickAtInjective(w, b, w, n, spacing);
      assert false;
    }
  }

  ghost function TicksOfWords(bm: Bitmap, words: set<int>, spacing: int): set<int> {
    set w, b: nat | w in words && b < 256 && Bit(WordAt(bm, w), b) :: TickAt(w, b, spacing)
  }

  lemma WordsGrow(bm: Bitmap, words: set<int>, w: int, spacing: int)
    ensures TicksOfWords(bm, words + {w}, spacing) ==
            TicksOfWords(bm, words, spacing) + WordTicks(WordAt(bm, w), w, 256, spacing)
    ensures spacing != 0 && w !in words ==>
      TicksOfWords(bm, words, spacing) !! WordTicks(WordAt(bm, w), w, 256, spacing)
  {
    if spacing != 0 && w !in words {
      forall t | t in TicksOfWords(bm, words, spacing) ensures t !in WordTicks(WordAt(bm, w), w, 256, spacing) {
        var v, c: nat :| v in words && c < 256 && Bit(WordAt(bm, v), c) && t == TickAt(v, c, spacing);
        if t in WordTicks(WordAt(bm, w), w, 256, spacing) {
          var b: nat :| b < 256 && Bit(WordAt(bm, w), b) && t == TickAt(w, b, spacing);
          TickAtInjective(v, c, w, b, spacing);
          assert false;
        }
      }
    }
  }

  /** Word by word, in no particular order. */
  method CollectTicks(bm: Bitmap, spacing: int) returns (found: seq<int>)
    ensures Elements(found) == TickSet(bm, spacing)
    ensures spacing != 0 ==> Distinct(found)
  {
    found := [];
    var rest := bm.Keys;
    ghost var seen: set<int> := {};
    while rest != {}
      invariant rest <= bm.Keys && seen == bm.Keys - rest
      invariant Elements(found) == TicksOfWords(bm, seen, spacing)
      invariant spacing != 0 ==> Distinct(found)
    {
      var w := Draw(rest);
      WordsGrow(bm, seen, w, spacing);
      if bm[w] != 0 {
        var ticks := DecodeWord(bm[w], w, spacing);
        found := Concat(found, ticks);
      } else {
        ZeroWord(w, spacing);
      }
      rest, seen := rest - {w}, seen + {w};
    }
    assert TicksOfWords(bm, bm.Keys, spacing) == TickSet(bm, spacing);
  }

  /** Decoding is exact, complete and ascending; strictly so, hence without repeats, for any non-zero spacing. */
  method TicksFromBitmap(bm: Bitmap, spacing: int) returns (r: seq<int>)
    ensures Elements(r) == TickSet(bm, spacing)
    ensures forall i, j :: 0 <= i < j < |r| ==> r[i] <= r[j]
    ensures spacing != 0 ==> forall i, j :: 0 <= i < j < |r| ==> r[i] < r[j]
  {
    var found := CollectTicks(bm, spacing);
    r := SortInts(found);
    SameMembers(r, found);
    if spacing != 0 { DistinctPermutation(found, r); }
  }

  lemma SameMembers(a: seq<int>, b: seq<int>)
    requires multiset(a) == multiset(b)
    ensures Elements(a) == Elements(b)
  {
    forall t ensures t in a <==> t in b {
      assert t in a <==> t in multiset(a);
      assert t in b <==> t in multiset(b);
    }
  }

  lemma ZeroWord(w: int, spacing: int)
    ensures WordTicks(0, w, 256, spacing) == {}
  {
    forall b: nat { BitOfZero(b); }
  }

  /** append(a, b...). */
  method Concat(a: seq<int>, b: seq<int>) returns (r: seq<int>)
    ensures r == a + b
    ensures Elements(r) == Elements(a) + Elements(b)
    ensures Distinct(a) && Distinct(b) && Elements(a) !! Elements(b) ==> Distinct(r)
  {
    r := a + b;
    if Distinct(a) && Distinct(b) && Elements(a) !! Elements(b) { DistinctConcat(a, b); }
  }

  lemma DistinctConcat(a: seq<int>, b: seq<int>)
    requires Distinct(a) && Distinct(b) && Elements(a) !! Elements(b)
    ensures Distinct(a + b)
  {
    forall i, j | 0 <= i < |a| && 0 <= j < |b| ensures a[i] != b[j] {
      assert a[i] in Elements(a) && b[j] in Elements(b);
    }
  }

  ghost predicate NonDecreasing(s: seq<int>) {
    forall i, j :: 0 <= i < j < |s| ==> s[i] <= s[j]
  }

  /** sort.Slice on plain integers. */
  function SortInts(s: seq<int>): (r: seq<int>)
    ensures NonDecreasing(r) && multiset(r) == multiset(s)
  {
    if s == [] then []
    else
      assert s == s[..|s| - 1] + [s[|s| - 1]];
      InsertInt(SortInts(s[..|s| - 1]), s[|s| - 1])
  }

  function InsertInt(s: seq<int>, x: int): (r: seq<int>)
    requires NonDecreasing(s)
    ensures NonDecreasing(r) && multiset(r) == multiset(s) + multiset{x}
    ensures |r| == |s| + 1 && r[|s|] == if s != [] && s[|s| - 1] > x then s[|s| - 1] else x
  {
    var n := |s| - 1;
    if s == [] || s[n] <= x then
      AppendLast(s, x);
      s + [x]
    else
      assert s == s[..n] + [s[n]];
      var r := InsertInt(s[..n], x);
      AppendLast(r, s[n]);
      r + [s[n]]
  }

  lemma AppendLast(s: seq<int>, x: int)
    requires NonDecreasing(s) && (s == [] || s[|s| - 1] <= x)
    ensures NonDecreasing(s + [x])
  {
  }

  // ----- Comparing two bitmaps -----

  /** The ticks set in `b` but not in `a`, over a set of words. */
  ghost function Gained(a: Bitmap, b: Bitmap, words: set<int>, spacing: int): set<int> {
    set w, i: nat | w in words && i < 256 && Bit(WordAt(b, w), i) && !Bit(WordAt(a, w), i) :: TickAt(w, i, spacing)
  }

  ghost function GainedIn(x: nat, y: nat, w: int, n: nat, spacing: int): set<int> {
    set i: nat | i < n && Bit(y, i) && !Bit(x, i) :: TickAt(w, i, spacing)
  }

  /** One pair of words: the flipped bits, split by their new value. */
  method DiffWords(oldWord: nat, newWord: nat, w: int, spacing: int) returns (added: seq<int>, removed: seq<int>)
    ensures Elements(added) == GainedIn(oldWord, newWord, w, 256, spacing)
    ensures Elements(removed) == GainedIn(newWord, oldWord, w, 256, spacing)
    ensures spacing != 0 ==> Distinct(added) && Distinct(removed)
  {
    added, removed := [], [];
    var changed := Xor(oldWord, newWord);
    for i := 0 to 256
      invariant Elements(added) == GainedIn(oldWord, newWord, w, i, spacing)
      invariant Elements(removed) == GainedIn(newWord, oldWord, w, i, spacing)
      invariant spacing != 0 ==> Distinct(added) && Distinct(removed)
    {
      XorBit(oldWord, newWord, i);
      GainedInGrows(oldWord, newWord, w, i, spacing);
      GainedInGrows(newWord, oldWord, w, i, spacing);
      if Bit(changed, i) {
        var tick := (w * 256 + i) * spacing;
        if Bit(newWord, i) {
          added := added + [tick];
        } else {
          removed := removed + [tick];
        }
      }
    }
  }

  lemma GainedInGrows(x: nat, y: nat, w: int, n: nat, spacing: int)
    requires n < 256
    ensures GainedIn(x, y, w, n + 1, spacing) ==
            GainedIn(x, y, w, n, spacing) + if Bit(y, n) && !Bit(x, n) then {TickAt(w, n, spacing)} else {}
    ensures spacing != 0 ==> TickAt(w, n, spacing) !in GainedIn(x, y, w, n, spacing)
  {
    WordGrows(y, w, n, spacing);
    assert GainedIn(x, y, w, n, spacing) <= WordTicks(y, w, n, spacing);
  }

  lemma GainedGrows(a: Bitmap, b: Bitmap, words: set<int>, w: int, spacing: int)
    ensures Gained(a, b, words + {w}, spacing) ==
            Gained(a, b, words, spacing) + GainedIn(WordAt(a, w), WordAt(b, w), w, 256, spacing)
    ensures spacing != 0 && w !in words ==>
      Gained(a, b, words, spacing) !! GainedIn(WordAt(a, w), WordAt(b, w), w, 256, spacing)
  {
    WordsGrow(b, words, w, spacing);
    assert Gained(a, b, words, spacing) <= TicksOfWords(b, words, spacing);
    assert GainedIn(WordAt(a, w), WordAt(b, w), w, 256, spacing) <= WordTicks(WordAt(b, w), w, 256, spacing);
  }

  /** The comparison yields precisely the two set differences of the decoded lists. */
  method DiffBitmaps(oldMap: Bitmap, newMap: Bitmap, spacing: int) returns (added: seq<int>, removed: seq<int>)
    ensures spacing != 0 ==> Elements(added) == TickSet(newMap, spacing) - TickSet(oldMap, spacing)
    ensures spacing != 0 ==> Elements(removed) == TickSet(oldMap, spacing) - TickSet(newMap, spacing)
    ensures spacing != 0 ==> Distinct(added) && Distinct(removed)
  {
    added, removed := [], [];
    var all := oldMap.Keys + newMap.Keys;
    var rest := all;
    ghost var seen: set<int> := {};
    while rest != {}
      invariant rest <= all && seen == all - rest
      invariant Elements(added) == Gained(oldMap, newMap, seen, spacing)
      invariant Elements(removed) == Gained(newMap, oldMap, seen, spacing)
      invariant spacing != 0 ==> Distinct(added) && Distinct(removed)
    {
      var w := Draw(rest);
      GainedGrows(oldMap, newMap, seen, w, spacing);
      GainedGrows(newMap, oldMap, seen, w, spacing);
      var oldWord, newWord := WordAt(oldMap, w), WordAt(newMap, w);
      if oldWord != newWord {
        var plus, minus := DiffWords(oldWord, newWord, w, spacing);
        added := Concat(added, plus);
        removed := Concat(removed, minus);
      }
      rest, seen := rest - {w}, seen + {w};
    }
    if spacing != 0 {
      GainedIsDifference(oldMap, newMap, all, spacing);
      GainedIsDifference(newMap, oldMap, all, spacing);
    }
  }

  lemma GainedIsDifference(a: Bitmap, b: Bitmap, words: set<int>, spacing: int)
    requires spacing != 0 && a.Keys <= words && b.Keys <= words
    ensures Gained(a, b, words, spacing) == TickSet(b, spacing) - TickSet(a, spacing)
  {
    forall i: nat { BitOfZero(i); }
    forall t ensures t in Gained(a, b, words, spacing) <==> t in TickSet(b, spacing) && t !in TickSet(a, spacing) {
      if t in Gained(a, b, words, spacing) {
        var w, i: nat :|
          w in words && i < 256 && Bit(WordAt(b, w), i) && !Bit(WordAt(a, w), i) && t == TickAt(w, i, spacing);
        if t in TickSet(a, spacing) {
          var v, j: nat :| v in a && j < 256 && Bit(a[v], j) && t == TickAt(v, j, spacing);
          TickAtInjective(w, i, v, j, spacing);
          assert false;
        }
      }
      if t in TickSet(b, spacing) && t !in TickSet(a, spacing) {
        var w, i: nat :| w in b && i < 256 && Bit(b[w], i) && t == TickAt(w, i, spacing);
        assert w in a ==> !Bit(a[w], i);
      }
    }
  }

  // ----- Which words to request -----

  function WordRange(spacing: int): Result<(int, int), ()> {
    if spacing <= 0 then Err(())
    else Ok((Quo(MIN_TICK, spacing) / 256, Quo(MAX_TICK, spacing) / 256))
  }

  /** Every aligned tick of the protocol range sits at exactly one (word, bit), inside the requested range,
      and every requested word fits the sixteen-bit position the provider casts it to. */
  lemma EveryTickRequested(spacing: int, tick: int)
    requires spacing > 0 && MIN_TICK <= tick <= MAX_TICK && tick % spacing == 0
    ensures WordRange(spacing).Ok?
    ensures var (lo, hi) := WordRange(spacing).value;
            var c := tick / spacing;
            && -0x8000 <= lo <= hi < 0x8000 && hi - lo + 1 < 0x8000
            && lo <= c / 256 <= hi && 0 <= c % 256 < 256 && TickAt(c / 256, c % 256, spacing) == tick
            && forall w: int, b: nat :: b < 256 && TickAt(w, b, spacing) == tick ==> w == c / 256 && b == c % 256
  {
    var c := tick / spacing;
    assert tick == c * spacing;
    assert c / 256 * 256 + c % 256 == c;
    QuoBrackets(MIN_TICK, spacing, c);
    QuoBrackets(MAX_TICK, spacing, c);
    QuoBrackets(MIN_TICK, spacing, MIN_TICK);
    QuoBrackets(MAX_TICK, spacing, MAX_TICK);
    RangeFits(spacing);
    forall w: int, b: nat | b < 256 && TickAt(w, b, spacing) == tick ensures w == c / 256 && b == c % 256 {
      TickAtInjective(w, b, c / 256, c % 256, spacing);
    }
  }

  lemma RangeFits(spacing: int)
    requires spacing > 0
    ensures MIN_TICK <= Quo(MIN_TICK, spacing) <= 0 <= Quo(MAX_TICK, spacing) <= MAX_TICK
  {
    FloorIs(MAX_TICK, spacing, 0);
    FloorIs(MAX_TICK, spacing, MAX_TICK + 1);
    MulMono(1, spacing, MAX_TICK + 1);
  }

  /** No more is requested than needed: both ends of the range hold an aligned tick of the protocol range. */
  lemma RangeTight(spacing: int)
    requires spacing > 0
    ensures WordRange(spacing).Ok? && forall s :: s <= 0 ==> WordRange(s).Err?
    ensures var (lo, hi) := WordRange(spacing).value;
            && (exists b: nat :: b < 256 && -887272 <= TickAt(lo, b, spacing) <= 887272)
            && (exists b: nat :: b < 256 && -887272 <= TickAt(hi, b, spacing) <= 887272)
  {
    RangeFits(spacing);
    QuoRange(MIN_TICK, spacing);
    QuoRange(MAX_TICK, spacing);
    var c, d := Quo(MIN_TICK, spacing), Quo(MAX_TICK, spacing);
    MulMono(c, 0, spacing);
    MulMono(0, d, spacing);
    assert TickAt(c / 256, c % 256, spacing) == c * spacing;
    assert TickAt(d / 256, d % 256, spacing) == d * spacing;
  }

  /** The provider's list of word positions: the whole range, ascending. */
  method WordPositions(spacing: int) returns (words: seq<int>)
    requires spacing > 0
    ensures var (lo, hi) := WordRange(spacing).value;
            |words| == hi - lo + 1 && forall i :: 0 <= i < |words| ==> words[i] == lo + i
  {
    RangeFits(spacing);
    var (lo, hi) := WordRange(spacing).value;
    var total := hi - lo + 1;
    words := [];
    for i := 0 to total
      invariant |words| == i && forall k :: 0 <= k < i ==> words[k] == lo + k
    {
      words := words + [lo + i];
    }
  }

  ghost function Flatten(batches: seq<seq<int>>): seq<int> {
    if batches == [] then [] else Flatten(batches[..|batches| - 1]) + batches[|batches| - 1]
  }

  /** Batching neither drops, repeats nor reorders a word, and no request is empty or oversized. */
  method Batches(words: seq<int>, batchSize: nat) returns (batches: seq<seq<int>>)
    requires batchSize > 0
    ensures Flatten(batches) == words
    ensures forall k :: 0 <= k < |batches| ==> 0 < |batches[k]| <= batchSize
    ensures forall k :: 0 <= k < |batches| - 1 ==> |batches[k]| == batchSize
  {
    batches := [];
    var i := 0;
    while i < |words|
      invariant 0 <= i <= |words|
      invariant Flatten(batches) == words[..i]
      invariant forall k :: 0 <= k < |batches| ==> 0 < |batches[k]| <= batchSize
      invariant forall k :: 0 <= k < |batches| && (k < |batches| - 1 || i < |words|) ==> |batches[k]| == batchSize
    {
      var end := i + batchSize;
      if end > |words| {
        end := |words|;
      }
      assert (batches + [words[i..end]])[..|batches|] == batches;
      assert words[..i] + words[i..end] == words[..end];
      batches := batches + [words[i..end]];
      i := end;
    }
    assert words[..|words|] == words;
  }
}
