/** `chunk_by_json_size` of itertools.py: greedy chunks under a byte budget, and their optimality. */
module JsonChunks {
  import opened Wrappers

  type Bytes = seq<bv8>

  datatype Error = BadSizeHint | ItemTooLarge

  const OPEN_CLOSE_BRACKET_SIZE := 2

  /** The elements with a comma between neighbours. */
  function Joined<T>(items: seq<T>, dump: T -> Bytes): Bytes {
    if items == [] then []
    else
      var n := |items| - 1;
      Joined(items[..n], dump) + (if n > 0 then [44] else []) + dump(items[n])
  }

  /** The compact JSON array of the items. */
  function Encode<T>(items: seq<T>, dump: T -> Bytes): Bytes {
    [91] + Joined(items, dump) + [93]
  }

  predicate Fits<T>(chunk: seq<T>, hint: int, dump: T -> Bytes) {
    |Encode(chunk, dump)| <= hint
  }

  function Concat<T>(chunks: seq<seq<T>>): seq<T> {
    if chunks == [] then [] else Concat(chunks[..|chunks| - 1]) + chunks[|chunks| - 1]
  }

  lemma ConcatAppend<T>(chunks: seq<seq<T>>, c: seq<T>)
    ensures Concat(chunks + [c]) == Concat(chunks) + c
  {
    assert (chunks + [c])[..|chunks|] == chunks;
  }

  lemma EncodeAppend<T>(chunk: seq<T>, x: T, dump: T -> Bytes)
    ensures |Encode(chunk + [x], dump)| == |Encode(chunk, dump)| + |dump(x)| + (if chunk == [] then 0 else 1)
  {
    assert (chunk + [x])[..|chunk|] == chunk;
  }

  /** A longer run of items never encodes shorter. */
  lemma {:induction false} EncodeGrowsRight<T>(s: seq<T>, t: seq<T>, dump: T -> Bytes)
    ensures |Encode(s, dump)| <= |Encode(s + t, dump)|
  {
    if t == [] {
      assert s + t == s;
    } else {
      var n := |t| - 1;
      EncodeGrowsRight(s, t[..n], dump);
      EncodeAppend(s + t[..n], t[n], dump);
      assert s + t == s + t[..n] + [t[n]];
    }
  }

  lemma {:induction false} EncodeGrowsLeft<T>(s: seq<T>, t: seq<T>, dump: T -> Bytes)
    ensures |Encode(t, dump)| <= |Encode(s + t, dump)|
  {
    if t == [] {
      EncodeGrowsRight([], s, dump);
      assert [] + s == s + t;
    } else {
      var n := |t| - 1;
      EncodeGrowsLeft(s, t[..n], dump);
      EncodeAppend(s + t[..n], t[n], dump);
      EncodeAppend(t[..n], t[n], dump);
      assert s + t == s + t[..n] + [t[n]];
      assert t == t[..n] + [t[n]];
    }
  }

  lemma EncodeWidens<T>(items: seq<T>, a: nat, b: nat, c: nat, d: nat, dump: T -> Bytes)
    requires a <= b <= c <= d <= |items|
    ensures |Encode(items[b..c], dump)| <= |Encode(items[a..d], dump)|
  {
    hide Encode;
    EncodeGrowsRight(items[b..c], items[c..d], dump);
    EncodeGrowsLeft(items[a..b], items[b..d], dump);
    assert items[b..c] + items[c..d] == items[b..d];
    assert items[a..b] + items[b..d] == items[a..d];
  }

  // ---------- Minimality ----------

  /** `next` is not empty, and its first item would not fit in `chunk`. */
  predicate NoRoom<T>(chunk: seq<T>, next: seq<T>, hint: int, dump: T -> Bytes) {
    next != [] && !Fits(chunk + [next[0]], hint, dump)
  }

  /** No chunk is empty, and every chunk but the last has no room for the item that follows it. */
  ghost predicate Greedy<T>(chunks: seq<seq<T>>, hint: int, dump: T -> Bytes) {
    && (forall i :: 0 <= i < |chunks| ==> chunks[i] != [])
    && (forall i, j :: 0 <= i && j == i + 1 && j < |chunks| ==> NoRoom(chunks[i], chunks[j], hint, dump))
  }

  ghost predicate AllFit<T>(chunks: seq<seq<T>>, hint: int, dump: T -> Bytes) {
    forall i :: 0 <= i < |chunks| ==> Fits(chunks[i], hint, dump)
  }

  /** How many items the first `i` chunks hold. */
  function End<T>(chunks: seq<seq<T>>, i: nat): nat
    requires i <= |chunks|
  {
    if i == 0 then 0 else End(chunks, i - 1) + |chunks[i - 1]|
  }

  lemma {:induction false} EndOfPrefix<T>(chunks: seq<seq<T>>, n: nat, i: nat)
    requires i <= n <= |chunks|
    ensures End(chunks[..n], i) == End(chunks, i)
  {
    if i > 0 {
      EndOfPrefix(chunks, n, i - 1);
    }
  }

  lemma {:induction false} EndIsLength<T>(chunks: seq<seq<T>>)
    ensures End(chunks, |chunks|) == |Concat(chunks)|
  {
    if chunks != [] {
      var n := |chunks| - 1;
      EndIsLength(chunks[..n]);
      EndOfPrefix(chunks, n, n);
    }
  }

  /** Where chunk `i` lies in the concatenation. */
  lemma {:induction false} Segment<T>(chunks: seq<seq<T>>, i: nat)
    requires i < |chunks|
    ensures End(chunks, i + 1) <= |Concat(chunks)|
    ensures Concat(chunks)[End(chunks, i)..End(chunks, i + 1)] == chunks[i]
  {
    var n := |chunks| - 1;
    EndIsLength(chunks[..n]);
    EndOfPrefix(chunks, n, n);
    if i < n {
      Segment(chunks[..n], i);
      EndOfPrefix(chunks, n, i);
      EndOfPrefix(chunks, n, i + 1);
    }
  }

  /** A greedy chunk with the item after it, as a slice of the whole input. */
  lemma GreedySlice<T>(g: seq<seq<T>>, i: nat)
    requires i + 1 < |g| && g[i + 1] != []
    ensures End(g, i + 1) < |Concat(g)|
    ensures Concat(g)[End(g, i)..End(g, i + 1) + 1] == g[i] + [g[i + 1][0]]
  {
    Segment(g, i);
    Segment(g, i + 1);
    var b, c, d := End(g, i), End(g, i + 1), End(g, i + 2);
    assert Concat(g)[c] == Concat(g)[c..d][0];
    assert Concat(g)[b..c + 1] == Concat(g)[b..c] + [Concat(g)[c]];
  }

  /** A greedy chunk does not stretch to one more item. */
  lemma GreedySliceIsFull<T>(g: seq<seq<T>>, i: nat, hint: int, dump: T -> Bytes)
    requires Greedy(g, hint, dump) && i + 1 < |g|
    ensures End(g, i + 1) < |Concat(g)|
    ensures !Fits(Concat(g)[End(g, i)..End(g, i + 1) + 1], hint, dump)
  {
    GreedySlice(g, i);
    assert NoRoom(g[i], g[i + 1], hint, dump);
  }

  lemma ChunkSliceFits<T>(p: seq<seq<T>>, i: nat, hint: int, dump: T -> Bytes)
    requires AllFit(p, hint, dump) && i < |p|
    ensures End(p, i + 1) <= |Concat(p)|
    ensures Fits(Concat(p)[End(p, i)..End(p, i + 1)], hint, dump)
  {
    Segment(p, i);
  }

  /** A slice that fits and starts no later than a full one ends no later than it. */
  lemma NoOvertaking<T>(items: seq<T>, a: nat, b: nat, c: nat, d: nat, hint: int, dump: T -> Bytes)
    requires a <= b <= c < |items| && a <= d <= |items|
    requires Fits(items[a..d], hint, dump) && !Fits(items[b..c + 1], hint, dump)
    ensures d <= c
  {
    if c < d {
      EncodeWidens(items, a, b, c + 1, d, dump);
    }
  }

  lemma StaysAheadNext<T>(items: seq<T>, g: seq<seq<T>>, p: seq<seq<T>>, i: nat, hint: int, dump: T -> Bytes)
    requires Concat(g) == items && Concat(p) == items
    requires Greedy(g, hint, dump) && AllFit(p, hint, dump)
    requires i < |g| && i < |p| && End(p, i) <= End(g, i)
    ensures End(p, i + 1) <= End(g, i + 1)
  {
    hide Concat, Greedy, AllFit, Fits;
    ChunkSliceFits(p, i, hint, dump);
    if i + 1 == |g| {
      EndIsLength(g);
    } else {
      GreedySliceIsFull(g, i, hint, dump);
      NoOvertaking(items, End(p, i), End(g, i), End(g, i + 1), End(p, i + 1), hint, dump);
    }
  }

  /** After as many chunks the greedy partition has always consumed at least as many items. */
  lemma {:induction false} GreedyStaysAhead<T>(
      items: seq<T>, g: seq<seq<T>>, p: seq<seq<T>>, i: nat, hint: int, dump: T -> Bytes)
    requires Concat(g) == items && Concat(p) == items
    requires Greedy(g, hint, dump) && AllFit(p, hint, dump)
    requires i <= |g| && i <= |p|
    ensures End(p, i) <= End(g, i)
  {
    hide Concat, Greedy, AllFit;
    if i > 0 {
      GreedyStaysAhead(items, g, p, i - 1, hint, dump);
      StaysAheadNext(items, g, p, i - 1, hint, dump);
    }
  }

  /** No order-preserving partition into chunks that fit has fewer chunks than a greedy one. */
  lemma GreedyIsMinimal<T>(g: seq<seq<T>>, p: seq<seq<T>>, hint: int, dump: T -> Bytes)
    requires Concat(g) == Concat(p) && Greedy(g, hint, dump) && AllFit(p, hint, dump)
    ensures |g| <= |p|
  {
    if |p| < |g| {
      GreedyStaysAhead(Concat(g), g, p, |p|, hint, dump);
      EndIsLength(p);
      Segment(g, |p|);
    }
  }

  /**
   * The generator, drained: the chunks it yields, then its exception if there is one.  `pending`
   * is its local `chunk` at that point: items taken from the input but not yielded.
   */
  method ChunkByJsonSize<T>(items: seq<T>, sizeHintBytes: int, dump: T -> Bytes)
    returns (chunks: seq<seq<T>>, pending: seq<T>, raised: Option<Error>)
    ensures raised == Some(BadSizeHint) <==> sizeHintBytes <= 0
    ensures raised.None? <==> sizeHintBytes > 0 && forall x :: x in items ==> |dump(x)| + 2 <= sizeHintBytes
    ensures Greedy(chunks, sizeHintBytes, dump) && AllFit(chunks, sizeHintBytes, dump)
    ensures raised.None? ==> pending == [] && Concat(chunks) == items
    ensures raised.None? ==>
              forall p :: Concat(p) == items && AllFit(p, sizeHintBytes, dump) ==> |chunks| <= |p|
    ensures raised == Some(ItemTooLarge) ==>
              && Concat(chunks) + pending < items
              && (forall x :: x in Concat(chunks) + pending ==> |dump(x)| + 2 <= sizeHintBytes)
              && |dump(items[|Concat(chunks) + pending|])| + 2 > sizeHintBytes
              && (pending == [] ==> chunks == [])
              && (pending != [] ==>
                    Greedy(chunks + [pending], sizeHintBytes, dump) && Fits(pending, sizeHintBytes, dump))
    ensures raised == Some(BadSizeHint) ==> chunks == [] && pending == []
  {
    hide Encode, Concat, Greedy, AllFit;
    NothingYet(sizeHintBytes, dump);
    chunks, pending := [], [];
    if sizeHintBytes <= 0 {
      return chunks, pending, Some(BadSizeHint);
    }
    var chunkSize := OPEN_CLOSE_BRACKET_SIZE;
    var k := 0;
    while k < |items|
      invariant k <= |items| && Concat(chunks) + pending == items[..k]
      invariant chunkSize == |Encode(pending, dump)|
      invariant forall i :: 0 <= i < k ==> |dump(items[i])| + 2 <= sizeHintBytes
      invariant AllFit(chunks, sizeHintBytes, dump)
      invariant pending == [] ==> chunks == [] && k == 0
      invariant pending != [] ==> Fits(pending, sizeHintBytes, dump) && Greedy(chunks + [pending], sizeHintBytes, dump)
    {
      var item := items[k];
      var itemSize := |dump(item)|;
      if itemSize + OPEN_CLOSE_BRACKET_SIZE > sizeHintBytes {
        PrefixIsGreedy(chunks, pending, sizeHintBytes, dump);
        return chunks, pending, Some(ItemTooLarge);
      }
      var itemSizeWithSeparator := itemSize + if |pending| > 0 then 1 else 0;
      EncodeAppend(pending, item, dump);
      assert items[..k + 1] == items[..k] + [item];
      if chunkSize + itemSizeWithSeparator <= sizeHintBytes {
        GreedyGrows(chunks, pending, item, sizeHintBytes, dump);
        chunkSize := chunkSize + itemSizeWithSeparator;
        pending := pending + [item];
      } else {
        EncodeAppend([], item, dump);
        GreedyCloses(chunks, pending, item, sizeHintBytes, dump);
        ConcatAppend(chunks, pending);
        AllFitAppend(chunks, pending, sizeHintBytes, dump);
        assert [] + [item] == [item];
        chunks := chunks + [pending];
        chunkSize := itemSize + 2;
        pending := [item];
      }
      k := k + 1;
    }
    assert items[..k] == items;
    if pending != [] {
      ConcatAppend(chunks, pending);
      AllFitAppend(chunks, pending, sizeHintBytes, dump);
      chunks := chunks + [pending];
      pending := [];
    }
    raised := None;
    forall p | Concat(p) == items && AllFit(p, sizeHintBytes, dump)
      ensures |chunks| <= |p|
    {
      GreedyIsMinimal(chunks, p, sizeHintBytes, dump);
    }
  }

  lemma NothingYet<T>(hint: int, dump: T -> Bytes)
    ensures |Encode([], dump)| == OPEN_CLOSE_BRACKET_SIZE
    ensures Concat<T>([]) == [] && Greedy([], hint, dump) && AllFit([], hint, dump)
  {
  }

  lemma AllFitAppend<T>(chunks: seq<seq<T>>, c: seq<T>, hint: int, dump: T -> Bytes)
    requires AllFit(chunks, hint, dump) && Fits(c, hint, dump)
    ensures AllFit(chunks + [c], hint, dump)
  {
  }

  lemma PrefixIsGreedy<T>(chunks: seq<seq<T>>, pending: seq<T>, hint: int, dump: T -> Bytes)
    requires pending == [] ==> chunks == []
    requires pending != [] ==> Greedy(chunks + [pending], hint, dump)
    ensures Greedy(chunks, hint, dump)
  {
    var all := chunks + [pending];
    assert forall i :: 0 <= i < |chunks| ==> chunks[i] == all[i];
  }

  lemma GreedyGrows<T>(chunks: seq<seq<T>>, pending: seq<T>, x: T, hint: int, dump: T -> Bytes)
    requires pending == [] ==> chunks == []
    requires pending != [] ==> Greedy(chunks + [pending], hint, dump)
    ensures Greedy(chunks + [pending + [x]], hint, dump)
  {
    var before, after := chunks + [pending], chunks + [pending + [x]];
    assert forall i :: 0 <= i < |chunks| ==> after[i] == before[i];
    forall i, j | 0 <= i && j == i + 1 && j < |after|
      ensures NoRoom(after[i], after[j], hint, dump)
    {
      assert NoRoom(before[i], before[j], hint, dump);
    }
  }

  lemma GreedyCloses<T>(chunks: seq<seq<T>>, pending: seq<T>, x: T, hint: int, dump: T -> Bytes)
    requires pending != [] && Greedy(chunks + [pending], hint, dump) && !Fits(pending + [x], hint, dump)
    ensures Greedy(chunks + [pending] + [[x]], hint, dump)
  {
    var before, after := chunks + [pending], chunks + [pending] + [[x]];
    forall i, j | 0 <= i && j == i + 1 && j < |after|
      ensures NoRoom(after[i], after[j], hint, dump)
    {
      if j < |before| {
        assert NoRoom(before[i], before[j], hint, dump);
      }
    }
  }
}
