/** Fixed-size token windows: the specification of the chunking loop in
    summarize_transcript (cli.py:107-111). The window size is a parameter here;
    the summarizer instantiates it with 15000. */
module Chunking {

  function Min(a: int, b: int): (m: int)
  {
    if a <= b then a else b
  }

  /** The windows the loop cuts: the first `size` tokens (or all of them when
      fewer remain), then the windows of what is left. No tokens, no windows. */
  function Windows<T>(tokens: seq<T>, size: nat): (windows: seq<seq<T>>)
    requires size > 0
    ensures |windows| == 0 <==> |tokens| == 0
    ensures |windows| <= |tokens|
    decreases |tokens|
  {
    if |tokens| == 0 then []
    else
      var cut := Min(size, |tokens|);
      [tokens[..cut]] + Windows(tokens[cut..], size)
  }

  /** Concatenation of a sequence of token slices, in order. */
  function Flatten<T>(parts: seq<seq<T>>): (flat: seq<T>)
  {
    if |parts| == 0 then [] else parts[0] + Flatten(parts[1..])
  }

  /** Round trip at the token level: the windows, concatenated in order,
      are exactly the token sequence they were cut from. */
  lemma {:induction false} FlattenWindows<T>(tokens: seq<T>, size: nat)
    requires size > 0
    ensures Flatten(Windows(tokens, size)) == tokens
    decreases |tokens|
  {
    if |tokens| > 0 {
      var cut := Min(size, |tokens|);
      var w := Windows(tokens, size);
      assert w[0] == tokens[..cut];
      assert w[1..] == Windows(tokens[cut..], size);
      FlattenWindows(tokens[cut..], size);
      assert tokens[..cut] + tokens[cut..] == tokens;
    }
  }

  /** Every window holds between 1 and `size` tokens, and every window but
      the last holds exactly `size`. */
  lemma {:induction false} WindowSizes<T>(tokens: seq<T>, size: nat)
    requires size > 0
    ensures forall i :: 0 <= i < |Windows(tokens, size)| ==> 1 <= |Windows(tokens, size)[i]| <= size
    ensures forall i :: 0 <= i < |Windows(tokens, size)| - 1 ==> |Windows(tokens, size)[i]| == size
    decreases |tokens|
  {
    if |tokens| > 0 {
      var cut := Min(size, |tokens|);
      var w := Windows(tokens, size);
      var rest := Windows(tokens[cut..], size);
      assert w == [tokens[..cut]] + rest;
      WindowSizes(tokens[cut..], size);
      if cut < size {
        assert rest == [];
      }
      forall i | 1 <= i < |w|
        ensures 1 <= |w[i]| <= size
        ensures i < |w| - 1 ==> |w[i]| == size
      {
        assert w[i] == rest[i - 1];
      }
    }
  }

  /** The bounds that make the number of windows the ceiling of
      |tokens| / size. */
  lemma {:induction false} WindowCountBounds<T>(tokens: seq<T>, size: nat)
    requires size > 0
    ensures |Windows(tokens, size)| * size >= |tokens|
    ensures |tokens| > 0 ==> (|Windows(tokens, size)| - 1) * size < |tokens|
    ensures |Windows(tokens, size)| == 0 <==> |tokens| == 0
    decreases |tokens|
  {
    if |tokens| > 0 {
      var cut := Min(size, |tokens|);
      var k := |Windows(tokens[cut..], size)|;
      WindowCountBounds(tokens[cut..], size);
      assert |Windows(tokens, size)| == k + 1;
      MulStep(k + 1, size);
    }
  }

  /** Integer division is pinned down by its quotient's bounds. */
  lemma DivByBounds(n: int, d: int, q: int)
    requires d > 0 && q * d <= n < q * d + d
    ensures n / d == q
  {
    var q' := n / d;
    assert n == q' * d + n % d;
    assert (q' - q) * d == q' * d - q * d;
    MulAwayFromZero(q' - q, d);
  }

  /** A non-zero multiple of d is at least d away from zero. */
  lemma MulAwayFromZero(x: int, d: int)
    requires d > 0
    ensures x >= 1 ==> x * d >= d
    ensures x <= -1 ==> x * d <= -d
  {
  }

  /** The number of windows is ceil(|tokens| / size): none for no tokens,
      one for 1 to `size` tokens. */
  lemma WindowCount<T>(tokens: seq<T>, size: nat)
    requires size > 0
    ensures |Windows(tokens, size)| == (|tokens| + size - 1) / size
  {
    var k := |Windows(tokens, size)|;
    WindowCountBounds(tokens, size);
    if k == 0 {
      DivByBounds(|tokens| + size - 1, size, 0);
    } else {
      assert (k - 1) * size == k * size - size;
      DivByBounds(|tokens| + size - 1, size, k);
    }
  }

  /** Window i is the slice [i * size, min((i + 1) * size, |tokens|)) of the
      tokens: windows appear in source order and are never reordered. */
  lemma {:induction false} WindowAt<T>(tokens: seq<T>, size: nat, i: nat)
    requires size > 0
    requires i < |Windows(tokens, size)|
    ensures i * size < |tokens|
    ensures Windows(tokens, size)[i] == tokens[i * size .. Min((i + 1) * size, |tokens|)]
    decreases i
  {
    var cut := Min(size, |tokens|);
    var restTokens := tokens[cut..];
    assert Windows(tokens, size) == [tokens[..cut]] + Windows(restTokens, size);
    if i > 0 {
      WindowAt(restTokens, size, i - 1);
      var lo, mid, hi := (i - 1) * size, i * size, (i + 1) * size;
      MulStep(i, size);
      SliceShift(tokens, size, lo, Min(mid, |restTokens|));
    }
  }

  /** Consecutive multiples of size differ by size. */
  lemma MulStep(i: nat, size: nat)
    requires i > 0
    ensures (i - 1) * size + size == i * size
    ensures i * size + size == (i + 1) * size
  {
  }

  /** A slice of the tokens after the first `size` is the slice of the whole
      sequence shifted by `size`. */
  lemma SliceShift<T>(tokens: seq<T>, size: nat, lo: nat, hi: nat)
    requires size <= |tokens| && lo <= hi <= |tokens| - size
    ensures tokens[size..][lo..hi] == tokens[lo + size .. hi + size]
  {
  }

  /** A token sequence of 2 * size + k tokens, 0 < k < size, is cut into
      exactly three windows of size, size and k tokens. */
  lemma {:induction false} ThreeWindows<T>(tokens: seq<T>, size: nat, k: nat)
    requires size > 0 && 0 < k < size
    requires |tokens| == 2 * size + k
    ensures |Windows(tokens, size)| == 3
    ensures |Windows(tokens, size)[0]| == size
    ensures |Windows(tokens, size)[1]| == size
    ensures |Windows(tokens, size)[2]| == k
  {
    var r1 := tokens[size..];
    var r2 := r1[size..];
    assert |r2| == k;
    SingleWindow(r2, size);
    assert Windows(r1, size) == [r1[..size]] + [r2];
    assert Windows(tokens, size) == [tokens[..size]] + [r1[..size]] + [r2];
  }

  /** A non-empty token sequence of at most `size` tokens is one window:
      the whole sequence. */
  lemma {:induction false} SingleWindow<T>(tokens: seq<T>, size: nat)
    requires size > 0 && 0 < |tokens| <= size
    ensures Windows(tokens, size) == [tokens]
  {
    assert tokens[..|tokens|] == tokens;
    assert Windows(tokens[|tokens|..], size) == [];
  }
}
