/** Rolling-window statistics. A history of staggered blocks is kept: every frame
    is added to every block, a fresh block joins every `2^refresh` frames, and
    once `2^window` blocks are there the oldest leaves and becomes the current
    window. `Expected` says the same thing from scratch, straight from the
    recorded samples. */
module Windows {
  import opened Rings
  import opened Arithmetic

  function Pow2(bits: nat): (p: nat)
    ensures 0 < p
  {
    if bits == 0 then 1 else 2 * Pow2(bits - 1)
  }

  function Sum(xs: seq<nat>): nat {
    if xs == [] then 0 else Sum(xs[..|xs| - 1]) + xs[|xs| - 1]
  }

  function SumOfSquares(xs: seq<nat>): nat {
    if xs == [] then 0 else SumOfSquares(xs[..|xs| - 1]) + xs[|xs| - 1] * xs[|xs| - 1]
  }

  /** `ChannelBlock` without its histogram. */
  datatype Block = Block(runner: nat, sumOfSquares: nat) {
    function Add(x: nat): Block {
      Block(runner + x, sumOfSquares + x * x)
    }
  }

  /** One metric's deque of blocks and the completed window. */
  datatype Rolling = Rolling(history: seq<Block>, current: Option<Block>)

  // ---- the plain recomputation ----

  function BlockOf(xs: seq<nat>): Block {
    Block(Sum(xs), SumOfSquares(xs))
  }

  /** Blocks kept after `k` rotations. */
  function Depth(k: nat, buckets: nat): nat {
    Min(k + 1, buckets)
  }

  /** Rotations behind a history of `n` samples. */
  function Rotations(n: nat, perBucket: nat): nat
    requires 0 < perBucket
  {
    n / perBucket
  }

  /** The samples in front of rotation `k`. */
  function Before(k: nat, perBucket: nat): nat {
    k * perBucket
  }

  lemma BeforeInPast(n: nat, perBucket: nat, k: nat)
    requires 0 < perBucket && k <= Rotations(n, perBucket)
    ensures Before(k, perBucket) <= Before(Rotations(n, perBucket), perBucket) <= n
  {
    MulMonotone(k, n / perBucket, perBucket);
  }

  /** The window that closed at the last rotation: `buckets * perBucket` samples, or none yet. */
  function ClosedWindow(samples: seq<nat>, perBucket: nat, buckets: nat): (w: Option<seq<nat>>)
    requires 0 < perBucket && 0 < buckets
    ensures w.Some? <==> buckets <= |samples| / perBucket
    ensures w.Some? ==> |w.value| == buckets * perBucket
  {
    var k := Rotations(|samples|, perBucket);
    if k < buckets then None
    else
      BeforeInPast(|samples|, perBucket, k - buckets);
      assert (k - buckets) * perBucket == k * perBucket - buckets * perBucket;
      Some(samples[Before(k - buckets, perBucket)..Before(k, perBucket)])
  }

  /** The blocks still open: block `j` joined at rotation `k + 1 - len + j`. */
  function OpenBlocks(samples: seq<nat>, perBucket: nat, buckets: nat): (r: seq<Block>)
    requires 0 < perBucket && 0 < buckets
    ensures |r| == Depth(Rotations(|samples|, perBucket), buckets)
  {
    var n, k := |samples|, Rotations(|samples|, perBucket);
    seq(Depth(k, buckets), j requires 0 <= j < Depth(k, buckets) =>
      BeforeInPast(n, perBucket, k + 1 - Depth(k, buckets) + j);
      BlockOf(samples[Before(k + 1 - Depth(k, buckets) + j, perBucket)..]))
  }

  function Expected(samples: seq<nat>, perBucket: nat, buckets: nat): Rolling
    requires 0 < perBucket && 0 < buckets
  {
    Rolling(
      OpenBlocks(samples, perBucket, buckets),
      match ClosedWindow(samples, perBucket, buckets) {
        case Some(w) => Some(BlockOf(w))
        case None => None
      })
  }

  // ---- the incremental form ----

  function AddToAll(history: seq<Block>, x: nat): (r: seq<Block>)
    ensures |r| == |history|
  {
    seq(|history|, j requires 0 <= j < |history| => history[j].Add(x))
  }

  function Rotate(r: Rolling, buckets: nat): Rolling
    requires 0 < buckets
  {
    if buckets <= |r.history| then Rolling(r.history[1..] + [Block(0, 0)], Some(r.history[0]))
    else r.(history := r.history + [Block(0, 0)])
  }

  /** One frame, `done` frames into the bucket before it. */
  function Frame(r: Rolling, x: nat, done: nat, perBucket: nat, buckets: nat): Rolling
    requires 0 < buckets
  {
    var added := r.(history := AddToAll(r.history, x));
    if perBucket <= done + 1 then Rotate(added, buckets) else added
  }

  lemma BlockOfAppend(xs: seq<nat>, x: nat)
    ensures BlockOf(xs + [x]) == BlockOf(xs).Add(x)
  {
    assert (xs + [x])[..|xs|] == xs;
  }

  lemma NextQuotient(n: nat, m: nat)
    requires 0 < m
    ensures n % m + 1 < m ==> Rotations(n + 1, m) == Rotations(n, m) && (n + 1) % m == n % m + 1
    ensures n % m + 1 == m ==>
              Rotations(n + 1, m) == Rotations(n, m) + 1 && (n + 1) % m == 0 && Before(Rotations(n, m) + 1, m) == n + 1
  {
    var q, r := n / m, n % m;
    assert n == m * q + r;
    if r + 1 < m {
      ModUnique(n + 1, m, q, r + 1);
    } else {
      assert m * (q + 1) == n + 1;
      ModUnique(n + 1, m, q + 1, 0);
    }
  }

  /** Every block still open sees the new sample. */
  lemma AddedBlocks(samples: seq<nat>, x: nat, perBucket: nat, buckets: nat, j: nat)
    requires 0 < perBucket && 0 < buckets && j < Depth(Rotations(|samples|, perBucket), buckets)
    ensures var k := Rotations(|samples|, perBucket);
            var from := Before(k + 1 - Depth(k, buckets) + j, perBucket);
            from <= |samples|
            && AddToAll(OpenBlocks(samples, perBucket, buckets), x)[j] == BlockOf((samples + [x])[from..])
  {
    hide Rotations, Before, BlockOf;
    var k := Rotations(|samples|, perBucket);
    var from := Before(k + 1 - Depth(k, buckets) + j, perBucket);
    BeforeInPast(|samples|, perBucket, k + 1 - Depth(k, buckets) + j);
    assert (samples + [x])[from..] == samples[from..] + [x];
    BlockOfAppend(samples[from..], x);
  }

  /** The incremental frame keeps the history and the window equal to the recomputation. */
  lemma FrameKeepsExpected(samples: seq<nat>, x: nat, perBucket: nat, buckets: nat)
    requires 0 < perBucket && 0 < buckets
    ensures Frame(Expected(samples, perBucket, buckets), x, |samples| % perBucket, perBucket, buckets)
            == Expected(samples + [x], perBucket, buckets)
  {
    hide Rotations, Before, BlockOf, OpenBlocks, ClosedWindow;
    NextQuotient(|samples|, perBucket);
    if |samples| % perBucket + 1 < perBucket {
      SameBucket(samples, x, perBucket, buckets);
    } else {
      NewBucket(samples, x, perBucket, buckets);
    }
  }

  lemma SameBucket(samples: seq<nat>, x: nat, perBucket: nat, buckets: nat)
    requires 0 < perBucket && 0 < buckets
    requires Rotations(|samples + [x]|, perBucket) == Rotations(|samples|, perBucket)
    ensures OpenBlocks(samples + [x], perBucket, buckets) == AddToAll(OpenBlocks(samples, perBucket, buckets), x)
    ensures ClosedWindow(samples + [x], perBucket, buckets) == ClosedWindow(samples, perBucket, buckets)
  {
    hide Rotations, Before, BlockOf;
    var k := Rotations(|samples|, perBucket);
    var added := AddToAll(OpenBlocks(samples, perBucket, buckets), x);
    var now := OpenBlocks(samples + [x], perBucket, buckets);
    forall j | 0 <= j < Depth(k, buckets)
      ensures added[j] == now[j]
    {
      AddedBlocks(samples, x, perBucket, buckets, j);
    }
    assert added == now;
    if buckets <= k {
      BeforeInPast(|samples|, perBucket, k - buckets);
      var from, to := Before(k - buckets, perBucket), Before(k, perBucket);
      assert (samples + [x])[from..to] == samples[from..to];
    }
  }

  lemma NewBucket(samples: seq<nat>, x: nat, perBucket: nat, buckets: nat)
    requires 0 < perBucket && 0 < buckets
    requires Rotations(|samples + [x]|, perBucket) == Rotations(|samples|, perBucket) + 1
    requires |samples + [x]| == Before(Rotations(|samples|, perBucket) + 1, perBucket)
    ensures var was := Expected(samples, perBucket, buckets);
            Rotate(was.(history := AddToAll(was.history, x)), buckets) == Expected(samples + [x], perBucket, buckets)
  {
    hide Rotations, Before, BlockOf;
    var k, all := Rotations(|samples|, perBucket), samples + [x];
    var was, now := Expected(samples, perBucket, buckets), Expected(all, perBucket, buckets);
    var added := AddToAll(was.history, x);
    var rotated := Rotate(was.(history := added), buckets);
    var popped := if buckets <= k + 1 then 1 else 0;
    forall j | 0 <= j < Depth(k + 1, buckets)
      ensures rotated.history[j] == now.history[j]
    {
      if j + 1 < Depth(k + 1, buckets) {
        AddedBlocks(samples, x, perBucket, buckets, j + popped);
      } else {
        EmptyBlock(all);
      }
    }
    assert rotated.history == now.history;
    if buckets <= k + 1 {
      AddedBlocks(samples, x, perBucket, buckets, 0);
      var from := Before(k + 1 - buckets, perBucket);
      assert all[from..] == all[from..Before(k + 1, perBucket)];
    }
  }

  lemma EmptyBlock(samples: seq<nat>)
    ensures BlockOf(samples[|samples|..]) == Block(0, 0)
  {
  }

  // ---- the mutable form ----

  /** `iter_mut().for_each` over the blocks of one history. */
  method AddFrame(history: seq<Block>, x: nat) returns (r: seq<Block>)
    ensures r == AddToAll(history, x)
  {
    r := history;
    for i := 0 to |history|
      invariant |r| == |history|
      invariant forall j :: 0 <= j < |history| ==> r[j] == if j < i then history[j].Add(x) else history[j]
    {
      r := r[i := Block(r[i].runner + x, r[i].sumOfSquares + x * x)];
    }
  }

  /** The pop and push of one history at the end of a bucket. */
  method RotateBlocks(r: Rolling, buckets: nat) returns (s: Rolling)
    requires 0 < buckets
    ensures s == Rotate(r, buckets)
  {
    var history, current := r.history, r.current;
    if |history| >= buckets {
      current := Some(history[0]);
      history := history[1..];
    }
    history := history + [Block(0, 0)];
    s := Rolling(history, current);
  }
}
