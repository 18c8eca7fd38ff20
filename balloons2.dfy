/**
 * The integer and list logic of balloons2/balloons2.go: `clamp`, the
 * `Swap` of the balloon slice, and the bookkeeping of `updateBalloons`:
 * finished explosions, the one balloon a click may pop, and the in-place
 * removal of exploded balloons.
 *
 * A balloon is a shared pointer whose flags `updateBalloons` sets in place;
 * its position, direction, textures and timing are floating point or SDL
 * state and are not part of this model. Whether a balloon's explosion
 * animation has run out and whether the mouse lies inside a balloon's circle
 * are given per balloon as `finished` and `hits`.
 */
module Balloons2 {
  import opened Wrappers

  /** `clamp(min, max, v)`. */
  function Clamp(min: int, max: int, v: int): (r: int)
    ensures min <= max ==> min <= r <= max
    ensures min <= v <= max ==> r == v
    ensures v < min ==> r == min
    ensures v >= min && v > max ==> r == max
  {
    if v < min then min else if v > max then max else v
  }

  /** Clamping twice is clamping once, and clamping keeps the order of values. */
  lemma ClampIdempotentMonotone(min: int, max: int, v: int, u: int)
    requires min <= max
    ensures Clamp(min, max, Clamp(min, max, v)) == Clamp(min, max, v)
    ensures v <= u ==> Clamp(min, max, v) <= Clamp(min, max, u)
  {
  }

  class Balloon {
    var exploding: bool
    var exploded: bool

    /** `newBalloon`: neither exploding nor exploded. */
    constructor ()
      ensures !exploding && !exploded
    {
      exploding := false;
      exploded := false;
    }
  }

  /** `balloonArray.Swap(i, j)`: entries i and j trade places; no other entry moves. */
  method Swap(balloons: array<Balloon>, i: int, j: int)
    requires 0 <= i < balloons.Length && 0 <= j < balloons.Length
    modifies balloons
    ensures balloons[..] == old(balloons[..])[i := old(balloons[j])][j := old(balloons[i])]
  {
    balloons[i], balloons[j] := balloons[j], balloons[i];
  }

  datatype MouseState = MouseState(leftButton: bool, rightButton: bool, x: int, y: int)

  /** The highest index whose test is true, scanning from the end as `updateBalloons` does. */
  function LastHit(hits: seq<bool>): (r: Option<nat>)
    ensures r.Some? ==> r.value < |hits| && hits[r.value]
    decreases |hits|
  {
    if hits == [] then None
    else if hits[|hits| - 1] then Some(|hits| - 1)
    else LastHit(hits[..|hits| - 1])
  }

  /** `LastHit` is the highest hit, and there is none exactly when no balloon is hit. */
  lemma {:induction false} LastHitIsHighest(hits: seq<bool>, j: int)
    ensures LastHit(hits) == Some(j) <==> HighestHit(hits, j)
    ensures LastHit(hits) == None <==> forall k :: 0 <= k < |hits| ==> !hits[k]
    decreases |hits|
  {
    if hits != [] && !hits[|hits| - 1] {
      var init := hits[..|hits| - 1];
      LastHitIsHighest(init, j);
      assert forall k :: 0 <= k < |init| ==> init[k] == hits[k];
    }
  }

  /** Balloon `j` is hit and no balloon after it is. */
  ghost predicate HighestHit(hits: seq<bool>, j: int)
  {
    0 <= j < |hits| && hits[j] && forall k :: j < k < |hits| ==> !hits[k]
  }

  /** The balloon a click pops: the highest-index hit, when the left button went down in this frame. */
  function Popped(current: MouseState, prev: MouseState, hits: seq<bool>): Option<nat>
  {
    if !prev.leftButton && current.leftButton then LastHit(hits) else None
  }

  /** The balloon objects of the slice are distinct. */
  ghost predicate Distinct(balloons: array<Balloon>, n: int)
    reads balloons
    requires 0 <= n <= balloons.Length
  {
    forall i, j :: 0 <= i < j < n ==> balloons[i] != balloons[j]
  }

  /**
   * The loop of `updateBalloons` over the flags, from the last balloon to
   * the first: a balloon whose explosion has run out becomes exploded, and
   * the first hit met (the highest index) starts exploding; `balloonClicked`
   * keeps any other balloon from being popped in the same call.
   * `someExploded` is the source's `balloonExploded`.
   */
  method MarkBalloons(balloons: array<Balloon>, n: int, current: MouseState, prev: MouseState,
                      hits: seq<bool>, finished: seq<bool>) returns (someExploded: bool)
    requires 0 <= n <= balloons.Length && |hits| == n && |finished| == n && Distinct(balloons, n)
    modifies set i | 0 <= i < n :: balloons[i]
    ensures someExploded == exists i :: 0 <= i < n && old(balloons[i].exploding) && finished[i]
    ensures forall i :: 0 <= i < n ==>
      balloons[i].exploded == (old(balloons[i].exploded) || (old(balloons[i].exploding) && finished[i]))
    ensures forall i :: 0 <= i < n ==>
      balloons[i].exploding == (Popped(current, prev, hits) == Some(i) || (old(balloons[i].exploding) && !finished[i]))
  {
    ghost var exploding0 := seq(n, j requires 0 <= j < n reads balloons, balloons[..] => balloons[j].exploding);
    ghost var exploded0 := seq(n, j requires 0 <= j < n reads balloons, balloons[..] => balloons[j].exploded);
    var balloonClicked := false;
    someExploded := false;
    var click := !prev.leftButton && current.leftButton;
    var i := n - 1;
    while i >= 0
      invariant -1 <= i < n
      invariant Marked(balloons, n, i, click, balloonClicked, someExploded, hits, finished, exploding0, exploded0)
    {
      balloonClicked, someExploded :=
        MarkStep(balloons, n, i, click, balloonClicked, someExploded, hits, finished, exploding0, exploded0);
      i := i - 1;
    }
    forall j | 0 <= j < n
      ensures balloons[j].exploding == (Popped(current, prev, hits) == Some(j) || (old(balloons[j].exploding) && !finished[j]))
    {
      LastHitIsHighest(hits, j);
    }
  }

  /**
   * The loop invariant of `MarkBalloons` once the balloons above `i` are
   * done: those have their new flags, the others their original ones
   * (`exploding0`, `exploded0`), and the latch and `balloonExploded` record
   * what the done ones showed.
   */
  ghost predicate Marked(balloons: array<Balloon>, n: int, i: int, click: bool, clicked: bool, someExploded: bool,
                         hits: seq<bool>, finished: seq<bool>, exploding0: seq<bool>, exploded0: seq<bool>)
    reads balloons, balloons[..]
  {
    -1 <= i < n <= balloons.Length && |hits| == n && |finished| == n && |exploding0| == n && |exploded0| == n &&
    (clicked == (click && exists k :: i < k < n && hits[k])) &&
    (someExploded == exists k :: i < k < n && exploding0[k] && finished[k]) &&
    (forall j :: 0 <= j <= i ==> balloons[j].exploded == exploded0[j] && balloons[j].exploding == exploding0[j]) &&
    (forall j :: i < j < n ==> balloons[j].exploded == (exploded0[j] || (exploding0[j] && finished[j]))) &&
    (forall j :: i < j < n ==> balloons[j].exploding == ((click && HighestHit(hits, j)) || (exploding0[j] && !finished[j])))
  }

  /** One iteration of the loop of `updateBalloons`, on balloon `i`. */
  method MarkStep(balloons: array<Balloon>, n: int, i: int, click: bool, clicked: bool, someExploded: bool,
                  hits: seq<bool>, finished: seq<bool>, ghost exploding0: seq<bool>, ghost exploded0: seq<bool>)
    returns (clicked': bool, someExploded': bool)
    requires 0 <= i < n <= balloons.Length && Distinct(balloons, n)
    requires Marked(balloons, n, i, click, clicked, someExploded, hits, finished, exploding0, exploded0)
    modifies balloons[i]
    ensures Marked(balloons, n, i - 1, click, clicked', someExploded', hits, finished, exploding0, exploded0)
  {
    var balloon := balloons[i];
    var ended, popped := MarkOne(balloon, finished[i], !clicked && click && hits[i]);
    someExploded' := someExploded || ended;
    clicked' := clicked || popped;
  }

  /**
   * The body of the loop for one balloon: an explosion that has run out
   * makes it exploded, and a pop (a hit the latch lets through) makes it
   * exploding.
   */
  method MarkOne(balloon: Balloon, finished: bool, pop: bool) returns (ended: bool, popped: bool)
    modifies balloon
    ensures ended == (old(balloon.exploding) && finished) && popped == pop
    ensures balloon.exploded == (old(balloon.exploded) || ended)
    ensures balloon.exploding == (pop || (old(balloon.exploding) && !finished))
  {
    ended, popped := false, false;
    if balloon.exploding {
      if finished {
        balloon.exploding := false;
        balloon.exploded := true;
        ended := true;
      }
    }
    if pop {
      popped := true;
      balloon.exploding := true;
    }
  }

  /** The balloons of `bs` that have not exploded, in their order. */
  ghost function Kept(bs: seq<Balloon>): (r: seq<Balloon>)
    reads bs
    ensures |r| <= |bs|
    decreases |bs|
  {
    if bs == [] then []
    else Kept(bs[..|bs| - 1]) + (if bs[|bs| - 1].exploded then [] else [bs[|bs| - 1]])
  }

  /** `Kept` with the exploded flags given as values: the balloons whose flag is false, in order. */
  function KeepBy(bs: seq<Balloon>, flags: seq<bool>): (r: seq<Balloon>)
    requires |flags| == |bs|
    ensures |r| <= |bs|
  {
    if bs == [] then []
    else KeepBy(bs[..|bs| - 1], flags[..|bs| - 1]) + (if flags[|bs| - 1] then [] else [bs[|bs| - 1]])
  }

  lemma KeepByStep(bs: seq<Balloon>, flags: seq<bool>, k: nat)
    requires |flags| == |bs| && k < |bs|
    ensures KeepBy(bs[..k + 1], flags[..k + 1]) == KeepBy(bs[..k], flags[..k]) + (if flags[k] then [] else [bs[k]])
  {
    assert bs[..k + 1][..k] == bs[..k];
    assert flags[..k + 1][..k] == flags[..k];
  }

  /** With the flags read from the balloons, `KeepBy` is `Kept`. */
  lemma {:induction false} KeptIsKeepBy(bs: seq<Balloon>, flags: seq<bool>)
    requires |flags| == |bs| && forall i :: 0 <= i < |bs| ==> flags[i] == bs[i].exploded
    ensures Kept(bs) == KeepBy(bs, flags)
    decreases |bs|
  {
    if bs != [] {
      KeptIsKeepBy(bs[..|bs| - 1], flags[..|bs| - 1]);
    }
  }

  /** A balloon is kept exactly when it is in the list and has not exploded; with nothing exploded, all stay. */
  lemma {:induction false} KeptExactly(bs: seq<Balloon>, b: Balloon)
    ensures b in Kept(bs) <==> b in bs && !b.exploded
    ensures (forall k :: 0 <= k < |bs| ==> !bs[k].exploded) ==> Kept(bs) == bs
  {
    KeptMember(bs, b);
    KeptNone(bs);
  }

  /** A balloon is kept exactly when it is in the list and has not exploded. */
  lemma {:induction false} KeptMember(bs: seq<Balloon>, b: Balloon)
    ensures b in Kept(bs) <==> b in bs && !b.exploded
    decreases |bs|
  {
    if bs != [] {
      var init := bs[..|bs| - 1];
      KeptMember(init, b);
      assert bs == init + [bs[|bs| - 1]];
    }
  }

  /** With nothing exploded, every balloon stays. */
  lemma {:induction false} KeptNone(bs: seq<Balloon>)
    ensures (forall k :: 0 <= k < |bs| ==> !bs[k].exploded) ==> Kept(bs) == bs
    decreases |bs|
  {
    if bs != [] {
      var init := bs[..|bs| - 1];
      KeptNone(init);
      assert bs == init + [bs[|bs| - 1]];
    }
  }

  /** Keeping distributes over concatenation, so relative order is preserved. */
  lemma {:induction false} KeptAppend(a: seq<Balloon>, c: seq<Balloon>)
    ensures Kept(a + c) == Kept(a) + Kept(c)
    decreases |c|
  {
    if c == [] {
      assert a + c == a;
    } else {
      var init := c[..|c| - 1];
      assert (a + c)[..|a + c| - 1] == a + init;
      assert (a + c)[|a + c| - 1] == c[|c| - 1];
      KeptAppend(a, init);
    }
  }

  /**
   * The compaction of `updateBalloons`: `balloons[0:0]` appended with each
   * balloon that has not exploded, in order, over the same backing array.
   * The first `m` entries become the kept balloons; the entries from `m` on
   * are never written.
   */
  method Compact(balloons: array<Balloon>, n: int) returns (m: int)
    requires 0 <= n <= balloons.Length
    modifies balloons
    ensures 0 <= m <= n && balloons[..m] == Kept(old(balloons[..n]))
    ensures forall j :: m <= j < balloons.Length ==> balloons[j] == old(balloons[j])
  {
    ghost var orig := balloons[..n];
    ghost var flags := seq(n, i requires 0 <= i < n reads orig => orig[i].exploded);
    m := 0;
    var k := 0;
    while k < n
      invariant 0 <= m <= k <= n
      invariant balloons[..m] == KeepBy(orig[..k], flags[..k])
      invariant forall j :: m <= j < balloons.Length ==> balloons[j] == old(balloons[j])
    {
      var balloon := balloons[k];
      assert balloon == orig[k];
      KeepByStep(orig, flags, k);
      if !balloon.exploded {
        Put(balloons, m, balloon);
        m := m + 1;
      }
      k := k + 1;
    }
    assert orig[..n] == orig && flags[..n] == flags;
    KeptIsKeepBy(orig, flags);
  }

  /** `append` onto the reused slice: entry `m` is overwritten, the prefix before it kept. */
  method Put(balloons: array<Balloon>, m: int, balloon: Balloon)
    requires 0 <= m < balloons.Length
    modifies balloons
    ensures balloons[..m + 1] == old(balloons[..m]) + [balloon]
    ensures forall j :: 0 <= j < balloons.Length && j != m ==> balloons[j] == old(balloons[j])
  {
    balloons[m] := balloon;
  }

  /**
   * `updateBalloons` on the slice `balloons[..n]`: the flags as
   * `MarkBalloons` sets them, then, only when some explosion finished, the
   * exploded balloons are dropped; the returned slice is `balloons[..m]`.
   */
  method UpdateBalloons(balloons: array<Balloon>, n: int, current: MouseState, prev: MouseState,
                        hits: seq<bool>, finished: seq<bool>) returns (m: int)
    requires 0 <= n <= balloons.Length && |hits| == n && |finished| == n && Distinct(balloons, n)
    modifies balloons, set i | 0 <= i < n :: balloons[i]
    ensures 0 <= m <= n
    ensures forall i :: 0 <= i < n ==>
      old(balloons[i]).exploded == (old(balloons[i].exploded) || (old(balloons[i].exploding) && finished[i]))
    ensures forall i :: 0 <= i < n ==>
      old(balloons[i]).exploding == (Popped(current, prev, hits) == Some(i) || (old(balloons[i].exploding) && !finished[i]))
    ensures balloons[..m] ==
      if exists i :: 0 <= i < n && old(balloons[i].exploding) && finished[i] then Kept(old(balloons[..n])) else old(balloons[..n])
  {
    var balloonExploded := MarkBalloons(balloons, n, current, prev, hits, finished);
    if balloonExploded {
      m := Compact(balloons, n);
    } else {
      m := n;
    }
  }
}
