/** The pipe world of Flappybird_Game/main.py: the screen constants, the pipe records,
    the rectangles tested for collision, and the three per-frame passes over the pipe list
    (scroll, cull, score) as functions on values. */
module PipeWorld {

  const WIDTH: int := 1200
  const HEIGHT: int := 600
  /** The bird's fixed horizontal position. */
  const BIRD_X: int := 50
  /** Vertical opening between the top and the bottom pipe. */
  const PIPE_GAP: int := 125
  /** Pixels every pipe moves left per frame. */
  const PIPE_SPEED: int := 10
  /** Bounds of random.randint(100, HEIGHT - 100 - pipe_gap) for a new pipe's gap. */
  const PIPE_Y_MIN: int := 100
  const PIPE_Y_MAX: int := HEIGHT - 100 - PIPE_GAP
  /** bird_speed after a flap. */
  const FLAP_SPEED: int := -6
  /** How many pixels the collision boxes are narrower and shorter than the pipe image. */
  const PIPE_MARGIN: int := 5

  /** One pipe pair: its left edge, the top of its gap and whether it has been scored. */
  datatype Pipe = Pipe(x: int, y: int, passed: bool)

  /** An integer rectangle, as pygame.Rect holds it. */
  datatype Rect = Rect(x: int, y: int, w: int, h: int)

  /** Rect.collidepoint: the point lies in the half-open box. */
  predicate ContainsPoint(r: Rect, px: int, py: int) {
    r.x <= px < r.x + r.w && r.y <= py < r.y + r.h
  }

  /** Rect.colliderect for rectangles of non-negative size: both have area and they
      overlap with positive area. */
  predicate Collide(a: Rect, b: Rect) {
    a.w > 0 && a.h > 0 && b.w > 0 && b.h > 0 &&
    a.x < b.x + b.w && b.x < a.x + a.w && a.y < b.y + b.h && b.y < a.y + a.h
  }

  /** Two rectangles collide exactly when some pixel lies in both. */
  lemma CollideIffSharedPixel(a: Rect, b: Rect)
    ensures Collide(a, b) <==> exists px, py :: ContainsPoint(a, px, py) && ContainsPoint(b, px, py)
  {
    if Collide(a, b) {
      var px := if a.x < b.x then b.x else a.x;
      var py := if a.y < b.y then b.y else a.y;
      assert ContainsPoint(a, px, py) && ContainsPoint(b, px, py);
    }
  }

  function BirdRect(birdY: int, birdW: nat, birdH: nat): Rect {
    Rect(BIRD_X, birdY, birdW, birdH)
  }

  /** The collision box of the upper pipe: it ends PIPE_MARGIN above the gap. */
  function TopPipeRect(p: Pipe, pipeW: int, pipeH: int): Rect {
    Rect(p.x, p.y - pipeH, pipeW - PIPE_MARGIN, pipeH - PIPE_MARGIN)
  }

  /** The collision box of the lower pipe: it starts at the bottom of the gap. */
  function BottomPipeRect(p: Pipe, pipeW: int, pipeH: int): Rect {
    Rect(p.x, p.y + PIPE_GAP, pipeW - PIPE_MARGIN, pipeH - PIPE_MARGIN)
  }

  predicate HitsPipe(bird: Rect, p: Pipe, pipeW: int, pipeH: int) {
    Collide(bird, TopPipeRect(p, pipeW, pipeH)) || Collide(bird, BottomPipeRect(p, pipeW, pipeH))
  }

  /** A bird whose box lies within the rows of the gap never hits that pipe. */
  lemma InsideGapIsSafe(bird: Rect, p: Pipe, pipeW: int, pipeH: int)
    requires p.y - PIPE_MARGIN <= bird.y && bird.y + bird.h <= p.y + PIPE_GAP
    ensures !HitsPipe(bird, p, pipeW, pipeH)
  {
  }

  /** Some pipe of ps is hit by the bird. */
  predicate HitsAny(bird: Rect, ps: seq<Pipe>, pipeW: int, pipeH: int) {
    |ps| > 0 && (HitsAny(bird, ps[..|ps| - 1], pipeW, pipeH) || HitsPipe(bird, ps[|ps| - 1], pipeW, pipeH))
  }

  /** HitsAny says that one of the pipes is hit, no more and no less. */
  lemma {:induction false} HitsAnyIffSome(bird: Rect, ps: seq<Pipe>, pipeW: int, pipeH: int)
    ensures HitsAny(bird, ps, pipeW, pipeH) <==> exists k :: 0 <= k < |ps| && HitsPipe(bird, ps[k], pipeW, pipeH)
  {
    if |ps| > 0 {
      var init := ps[..|ps| - 1];
      HitsAnyIffSome(bird, init, pipeW, pipeH);
      if HitsAny(bird, init, pipeW, pipeH) {
        var k :| 0 <= k < |init| && HitsPipe(bird, init[k], pipeW, pipeH);
        assert ps[k] == init[k];
      }
      if exists k :: 0 <= k < |ps| && HitsPipe(bird, ps[k], pipeW, pipeH) {
        var k :| 0 <= k < |ps| && HitsPipe(bird, ps[k], pipeW, pipeH);
        if k < |init| { assert init[k] == ps[k]; }
      }
    }
  }

  // ---------------------------------------------------------------------------
  // Scroll: every pipe moves left by PIPE_SPEED

  function ScrollOne(p: Pipe): Pipe {
    p.(x := p.x - PIPE_SPEED)
  }

  function Scrolled(ps: seq<Pipe>): (r: seq<Pipe>)
    ensures |r| == |ps|
  {
    seq(|ps|, i requires 0 <= i < |ps| => ScrollOne(ps[i]))
  }

  // ---------------------------------------------------------------------------
  // Cull: the comprehension that keeps the pipes still on screen

  /** Some column of the pipe is still at x > 0. */
  predicate OnScreen(p: Pipe, pipeW: int) {
    p.x + pipeW > 0
  }

  /** [pipe for pipe in pipes if pipe["x"] + pipe_width > 0] */
  function Cull(ps: seq<Pipe>, pipeW: int): (r: seq<Pipe>)
    ensures |r| <= |ps|
    ensures forall k :: 0 <= k < |r| ==> OnScreen(r[k], pipeW)
  {
    if ps == [] then []
    else
      var init, last := ps[..|ps| - 1], ps[|ps| - 1];
      Cull(init, pipeW) + (if OnScreen(last, pipeW) then [last] else [])
  }

  /** The culled list holds exactly the on-screen pipes of the old one. */
  lemma {:induction false} CullKeepsExactlyOnScreen(ps: seq<Pipe>, pipeW: int)
    ensures forall p :: p in Cull(ps, pipeW) <==> p in ps && OnScreen(p, pipeW)
  {
    if ps != [] {
      var init, last := ps[..|ps| - 1], ps[|ps| - 1];
      CullKeepsExactlyOnScreen(init, pipeW);
      assert ps == init + [last];
    }
  }

  /** Pipes ordered by their left edge, leftmost (oldest) first. */
  predicate SortedByX(ps: seq<Pipe>) {
    forall i, j :: 0 <= i < j < |ps| ==> ps[i].x <= ps[j].x
  }

  /** On a list ordered by x, culling drops a prefix: exactly the pipes that left the
      screen, and keeps the others in order. */
  lemma {:induction false} CullDropsPrefix(ps: seq<Pipe>, pipeW: int)
    requires SortedByX(ps)
    ensures var k := |ps| - |Cull(ps, pipeW)|;
      Cull(ps, pipeW) == ps[k..] && forall i :: 0 <= i < k ==> !OnScreen(ps[i], pipeW)
  {
    if ps != [] {
      var init, last := ps[..|ps| - 1], ps[|ps| - 1];
      assert SortedByX(init);
      CullDropsPrefix(init, pipeW);
      var c := Cull(init, pipeW);
      var k := |init| - |c|;
      if OnScreen(last, pipeW) {
        assert Cull(ps, pipeW) == c + [last];
        assert ps[k..] == init[k..] + [last];
      } else {
        // everything left of an off-screen pipe is off screen too, so nothing of init is kept
        assert Cull(ps, pipeW) == c;
        assert forall i :: 0 <= i < |init| ==> init[i].x <= last.x && !OnScreen(init[i], pipeW);
        CullAllOffScreen(init, pipeW);
      }
    }
  }

  lemma {:induction false} CullAllOffScreen(ps: seq<Pipe>, pipeW: int)
    requires forall i :: 0 <= i < |ps| ==> !OnScreen(ps[i], pipeW)
    ensures Cull(ps, pipeW) == []
  {
    if ps != [] { CullAllOffScreen(ps[..|ps| - 1], pipeW); }
  }

  // ---------------------------------------------------------------------------
  // Score: a pipe whose right edge is left of the bird counts once

  /** The pipe is behind the bird and has not been counted yet. */
  predicate Passing(p: Pipe, pipeW: int) {
    p.x + pipeW < BIRD_X && !p.passed
  }

  function MarkOne(p: Pipe, pipeW: int): Pipe {
    if Passing(p, pipeW) then p.(passed := true) else p
  }

  function Marked(ps: seq<Pipe>, pipeW: int): (r: seq<Pipe>)
    ensures |r| == |ps|
  {
    seq(|ps|, i requires 0 <= i < |ps| => MarkOne(ps[i], pipeW))
  }

  /** How many pipes of ps the scoring pass counts. */
  function NewlyPassed(ps: seq<Pipe>, pipeW: int): nat {
    if ps == [] then 0
    else NewlyPassed(ps[..|ps| - 1], pipeW) + (if Passing(ps[|ps| - 1], pipeW) then 1 else 0)
  }

  /** How many pipes of ps are flagged as passed. */
  function CountPassed(ps: seq<Pipe>): nat {
    if ps == [] then 0
    else CountPassed(ps[..|ps| - 1]) + (if ps[|ps| - 1].passed then 1 else 0)
  }

  lemma {:induction false} NewlyPassedBound(ps: seq<Pipe>, pipeW: int)
    ensures NewlyPassed(ps, pipeW) + CountPassed(ps) <= |ps|
  {
    if ps != [] { NewlyPassedBound(ps[..|ps| - 1], pipeW); }
  }

  /** Marking flips exactly the counted pipes: the score gained equals the new flags. */
  lemma {:induction false} MarkedCount(ps: seq<Pipe>, pipeW: int)
    ensures CountPassed(Marked(ps, pipeW)) == CountPassed(ps) + NewlyPassed(ps, pipeW)
  {
    if ps != [] {
      var init := ps[..|ps| - 1];
      MarkedCount(init, pipeW);
      assert Marked(ps, pipeW)[..|ps| - 1] == Marked(init, pipeW);
    }
  }

  /** Marking twice counts nothing more: a pipe scores at most once. */
  lemma {:induction false} MarkedNothingNew(ps: seq<Pipe>, pipeW: int)
    ensures NewlyPassed(Marked(ps, pipeW), pipeW) == 0
  {
    if ps != [] {
      var init := ps[..|ps| - 1];
      MarkedNothingNew(init, pipeW);
      assert Marked(ps, pipeW)[..|ps| - 1] == Marked(init, pipeW);
    }
  }

  lemma {:induction false} CountPassedScrolled(ps: seq<Pipe>)
    ensures CountPassed(Scrolled(ps)) == CountPassed(ps)
  {
    if ps != [] {
      CountPassedScrolled(ps[..|ps| - 1]);
      assert Scrolled(ps)[..|ps| - 1] == Scrolled(ps[..|ps| - 1]);
    }
  }

  /** When every off-screen pipe has been scored, culling removes only scored pipes. */
  lemma {:induction false} CullRemovesScored(ps: seq<Pipe>, pipeW: int)
    requires forall k :: 0 <= k < |ps| && !OnScreen(ps[k], pipeW) ==> ps[k].passed
    ensures CountPassed(Cull(ps, pipeW)) + (|ps| - |Cull(ps, pipeW)|) == CountPassed(ps)
  {
    if ps != [] {
      var init, last := ps[..|ps| - 1], ps[|ps| - 1];
      forall k | 0 <= k < |init| && !OnScreen(init[k], pipeW) ensures init[k].passed {
        assert init[k] == ps[k];
      }
      CullRemovesScored(init, pipeW);
      var c := Cull(init, pipeW);
      assert CountPassed(ps) == CountPassed(init) + (if last.passed then 1 else 0);
      if OnScreen(last, pipeW) {
        assert Cull(ps, pipeW) == c + [last];
        assert (c + [last])[..|c|] == c;
      } else {
        assert Cull(ps, pipeW) == c;
        assert last.passed;
      }
    }
  }

  // ---------------------------------------------------------------------------
  // What holds of the pipe list between frames

  /** No pipe is right of where pipes are spawned. */
  predicate NotRightOfSpawn(ps: seq<Pipe>) {
    forall k :: 0 <= k < |ps| ==> ps[k].x <= WIDTH
  }

  /** A pipe is flagged exactly when it is behind the bird. */
  predicate PassedMatchesPosition(ps: seq<Pipe>, pipeW: int) {
    forall k :: 0 <= k < |ps| ==> (ps[k].passed <==> ps[k].x + pipeW < BIRD_X)
  }

  predicate WellFormed(ps: seq<Pipe>, pipeW: int) {
    SortedByX(ps) && NotRightOfSpawn(ps) && PassedMatchesPosition(ps, pipeW)
  }

  /** The frame's pipe passes, in order. */
  function FrameStep(ps: seq<Pipe>, pipeW: int): seq<Pipe> {
    Marked(Cull(Scrolled(ps), pipeW), pipeW)
  }

  /** Because PIPE_SPEED < BIRD_X, a pipe is scored on some frame before the frame that
      culls it: every pipe culled by a frame was already flagged. */
  lemma CulledWereScored(ps: seq<Pipe>, pipeW: int)
    requires PassedMatchesPosition(ps, pipeW)
    ensures forall k :: 0 <= k < |ps| && !OnScreen(Scrolled(ps)[k], pipeW) ==> Scrolled(ps)[k].passed
  {
  }

  /** One frame keeps the pipe list well formed. */
  lemma {:induction false} FrameStepWellFormed(ps: seq<Pipe>, pipeW: int)
    requires WellFormed(ps, pipeW)
    ensures WellFormed(FrameStep(ps, pipeW), pipeW)
  {
    var s := Scrolled(ps);
    ScrolledShape(ps, pipeW);
    var c := Cull(s, pipeW);
    CullDropsPrefix(s, pipeW);
    SuffixShape(s, |s| - |c|, pipeW);
    MarkedShape(c, pipeW);
  }

  lemma ScrolledShape(ps: seq<Pipe>, pipeW: int)
    requires WellFormed(ps, pipeW)
    ensures var s := Scrolled(ps);
      SortedByX(s) && NotRightOfSpawn(s)
      && forall i :: 0 <= i < |s| ==> (s[i].passed <==> s[i].x + pipeW + PIPE_SPEED < BIRD_X)
  {
  }

  lemma SuffixShape(s: seq<Pipe>, k: nat, pipeW: int)
    requires k <= |s| && SortedByX(s) && NotRightOfSpawn(s)
    requires forall i :: 0 <= i < |s| ==> (s[i].passed <==> s[i].x + pipeW + PIPE_SPEED < BIRD_X)
    ensures var c := s[k..];
      SortedByX(c) && NotRightOfSpawn(c)
      && forall i :: 0 <= i < |c| ==> (c[i].passed <==> c[i].x + pipeW + PIPE_SPEED < BIRD_X)
  {
    var c := s[k..];
    assert forall i :: 0 <= i < |c| ==> c[i] == s[k + i];
  }

  lemma MarkedShape(c: seq<Pipe>, pipeW: int)
    requires SortedByX(c) && NotRightOfSpawn(c)
    requires forall i :: 0 <= i < |c| ==> (c[i].passed <==> c[i].x + pipeW + PIPE_SPEED < BIRD_X)
    ensures WellFormed(Marked(c, pipeW), pipeW)
  {
    var m := Marked(c, pipeW);
    assert forall i :: 0 <= i < |m| ==> m[i].x == c[i].x;
  }

  /** Score bookkeeping of one frame: the pipes culled were all scored, and the scoring
      pass flags exactly the pipes it counts. */
  lemma {:induction false} FrameStepCount(ps: seq<Pipe>, pipeW: int)
    requires PassedMatchesPosition(ps, pipeW)
    ensures var c := Cull(Scrolled(ps), pipeW);
      CountPassed(FrameStep(ps, pipeW)) + (|ps| - |c|) == CountPassed(ps) + NewlyPassed(c, pipeW)
  {
    var s := Scrolled(ps);
    CulledWereScored(ps, pipeW);
    CullRemovesScored(s, pipeW);
    CountPassedScrolled(ps);
    MarkedCount(Cull(s, pipeW), pipeW);
  }

  /** A new pipe at the right edge keeps the list well formed. */
  lemma SpawnWellFormed(ps: seq<Pipe>, pipeW: int, y: int)
    requires WellFormed(ps, pipeW) && pipeW > PIPE_MARGIN
    ensures WellFormed(ps + [Pipe(WIDTH, y, false)], pipeW)
  {
  }
}
