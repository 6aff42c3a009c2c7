/** The gremlin as the stage sees it, and the stage's first pass over its
    gremlins each frame: count the hostiles, run every star collision, find
    the first active gremlin and latch its transform cue.

    The gremlin's own code (createGremlin, getStarCollision, isActive and
    gremlin.update) is not part of this model: the stage receives it as
    function parameters, so every statement here holds whatever values those
    functions compute. Each of them sees only its own gremlin (and the star
    it collides with); what the source's versions could do to the rest of
    the stage through their stage pointer is not modelled. */
module Gremlins {

  /** The colour that tile id 11 gives: a boulder, never counted as hostile. */
  const Boulder := 3

  /** A gremlin record. motion stands for the gremlin's own motion and
      animation state, which only its own update reads or writes. */
  datatype Gremlin = Gremlin(
    x: int, y: int, color: int, sleeping: bool,
    exist: bool, dying: bool, transformPlayed: bool,
    motion: int)

  /** A gremlin that still counts against the win condition. */
  predicate Hostile(g: Gremlin)
  {
    g.exist && g.color != Boulder
  }

  /** The number of hostile gremlins, as a set of positions. */
  function HostileCount(gs: seq<Gremlin>): nat
  {
    |set i | 0 <= i < |gs| && Hostile(gs[i])|
  }

  /** The gremlin after getStarCollision has been run against every star in
      collection order. */
  function Collided<S>(g: Gremlin, stars: seq<S>, collide: (Gremlin, S) -> Gremlin): Gremlin
    decreases |stars|
  {
    if stars == [] then g
    else collide(Collided(g, stars[..|stars| - 1], collide), stars[|stars| - 1])
  }

  /** Colliding with one list of stars and then another is colliding with
      both in a row. */
  lemma {:induction false} CollidedConcat<S>(g: Gremlin, a: seq<S>, b: seq<S>, collide: (Gremlin, S) -> Gremlin)
    ensures Collided(g, a + b, collide) == Collided(Collided(g, a, collide), b, collide)
    decreases |b|
  {
    if b == [] {
      assert a + b == a;
    } else {
      var init := b[..|b| - 1];
      assert (a + b)[..|a + b| - 1] == a + init;
      CollidedConcat(g, a, init, collide);
    }
  }

  /** What the first pass has produced so far: the gremlins it has handled,
      the hostile count, the frame's anyMoving and whether a transform cue is due. */
  datatype CheckState = CheckState(gremlins: seq<Gremlin>, hostile: nat, moving: bool, transforming: bool)

  /** One iteration of the first pass, for gremlin g. */
  function CheckStep<S>(p: CheckState, g: Gremlin, stars: seq<S>, collide: (Gremlin, S) -> Gremlin,
                        active: Gremlin -> bool): (q: CheckState)
    ensures |q.gremlins| == |p.gremlins| + 1 && q.gremlins[..|p.gremlins|] == p.gremlins
    ensures q.gremlins[|p.gremlins|]
            == Latched(Collided(g, stars, collide), !p.moving && active(Collided(g, stars, collide)))
    ensures q.hostile == if Hostile(g) then p.hostile + 1 else p.hostile
    ensures q.moving <==> p.moving || active(Collided(g, stars, collide))
    ensures q.transforming <==> p.transforming || Flips(Collided(g, stars, collide), q.gremlins[|p.gremlins|])
  {
    var hostile := if g.exist && g.color != Boulder then p.hostile + 1 else p.hostile;
    var c := Collided(g, stars, collide);
    if !p.moving && active(c) then
      var flip := c.dying && !c.transformPlayed;
      CheckState(p.gremlins + [if flip then c.(transformPlayed := true) else c], hostile, true, p.transforming || flip)
    else
      CheckState(p.gremlins + [c], hostile, p.moving, p.transforming)
  }

  /** The first pass over all gremlins in collection order. */
  function CheckPass<S>(gs: seq<Gremlin>, stars: seq<S>, collide: (Gremlin, S) -> Gremlin,
                        active: Gremlin -> bool): (p: CheckState)
    ensures |p.gremlins| == |gs|
    decreases |gs|
  {
    if gs == [] then CheckState([], 0, false, false)
    else CheckStep(CheckPass(gs[..|gs| - 1], stars, collide, active), gs[|gs| - 1], stars, collide, active)
  }

  /** The first pass over the first i + 1 gremlins is one more step after the first i. */
  lemma CheckPassPush<S>(gs: seq<Gremlin>, i: int, stars: seq<S>, collide: (Gremlin, S) -> Gremlin,
                         active: Gremlin -> bool)
    requires 0 <= i < |gs|
    ensures CheckPass(gs[..i + 1], stars, collide, active)
            == CheckStep(CheckPass(gs[..i], stars, collide, active), gs[i], stars, collide, active)
  {
    assert gs[..i + 1][..i] == gs[..i];
  }

  /** Gremlin j is the first one, in collection order, that is active once
      its star collisions have run. */
  predicate FirstActive<S>(gs: seq<Gremlin>, stars: seq<S>, collide: (Gremlin, S) -> Gremlin,
                           active: Gremlin -> bool, j: int)
    requires 0 <= j < |gs|
  {
    active(Collided(gs[j], stars, collide)) &&
    forall k :: 0 <= k < j ==> !active(Collided(gs[k], stars, collide))
  }

  /** The gremlin the first pass leaves behind: its collided state, with the
      transform flag latched when it is the first active gremlin and dying. */
  function Latched(c: Gremlin, first: bool): Gremlin
  {
    if first && c.dying then c.(transformPlayed := true) else c
  }

  lemma FirstActiveOfPrefix<S>(gs: seq<Gremlin>, n: int, stars: seq<S>, collide: (Gremlin, S) -> Gremlin,
                               active: Gremlin -> bool)
    requires 0 <= n <= |gs|
    ensures forall j :: 0 <= j < n ==>
              (FirstActive(gs[..n], stars, collide, active, j) <==> FirstActive(gs, stars, collide, active, j))
  {
    forall j | 0 <= j < n
      ensures FirstActive(gs[..n], stars, collide, active, j) <==> FirstActive(gs, stars, collide, active, j)
    {
      assert forall k :: 0 <= k <= j ==> gs[..n][k] == gs[k];
    }
  }

  /** The hostile count of the first pass is the number of gremlins that
      exist and are not boulders, taken before any collision runs. */
  lemma {:induction false} CheckCountsHostiles<S>(gs: seq<Gremlin>, stars: seq<S>, collide: (Gremlin, S) -> Gremlin,
                                                  active: Gremlin -> bool)
    ensures CheckPass(gs, stars, collide, active).hostile == HostileCount(gs)
    decreases |gs|
  {
    if gs != [] {
      var n := |gs| - 1;
      var init := gs[..n];
      CheckCountsHostiles(init, stars, collide, active);
      var before := set i | 0 <= i < n && Hostile(init[i]);
      var after := set i | 0 <= i < n + 1 && Hostile(gs[i]);
      assert forall i :: 0 <= i < n ==> init[i] == gs[i];
      if Hostile(gs[n]) {
        assert after == before + {n};
      } else {
        assert after == before;
      }
    }
  }

  /** anyMoving, as the first pass leaves it, says whether some gremlin is
      active once its star collisions have run. */
  lemma {:induction false} CheckMoving<S>(gs: seq<Gremlin>, stars: seq<S>, collide: (Gremlin, S) -> Gremlin,
                                          active: Gremlin -> bool)
    ensures CheckPass(gs, stars, collide, active).moving
            <==> exists j :: 0 <= j < |gs| && active(Collided(gs[j], stars, collide))
    decreases |gs|
  {
    if gs != [] {
      var n := |gs| - 1;
      CheckMoving(gs[..n], stars, collide, active);
      assert forall k :: 0 <= k < n ==> gs[..n][k] == gs[k];
    }
  }

  /** Every gremlin leaves the first pass as its collided state, except that
      the first active one, if dying, has its transform flag latched. */
  lemma {:induction false} CheckGremlinStates<S>(gs: seq<Gremlin>, stars: seq<S>, collide: (Gremlin, S) -> Gremlin,
                                                 active: Gremlin -> bool)
    ensures forall j :: 0 <= j < |gs| ==>
              CheckPass(gs, stars, collide, active).gremlins[j]
              == Latched(Collided(gs[j], stars, collide), FirstActive(gs, stars, collide, active, j))
    decreases |gs|
  {
    if gs != [] {
      var n := |gs| - 1;
      var init := gs[..n];
      CheckGremlinStates(init, stars, collide, active);
      var q := CheckPass(init, stars, collide, active);
      var p := CheckPass(gs, stars, collide, active);
      assert p == CheckStep(q, gs[n], stars, collide, active);
      forall j | 0 <= j < |gs|
        ensures p.gremlins[j] == Latched(Collided(gs[j], stars, collide), FirstActive(gs, stars, collide, active, j))
      {
        if j < n {
          FirstActiveOfPrefix(gs, n, stars, collide, active);
          assert init[j] == gs[j];
          assert p.gremlins[..n][j] == q.gremlins[j];
        } else {
          CheckMoving(init, stars, collide, active);
          assert forall k :: 0 <= k < n ==> init[k] == gs[k];
        }
      }
    }
  }

  /** A flip of the transform flag from false to true. */
  predicate Flips(before: Gremlin, after: Gremlin)
  {
    !before.transformPlayed && after.transformPlayed
  }

  /** The transform cue is due exactly when the first active gremlin is dying
      and has not played its cue yet. */
  lemma {:induction false} CheckTransforming<S>(gs: seq<Gremlin>, stars: seq<S>, collide: (Gremlin, S) -> Gremlin,
                                                active: Gremlin -> bool)
    ensures CheckPass(gs, stars, collide, active).transforming
            <==> exists j :: 0 <= j < |gs| && FirstActive(gs, stars, collide, active, j)
                   && Flips(Collided(gs[j], stars, collide), Latched(Collided(gs[j], stars, collide), true))
    decreases |gs|
  {
    if gs != [] {
      var n := |gs| - 1;
      var init := gs[..n];
      CheckTransforming(init, stars, collide, active);
      CheckMoving(init, stars, collide, active);
      FirstActiveOfPrefix(gs, n, stars, collide, active);
      assert forall k :: 0 <= k < n ==> init[k] == gs[k];
      var q := CheckPass(init, stars, collide, active);
      assert FirstActive(gs, stars, collide, active, n) <==> !q.moving && active(Collided(gs[n], stars, collide));
    }
  }

  /** The first pass never clears a transform flag, changes nothing else in
      a collided gremlin, flips at most one flag per frame, and asks for the
      transform cue exactly when it flips one. */
  lemma CheckLatchesOnce<S>(gs: seq<Gremlin>, stars: seq<S>, collide: (Gremlin, S) -> Gremlin,
                            active: Gremlin -> bool)
    ensures var p := CheckPass(gs, stars, collide, active);
      && (forall j :: 0 <= j < |gs| ==>
            p.gremlins[j] == Collided(gs[j], stars, collide).(transformPlayed := p.gremlins[j].transformPlayed))
      && (forall j :: 0 <= j < |gs| && Collided(gs[j], stars, collide).transformPlayed ==>
            p.gremlins[j].transformPlayed)
      && (forall i, j ::
            (0 <= i < |gs| && 0 <= j < |gs| &&
             Flips(Collided(gs[i], stars, collide), p.gremlins[i]) &&
             Flips(Collided(gs[j], stars, collide), p.gremlins[j])) ==> i == j)
      && (p.transforming <==>
            exists j :: 0 <= j < |gs| && Flips(Collided(gs[j], stars, collide), p.gremlins[j]))
  {
    CheckGremlinStates(gs, stars, collide, active);
    CheckTransforming(gs, stars, collide, active);
    var p := CheckPass(gs, stars, collide, active);
    forall i, j | 0 <= i < |gs| && 0 <= j < |gs| &&
        Flips(Collided(gs[i], stars, collide), p.gremlins[i]) &&
        Flips(Collided(gs[j], stars, collide), p.gremlins[j])
      ensures i == j
    {
      assert FirstActive(gs, stars, collide, active, i) && FirstActive(gs, stars, collide, active, j);
    }
  }
}
