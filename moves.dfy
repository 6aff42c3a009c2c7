/** The move budget: the stage counts one move for every frame on which
    anyMoving rises from false to true, and reports a loss when the counter
    falls below zero. */
module Moves {

  /** The stage's move test, oldMovingState != anyMoving && anyMoving. */
  function RisingEdge(was: bool, now: bool): (r: bool)
    ensures r <==> !was && now
  {
    was != now && now
  }

  /** The counter after one frame's move test. */
  function Countdown(moves: int, was: bool, now: bool): (r: int)
    ensures r == moves || r == moves - 1
    ensures r < moves <==> !was && now
  {
    if RisingEdge(was, now) then moves - 1 else moves
  }

  /** A run of frames with hostiles left: still going with the given counter
      and anyMoving, or lost on the given frame. */
  datatype Run = Running(moves: int, moving: bool) | LostAt(frame: nat)

  /** The counter and the loss check over a run of frames, given the
      anyMoving value each frame computes. */
  function RunFrames(moves: int, was: bool, frames: seq<bool>): (r: Run)
    ensures r.LostAt? ==> r.frame < |frames|
    ensures r.Running? ==> r.moves <= moves && r.moving == if frames == [] then was else frames[|frames| - 1]
    decreases |frames|
  {
    if frames == [] then Running(moves, was)
    else
      var now := frames[0];
      var m := Countdown(moves, was, now);
      if RisingEdge(was, now) && m < 0 then LostAt(0)
      else
        match RunFrames(m, now, frames[1..])
        case Running(mm, mv) => Running(mm, mv)
        case LostAt(k) => LostAt(k + 1)
  }

  /** The number of rising edges in a run of frames. */
  function Edges(was: bool, frames: seq<bool>): nat
    decreases |frames|
  {
    if frames == [] then 0
    else (if RisingEdge(was, frames[0]) then 1 else 0) + Edges(frames[0], frames[1..])
  }

  /** anyMoving of the frame before frame k. */
  function Prev(was: bool, frames: seq<bool>, k: nat): bool
    requires k < |frames|
  {
    if k == 0 then was else frames[k - 1]
  }

  /** The moves that can be made without losing. */
  function Budget(moves: int): nat
  {
    if moves < 0 then 0 else moves
  }

  /** Starting from a counter of N >= 0, every rising edge costs one move;
      the N-th edge leaves the counter at 0 and the game goes on; the loss
      comes on the frame of the (N+1)-th edge, and only on a rising edge. */
  lemma {:induction false} RunCountsEdges(moves: int, was: bool, frames: seq<bool>)
    ensures RunFrames(moves, was, frames).Running? <==> Edges(was, frames) <= Budget(moves)
    ensures RunFrames(moves, was, frames).Running? ==>
              RunFrames(moves, was, frames).moves == moves - Edges(was, frames)
    ensures RunFrames(moves, was, frames).LostAt? ==>
              var k := RunFrames(moves, was, frames).frame;
              k < |frames| && RisingEdge(Prev(was, frames, k), frames[k])
              && Edges(was, frames[..k + 1]) == Budget(moves) + 1
    decreases |frames|
  {
    if frames != [] {
      var now, rest := frames[0], frames[1..];
      var m := Countdown(moves, was, now);
      if RisingEdge(was, now) && m < 0 {
        assert frames[..1][1..] == [];
      } else {
        RunCountsEdges(m, now, rest);
        var r := RunFrames(m, now, rest);
        if r.LostAt? {
          var k := r.frame;
          assert frames[..k + 2][1..] == rest[..k + 1];
          assert frames[..k + 2][0] == now;
        }
      }
    }
  }
}
