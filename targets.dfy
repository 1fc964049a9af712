/**
 * The target list built by create_env (gridworld/env.py): six build
 * steps of three blocks each, one colour per step, after an empty first
 * step; target i holds every block of steps 0..i.
 */
module BuildTargets {
  import opened Common
  import opened BlockColours
  import GridWorldEnv

  /** The steps list of create_env, as (x, y, z, colour). */
  const BuildSteps: seq<seq<Block>> := [
    [],
    // purple
    [Block(-3, -1, -3, 5), Block(-3, -1, -2, 5), Block(-3, 0, -3, 5)],
    // blue
    [Block(-2, -1, -2, 1), Block(-2, -1, -1, 1), Block(-2, 0, -2, 1)],
    // green
    [Block(-1, -1, -1, 3), Block(-1, -1, 0, 3), Block(-1, 0, -1, 3)],
    // yellow
    [Block(0, -1, 0, 2), Block(0, -1, 1, 2), Block(0, 0, 0, 2)],
    // orange
    [Block(1, -1, 1, 4), Block(1, -1, 2, 4), Block(1, 0, 1, 4)],
    // red
    [Block(2, -1, 2, 6), Block(2, -1, 3, 6), Block(2, 0, 2, 6)]
  ]

  /** `[sum(steps[:i], []) for i in range(1, len(steps) + 1)]` */
  function CumulativeTargets(steps: seq<seq<Block>>): (targets: seq<seq<Block>>)
    ensures |targets| == |steps|
  {
    seq(|steps|, i requires 0 <= i < |steps| => Flatten(steps[..i + 1]))
  }

  /** The first target is the first step. */
  lemma FirstTarget(steps: seq<seq<Block>>)
    requires steps != []
    ensures CumulativeTargets(steps)[0] == steps[0]
  {
    var first := steps[..1];
    assert CumulativeTargets(steps)[0] == Flatten(first);
    assert first == [steps[0]];
    FlattenSingleton(steps[0]);
  }

  /** The last target holds every step's blocks. */
  lemma LastTarget(steps: seq<seq<Block>>)
    requires steps != []
    ensures CumulativeTargets(steps)[|steps| - 1] == Flatten(steps)
  {
    var all := steps[..|steps|];
    assert CumulativeTargets(steps)[|steps| - 1] == Flatten(all);
    assert all == steps;
  }

  /** Each target is the previous one with the next step's blocks appended. */
  lemma TargetsGrowByOneStep(steps: seq<seq<Block>>, i: nat)
    requires i + 1 < |steps|
    ensures CumulativeTargets(steps)[i + 1] == CumulativeTargets(steps)[i] + steps[i + 1]
  {
    var next := steps[..i + 2];
    assert next[..|next| - 1] == steps[..i + 1];
    assert next[|next| - 1] == steps[i + 1];
    assert Flatten(next) == Flatten(steps[..i + 1]) + steps[i + 1];
  }

  /** Every later target contains every earlier one as a prefix. */
  lemma {:induction false} TargetsArePrefixes(steps: seq<seq<Block>>, i: nat, j: nat)
    requires i <= j < |steps|
    ensures CumulativeTargets(steps)[i] <= CumulativeTargets(steps)[j]
    decreases j - i
  {
    if i < j {
      TargetsGrowByOneStep(steps, j - 1);
      TargetsArePrefixes(steps, i, j - 1);
    }
  }

  /** A step lays three blocks of one colour from the palette 1..6, all inside the grid. */
  predicate WellFormedStep(step: seq<Block>)
  {
    |step| == 3 &&
    1 <= step[0].colour <= 6 &&
    (forall k :: 0 <= k < |step| ==> step[k].colour == step[0].colour && GridWorldEnv.InZone(step[k].x, step[k].y, step[k].z))
  }

  lemma BuildStepsWellFormed()
    ensures BuildSteps[0] == []
    ensures forall i :: 1 <= i < |BuildSteps| ==> WellFormedStep(BuildSteps[i])
  {
    forall i | 1 <= i < |BuildSteps|
      ensures WellFormedStep(BuildSteps[i])
    {
      var step := BuildSteps[i];
      assert step[1].colour == step[0].colour && step[2].colour == step[0].colour;
    }
  }

  /** Target i of create_env holds exactly 3i blocks, all in the grid and the palette. */
  lemma {:induction false} BuildTargetSizes(i: nat)
    requires i < |BuildSteps|
    ensures |CumulativeTargets(BuildSteps)[i]| == 3 * i
    ensures forall b :: b in CumulativeTargets(BuildSteps)[i] ==>
              GridWorldEnv.InZone(b.x, b.y, b.z) && 1 <= b.colour <= 6
  {
    if i == 0 {
      FirstTarget(BuildSteps);
    } else {
      BuildStepsWellFormed();
      TargetsGrowByOneStep(BuildSteps, i - 1);
      BuildTargetSizes(i - 1);
      var prev := CumulativeTargets(BuildSteps)[i - 1];
      var step := BuildSteps[i];
      assert CumulativeTargets(BuildSteps)[i] == prev + step;
      assert WellFormedStep(step);
    }
  }
}
