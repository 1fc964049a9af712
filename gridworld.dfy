/**
 * The bookkeeping of the GridWorld environment (gridworld/env.py): the
 * 9 x 11 x 11 occupancy grid kept in step with the world's block
 * callbacks, the starting inventory computed by `reset`, and what `step`
 * decides from the decoded action and calc_reward's verdict.
 */
module GridWorldEnv {
  import opened Common
  import opened ActionDecoding

  /** Grid extent along y, x and z (index order [y, x, z]). */
  const Height := 9
  const Width := 11
  const Depth := 11

  /** Number of hotbar slots, and the blocks each holds at the start of an episode. */
  const InventorySlots := 6
  const StackSize := 20

  /** World positions the grid covers once shifted by (+5, +1, +5). */
  predicate InZone(x: int, y: int, z: int)
  {
    0 <= y + 1 < Height && 0 <= x + 5 < Width && 0 <= z + 5 < Depth
  }

  /** An action as the environment receives it: an index when discretized, a dictionary otherwise. */
  datatype Action = Index(index: int) | Dict(fields: StructuredAction)

  /** What step hands to the agent, and the reward and done flag it returns. */
  datatype StepOutcome = StepOutcome(applied: Decoded, reward: real, done: bool)

  /**
   * `self.parse(action)`: the decoder chosen at construction by
   * `discretize`.  An action of the other kind raises TypeError: an int
   * cannot be subscripted by parse_action, and parse_low_level_action
   * reaches `6 <= action`, which does not compare an int with a dict.
   */
  function Decode(discretize: bool, action: Action): (r: Result<Decoded>)
    ensures r.Err? <==> discretize != action.Index?
    ensures r.Err? ==> r.error == TypeError
    ensures r.Ok? && action.Index? ==> r.value == ParseLowLevelAction(action.index)
    ensures r.Ok? && action.Dict? ==> r.value == ParseAction(action.fields)
  {
    match action
    case Index(a) => if discretize then Ok(ParseLowLevelAction(a)) else Err(TypeError)
    case Dict(s) => if discretize then Err(TypeError) else Ok(ParseAction(s))
  }

  /** The select-and-place override in `step`: choosing a hotbar slot also places a block. */
  function Override(selectAndPlace: bool, d: Decoded): (r: Decoded)
    ensures r.strafe == d.strafe && r.jump == d.jump && r.inventory == d.inventory && r.camera == d.camera
    ensures selectAndPlace && d.inventory.Some? ==> r.add && !r.remove
    ensures !(selectAndPlace && d.inventory.Some?) ==> r == d
  {
    if selectAndPlace && d.inventory.Some? then d.(add := true, remove := false) else d
  }

  /**
   * With the settings of create_env (discretized, select-and-place, behind
   * the Actions map), a block is placed exactly by the hotbar actions 6-11
   * and removed exactly by action 16.
   */
  lemma CreateEnvControls(a: int)
    requires 0 <= a < |ActionMap|
    ensures var d := Override(true, ParseLowLevelAction(MapAction(a).value));
            (d.add <==> 6 <= a <= 11) && (d.remove <==> a == 16)
  {
    assert MapAction(a) == Ok(a);
  }

  /** The reward branch of `step`: wrong placements count only when there is no right placement. */
  function RewardOf(right: int, wrong: int, rightScale: real, wrongScale: real): (reward: real)
  {
    if right == 0 then wrong as real * wrongScale else right as real * rightScale
  }

  /** Each branch ignores the other branch's inputs. */
  lemma RewardBranches(right: int, wrong: int, wrong': int, rightScale: real, rightScale': real, wrongScale: real, wrongScale': real)
    ensures right != 0 ==> RewardOf(right, wrong, rightScale, wrongScale) == RewardOf(right, wrong', rightScale, wrongScale')
    ensures right == 0 ==> RewardOf(right, wrong, rightScale, wrongScale) == RewardOf(right, wrong, rightScale', wrongScale)
    ensures right > 0 && rightScale > 0.0 ==> RewardOf(right, wrong, rightScale, wrongScale) > 0.0
    ensures right == 0 ==> RewardOf(right, wrong, rightScale, wrongScale) == wrong as real * wrongScale
    ensures right != 0 ==> RewardOf(right, wrong, rightScale, wrongScale) == right as real * rightScale
  {
  }

  // ---------------------------------------------------------------------
  // The starting inventory of reset
  // ---------------------------------------------------------------------

  /** The inventory slot `inventory[color - 1]` reaches (colour 0 reaches the last slot), or None for an IndexError. */
  function Slot(colour: int): (k: Option<nat>)
    ensures k.Some? <==> -5 <= colour <= 6
    ensures 1 <= colour <= 6 ==> k == Some((colour - 1) as nat)
    ensures k.Some? ==> k.value < InventorySlots
  {
    PyIndex(InventorySlots, colour - 1)
  }

  /** The inventory loop of reset: 20 of each, one less per starting block of that colour. */
  function StartingInventory(colours: seq<int>): (r: Result<seq<int>>)
    ensures r.Ok? ==> |r.value| == InventorySlots
    ensures r.Err? ==> r.error == IndexError
  {
    if colours == [] then Ok([StackSize, StackSize, StackSize, StackSize, StackSize, StackSize])
    else
      match StartingInventory(colours[..|colours| - 1])
      case Err(e) => Err(e)
      case Ok(inv) =>
        match Slot(colours[|colours| - 1])
        case None => Err(IndexError)
        case Some(k) => Ok(inv[k := inv[k] - 1])
  }

  /** How many of the colours reach slot k. */
  function SlotCount(colours: seq<int>, k: nat): nat
  {
    if colours == [] then 0
    else SlotCount(colours[..|colours| - 1], k) + (if Slot(colours[|colours| - 1]) == Some(k) then 1 else 0)
  }

  /** How many of the colours equal c. */
  function ColourCount(colours: seq<int>, c: int): nat
  {
    if colours == [] then 0
    else ColourCount(colours[..|colours| - 1], c) + (if colours[|colours| - 1] == c then 1 else 0)
  }

  /**
   * reset fails exactly when a starting colour indexes outside the
   * inventory; otherwise each slot holds 20 minus the blocks that reach it.
   */
  lemma {:induction false} StartingInventoryCounts(colours: seq<int>)
    ensures StartingInventory(colours).Ok? <==> forall i :: 0 <= i < |colours| ==> -5 <= colours[i] <= 6
    ensures StartingInventory(colours).Ok? ==>
              forall k :: 0 <= k < InventorySlots ==> StartingInventory(colours).value[k] == StackSize - SlotCount(colours, k)
  {
    if colours != [] {
      var prefix := colours[..|colours| - 1];
      StartingInventoryCounts(prefix);
      assert forall i :: 0 <= i < |prefix| ==> prefix[i] == colours[i];
    }
  }

  /** With every colour in 1..6, slot c holds 20 minus the starting blocks of colour c + 1. */
  lemma {:induction false} PaletteSlotCounts(colours: seq<int>, k: nat)
    requires forall i :: 0 <= i < |colours| ==> 1 <= colours[i] <= 6
    requires k < InventorySlots
    ensures SlotCount(colours, k) == ColourCount(colours, k + 1)
  {
    if colours != [] {
      PaletteSlotCounts(colours[..|colours| - 1], k);
    }
  }

  /** Colour 0 (air) wraps around to the last slot instead of raising. */
  lemma AirTakesLastSlot()
    ensures StartingInventory([0]) == Ok([20, 20, 20, 20, 20, 19])
  {
    assert [0][..0] == [];
    assert StartingInventory([]) == Ok([20, 20, 20, 20, 20, 20]);
    assert Slot(0) == Some(5);
    assert [20, 20, 20, 20, 20, 20][5 := 19] == [20, 20, 20, 20, 20, 19];
  }

  // ---------------------------------------------------------------------
  // The environment
  // ---------------------------------------------------------------------

  class GridWorld {
    /** self.grid, indexed [y, x, z]; 0 is air. */
    const grid: array3<int>
    /** world.initialized, which gates both block callbacks. */
    var worldInitialized: bool
    var stepNo: int
    const maxSteps: int
    const selectAndPlace: bool
    const discretize: bool
    const rightPlacementScale: real
    const wrongPlacementScale: real
    /** agent.inventory, one count per hotbar slot. */
    var inventory: seq<int>

    ghost predicate Valid()
      reads this
    {
      grid.Length0 == Height && grid.Length1 == Width && grid.Length2 == Depth
    }

    /** GridWorld.__init__ without its rendering and its trailing reset. */
    constructor (maxSteps: int, selectAndPlace: bool, discretize: bool,
                 rightPlacementScale: real, wrongPlacementScale: real, worldInitialized: bool)
      ensures Valid() && fresh(grid)
      ensures forall i, j, k :: 0 <= i < Height && 0 <= j < Width && 0 <= k < Depth ==> grid[i, j, k] == 0
      ensures this.stepNo == 0 && this.maxSteps == maxSteps
      ensures this.selectAndPlace == selectAndPlace && this.discretize == discretize
      ensures this.rightPlacementScale == rightPlacementScale && this.wrongPlacementScale == wrongPlacementScale
      ensures this.worldInitialized == worldInitialized
    {
      grid := new int[Height, Width, Depth]((i, j, k) => 0);
      stepNo := 0;
      this.maxSteps := maxSteps;
      this.selectAndPlace := selectAndPlace;
      this.discretize := discretize;
      this.rightPlacementScale := rightPlacementScale;
      this.wrongPlacementScale := wrongPlacementScale;
      this.worldInitialized := worldInitialized;
      inventory := [StackSize, StackSize, StackSize, StackSize, StackSize, StackSize];
    }

    /** add_block: record a block of `kind` at world position (x, y, z). */
    method AddBlock(x: int, y: int, z: int, kind: int, buildZone: bool)
      requires Valid()
      requires worldInitialized && buildZone ==> InZone(x, y, z)
      modifies grid
      ensures worldInitialized && buildZone ==> grid[y + 1, x + 5, z + 5] == kind
      ensures forall i, j, k ::
                (0 <= i < Height && 0 <= j < Width && 0 <= k < Depth &&
                 !(worldInitialized && buildZone && i == y + 1 && j == x + 5 && k == z + 5)) ==>
                grid[i, j, k] == old(grid[i, j, k])
    {
      if worldInitialized && buildZone {
        grid[y + 1, x + 5, z + 5] := kind;
      }
    }

    /** remove_block: clear the block at world position (x, y, z); clearing air is a ValueError. */
    method RemoveBlock(x: int, y: int, z: int, buildZone: bool) returns (err: Option<PyError>)
      requires Valid()
      requires worldInitialized && buildZone ==> InZone(x, y, z)
      modifies grid
      ensures err.Some? <==> worldInitialized && buildZone && old(grid[y + 1, x + 5, z + 5]) == 0
      ensures err.Some? ==> err.value == ValueError
      ensures worldInitialized && buildZone ==> grid[y + 1, x + 5, z + 5] == 0
      ensures forall i, j, k ::
                (0 <= i < Height && 0 <= j < Width && 0 <= k < Depth &&
                 !(worldInitialized && buildZone && i == y + 1 && j == x + 5 && k == z + 5)) ==>
                grid[i, j, k] == old(grid[i, j, k])
    {
      if worldInitialized && buildZone {
        if grid[y + 1, x + 5, z + 5] == 0 {
          return Some(ValueError);
        }
        grid[y + 1, x + 5, z + 5] := 0;
      }
      return None;
    }

    /**
     * The two callbacks in turn, as the world calls them when a block is
     * placed and then broken: the removal succeeds and the grid is as it
     * was before the placement, except that the cell now holds air.
     */
    method AddThenRemove(x: int, y: int, z: int, kind: int) returns (err: Option<PyError>)
      requires Valid() && worldInitialized && InZone(x, y, z) && kind != 0
      modifies grid
      ensures err.None?
      ensures grid[y + 1, x + 5, z + 5] == 0
      ensures forall i, j, k ::
                (0 <= i < Height && 0 <= j < Width && 0 <= k < Depth && !(i == y + 1 && j == x + 5 && k == z + 5)) ==>
                grid[i, j, k] == old(grid[i, j, k])
    {
      AddBlock(x, y, z, kind, true);
      err := RemoveBlock(x, y, z, true);
    }

    /** The bookkeeping of reset: the step counter and the inventory loop over the starting grid's colours. */
    method Reset(startingColours: seq<int>) returns (err: Option<PyError>)
      modifies this
      ensures stepNo == 0 && worldInitialized == old(worldInitialized)
      ensures err.None? <==> StartingInventory(startingColours).Ok?
      ensures err.None? ==> inventory == StartingInventory(startingColours).value
      ensures err.Some? ==> err.value == IndexError
    {
      stepNo := 0;
      inventory := [StackSize, StackSize, StackSize, StackSize, StackSize, StackSize];
      var i := 0;
      while i < |startingColours|
        invariant 0 <= i <= |startingColours|
        invariant stepNo == 0 && worldInitialized == old(worldInitialized)
        invariant StartingInventory(startingColours[..i]) == Ok(inventory)
      {
        assert startingColours[..i + 1][..i] == startingColours[..i];
        match Slot(startingColours[i]) {
          case None =>
            StartingInventoryFailsOn(startingColours, i);
            return Some(IndexError);
          case Some(k) =>
            inventory := inventory[k := inventory[k] - 1];
        }
        i := i + 1;
      }
      assert startingColours[..i] == startingColours;
      return None;
    }

    /**
     * The bookkeeping of step: the counter, the (possibly overridden)
     * decoded action handed to the agent, termination, and the reward
     * branch; `right` and `wrong` are what calc_reward reports for the grid.
     * The counter is raised before the action is decoded, so it is raised
     * even when decoding raises.
     */
    method Step(action: Action, right: int, wrong: int, taskDone: bool) returns (r: Result<StepOutcome>)
      modifies this
      ensures stepNo == old(stepNo) + 1
      ensures inventory == old(inventory) && worldInitialized == old(worldInitialized)
      ensures r.Err? <==> Decode(discretize, action).Err?
      ensures r.Err? ==> r.error == TypeError
      ensures r.Ok? ==> r.value.applied == Override(selectAndPlace, Decode(discretize, action).value)
      ensures r.Ok? ==> (r.value.done <==> taskDone || stepNo == maxSteps)
      ensures r.Ok? ==> r.value.reward == RewardOf(right, wrong, rightPlacementScale, wrongPlacementScale)
    {
      stepNo := stepNo + 1;
      var strafe, jump, inv, camera, remove, add;
      match action {
        case Index(a) =>
          if !discretize {
            return Err(TypeError);
          }
          var d := ParseLowLevelAction(a);
          strafe, jump, inv, camera, remove, add := d.strafe, d.jump, d.inventory, d.camera, d.remove, d.add;
        case Dict(s) =>
          if discretize {
            return Err(TypeError);
          }
          var d := ParseAction(s);
          strafe, jump, inv, camera, remove, add := d.strafe, d.jump, d.inventory, d.camera, d.remove, d.add;
      }
      if selectAndPlace && inv.Some? {
        add := true;
        remove := false;
      }
      var done := taskDone || stepNo == maxSteps;
      var reward: real;
      if right == 0 {
        reward := wrong as real * wrongPlacementScale;
      } else {
        reward := right as real * rightPlacementScale;
      }
      r := Ok(StepOutcome(Decoded(strafe, jump, inv, camera, remove, add), reward, done));
    }
  }

  /** Once a colour outside the inventory is met, the whole loop raises. */
  lemma StartingInventoryFailsOn(colours: seq<int>, i: nat)
    requires i < |colours| && Slot(colours[i]).None?
    ensures StartingInventory(colours).Err?
  {
    StartingInventoryCounts(colours);
  }
}
