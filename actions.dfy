/**
 * The two action decoders of GridWorld (gridworld/env.py) and the index
 * map of the `Actions` wrapper.  Both decoders produce the same tuple
 * (strafe, jump, inventory, camera, remove, add) that `step` feeds to the
 * agent.
 */
module ActionDecoding {
  import opened Common

  /**
   * A dictionary action.  The flags are Discrete(2) entries and are read
   * by truthiness (non-zero is true); camera is a pair of floats, hotbar a
   * Discrete(7) slot.
   */
  datatype StructuredAction = StructuredAction(
    forward: int, back: int, left: int, right: int, jump: int,
    attack: int, use: int, camera: (real, real), hotbar: int)

  /** What a decoder returns; `inventory` is None when no hotbar slot is selected. */
  datatype Decoded = Decoded(
    strafe: (int, int), jump: bool, inventory: Option<int>,
    camera: (real, real), remove: bool, add: bool)

  /** The tuple of an action that does nothing. */
  const Noop := Decoded((0, 0), false, None, (0.0, 0.0), false, false)

  /** Net movement along one axis from two opposing keys. */
  function Axis(negative: bool, positive: bool): (d: int)
    ensures -1 <= d <= 1
    ensures d < 0 <==> negative && !positive
    ensures d > 0 <==> positive && !negative
    ensures d == 0 <==> negative == positive
  {
    (if negative then -1 else 0) + (if positive then 1 else 0)
  }

  /** parse_action */
  function ParseAction(a: StructuredAction): (r: Decoded)
    ensures r.strafe.0 == Axis(a.forward != 0, a.back != 0)
    ensures r.strafe.1 == Axis(a.left != 0, a.right != 0)
    ensures r.jump <==> a.jump != 0
    ensures r.inventory.None? <==> a.hotbar == 0
    ensures r.inventory.Some? ==> r.inventory.value == a.hotbar
    ensures r.camera == a.camera
    ensures r.remove <==> a.attack != 0
    ensures r.add <==> a.use != 0
  {
    var forwardBack := (if a.forward != 0 then -1 else 0) + (if a.back != 0 then 1 else 0);
    var leftRight := (if a.left != 0 then -1 else 0) + (if a.right != 0 then 1 else 0);
    Decoded((forwardBack, leftRight), a.jump != 0,
            if a.hotbar == 0 then None else Some(a.hotbar),
            a.camera, a.attack != 0, a.use != 0)
  }

  /**
   * parse_low_level_action: 0 no-op; 1 forward; 2 back; 3 left; 4 right;
   * 5 jump; 6-11 hotbar slot 1-6; 12/13 camera left/right; 14/15 camera
   * up/down; 16 attack; 17 use.
   */
  function ParseLowLevelAction(a: int): (r: Decoded)
    ensures r == Noop <==> a < 1 || a > 17
    ensures r.strafe.0 == -1 <==> a == 1
    ensures r.strafe.0 == 1 <==> a == 2
    ensures r.strafe.1 == -1 <==> a == 3
    ensures r.strafe.1 == 1 <==> a == 4
    ensures r.jump <==> a == 5
    ensures r.inventory.Some? <==> 6 <= a <= 11
    ensures r.inventory.Some? ==> r.inventory.value == a - 5 && 1 <= r.inventory.value <= 6
    ensures r.camera.0 == -5.0 <==> a == 12
    ensures r.camera.0 == 5.0 <==> a == 13
    ensures r.camera.1 == -5.0 <==> a == 14
    ensures r.camera.1 == 5.0 <==> a == 15
    ensures r.remove <==> a == 16
    ensures r.add <==> a == 17
  {
    if a == 1 then Noop.(strafe := (-1, 0))
    else if a == 2 then Noop.(strafe := (1, 0))
    else if a == 3 then Noop.(strafe := (0, -1))
    else if a == 4 then Noop.(strafe := (0, 1))
    else if a == 5 then Noop.(jump := true)
    else if 6 <= a <= 11 then Noop.(inventory := Some(a - 5))
    else if a == 12 then Noop.(camera := (-5.0, 0.0))
    else if a == 13 then Noop.(camera := (5.0, 0.0))
    else if a == 14 then Noop.(camera := (0.0, -5.0))
    else if a == 15 then Noop.(camera := (0.0, 5.0))
    else if a == 16 then Noop.(remove := true)
    else if a == 17 then Noop.(add := true)
    else Noop
  }

  /** How many of the decoded components differ from the no-op tuple. */
  function Effects(r: Decoded): nat
  {
    (if r.strafe.0 != 0 then 1 else 0) + (if r.strafe.1 != 0 then 1 else 0) +
    (if r.jump then 1 else 0) + (if r.inventory.Some? then 1 else 0) +
    (if r.camera.0 != 0.0 then 1 else 0) + (if r.camera.1 != 0.0 then 1 else 0) +
    (if r.remove then 1 else 0) + (if r.add then 1 else 0)
  }

  /** Every low-level action but the no-op does exactly one thing. */
  lemma LowLevelActionHasOneEffect(a: int)
    ensures Effects(ParseLowLevelAction(a)) == (if 1 <= a <= 17 then 1 else 0)
  {
    if a == 16 {
      assert ParseLowLevelAction(a) == Noop.(remove := true);
    } else if a == 17 {
      assert ParseLowLevelAction(a) == Noop.(add := true);
    }
  }

  /** The dictionary action that presses exactly the control low-level action a names. */
  function AsStructured(a: int): (s: StructuredAction)
  {
    StructuredAction(
      if a == 1 then 1 else 0, if a == 2 then 1 else 0,
      if a == 3 then 1 else 0, if a == 4 then 1 else 0,
      if a == 5 then 1 else 0, if a == 16 then 1 else 0, if a == 17 then 1 else 0,
      (if a == 12 then -5.0 else if a == 13 then 5.0 else 0.0,
       if a == 14 then -5.0 else if a == 15 then 5.0 else 0.0),
      if 6 <= a <= 11 then a - 5 else 0)
  }

  /** The two decoders agree: a low-level action decodes like the dictionary action pressing the same control. */
  lemma DecodersAgree(a: int)
    ensures ParseAction(AsStructured(a)) == ParseLowLevelAction(a)
  {
  }

  /** Actions.action_map: wrapper index to environment action; 17 (use/place) is left out. */
  const ActionMap: seq<int> := [0, 1, 2, 3, 4, 5, 6, 7, 8, 9, 10, 11, 12, 13, 14, 15, 16]

  /** Actions.step's lookup `self.action_map[action]`, with Python's negative indexing. */
  function MapAction(a: int): (r: Result<int>)
    ensures r.Ok? <==> -17 <= a < 17
    ensures r.Err? ==> r.error == IndexError
    ensures 0 <= a < |ActionMap| ==> r == Ok(a)
    ensures -|ActionMap| <= a < 0 ==> r == Ok(a + |ActionMap|)
    ensures r.Ok? ==> 0 <= r.value <= 16
  {
    match PyIndex(|ActionMap|, a)
    case None => Err(IndexError)
    case Some(k) => Ok(ActionMap[k])
  }

  /** Through the wrapper, no action decodes to a placement by `use`. */
  lemma WrappedActionsNeverUse(a: int)
    requires MapAction(a).Ok?
    ensures !ParseLowLevelAction(MapAction(a).value).add
  {
  }
}
