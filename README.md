# gridworld: dataset preparation and environment bookkeeping, in Dafny

gridworld is a Minecraft-like building environment for the IGLU
collaborative-building task. An architect describes a structure in text,
and a builder places coloured blocks inside a 9 x 11 x 11 zone. This
project models two sequential parts of it and proves properties of them.

**Dataset preparation** (`gridworld/data/iglu_dataset.py`):

- `fix_xyz` corrects block coordinates that were linearised with a wrong
  stride (`IgluCoords`).
- `fix_log` repairs every `block_change` line of a recorded log
  (`LogRepair`). Python's `eval` of the payload is replaced by a strict
  parser for integer and flat tuple-of-integer literals. `str()` of the
  repaired tuple is written out.
- The voxelworld-to-IGLU colour table and the snapshot-block conversion
  (`BlockColours`).
- For one session, `IGLUDataset.parse_tasks` runs a row loop that builds
  utterance groups and block-edit entries, then a loop that merges away
  empty entries (`Segmentation`).
- The registry `self.tasks` is filled by `parse_tasks`, sampled in two
  stages by `reset` and walked by `__iter__`. It is modelled as the class
  `IgluDataset` (`TaskRegistry`).

**Environment bookkeeping** (`gridworld/env.py`):

- The two action decoders and the `Actions` index map (`ActionDecoding`).
- The `GridWorld` object (`GridWorldEnv`):
  - its occupancy grid, kept up to date by the `add_block`/`remove_block`
    callbacks;
  - the starting inventory computed by `reset`;
  - what `step` decides: the select-and-place override, termination and
    the reward branch.
- The `SizeReward` wrapper's running maximum (`SizeRewardWrapper`).
- The cumulative build targets of `create_env` (`BuildTargets`).

Exceptions are values. `Result<T>` is `Ok(value)` or `Err(e)`, where
`PyError` is one of `IndexError`, `TypeError`, `ValueError` and
`AssertionError`.

Python's negative list indexing is modelled where the code can reach it
(`Common.PyIndex`):

- `inventory[color - 1]` in `reset`;
- `action_map[action]` in `Actions.step`.

`//` and `%` appear only with positive divisors, so Dafny's Euclidean
operators give Python's results.

Loops in the source are methods with loops here:

- `FixLog`;
- `SegmentRows` with `StepRow`;
- `MergeEmptyEntries`;
- `ParseTasks`;
- `GridWorld.Reset`.

Each is proved equal to a recursive function, and the lemmas are stated
about that function. Objects whose fields change are classes:

- `IgluDataset`;
- `GridWorld`, whose grid is an `array3<int>`;
- `SizeReward`.

Where the code and the behaviour described for it disagree, the model
follows the code:

- The merge loop advances `i` after deleting an entry. So, of two
  neighbouring empty entries, the second survives (`AdjacentEmptiesSurvive`,
  `TrailingEmptyPairLeavesEmptyTail`). The merged output is free of empty
  entries only when no two empty entries are neighbours
  (`MergeRemovesIsolatedEmpties`).
- Truncating at a trailing empty entry discards that entry's utterance
  group (`MergeDropsTrailingGroup`). So text can be lost. Elsewhere a
  removed entry's group is prepended to the next entry's group
  (`MergeAttachesGroups`).
- An empty entry that is not last raises `IndexError` when there is no
  utterance group after it (`MergeRaisesWithoutNextGroup`).
- A session is registered when `blocks` is non-empty. Its entries may all
  be empty (`SessionOfEmptyStepsRegistered`).
- `fix_log` reads the payload inside `try`, but it indexes `info[0..4]`
  outside it. A payload that reads as an int raises `TypeError`; a tuple
  of fewer than five items raises `IndexError` (`FixLineFailsIff`). So
  `fix_log` can raise.
- In the architect branch, an answer written beside an instruction is
  ignored, because the test is `elif`.
- A starting block of colour 0 does not raise. It takes a block from the
  last inventory slot (`AirTakesLastSlot`). More than 20 blocks of one
  colour drive a slot negative.
- Action 17 (place by `use`) is unreachable through the `Actions` map
  (`WrappedActionsNeverUse`). Under `create_env`'s settings, blocks are
  placed by the hotbar actions 6-11 instead (`CreateEnvControls`).

## Model

| member | source | states |
|---|---|---|
| Common.PyIndex | gridworld/env.py:128 | Python list indexing: succeeds exactly for -n <= i < n; it reads position i, or i + n for a negative i |
| Common.TryMapOkIff | gridworld/data/iglu_dataset.py:55-73 | the loop over the log's lines finishes exactly when no line raises |
| Common.TryMapElements | gridworld/data/iglu_dataset.py:55-73 | a finished loop yields one output line per input line, line k being the repair of line k |
| Common.TryMapErrPropagates | gridworld/data/iglu_dataset.py:55-73 | once a line raises, the loop's outcome is that exception |
| IgluCoords.FixXyz | gridworld/data/iglu_dataset.py:22-43 | the shifted result is the decomposition, with strides 99/11/1, of the index built with y stride 9; new_y lies in 63..71 and new_z in -5..5 for every input |
| IgluCoords.FixXyzUnique | gridworld/data/iglu_dataset.py:32-37 | any triple with shifted y in 0..8 and z in 0..10 whose 99/11/1 index is the faulty index is fix_xyz's result, so the result is fully determined |
| IgluCoords.FaultyLayout | gridworld/data/iglu_dataset.py:32 | the coordinates a logger using y stride 9 writes for a true position have the true position's 99/11/1 index |
| IgluCoords.FixXyzUndoesFaultyLayout | gridworld/data/iglu_dataset.py:22-43 | fix_xyz recovers every in-box position from its faulty layout |
| IgluCoords.FixXyzGroundLayer | gridworld/data/iglu_dataset.py:22-43 | fix_xyz leaves positions at y == 63 unchanged |
| IgluCoords.FixXyzMovesUpperLayers | gridworld/data/iglu_dataset.py:22-43 | fix_xyz moves (0, 64, 5) to (0, 64, 3) |
| BlockColours.ColourOf | gridworld/data/iglu_dataset.py:116 | the colour is in 0..6; it is 0 exactly for id 0; it is the table's entry for a known id and 5 for any other |
| BlockColours.ColourMapInjective | gridworld/data/iglu_dataset.py:11-20 | distinct known ids get distinct colours |
| BlockColours.ColourMapCoversPalette | gridworld/data/iglu_dataset.py:11-20 | every colour 0..6 is the image of a known id |
| BlockColours.ConvertBlock | gridworld/data/iglu_dataset.py:114-117 | x and z are kept; y becomes y - 64; the colour comes from the table |
| BlockColours.ConvertAll | gridworld/data/iglu_dataset.py:114-117 | a snapshot's blocks are converted one for one, in order |
| BlockColours.ConvertAllInPalette | gridworld/data/iglu_dataset.py:114-117 | every stored colour is in 0..6 |
| LogRepair.SplitLines | gridworld/data/iglu_dataset.py:55 | the lines carry no line boundary; there are none exactly for the empty string |
| LogRepair.SplitJoinLines | gridworld/data/iglu_dataset.py:55-75 | "\n".join followed by splitlines gives the lines back, when no line holds a boundary and the last is non-empty |
| LogRepair.CutAtSpace | gridworld/data/iglu_dataset.py:58 | the head holds no space, and the head, a space and the rest rebuild the string |
| LogRepair.SplitFields | gridworld/data/iglu_dataset.py:58 | split(" ", 2) gives 1 to 3 fields that join back to the line; only the last field may hold a space, and only when there are three |
| LogRepair.SplitFieldsOfJoin | gridworld/data/iglu_dataset.py:58-68 | split(" ", 2) takes apart the " ".join of three fields whose first two hold no space |
| LogRepair.ShowIntParses | gridworld/data/iglu_dataset.py:67 | str() of any integer reads back as that integer |
| LogRepair.ShowTupleParses | gridworld/data/iglu_dataset.py:60-67 | str() of a tuple of two or more integers reads back as the same tuple |
| LogRepair.FixedPayload | gridworld/data/iglu_dataset.py:64-66 | the new tuple has five items: the fix_xyz of the first three, then info[3] and info[4] |
| LogRepair.FixLine | gridworld/data/iglu_dataset.py:57-73 | the line is kept when it lacks block_change, has fewer than three fields, or has an unreadable payload |
| LogRepair.FixLineFailsIff | gridworld/data/iglu_dataset.py:60-64 | a line raises exactly when its payload reads as an int (TypeError) or as a tuple of fewer than five items (IndexError) |
| LogRepair.FixLineRewritesPayload | gridworld/data/iglu_dataset.py:58-68 | a repaired line has three fields, the first two unchanged, and its third reads back as the fixed five-item tuple |
| LogRepair.FixLineShape | gridworld/data/iglu_dataset.py:57-73 | a repaired line gains no line boundary and is empty only if the original was |
| LogRepair.FixLog | gridworld/data/iglu_dataset.py:45-75 | fix_log succeeds exactly when every line succeeds; it then returns the repaired lines joined by "\n", and otherwise the first line's exception |
| LogRepair.FixLogLines | gridworld/data/iglu_dataset.py:53-75 | the repaired log splits into as many lines as the original, and every line without block_change is copied in place |
| Segmentation.StepEntry | gridworld/data/iglu_dataset.py:108-117 | a builder turn's entry is its converted snapshot, or empty when the step file is missing |
| Segmentation.ApplyRow | gridworld/data/iglu_dataset.py:98-117 | one row: IndexError exactly for an answer or question before any group; an instruction opens a group; an answer or question grows only the last group; text is appended, never lost; a builder turn without a question adds exactly one entry and other rows add none |
| Segmentation.OpenGroup | gridworld/data/iglu_dataset.py:100-101 | a new group holding only the text is appended, and the text follows all earlier text |
| Segmentation.AppendToLast | gridworld/data/iglu_dataset.py:103 | only the last group changes, gaining the text at its end |
| Segmentation.SegmentText | gridworld/data/iglu_dataset.py:97-107 | after the row loop, the groups hold all the rows' text in row order |
| Segmentation.SegmentGroupCount | gridworld/data/iglu_dataset.py:97-101 | the row loop opens one group per instruction |
| Segmentation.SegmentEntries | gridworld/data/iglu_dataset.py:104-117 | the row loop adds one entry per builder turn without a question, in order |
| Segmentation.SegmentFailsIff | gridworld/data/iglu_dataset.py:97-107 | the row loop raises IndexError exactly when an answer or question comes before every instruction |
| Segmentation.SegmentErrPropagates | gridworld/data/iglu_dataset.py:97-117 | once a row raises, the loop's outcome is that exception |
| Segmentation.StepRow | gridworld/data/iglu_dataset.py:98-117 | one pass of the row loop, with its inner loop over the snapshot's blocks, computes ApplyRow |
| Segmentation.SegmentRows | gridworld/data/iglu_dataset.py:97-117 | the row loop computes Segment over the rows in StepId order |
| Segmentation.MergeEmptyEntries | gridworld/data/iglu_dataset.py:118-128 | the merge loop, rebuilding both lists, computes MergeFrom(0, ...) |
| Segmentation.MergeAligned | gridworld/data/iglu_dataset.py:118-128 | with equal lengths on entry, the merge never raises, keeps the lengths equal, never grows, and keeps the non-empty entries unchanged and in order |
| Segmentation.MergeRemovesIsolatedEmpties | gridworld/data/iglu_dataset.py:119-128 | when no two neighbouring entries are empty, no empty entry is left |
| Segmentation.MergeKeepsAllText | gridworld/data/iglu_dataset.py:124-128 | when the last entry is non-empty, the merge succeeds and the concatenated utterances are unchanged: no text is lost or reordered |
| Segmentation.MergeAttachesFrom | gridworld/data/iglu_dataset.py:118-128 | from any position, with no neighbouring empty entries after it and a non-empty last entry, the merge keeps the settled prefix and turns the rest into Attach of the rest, with the non-empty block lists in order |
| Segmentation.MergeAttachesGroups | gridworld/data/iglu_dataset.py:118-128 | with no neighbouring empty entries and a non-empty last entry, the merged utterances are exactly Attach: each surviving entry's group is the group of the empty entry just before it, if any, followed by its own; the merged block lists are the non-empty ones, in order |
| Segmentation.MergeFailsOnlyWithIndexError | gridworld/data/iglu_dataset.py:118-128 | the only exception the merge can raise is IndexError |
| Segmentation.MergeRaisesWithoutNextGroup | gridworld/data/iglu_dataset.py:124-126 | the first empty entry that is not last but has no utterance group after it makes the merge raise IndexError |
| Segmentation.MergeDropsTrailingGroup | gridworld/data/iglu_dataset.py:121-123 | a trailing empty entry after a non-empty one is cut together with its group: all text but the last group's survives |
| Segmentation.AdjacentEmptiesSurvive | gridworld/data/iglu_dataset.py:125-128 | of two neighbouring empty entries, the second survives because i advances |
| Segmentation.TrailingEmptyPairLeavesEmptyTail | gridworld/data/iglu_dataset.py:120-128 | two empty entries at the end leave an empty last entry behind |
| Segmentation.SessionOutcome | gridworld/data/iglu_dataset.py:90-131 | no builder data means skipped; mixed structure ids give AssertionError; a registered session carries the session's structure id and at least one entry |
| Segmentation.SessionOutcomeAligned | gridworld/data/iglu_dataset.py:118-131 | with as many instructions as entries, the session is registered whenever an entry holds a block, and the registered segments are aligned and keep every non-empty entry in order |
| Segmentation.SessionOfEmptyStepsRegistered | gridworld/data/iglu_dataset.py:129-131 | a session whose two builder turns lack step files is registered with one empty entry |
| Segmentation.ParseSession | gridworld/data/iglu_dataset.py:90-131 | one session's pass through parse_tasks, run with both loops, computes SessionOutcome |
| TaskRegistry.AddSession | gridworld/data/iglu_dataset.py:131 | the session is appended to its structure's list, the key is added on first use, and every other list is unchanged |
| TaskRegistry.AddSessionWellFormed | gridworld/data/iglu_dataset.py:129-131 | appending a session with an entry keeps the registry well formed |
| TaskRegistry.RegisterAllContents | gridworld/data/iglu_dataset.py:89-131 | after parse_tasks, each structure id lists exactly its surviving sessions in input order, other ids list none, and the registry is well formed |
| TaskRegistry.RegisterAllFailsIff | gridworld/data/iglu_dataset.py:89-131 | parse_tasks raises exactly when some session raises |
| TaskRegistry.RegisterAllErrPropagates | gridworld/data/iglu_dataset.py:89-131 | once a session raises, the loop's outcome is that exception |
| TaskRegistry.Pick | gridworld/data/iglu_dataset.py:133-137 | ValueError exactly on an empty registry; otherwise a registered session of the chosen structure |
| TaskRegistry.PickReachesEverySession | gridworld/data/iglu_dataset.py:133-135 | every registered session is chosen by some pair of draws |
| TaskRegistry.EntriesCount | gridworld/data/iglu_dataset.py:142-146 | the walk yields one item per registered session |
| TaskRegistry.EntriesExact | gridworld/data/iglu_dataset.py:142-146 | the walk yields (id, j, s) exactly when s is session j of structure id |
| TaskRegistry.IgluDataset.constructor | gridworld/data/iglu_dataset.py:85 | the registry starts empty and well formed |
| TaskRegistry.IgluDataset.ParseTasks | gridworld/data/iglu_dataset.py:89-131 | the loop over sessions computes RegisterAll; on an exception the registry holds exactly the sessions before the failing one; on both paths the registry stays well formed |
| TaskRegistry.IgluDataset.Reset | gridworld/data/iglu_dataset.py:133-137 | reset returns Pick's choice and stores it as current; the registry is unchanged |
| TaskRegistry.IgluDataset.Iter | gridworld/data/iglu_dataset.py:142-146 | iteration yields one item per session, (id, j, s) exactly for session j of structure id |
| ActionDecoding.Axis | gridworld/env.py:146-153 | two opposing keys give -1, 0 or 1: 0 exactly when both or neither are pressed |
| ActionDecoding.ParseAction | gridworld/env.py:144-162 | strafe is the net of forward/back and left/right; hotbar 0 gives no slot and any other value is passed on; jump, remove and add are the truth of jump, attack and use; the camera is copied |
| ActionDecoding.ParseLowLevelAction | gridworld/env.py:164-198 | each component is set exactly by its own action number; any value outside 1..17 is the no-op; 6..11 select slots 1..6 |
| ActionDecoding.LowLevelActionHasOneEffect | gridworld/env.py:164-198 | actions 1..17 change exactly one component; all other actions change none |
| ActionDecoding.DecodersAgree | gridworld/env.py:144-198 | a low-level action decodes like the dictionary action pressing the same control |
| ActionDecoding.MapAction | gridworld/env.py:250-268 | IndexError exactly outside -17..16; the identity on 0..16; a + 17 for negative a; the result is always in 0..16 |
| ActionDecoding.WrappedActionsNeverUse | gridworld/env.py:250-268 | no action through the map decodes to `use` |
| GridWorldEnv.Decode | gridworld/env.py:206 | the decoder chosen by discretize handles its own kind of action (an index, or a dictionary for parse_action) and raises TypeError exactly on the other kind |
| GridWorldEnv.Override | gridworld/env.py:207-209 | with select-and-place and a slot chosen, add is forced on and remove off; otherwise the action is unchanged |
| GridWorldEnv.CreateEnvControls | gridworld/env.py:207-209 | with create_env's settings behind the Actions map, a block is placed exactly by actions 6..11 and removed exactly by action 16 |
| GridWorldEnv.RewardBranches | gridworld/env.py:234-237 | without a right placement the reward is wrong_placement times the wrong scale, otherwise right_placement times the right scale; so it ignores wrong placements when there is a right placement, ignores the right scale when there is none, and is positive for a positive right placement and scale |
| GridWorldEnv.Slot | gridworld/env.py:128 | `inventory[color - 1]` succeeds exactly for colours -5..6 and reaches slot c - 1 for a colour c in 1..6 |
| GridWorldEnv.StartingInventory | gridworld/env.py:126-128 | six slots on success; IndexError otherwise |
| GridWorldEnv.StartingInventoryCounts | gridworld/env.py:126-128 | reset's loop succeeds exactly when every colour is in -5..6; each slot then holds 20 minus the blocks that reach it |
| GridWorldEnv.PaletteSlotCounts | gridworld/env.py:126-128 | with colours in 1..6, slot k loses one block per starting block of colour k + 1 |
| GridWorldEnv.AirTakesLastSlot | gridworld/env.py:128 | a starting block of colour 0 takes one from the last slot |
| GridWorldEnv.StartingInventoryFailsOn | gridworld/env.py:127-128 | one colour outside the inventory makes the whole loop raise |
| GridWorldEnv.GridWorld.constructor | gridworld/env.py:17-34 | the grid is a fresh all-zero 9 x 11 x 11 array, the step counter is 0, and the settings are stored |
| GridWorldEnv.GridWorld.AddBlock | gridworld/env.py:88-94 | when the world is initialised and the position is in the build zone, cell [y+1, x+5, z+5] becomes kind; no other cell changes |
| GridWorldEnv.GridWorld.RemoveBlock | gridworld/env.py:96-107 | ValueError exactly when the world is initialised, the position is in the build zone and the cell holds air; otherwise the cell is cleared; no other cell changes |
| GridWorldEnv.GridWorld.AddThenRemove | gridworld/env.py:88-107 | placing a non-air block and then breaking it succeeds and leaves that cell air and every other cell as before |
| GridWorldEnv.GridWorld.Reset | gridworld/env.py:113-128 | the step counter is 0 and the world flag is unchanged; the inventory is StartingInventory of the starting colours, or IndexError |
| GridWorldEnv.GridWorld.Step | gridworld/env.py:200-241 | the counter grows by one even when decoding raises; step raises TypeError exactly when the decoder does; otherwise the agent gets the decoded and overridden action, done holds exactly when calc_reward reports done or the step limit is reached, and the reward is the branch RewardOf chooses |
| SizeRewardWrapper.SizeMonotone | gridworld/env.py:373-377 | size never decreases from one step to a later one |
| SizeRewardWrapper.SizeIsRunningMax | gridworld/env.py:373-377 | size is non-negative, at least every intersection seen, and equal to one of them unless it is 0 |
| SizeRewardWrapper.GainsTelescope | gridworld/env.py:376-377 | every reward term is non-negative and their sum is the final size |
| SizeRewardWrapper.SizeReward.constructor | gridworld/env.py:365-367 | size starts at 0 |
| SizeRewardWrapper.SizeReward.Reset | gridworld/env.py:369-371 | size returns to 0 |
| SizeRewardWrapper.SizeReward.Step | gridworld/env.py:373-377 | the reward term is the growth of the running maximum, and it is non-negative; size does not decrease and is at least the new intersection |
| BuildTargets.CumulativeTargets | gridworld/env.py:445 | one target per step |
| BuildTargets.FirstTarget | gridworld/env.py:445 | the first target is the first step |
| BuildTargets.LastTarget | gridworld/env.py:445 | the last target holds every step's blocks |
| BuildTargets.TargetsGrowByOneStep | gridworld/env.py:445 | each target is the previous one followed by the next step's blocks |
| BuildTargets.TargetsArePrefixes | gridworld/env.py:445 | every earlier target is a prefix of every later one |
| BuildTargets.BuildStepsWellFormed | gridworld/env.py:406-444 | after the empty first step, each step lays three blocks of one palette colour inside the grid |
| BuildTargets.BuildTargetSizes | gridworld/env.py:406-445 | target i holds 3i blocks, all inside the grid and coloured 1..6 |

## Left out

- Rendering: `Renderer`, `setup`, `render`, `enable_renderer` and the `Visual` wrapper. These are windowing and foreign calls.
- The `Logged` wrapper. It only writes files, video and arrays.
- Agent physics and the world:
  - `movement`, `move_camera`, `place_or_remove_block` and `update`;
  - the `World` object, its callbacks and `world.placed`.
  These are not part of this model. The callbacks are modelled as direct calls of `AddBlock` and `RemoveBlock`.
  Because `place_or_remove_block` is left out, the model's `GridWorld.Step` leaves the inventory untouched; in the source, placing and breaking blocks during `update` changes it.
- `step`'s yaw normalisation and observation arrays, and the float scaling of the reward. The reward branch is modelled over `real`.
- SizeReward's `min(wrong_placement * 0.02, 0)` term. It is a float adjustment.
- `intersection` is an argument of `SizeReward.Step`. `max_int` is only ever set to 0 in the code shown.
- `Task`/`Subtasks`:
  - `calc_reward`, `sample`, `starting_grid`, `target_grid` and `structure_seq` are not part of this model;
  - `right_placement`, `wrong_placement`, the `done` flag of `calc_reward` and the starting colours are inputs;
  - `__len__` is left out, since it only sums `structure_seq` lengths.
- The gym space declarations.
- File and CSV input:
  - `pd.read_csv`, `os.path.exists` and `json.load` become inputs: rows sorted by StepId, a flag for the builder-data directory, and a map from StepId to the snapshot's blocks;
  - the `groupby` over `PartitionKey` is the sequence of session inputs.
- `eval`: the payload parser accepts only decimal integers and flat, parenthesised or bare, comma-separated tuples of them. Anything else is "unreadable", so the line is kept. Python would evaluate nested parentheses or other literals and might rewrite or raise on them.
- `np.random.choice`: the two draws are injected indices.
- The module-level script at the end of `iglu_dataset.py`.
- Out-of-range grid positions: `AddBlock` and `RemoveBlock` require a position inside the zone, where numpy would wrap negative indices or raise.
- State left behind by an exception part-way through `parse_tasks`' row loop. It is discarded with the session, as the exception is.
- `reset`'s removal and re-placement of world blocks and its agent position fields. `GridWorld.Reset` models the step counter and the inventory.
- `GridWorld.constructor`: does not run the trailing `reset()`. Call `Reset` after it.
- `TaskRegistry.IgluDataset.Iter`: yields each registered session once. The source yields every item of iterating the session's `Subtasks` object, and that iterator is not part of this model.
- `FixLogLines`: requires that the last line of the original log is non-empty. `"\n".join` cannot reproduce a final empty line, so the line count is stated only where it is preserved.
- `RewardOf`: has no contract of its own. Its value in each branch is stated by `RewardBranches`.
