/**
 * IGLUDataset's registry (gridworld/data/iglu_dataset.py): `self.tasks`, a
 * defaultdict(list) from structure id to the sessions recorded for it,
 * filled by parse_tasks, sampled in two stages by reset and walked by
 * __iter__.
 */
module TaskRegistry {
  import opened Common
  import opened Segmentation

  /**
   * `self.tasks`: a dict keeps its keys in insertion order, so the keys are
   * kept as a sequence beside the map.
   */
  datatype Registry = Registry(keys: seq<string>, tasks: map<string, seq<Segments>>)

  const EmptyRegistry := Registry([], map[])

  /** Keys listed once each and exactly the map's domain; every list and every session non-empty. */
  ghost predicate WellFormed(reg: Registry)
  {
    && (forall i, j :: 0 <= i < j < |reg.keys| ==> reg.keys[i] != reg.keys[j])
    && (forall sid :: sid in reg.tasks <==> sid in reg.keys)
    && (forall sid :: sid in reg.tasks ==> reg.tasks[sid] != [])
    && (forall sid, k :: sid in reg.tasks && 0 <= k < |reg.tasks[sid]| ==> reg.tasks[sid][k].blocks != [])
  }

  /** `self.tasks[structure_id].append(task)` */
  function AddSession(reg: Registry, sid: string, seg: Segments): (r: Registry)
    ensures r.tasks.Keys == reg.tasks.Keys + {sid}
    ensures r.tasks[sid] == (if sid in reg.tasks then reg.tasks[sid] else []) + [seg]
    ensures forall other :: other in reg.tasks && other != sid ==> r.tasks[other] == reg.tasks[other]
    ensures r.keys == (if sid in reg.tasks then reg.keys else reg.keys + [sid])
  {
    if sid in reg.tasks then Registry(reg.keys, reg.tasks[sid := reg.tasks[sid] + [seg]])
    else Registry(reg.keys + [sid], reg.tasks[sid := [seg]])
  }

  lemma AddSessionWellFormed(reg: Registry, sid: string, seg: Segments)
    requires WellFormed(reg) && seg.blocks != []
    ensures WellFormed(AddSession(reg, sid, seg))
  {
    var r := AddSession(reg, sid, seg);
    forall s, k | s in r.tasks && 0 <= k < |r.tasks[s]|
      ensures r.tasks[s][k].blocks != []
    {
      if s != sid {
        assert r.tasks[s][k] == reg.tasks[s][k];
      } else if k < |r.tasks[s]| - 1 {
        assert r.tasks[s][k] == reg.tasks[s][k];
      }
    }
  }

  /** The parse_tasks loop over sessions; the first exception ends it. */
  function RegisterAll(reg: Registry, sessions: seq<SessionInput>): Result<Registry>
  {
    if sessions == [] then Ok(reg)
    else
      match RegisterAll(reg, sessions[..|sessions| - 1])
      case Err(e) => Err(e)
      case Ok(r) =>
        match SessionOutcome(sessions[|sessions| - 1])
        case Err(e) => Err(e)
        case Ok(None) => Ok(r)
        case Ok(Some((sid, seg))) => Ok(AddSession(r, sid, seg))
  }

  /** The sessions registered under `sid`, in input order. */
  function RegisteredUnder(sessions: seq<SessionInput>, sid: string): seq<Segments>
  {
    if sessions == [] then []
    else
      RegisteredUnder(sessions[..|sessions| - 1], sid) +
      match SessionOutcome(sessions[|sessions| - 1])
      case Ok(Some((id, seg))) => if id == sid then [seg] else []
      case _ => []
  }

  /**
   * parse_tasks on a fresh registry either raises the exception of the
   * first failing session or registers, under each structure id, exactly
   * the sessions that survived the merge, in input order; the result is
   * well formed.
   */
  lemma {:induction false} RegisterAllContents(sessions: seq<SessionInput>)
    requires RegisterAll(EmptyRegistry, sessions).Ok?
    ensures WellFormed(RegisterAll(EmptyRegistry, sessions).value)
    ensures forall sid :: sid in RegisterAll(EmptyRegistry, sessions).value.tasks ==>
              RegisterAll(EmptyRegistry, sessions).value.tasks[sid] == RegisteredUnder(sessions, sid)
    ensures forall sid :: sid !in RegisterAll(EmptyRegistry, sessions).value.tasks ==>
              RegisteredUnder(sessions, sid) == []
  {
    if sessions != [] {
      var prefix := sessions[..|sessions| - 1];
      RegisterAllContents(prefix);
      var r := RegisterAll(EmptyRegistry, prefix).value;
      match SessionOutcome(sessions[|sessions| - 1])
      case Ok(Some((sid, seg))) =>
        AddSessionWellFormed(r, sid, seg);
      case _ =>
    }
  }

  /** parse_tasks raises exactly when one of the sessions raises. */
  lemma {:induction false} RegisterAllFailsIff(reg: Registry, sessions: seq<SessionInput>)
    ensures RegisterAll(reg, sessions).Err? <==>
              exists k :: 0 <= k < |sessions| && SessionOutcome(sessions[k]).Err?
  {
    if sessions != [] {
      var n := |sessions|;
      var prefix := sessions[..n - 1];
      RegisterAllFailsIff(reg, prefix);
      if exists k :: 0 <= k < n && SessionOutcome(sessions[k]).Err? {
        var k :| 0 <= k < n && SessionOutcome(sessions[k]).Err?;
        if k < n - 1 {
          assert prefix[k] == sessions[k];
        }
      }
      if exists k :: 0 <= k < n - 1 && SessionOutcome(prefix[k]).Err? {
        var k :| 0 <= k < n - 1 && SessionOutcome(prefix[k]).Err?;
        assert sessions[k] == prefix[k];
      }
    }
  }

  /**
   * reset's two-stage choice, the two `np.random.choice` draws injected as
   * indices: first a structure among the distinct keys, then one of its
   * sessions.  An empty registry makes the first draw raise ValueError.
   */
  function Pick(reg: Registry, structureIndex: nat, sessionIndex: nat): (r: Result<Segments>)
    requires WellFormed(reg)
    requires reg.keys != [] ==> structureIndex < |reg.keys|
    requires reg.keys != [] ==> sessionIndex < |reg.tasks[reg.keys[structureIndex]]|
    ensures r.Err? <==> reg.keys == []
    ensures r.Err? ==> r.error == ValueError
    ensures r.Ok? ==> r.value in reg.tasks[reg.keys[structureIndex]] && r.value.blocks != []
  {
    if reg.keys == [] then Err(ValueError)
    else Ok(reg.tasks[reg.keys[structureIndex]][sessionIndex])
  }

  /**
   * Every registered session can be drawn: the first stage ranges over the
   * structures, one index per structure, and the second over that
   * structure's sessions.
   */
  lemma PickReachesEverySession(reg: Registry, sid: string, j: nat)
    requires WellFormed(reg) && sid in reg.tasks && j < |reg.tasks[sid]|
    ensures exists i :: 0 <= i < |reg.keys| && reg.keys[i] == sid && Pick(reg, i, j) == Ok(reg.tasks[sid][j])
  {
    var i :| 0 <= i < |reg.keys| && reg.keys[i] == sid;
    assert Pick(reg, i, j) == Ok(reg.tasks[sid][j]);
  }

  /** __iter__ over the first n structures: (structure id, session index, session). */
  function Entries(reg: Registry, n: nat): seq<(string, nat, Segments)>
    requires n <= |reg.keys|
    requires forall sid :: sid in reg.keys ==> sid in reg.tasks
  {
    if n == 0 then []
    else
      var sid := reg.keys[n - 1];
      var sessions := reg.tasks[sid];
      Entries(reg, n - 1) + StructureEntries(sid, sessions)
  }

  /** Total number of registered sessions over the first n structures. */
  function SessionCount(reg: Registry, n: nat): nat
    requires n <= |reg.keys|
    requires forall sid :: sid in reg.keys ==> sid in reg.tasks
  {
    if n == 0 then 0 else SessionCount(reg, n - 1) + |reg.tasks[reg.keys[n - 1]]|
  }

  /** The items __iter__ yields for one structure. */
  function StructureEntries(sid: string, sessions: seq<Segments>): (items: seq<(string, nat, Segments)>)
    ensures |items| == |sessions|
    ensures forall id, j: nat, s :: (id, j, s) in items <==> id == sid && j < |sessions| && sessions[j] == s
  {
    var items := seq(|sessions|, j requires 0 <= j < |sessions| => (sid, j, sessions[j]));
    assert forall j :: 0 <= j < |sessions| ==> items[j] == (sid, j, sessions[j]);
    items
  }

  /** __iter__ yields one item per registered session. */
  lemma {:induction false} EntriesCount(reg: Registry, n: nat)
    requires WellFormed(reg) && n <= |reg.keys|
    ensures |Entries(reg, n)| == SessionCount(reg, n)
  {
    if n > 0 {
      EntriesCount(reg, n - 1);
    }
  }

  /** __iter__ yields every registered session exactly at its own (structure id, index), and nothing else. */
  lemma {:induction false} EntriesExact(reg: Registry, n: nat)
    requires WellFormed(reg) && n <= |reg.keys|
    ensures forall sid, j: nat, s ::
              (sid, j, s) in Entries(reg, n) <==>
              (sid in reg.keys[..n] && j < |reg.tasks[sid]| && reg.tasks[sid][j] == s)
  {
    if n > 0 {
      EntriesExact(reg, n - 1);
      var sid := reg.keys[n - 1];
      var prev := Entries(reg, n - 1);
      var tail := StructureEntries(sid, reg.tasks[sid]);
      assert Entries(reg, n) == prev + tail;
      assert reg.keys[..n] == reg.keys[..n - 1] + [sid];
      forall id, j: nat, s
        ensures (id, j, s) in Entries(reg, n) <==>
                (id in reg.keys[..n] && j < |reg.tasks[id]| && reg.tasks[id][j] == s)
      {
        assert (id, j, s) in Entries(reg, n) <==> (id, j, s) in prev || (id, j, s) in tail;
        assert id in reg.keys[..n] <==> id in reg.keys[..n - 1] || id == sid;
      }
    }
  }

  /** The dataset object: its registry and the session reset last chose. */
  class IgluDataset {
    var tasks: Registry
    var current: Option<Segments>

    ghost predicate Valid()
      reads this
    {
      WellFormed(tasks)
    }

    /** `self.tasks = defaultdict(list)` */
    constructor ()
      ensures Valid() && tasks == EmptyRegistry && current == None
    {
      tasks := EmptyRegistry;
      current := None;
    }

    /**
     * parse_tasks over all sessions (grouped by PartitionKey).  An
     * exception ends the loop and is returned; the registry then holds the
     * sessions registered before the failing one.
     */
    method ParseTasks(sessions: seq<SessionInput>) returns (err: Option<PyError>)
      requires Valid()
      modifies this
      ensures Valid()
      ensures current == old(current)
      ensures err.None? <==> RegisterAll(old(tasks), sessions).Ok?
      ensures err.None? ==> Ok(tasks) == RegisterAll(old(tasks), sessions)
      ensures err.Some? ==>
                (exists k :: 0 <= k < |sessions| &&
                   RegisterAll(old(tasks), sessions[..k]) == Ok(tasks) &&
                   SessionOutcome(sessions[k]) == Err(err.value))
    {
      var i := 0;
      while i < |sessions|
        invariant 0 <= i <= |sessions|
        invariant RegisterAll(old(tasks), sessions[..i]) == Ok(tasks)
        invariant current == old(current)
        invariant Valid()
      {
        assert sessions[..i + 1][..i] == sessions[..i];
        var outcome := ParseSession(sessions[i]);
        if outcome.Err? {
          assert SessionOutcome(sessions[i]) == Err(outcome.error);
          RegisterAllErrPropagates(old(tasks), sessions, i + 1);
          return Some(outcome.error);
        }
        if outcome.value.Some? {
          var (sid, seg) := outcome.value.value;
          AddSessionWellFormed(tasks, sid, seg);
          tasks := AddSession(tasks, sid, seg);
        }
        i := i + 1;
      }
      assert sessions[..i] == sessions;
      err := None;
    }

    /** reset: the two-stage draw; the chosen session becomes `self.current`. */
    method Reset(structureIndex: nat, sessionIndex: nat) returns (r: Result<Segments>)
      requires Valid()
      requires tasks.keys != [] ==> structureIndex < |tasks.keys|
      requires tasks.keys != [] ==> sessionIndex < |tasks.tasks[tasks.keys[structureIndex]]|
      modifies this
      ensures tasks == old(tasks)
      ensures r == Pick(tasks, structureIndex, sessionIndex)
      ensures current == if r.Ok? then Some(r.value) else old(current)
    {
      if tasks.keys == [] {
        return Err(ValueError);
      }
      var sample := tasks.keys[structureIndex];
      current := Some(tasks.tasks[sample][sessionIndex]);
      r := Ok(tasks.tasks[sample][sessionIndex]);
    }

    /** __iter__: (structure id, session index, session) in insertion order. */
    function Iter(): (items: seq<(string, nat, Segments)>)
      reads this
      requires Valid()
      ensures |items| == SessionCount(tasks, |tasks.keys|)
      ensures forall sid, j: nat, s :: (sid, j, s) in items <==>
                (sid in tasks.tasks && j < |tasks.tasks[sid]| && tasks.tasks[sid][j] == s)
    {
      EntriesCount(tasks, |tasks.keys|);
      EntriesExact(tasks, |tasks.keys|);
      assert tasks.keys[..|tasks.keys|] == tasks.keys;
      Entries(tasks, |tasks.keys|)
    }
  }

  /** Once a prefix of the sessions has raised, the whole loop raises the same exception. */
  lemma {:induction false} RegisterAllErrPropagates(reg: Registry, sessions: seq<SessionInput>, j: nat)
    requires j <= |sessions| && RegisterAll(reg, sessions[..j]).Err?
    ensures RegisterAll(reg, sessions) == RegisterAll(reg, sessions[..j])
    decreases |sessions|
  {
    if j < |sessions| {
      var prefix := sessions[..|sessions| - 1];
      assert prefix[..j] == sessions[..j];
      RegisterAllErrPropagates(reg, prefix, j);
    } else {
      assert sessions[..j] == sessions;
    }
  }
}
