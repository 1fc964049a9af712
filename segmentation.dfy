/**
 * The per-session part of IGLUDataset.parse_tasks
 * (gridworld/data/iglu_dataset.py): the row loop that grows the utterance
 * groups (`utt_seq`) and the block-edit entries (`blocks`), and the loop
 * that merges empty entries away.
 *
 * The CSV table and the step files are inputs: a session is its rows in
 * ascending StepId order, and a map from StepId to the snapshot's
 * `worldEndingState.blocks` (a missing key is a missing step file).
 */
module Segmentation {
  import opened Common
  import opened BlockColours

  /** One row of HitsTable2.csv; a text column that is not a string (NaN) is None. */
  datatype Row = Row(
    stepId: int,
    structureId: string,
    instruction: Option<string>,
    answer: Option<string>,
    question: Option<string>)

  /** StepId -> blocks of that step's snapshot; no key means no step file. */
  type Snapshots = map<int, seq<RawBlock>>

  /** utt_seq and blocks; also the payload of a registered Subtasks. */
  datatype Segments = Segments(utterances: seq<seq<string>>, blocks: seq<seq<Block>>)

  /** One session's input: whether builder-data/<session> exists, its rows and its step files. */
  datatype SessionInput = SessionInput(hasBuilderData: bool, rows: seq<Row>, snapshots: Snapshots)

  // ---------------------------------------------------------------------
  // The row rules
  // ---------------------------------------------------------------------

  /** Odd StepId: an architect turn.  (Python's % agrees with Dafny's for divisor 2.) */
  predicate IsArchitectTurn(row: Row)
  {
    row.stepId % 2 == 1
  }

  /** An architect instruction: opens a new utterance group. */
  predicate OpensGroup(row: Row)
  {
    IsArchitectTurn(row) && row.instruction.Some?
  }

  /** An answer (architect turn) or a clarifying question (builder turn): extends the last group. */
  predicate ExtendsLastGroup(row: Row)
  {
    if IsArchitectTurn(row) then row.instruction.None? && row.answer.Some?
    else row.question.Some?
  }

  /** A builder turn without a question: appends one block-edit entry. */
  predicate OpensEntry(row: Row)
  {
    !IsArchitectTurn(row) && row.question.None?
  }

  /** The text a row contributes to the utterance groups (an answer beside an instruction is ignored). */
  function RowText(row: Row): seq<string>
  {
    if OpensGroup(row) then [row.instruction.value]
    else if ExtendsLastGroup(row) then
      (if IsArchitectTurn(row) then [row.answer.value] else [row.question.value])
    else []
  }

  /** The entry a builder turn appends: the converted snapshot, or empty when its step file is missing. */
  function StepEntry(snaps: Snapshots, stepId: int): (e: seq<Block>)
    ensures stepId !in snaps ==> e == []
    ensures stepId in snaps ==> e == ConvertAll(snaps[stepId])
  {
    if stepId in snaps then ConvertAll(snaps[stepId]) else []
  }

  /** The effect of one row on (utt_seq, blocks); `utt_seq[-1]` on an empty list is an IndexError. */
  function ApplyRow(s: Segments, row: Row, snaps: Snapshots): (r: Result<Segments>)
    ensures r.Err? <==> ExtendsLastGroup(row) && s.utterances == []
    ensures r.Err? ==> r.error == IndexError
    // text is appended to the groups, never reordered or dropped
    ensures r.Ok? ==> Flatten(r.value.utterances) == Flatten(s.utterances) + RowText(row)
    // an instruction opens a group holding just that instruction
    ensures r.Ok? && OpensGroup(row) ==> r.value.utterances == s.utterances + [RowText(row)]
    // an answer or question only grows the last group
    ensures r.Ok? && ExtendsLastGroup(row) ==>
              |r.value.utterances| == |s.utterances| &&
              r.value.utterances[..|s.utterances| - 1] == s.utterances[..|s.utterances| - 1] &&
              r.value.utterances[|s.utterances| - 1] == s.utterances[|s.utterances| - 1] + RowText(row)
    ensures r.Ok? && !OpensGroup(row) && !ExtendsLastGroup(row) ==> r.value.utterances == s.utterances
    // exactly one entry for a builder turn without a question, none otherwise
    ensures r.Ok? && OpensEntry(row) ==> r.value.blocks == s.blocks + [StepEntry(snaps, row.stepId)]
    ensures r.Ok? && !OpensEntry(row) ==> r.value.blocks == s.blocks
  {
    if OpensGroup(row) then
      Ok(Segments(OpenGroup(s.utterances, row.instruction.value), s.blocks))
    else if ExtendsLastGroup(row) then
      if s.utterances == [] then Err(IndexError)
      else
        var text := if IsArchitectTurn(row) then row.answer.value else row.question.value;
        Ok(Segments(AppendToLast(s.utterances, text), s.blocks))
    else if OpensEntry(row) then
      Ok(Segments(s.utterances, s.blocks + [StepEntry(snaps, row.stepId)]))
    else
      Ok(s)
  }

  /** `utt_seq.append([text])` */
  function OpenGroup(groups: seq<seq<string>>, text: string): (r: seq<seq<string>>)
    ensures r == groups + [[text]]
    ensures Flatten(r) == Flatten(groups) + [text]
  {
    assert (groups + [[text]])[..|groups|] == groups;
    groups + [[text]]
  }

  /** `utt_seq[-1].append(text)` */
  function AppendToLast(groups: seq<seq<string>>, text: string): (r: seq<seq<string>>)
    requires groups != []
    ensures |r| == |groups| && r[..|groups| - 1] == groups[..|groups| - 1]
    ensures r[|groups| - 1] == groups[|groups| - 1] + [text]
    ensures Flatten(r) == Flatten(groups) + [text]
  {
    var n := |groups|;
    var r := groups[..n - 1] + [groups[n - 1] + [text]];
    assert r[..n - 1] == groups[..n - 1];
    assert groups[..n - 1] == groups[..n - 1][..n - 1];
    assert Flatten(groups) == Flatten(groups[..n - 1]) + groups[n - 1];
    r
  }

  /** The row loop of parse_tasks over rows in StepId order. */
  function Segment(rows: seq<Row>, snaps: Snapshots): Result<Segments>
  {
    if rows == [] then Ok(Segments([], []))
    else
      match Segment(rows[..|rows| - 1], snaps)
      case Err(e) => Err(e)
      case Ok(s) => ApplyRow(s, rows[|rows| - 1], snaps)
  }

  /** All the text the rows contribute, in row order. */
  function AllText(rows: seq<Row>): seq<string>
  {
    if rows == [] then [] else AllText(rows[..|rows| - 1]) + RowText(rows[|rows| - 1])
  }

  /** The entries the builder turns contribute, in row order. */
  function AllEntries(rows: seq<Row>, snaps: Snapshots): seq<seq<Block>>
  {
    if rows == [] then []
    else
      var last := rows[|rows| - 1];
      AllEntries(rows[..|rows| - 1], snaps) + (if OpensEntry(last) then [StepEntry(snaps, last.stepId)] else [])
  }

  /** Number of instruction rows. */
  function CountGroups(rows: seq<Row>): nat
  {
    if rows == [] then 0 else CountGroups(rows[..|rows| - 1]) + (if OpensGroup(rows[|rows| - 1]) then 1 else 0)
  }

  /** An answer or question that comes before every instruction. */
  predicate ClarifiesBeforeInstruction(rows: seq<Row>)
  {
    exists k :: 0 <= k < |rows| && ExtendsLastGroup(rows[k]) && CountGroups(rows[..k]) == 0
  }

  /** The row loop applied to rows and then one more row. */
  lemma SegmentSnoc(rows: seq<Row>, row: Row, snaps: Snapshots)
    ensures Segment(rows, snaps).Err? ==> Segment(rows + [row], snaps) == Segment(rows, snaps)
    ensures Segment(rows, snaps).Ok? ==> Segment(rows + [row], snaps) == ApplyRow(Segment(rows, snaps).value, row, snaps)
  {
    assert (rows + [row])[..|rows|] == rows;
  }

  /** The same, for the prefixes of one list of rows. */
  lemma SegmentPrefixStep(rows: seq<Row>, i: nat, snaps: Snapshots)
    requires i < |rows|
    ensures Segment(rows[..i], snaps).Err? ==> Segment(rows[..i + 1], snaps) == Segment(rows[..i], snaps)
    ensures Segment(rows[..i], snaps).Ok? ==>
              Segment(rows[..i + 1], snaps) == ApplyRow(Segment(rows[..i], snaps).value, rows[i], snaps)
  {
    assert rows[..i + 1] == rows[..i] + [rows[i]];
    SegmentSnoc(rows[..i], rows[i], snaps);
  }

  /** A successful row loop keeps all the rows' text, in order. */
  lemma {:induction false} SegmentText(rows: seq<Row>, snaps: Snapshots)
    requires Segment(rows, snaps).Ok?
    ensures Flatten(Segment(rows, snaps).value.utterances) == AllText(rows)
  {
    if rows != [] {
      SegmentText(rows[..|rows| - 1], snaps);
    }
  }

  /** A successful row loop opens one group per instruction. */
  lemma {:induction false} SegmentGroupCount(rows: seq<Row>, snaps: Snapshots)
    requires Segment(rows, snaps).Ok?
    ensures |Segment(rows, snaps).value.utterances| == CountGroups(rows)
  {
    if rows != [] {
      SegmentGroupCount(rows[..|rows| - 1], snaps);
    }
  }

  /** A successful row loop adds one entry per builder turn without a question (empty when the step file is missing). */
  lemma {:induction false} SegmentEntries(rows: seq<Row>, snaps: Snapshots)
    requires Segment(rows, snaps).Ok?
    ensures Segment(rows, snaps).value.blocks == AllEntries(rows, snaps)
  {
    if rows != [] {
      SegmentEntries(rows[..|rows| - 1], snaps);
    }
  }

  /** The failure condition, split at the last row. */
  lemma ClarifiesSnoc(rows: seq<Row>)
    requires rows != []
    ensures ClarifiesBeforeInstruction(rows) <==>
              ClarifiesBeforeInstruction(rows[..|rows| - 1]) ||
              (ExtendsLastGroup(rows[|rows| - 1]) && CountGroups(rows[..|rows| - 1]) == 0)
  {
    var n := |rows|;
    var prefix := rows[..n - 1];
    if ClarifiesBeforeInstruction(rows) {
      var k :| 0 <= k < n && ExtendsLastGroup(rows[k]) && CountGroups(rows[..k]) == 0;
      if k < n - 1 {
        assert prefix[k] == rows[k] && prefix[..k] == rows[..k];
      }
    }
    if ClarifiesBeforeInstruction(prefix) {
      var k :| 0 <= k < n - 1 && ExtendsLastGroup(prefix[k]) && CountGroups(prefix[..k]) == 0;
      assert rows[k] == prefix[k] && rows[..k] == prefix[..k];
    }
  }

  /**
   * The row loop fails (IndexError on `utt_seq[-1]`) exactly when some
   * answer or clarifying question arrives before any instruction.
   */
  lemma {:induction false} SegmentFailsIff(rows: seq<Row>, snaps: Snapshots)
    ensures Segment(rows, snaps).Err? <==> ClarifiesBeforeInstruction(rows)
    ensures Segment(rows, snaps).Err? ==> Segment(rows, snaps).error == IndexError
  {
    if rows != [] {
      var prefix := rows[..|rows| - 1];
      SegmentFailsIff(prefix, snaps);
      ClarifiesSnoc(rows);
      if Segment(prefix, snaps).Ok? {
        SegmentGroupCount(prefix, snaps);
      }
    }
  }

  /** Once the row loop has failed on a prefix, the whole loop fails with the same error. */
  lemma {:induction false} SegmentErrPropagates(rows: seq<Row>, j: nat, snaps: Snapshots)
    requires j <= |rows| && Segment(rows[..j], snaps).Err?
    ensures Segment(rows, snaps) == Segment(rows[..j], snaps)
    decreases |rows|
  {
    if j < |rows| {
      var prefix := rows[..|rows| - 1];
      assert prefix[..j] == rows[..j];
      SegmentErrPropagates(prefix, j, snaps);
    } else {
      assert rows[..j] == rows;
    }
  }

  /**
   * One pass of parse_tasks' row loop: `utt_seq` and `blocks` are grown,
   * and a snapshot's blocks are converted and appended one by one.
   */
  method StepRow(uttSeq: seq<seq<string>>, blocks: seq<seq<Block>>, row: Row, snaps: Snapshots)
    returns (r: Result<Segments>)
    ensures r == ApplyRow(Segments(uttSeq, blocks), row, snaps)
  {
    if IsArchitectTurn(row) {
      if row.instruction.Some? {
        return Ok(Segments(uttSeq + [[row.instruction.value]], blocks));
      } else if row.answer.Some? {
        if uttSeq == [] {
          return Err(IndexError);
        }
        return Ok(Segments(uttSeq[..|uttSeq| - 1] + [uttSeq[|uttSeq| - 1] + [row.answer.value]], blocks));
      }
      return Ok(Segments(uttSeq, blocks));
    }
    if row.question.Some? {
      if uttSeq == [] {
        return Err(IndexError);
      }
      return Ok(Segments(uttSeq[..|uttSeq| - 1] + [uttSeq[|uttSeq| - 1] + [row.question.value]], blocks));
    }
    var grown := blocks + [[]];
    if row.stepId in snaps {
      var raw := snaps[row.stepId];
      var j := 0;
      while j < |raw|
        invariant 0 <= j <= |raw|
        invariant grown == blocks + [ConvertAll(raw[..j])]
      {
        assert ConvertAll(raw[..j]) + [ConvertBlock(raw[j])] == ConvertAll(raw[..j + 1]);
        grown := grown[..|grown| - 1] + [grown[|grown| - 1] + [ConvertBlock(raw[j])]];
        j := j + 1;
      }
      assert raw[..j] == raw;
    }
    return Ok(Segments(uttSeq, grown));
  }

  /** The row loop of parse_tasks, over rows in StepId order. */
  method SegmentRows(rows: seq<Row>, snaps: Snapshots) returns (r: Result<Segments>)
    ensures r == Segment(rows, snaps)
  {
    var uttSeq: seq<seq<string>> := [];
    var blocks: seq<seq<Block>> := [];
    var i := 0;
    while i < |rows|
      invariant 0 <= i <= |rows|
      invariant Segment(rows[..i], snaps) == Ok(Segments(uttSeq, blocks))
    {
      SegmentPrefixStep(rows, i, snaps);
      var next := StepRow(uttSeq, blocks, rows[i], snaps);
      if next.Err? {
        SegmentErrPropagates(rows, i + 1, snaps);
        return next;
      }
      uttSeq, blocks := next.value.utterances, next.value.blocks;
      i := i + 1;
    }
    assert rows[..i] == rows;
    r := Ok(Segments(uttSeq, blocks));
  }

  // ---------------------------------------------------------------------
  // The merge loop
  // ---------------------------------------------------------------------

  function Min(a: int, b: int): int
  {
    if a <= b then a else b
  }

  /**
   * The merge loop from position i, as written: an empty last entry
   * truncates both lists; an inner empty entry is deleted and its group is
   * joined with the next one; `i` advances in every case, so the entry
   * that moves into position i is not examined again.
   */
  function MergeFrom(i: nat, utt: seq<seq<string>>, blocks: seq<seq<Block>>): Result<Segments>
    decreases |blocks| - i
  {
    if i >= |blocks| then Ok(Segments(utt, blocks))
    else if blocks[i] == [] then
      if i == |blocks| - 1 then Ok(Segments(utt[..Min(i, |utt|)], blocks[..i]))
      else if i + 1 >= |utt| then Err(IndexError)
      else MergeFrom(i + 1, utt[..i] + [utt[i] + utt[i + 1]] + utt[i + 2..], blocks[..i] + blocks[i + 1..])
    else MergeFrom(i + 1, utt, blocks)
  }

  /** The merge loop of parse_tasks, rebuilding both lists in place. */
  method MergeEmptyEntries(utt: seq<seq<string>>, blocks: seq<seq<Block>>) returns (r: Result<Segments>)
    ensures r == MergeFrom(0, utt, blocks)
  {
    var uttSeq, bs := utt, blocks;
    var i := 0;
    while i < |bs|
      invariant MergeFrom(i, uttSeq, bs) == MergeFrom(0, utt, blocks)
      decreases |bs| - i
    {
      if |bs[i]| == 0 {
        if i == |bs| - 1 {
          bs := bs[..i];
          uttSeq := uttSeq[..Min(i, |uttSeq|)];
        } else {
          bs := bs[..i] + bs[i + 1..];
          if i + 1 >= |uttSeq| {
            return Err(IndexError);
          }
          uttSeq := uttSeq[..i] + [uttSeq[i] + uttSeq[i + 1]] + uttSeq[i + 2..];
        }
      }
      i := i + 1;
    }
    r := Ok(Segments(uttSeq, bs));
  }

  /** The entries that hold at least one block, in order. */
  function NonEmpty(bs: seq<seq<Block>>): seq<seq<Block>>
  {
    if bs == [] then [] else NonEmpty(bs[..|bs| - 1]) + (if bs[|bs| - 1] == [] then [] else [bs[|bs| - 1]])
  }

  lemma {:induction false} NonEmptyConcat(a: seq<seq<Block>>, b: seq<seq<Block>>)
    ensures NonEmpty(a + b) == NonEmpty(a) + NonEmpty(b)
  {
    if b == [] {
      assert a + b == a;
    } else {
      assert (a + b)[..|a + b| - 1] == a + b[..|b| - 1];
      NonEmptyConcat(a, b[..|b| - 1]);
    }
  }

  predicate NoEmptyEntry(bs: seq<seq<Block>>)
  {
    forall k :: 0 <= k < |bs| ==> bs[k] != []
  }

  predicate NoAdjacentEmpty(bs: seq<seq<Block>>)
  {
    forall k :: 0 <= k < |bs| - 1 ==> bs[k] != [] || bs[k + 1] != []
  }

  /**
   * With as many groups as entries the merge never fails, keeps the two
   * lists aligned, and only ever removes empty entries: the non-empty
   * entries come out unchanged and in their original order.
   */
  lemma {:induction false} MergeAligned(i: nat, utt: seq<seq<string>>, blocks: seq<seq<Block>>)
    requires |utt| == |blocks|
    ensures MergeFrom(i, utt, blocks).Ok?
    ensures |MergeFrom(i, utt, blocks).value.utterances| == |MergeFrom(i, utt, blocks).value.blocks|
    ensures |MergeFrom(i, utt, blocks).value.blocks| <= |blocks|
    ensures NonEmpty(MergeFrom(i, utt, blocks).value.blocks) == NonEmpty(blocks)
    decreases |blocks| - i
  {
    if i < |blocks| {
      if blocks[i] == [] {
        assert blocks == blocks[..i] + [blocks[i]] + blocks[i + 1..];
        NonEmptyConcat(blocks[..i] + [blocks[i]], blocks[i + 1..]);
        NonEmptyConcat(blocks[..i], [blocks[i]]);
        assert NonEmpty([blocks[i]]) == [] by {
          assert [blocks[i]][..0] == [];
        }
        if i == |blocks| - 1 {
          assert blocks[i + 1..] == [];
        } else {
          NonEmptyConcat(blocks[..i], blocks[i + 1..]);
          MergeAligned(i + 1, utt[..i] + [utt[i] + utt[i + 1]] + utt[i + 2..], blocks[..i] + blocks[i + 1..]);
        }
      } else {
        MergeAligned(i + 1, utt, blocks);
      }
    }
  }

  /**
   * When no two neighbouring entries are empty, every empty entry is
   * merged away: the output holds no empty entry.
   */
  lemma {:induction false} MergeRemovesIsolatedEmpties(i: nat, utt: seq<seq<string>>, blocks: seq<seq<Block>>)
    requires |utt| == |blocks| && i <= |blocks|
    requires NoEmptyEntry(blocks[..i]) && NoAdjacentEmpty(blocks[i..])
    ensures MergeFrom(i, utt, blocks).Ok?
    ensures NoEmptyEntry(MergeFrom(i, utt, blocks).value.blocks)
    decreases |blocks| - i
  {
    MergeAligned(i, utt, blocks);
    if i == |blocks| {
      assert blocks[..i] == blocks;
    } else if blocks[i] == [] {
      if i < |blocks| - 1 {
        var bs' := blocks[..i] + blocks[i + 1..];
        assert blocks[i + 1] != [] by {
          assert blocks[i..][0] == blocks[i] && blocks[i..][1] == blocks[i + 1];
        }
        assert bs'[..i + 1] == blocks[..i] + [blocks[i + 1]];
        assert bs'[i + 1..] == blocks[i + 2..];
        assert NoAdjacentEmpty(blocks[i + 2..]);
        MergeRemovesIsolatedEmpties(i + 1, utt[..i] + [utt[i] + utt[i + 1]] + utt[i + 2..], bs');
      }
    } else {
      assert blocks[..i + 1] == blocks[..i] + [blocks[i]];
      assert NoAdjacentEmpty(blocks[i + 1..]);
      MergeRemovesIsolatedEmpties(i + 1, utt, blocks);
    }
  }

  /** Joining two neighbouring groups into one keeps the text, in order. */
  lemma FlattenJoinGroups(pre: seq<seq<string>>, a: seq<string>, b: seq<string>, post: seq<seq<string>>)
    ensures Flatten(pre + [a + b] + post) == Flatten(pre + [a, b] + post)
  {
    FlattenConcat(pre + [a, b], post);
    FlattenConcat(pre, [a, b]);
    FlattenConcat(pre + [a + b], post);
    FlattenConcat(pre, [a + b]);
    FlattenConcat([a], [b]);
    FlattenSingleton(a);
    FlattenSingleton(b);
    FlattenSingleton(a + b);
    assert [a] + [b] == [a, b];
  }

  /**
   * When the last entry is not empty nothing is truncated, so every
   * utterance survives the merge, in order: a removed inner entry's group
   * is joined to the group of the entry that follows it.
   */
  lemma {:induction false} MergeKeepsAllText(i: nat, utt: seq<seq<string>>, blocks: seq<seq<Block>>)
    requires |utt| == |blocks| && i <= |blocks|
    requires blocks != [] ==> blocks[|blocks| - 1] != []
    ensures MergeFrom(i, utt, blocks).Ok?
    ensures Flatten(MergeFrom(i, utt, blocks).value.utterances) == Flatten(utt)
    decreases |blocks| - i
  {
    MergeAligned(i, utt, blocks);
    if i < |blocks| {
      if blocks[i] == [] {
        var u' := utt[..i] + [utt[i] + utt[i + 1]] + utt[i + 2..];
        assert utt == utt[..i] + [utt[i], utt[i + 1]] + utt[i + 2..];
        FlattenJoinGroups(utt[..i], utt[i], utt[i + 1], utt[i + 2..]);
        var b' := blocks[..i] + blocks[i + 1..];
        assert b'[|b'| - 1] == blocks[|blocks| - 1];
        MergeKeepsAllText(i + 1, u', b');
      } else {
        MergeKeepsAllText(i + 1, utt, blocks);
      }
    }
  }

  /**
   * An empty last entry whose predecessor is not empty is truncated away
   * together with its utterance group: the merged text is the text of all
   * the other groups, and the last group's text is lost.
   */
  lemma {:induction false} MergeDropsTrailingGroup(i: nat, utt: seq<seq<string>>, blocks: seq<seq<Block>>)
    requires |utt| == |blocks| && i < |blocks|
    requires blocks[|blocks| - 1] == []
    requires |blocks| >= 2 ==> blocks[|blocks| - 2] != []
    ensures MergeFrom(i, utt, blocks).Ok?
    ensures Flatten(MergeFrom(i, utt, blocks).value.utterances) == Flatten(utt[..|utt| - 1])
    decreases |blocks| - i
  {
    MergeAligned(i, utt, blocks);
    if blocks[i] == [] {
      if i < |blocks| - 1 {
        assert i < |blocks| - 2;
        var u' := utt[..i] + [utt[i] + utt[i + 1]] + utt[i + 2..];
        var b' := blocks[..i] + blocks[i + 1..];
        assert b'[|b'| - 1] == blocks[|blocks| - 1];
        assert b'[|b'| - 2] == blocks[|blocks| - 2];
        var n := |utt|;
        assert utt[..n - 1] == utt[..i] + [utt[i], utt[i + 1]] + utt[i + 2..n - 1];
        assert u'[..|u'| - 1] == utt[..i] + [utt[i] + utt[i + 1]] + utt[i + 2..n - 1];
        FlattenJoinGroups(utt[..i], utt[i], utt[i + 1], utt[i + 2..n - 1]);
        MergeDropsTrailingGroup(i + 1, u', b');
      }
    } else {
      MergeDropsTrailingGroup(i + 1, utt, blocks);
    }
  }

  /** The length of the run of empty entries at the front of `bs`. */
  function EmptyRun(bs: seq<seq<Block>>): (k: nat)
    ensures k <= |bs|
    ensures forall j :: 0 <= j < k ==> bs[j] == []
    ensures k < |bs| ==> bs[k] != []
  {
    if bs == [] || bs[0] != [] then 0 else 1 + EmptyRun(bs[1..])
  }

  /**
   * The grouping the merge is meant to produce, stated independently of
   * the loop: every non-empty entry takes the utterances of the run of
   * empty entries just before it together with its own, and a run of
   * empty entries at the very end has no entry to join.
   */
  function Attach(utt: seq<seq<string>>, blocks: seq<seq<Block>>): seq<seq<string>>
    requires |utt| == |blocks|
    decreases |blocks|
  {
    var k := EmptyRun(blocks);
    if k == |blocks| then [] else [Flatten(utt[..k + 1])] + Attach(utt[k + 1..], blocks[k + 1..])
  }

  lemma NonEmptySingle(x: seq<Block>)
    ensures NonEmpty([x]) == if x == [] then [] else [x]
  {
    assert [x][..0] == [];
  }

  lemma NonEmptyCons(x: seq<Block>, rest: seq<seq<Block>>)
    ensures NonEmpty([x] + rest) == (if x == [] then [] else [x]) + NonEmpty(rest)
  {
    NonEmptyConcat([x], rest);
    NonEmptySingle(x);
  }

  lemma FlattenPair(a: seq<string>, b: seq<string>)
    ensures Flatten([a, b]) == a + b
  {
    assert [a, b][..1] == [a];
    FlattenSingleton(a);
  }

  /** The non-empty entries of a list, split at its first entry. */
  lemma NonEmptyHead(b: seq<seq<Block>>)
    requires b != []
    ensures NonEmpty(b) == (if b[0] == [] then [] else [b[0]]) + NonEmpty(b[1..])
  {
    var t := b[1..];
    NonEmptyCons(b[0], t);
    assert [b[0]] + t == b;
  }

  /** A non-empty first entry keeps its own group. */
  lemma AttachKeepsHead(u: seq<seq<string>>, b: seq<seq<Block>>)
    requires |u| == |b| && b != [] && b[0] != []
    ensures Attach(u, b) == [u[0]] + Attach(u[1..], b[1..])
  {
    assert EmptyRun(b) == 0;
    assert u[..1] == [u[0]];
    FlattenSingleton(u[0]);
  }

  /** An empty first entry followed by a non-empty one lends it its group. */
  lemma AttachJoinsHead(u: seq<seq<string>>, b: seq<seq<Block>>)
    requires |u| == |b| && |b| >= 2 && b[0] == [] && b[1] != []
    ensures Attach(u, b) == [u[0] + u[1]] + Attach(u[2..], b[2..])
  {
    assert EmptyRun(b) == 1 by {
      assert EmptyRun(b[1..]) == 0;
    }
    assert u[..2] == [u[0], u[1]];
    FlattenPair(u[0], u[1]);
  }

  lemma PrefixStep<T>(s: seq<T>, i: nat, rest: seq<T>)
    requires i < |s|
    ensures s[..i + 1] + rest == s[..i] + ([s[i]] + rest)
  {
    assert s[..i + 1] == s[..i] + [s[i]];
  }

  /** Settling a non-empty entry at `i` moves it from the suffix to the prefix. */
  lemma AttachStepKeep(i: nat, utt: seq<seq<string>>, blocks: seq<seq<Block>>)
    requires |utt| == |blocks| && i < |blocks| && blocks[i] != []
    ensures utt[..i + 1] + Attach(utt[i + 1..], blocks[i + 1..]) == utt[..i] + Attach(utt[i..], blocks[i..])
    ensures blocks[..i + 1] + NonEmpty(blocks[i + 1..]) == blocks[..i] + NonEmpty(blocks[i..])
  {
    var us, bs := utt[i..], blocks[i..];
    assert us[0] == utt[i] && us[1..] == utt[i + 1..];
    assert bs[0] == blocks[i] && bs[1..] == blocks[i + 1..];
    AttachKeepsHead(us, bs);
    NonEmptyHead(bs);
    PrefixStep(utt, i, Attach(utt[i + 1..], blocks[i + 1..]));
    PrefixStep(blocks, i, NonEmpty(blocks[i + 1..]));
  }

  /** Joining an empty entry at `i` into the next one settles the joined group. */
  lemma AttachStepJoin(i: nat, utt: seq<seq<string>>, blocks: seq<seq<Block>>)
    requires |utt| == |blocks| && i + 1 < |blocks| && blocks[i] == [] && blocks[i + 1] != []
    ensures utt[..i] + [utt[i] + utt[i + 1]] + Attach(utt[i + 2..], blocks[i + 2..]) == utt[..i] + Attach(utt[i..], blocks[i..])
    ensures blocks[..i] + [blocks[i + 1]] + NonEmpty(blocks[i + 2..]) == blocks[..i] + NonEmpty(blocks[i..])
  {
    var us, bs := utt[i..], blocks[i..];
    assert us[0] == utt[i] && us[1] == utt[i + 1] && us[2..] == utt[i + 2..];
    assert bs[0] == blocks[i] && bs[1] == blocks[i + 1] && bs[1..][1..] == blocks[i + 2..];
    AttachJoinsHead(us, bs);
    NonEmptyHead(bs);
    NonEmptyHead(bs[1..]);
  }

  /**
   * With no two neighbouring empty entries and a non-empty last entry,
   * the merge attaches every removed entry's utterances to the entry
   * that follows it, exactly as `Attach` describes, and keeps the
   * non-empty block lists in order. Entries before `i` are already
   * settled.
   */
  lemma {:induction false} MergeAttachesFrom(i: nat, utt: seq<seq<string>>, blocks: seq<seq<Block>>)
    requires |utt| == |blocks| && i <= |blocks|
    requires NoAdjacentEmpty(blocks[i..])
    requires blocks != [] ==> blocks[|blocks| - 1] != []
    ensures MergeFrom(i, utt, blocks)
            == Ok(Segments(utt[..i] + Attach(utt[i..], blocks[i..]), blocks[..i] + NonEmpty(blocks[i..])))
    decreases |blocks| - i
  {
    if i == |blocks| {
      assert utt[..i] == utt && blocks[..i] == blocks;
      assert utt[i..] == [] && blocks[i..] == [];
      assert Attach(utt[i..], blocks[i..]) == [] && NonEmpty(blocks[i..]) == [];
      assert MergeFrom(i, utt, blocks) == Ok(Segments(utt, blocks));
      assert utt[..i] + [] == utt && blocks[..i] + [] == blocks;
    } else if blocks[i] != [] {
      assert NoAdjacentEmpty(blocks[i + 1..]);
      MergeAttachesFrom(i + 1, utt, blocks);
      AttachStepKeep(i, utt, blocks);
    } else {
      assert blocks[i + 1] != [] by {
        assert blocks[i..][0] == blocks[i] && blocks[i..][1] == blocks[i + 1];
      }
      var u' := utt[..i] + [utt[i] + utt[i + 1]] + utt[i + 2..];
      var b' := blocks[..i] + blocks[i + 1..];
      assert b'[|b'| - 1] == blocks[|blocks| - 1];
      assert u'[..i + 1] == utt[..i] + [utt[i] + utt[i + 1]] && u'[i + 1..] == utt[i + 2..];
      assert b'[..i + 1] == blocks[..i] + [blocks[i + 1]] && b'[i + 1..] == blocks[i + 2..];
      assert NoAdjacentEmpty(blocks[i + 2..]);
      MergeAttachesFrom(i + 1, u', b');
      AttachStepJoin(i, utt, blocks);
    }
  }

  /** The whole merge, from the first entry. */
  lemma MergeAttachesGroups(utt: seq<seq<string>>, blocks: seq<seq<Block>>)
    requires |utt| == |blocks|
    requires NoAdjacentEmpty(blocks)
    requires blocks != [] ==> blocks[|blocks| - 1] != []
    ensures MergeFrom(0, utt, blocks) == Ok(Segments(Attach(utt, blocks), NonEmpty(blocks)))
  {
    assert utt[0..] == utt && blocks[0..] == blocks;
    assert utt[..0] == [] && blocks[..0] == [];
    MergeAttachesFrom(0, utt, blocks);
    assert utt[..0] + Attach(utt, blocks) == Attach(utt, blocks);
    assert blocks[..0] + NonEmpty(blocks) == NonEmpty(blocks);
  }

  /** The merge only ever fails with an IndexError. */
  lemma {:induction false} MergeFailsOnlyWithIndexError(i: nat, utt: seq<seq<string>>, blocks: seq<seq<Block>>)
    ensures MergeFrom(i, utt, blocks).Err? ==> MergeFrom(i, utt, blocks).error == IndexError
    decreases |blocks| - i
  {
    if i < |blocks| {
      if blocks[i] == [] {
        if i != |blocks| - 1 && i + 1 < |utt| {
          MergeFailsOnlyWithIndexError(i + 1, utt[..i] + [utt[i] + utt[i + 1]] + utt[i + 2..], blocks[..i] + blocks[i + 1..]);
        }
      } else {
        MergeFailsOnlyWithIndexError(i + 1, utt, blocks);
      }
    }
  }

  /**
   * The first empty entry, if it is not the last entry but has no
   * utterance group after it (more entries than groups), makes the merge
   * raise IndexError.
   */
  lemma {:induction false} MergeRaisesWithoutNextGroup(j: nat, i: nat, utt: seq<seq<string>>, blocks: seq<seq<Block>>)
    requires j <= i < |blocks| - 1 && blocks[i] == [] && |utt| <= i + 1
    requires forall k :: j <= k < i ==> blocks[k] != []
    ensures MergeFrom(j, utt, blocks) == Err(IndexError)
    decreases i - j
  {
    if j < i {
      MergeRaisesWithoutNextGroup(j + 1, i, utt, blocks);
    }
  }

  /**
   * Because `i` advances after a deletion, two neighbouring empty entries
   * are not both removed: the second survives the merge.
   */
  lemma AdjacentEmptiesSurvive(b: Block)
    ensures MergeFrom(0, [["a"], ["b"], ["c"]], [[], [], [b]])
            == Ok(Segments([["a", "b"], ["c"]], [[], [b]]))
  {
    var u: seq<seq<string>> := [["a"], ["b"], ["c"]];
    var bs: seq<seq<Block>> := [[], [], [b]];
    assert u[0] + u[1] == ["a", "b"] && u[2..] == [["c"]];
    assert u[..0] + [u[0] + u[1]] + u[2..] == [["a", "b"], ["c"]];
    assert bs[..0] + bs[1..] == [[], [b]];
    assert MergeFrom(0, u, bs) == MergeFrom(1, [["a", "b"], ["c"]], [[], [b]]);
    assert MergeFrom(1, [["a", "b"], ["c"]], [[], [b]]) == MergeFrom(2, [["a", "b"], ["c"]], [[], [b]]);
  }

  /** The same at the end of a session: a trailing empty entry is kept. */
  lemma TrailingEmptyPairLeavesEmptyTail(b: Block)
    ensures MergeFrom(0, [["a"], ["b"], ["c"]], [[b], [], []])
            == Ok(Segments([["a"], ["b", "c"]], [[b], []]))
  {
    var u: seq<seq<string>> := [["a"], ["b"], ["c"]];
    var bs: seq<seq<Block>> := [[b], [], []];
    assert u[1] + u[2] == ["b", "c"] && u[3..] == [] && u[..1] == [["a"]];
    assert u[..1] + [u[1] + u[2]] + u[3..] == [["a"], ["b", "c"]];
    assert bs[..1] + bs[2..] == [[b], []];
    assert MergeFrom(0, u, bs) == MergeFrom(1, u, bs);
    assert MergeFrom(1, u, bs) == MergeFrom(2, [["a"], ["b", "c"]], [[b], []]);
  }

  // ---------------------------------------------------------------------
  // One session
  // ---------------------------------------------------------------------

  /** `assert len(gr.structureId.unique()) == 1` */
  predicate SingleStructure(rows: seq<Row>)
  {
    |rows| > 0 && forall k :: 0 <= k < |rows| ==> rows[k].structureId == rows[0].structureId
  }

  /**
   * What parse_tasks does with one session: skipped (None) without builder
   * data, an exception on mixed structure ids or a failed row/merge loop,
   * otherwise the structure id and the merged segments, or None when no
   * entry is left.
   */
  function SessionOutcome(s: SessionInput): (r: Result<Option<(string, Segments)>>)
    ensures !s.hasBuilderData ==> r == Ok(None)
    ensures s.hasBuilderData && !SingleStructure(s.rows) ==> r == Err(AssertionError)
    ensures r.Ok? && r.value.Some? ==>
              SingleStructure(s.rows) && r.value.value.0 == s.rows[0].structureId &&
              r.value.value.1.blocks != []
  {
    if !s.hasBuilderData then Ok(None)
    else if !SingleStructure(s.rows) then Err(AssertionError)
    else
      match Segment(s.rows, s.snapshots)
      case Err(e) => Err(e)
      case Ok(seg) =>
        match MergeFrom(0, seg.utterances, seg.blocks)
        case Err(e) => Err(e)
        case Ok(merged) =>
          if |merged.blocks| > 0 then Ok(Some((s.rows[0].structureId, merged))) else Ok(None)
  }

  /**
   * A session with as many instructions as builder entries never fails in
   * the merge; it is registered whenever some entry holds a block, and what
   * is registered is aligned and holds every non-empty entry in order.
   */
  lemma SessionOutcomeAligned(s: SessionInput)
    requires s.hasBuilderData && SingleStructure(s.rows)
    requires Segment(s.rows, s.snapshots).Ok?
    requires CountGroups(s.rows) == |AllEntries(s.rows, s.snapshots)|
    ensures SessionOutcome(s).Ok?
    ensures NonEmpty(AllEntries(s.rows, s.snapshots)) != [] ==> SessionOutcome(s).value.Some?
    ensures SessionOutcome(s).value.Some? ==>
              var seg := SessionOutcome(s).value.value.1;
              |seg.utterances| == |seg.blocks| &&
              NonEmpty(seg.blocks) == NonEmpty(AllEntries(s.rows, s.snapshots))
  {
    var seg := Segment(s.rows, s.snapshots).value;
    SegmentGroupCount(s.rows, s.snapshots);
    SegmentEntries(s.rows, s.snapshots);
    MergeAligned(0, seg.utterances, seg.blocks);
    var merged := MergeFrom(0, seg.utterances, seg.blocks).value;
    NonEmptyOfEmpty(merged.blocks);
  }

  lemma NonEmptyOfEmpty(bs: seq<seq<Block>>)
    ensures NonEmpty(bs) != [] ==> bs != []
  {
  }

  /** Two instructions, each followed by a builder turn whose step file is missing. */
  function EmptyStepsSession(sid: string): seq<Row>
  {
    [Row(1, sid, Some("build"), None, None), Row(2, sid, None, None, None),
     Row(3, sid, Some("more"), None, None), Row(4, sid, None, None, None)]
  }

  lemma EmptyStepsSegment(sid: string)
    ensures Segment(EmptyStepsSession(sid), map[]) == Ok(Segments([["build"], ["more"]], [[], []]))
  {
    var rows := EmptyStepsSession(sid);
    var snaps: Snapshots := map[];
    var r1, r2, r3, r4 := rows[0], rows[1], rows[2], rows[3];
    assert StepEntry(snaps, 2) == [] && StepEntry(snaps, 4) == [];
    assert [] + [r1] == [r1] && [r1] + [r2] == [r1, r2] && [r1, r2] + [r3] == [r1, r2, r3];
    assert [r1, r2, r3] + [r4] == rows;
    SegmentSnoc([], r1, snaps);
    assert Segment([r1], snaps) == Ok(Segments([["build"]], []));
    SegmentSnoc([r1], r2, snaps);
    assert !OpensGroup(r2) && !ExtendsLastGroup(r2) && OpensEntry(r2);
    assert ApplyRow(Segments([["build"]], []), r2, snaps) == Ok(Segments([["build"]], [] + [StepEntry(snaps, 2)]));
    var e: seq<seq<Block>> := [] + [StepEntry(snaps, 2)];
    assert e == [[]];
    assert Segment([r1] + [r2], snaps) == ApplyRow(Segment([r1], snaps).value, r2, snaps);
    assert Segment([r1, r2], snaps) == Ok(Segments([["build"]], [[]]));
    SegmentSnoc([r1, r2], r3, snaps);
    assert OpensGroup(r3);
    assert [["build"]] + [["more"]] == [["build"], ["more"]];
    assert Segment([r1, r2] + [r3], snaps) == ApplyRow(Segments([["build"]], [[]]), r3, snaps);
    assert Segment([r1, r2, r3], snaps) == Ok(Segments([["build"], ["more"]], [[]]));
    SegmentSnoc([r1, r2, r3], r4, snaps);
    assert !OpensGroup(r4) && !ExtendsLastGroup(r4) && OpensEntry(r4);
    assert [[]] + [StepEntry(snaps, 4)] == [[], []];
    assert Segment([r1, r2, r3] + [r4], snaps) == ApplyRow(Segments([["build"], ["more"]], [[]]), r4, snaps);
  }

  lemma EmptyStepsMerge()
    ensures MergeFrom(0, [["build"], ["more"]], [[], []]) == Ok(Segments([["build", "more"]], [[]]))
  {
    var u: seq<seq<string>> := [["build"], ["more"]];
    var bs: seq<seq<Block>> := [[], []];
    assert u[0] + u[1] == ["build", "more"] && u[2..] == [];
    assert u[..0] + [u[0] + u[1]] + u[2..] == [["build", "more"]];
    assert bs[..0] + bs[1..] == [[]];
    assert MergeFrom(0, u, bs) == MergeFrom(1, [["build", "more"]], [[]]);
  }

  /**
   * The registration test is on the length of `blocks`, not on its
   * contents: two empty builder turns leave one empty entry behind, and
   * such a session is registered although none of its steps holds a block.
   */
  lemma SessionOfEmptyStepsRegistered(sid: string)
    ensures SessionOutcome(SessionInput(true, EmptyStepsSession(sid), map[]))
            == Ok(Some((sid, Segments([["build", "more"]], [[]]))))
  {
    var s := SessionInput(true, EmptyStepsSession(sid), map[]);
    EmptyStepsSegment(sid);
    EmptyStepsMerge();
    assert SingleStructure(s.rows);
    assert s.rows[0].structureId == sid;
    var merged := Segments([["build", "more"]], [[]]);
    assert MergeFrom(0, Segment(s.rows, s.snapshots).value.utterances, Segment(s.rows, s.snapshots).value.blocks) == Ok(merged);
    assert |merged.blocks| > 0;
  }

  /** parse_tasks for one session, with the two loops run imperatively. */
  method ParseSession(s: SessionInput) returns (r: Result<Option<(string, Segments)>>)
    ensures r == SessionOutcome(s)
  {
    if !s.hasBuilderData {
      return Ok(None);
    }
    if !SingleStructure(s.rows) {
      return Err(AssertionError);
    }
    var structureId := s.rows[0].structureId;
    var seg := SegmentRows(s.rows, s.snapshots);
    if seg.Err? {
      return Err(seg.error);
    }
    var merged := MergeEmptyEntries(seg.value.utterances, seg.value.blocks);
    if merged.Err? {
      return Err(merged.error);
    }
    if |merged.value.blocks| > 0 {
      r := Ok(Some((structureId, merged.value)));
    } else {
      r := Ok(None);
    }
  }
}
