/** The dense vertex-centric table: one row of `stride` slots per vertex, stored flat,
    with the per-vertex counts beside it. */
module InfluenceTable {
  import opened BoneInfluence

  /** Where slot j of vertex v sits in the flat tables. This is the layout the
      allocations of numVertices * numBones entries imply for vertexArraysIndex. */
  function SlotIndex(v: nat, j: nat, stride: nat): (k: nat) { v * stride + j }

  lemma SlotIndexInRange(v: nat, j: nat, stride: nat, n: nat)
    requires v < n && j < stride
    ensures SlotIndex(v, j, stride) < n * stride
  {
    calc {
      v * stride + j;
    <  v * stride + stride;
    == (v + 1) * stride;
    <= { MulMonotone(v + 1, n, stride); }
      n * stride;
    }
  }

  lemma {:induction false} MulMonotone(a: nat, b: nat, c: nat)
    requires a <= b
    ensures a * c <= b * c
  {
    if a < b {
      MulMonotone(a, b - 1, c);
      assert b * c == (b - 1) * c + c;
    }
  }

  /** Distinct (vertex, slot) pairs with slots inside the stride never share a position. */
  lemma SlotIndexInjective(v: nat, j: nat, w: nat, k: nat, stride: nat)
    requires j < stride && k < stride
    ensures SlotIndex(v, j, stride) == SlotIndex(w, k, stride) <==> v == w && j == k
  {
    if v < w {
      MulMonotone(v + 1, w, stride);
      assert (v + 1) * stride == v * stride + stride;
    } else if w < v {
      MulMonotone(w + 1, v, stride);
      assert (w + 1) * stride == w * stride + stride;
    }
  }

  /** The flat tables have one row of `stride` slots per counted vertex. */
  predicate Sized(counts: seq<nat>, slotBones: seq<nat>, slotWeights: seq<real>, stride: nat)
  {
    |slotBones| == |counts| * stride && |slotWeights| == |counts| * stride
  }

  /** Row v lists exactly infl, in order, and holds zero filler after it. */
  ghost predicate RowHolds(counts: seq<nat>, slotBones: seq<nat>, slotWeights: seq<real>,
                           stride: nat, v: nat, infl: seq<Influence>)
    requires Sized(counts, slotBones, slotWeights, stride) && v < |counts|
  {
    counts[v] == |infl| && |infl| <= stride &&
    forall j :: 0 <= j < stride ==> (
      SlotIndexInRange(v, j, stride, |counts|);
      var k := SlotIndex(v, j, stride);
      if j < |infl| then slotBones[k] == infl[j].bone && slotWeights[k] == infl[j].weight
      else slotBones[k] == 0 && slotWeights[k] == 0.0)
  }

  /** Slot j of a row that holds infl is infl[j]. */
  lemma RowSlot(counts: seq<nat>, slotBones: seq<nat>, slotWeights: seq<real>,
                stride: nat, v: nat, infl: seq<Influence>, j: nat)
    requires Sized(counts, slotBones, slotWeights, stride) && v < |counts|
    requires RowHolds(counts, slotBones, slotWeights, stride, v, infl) && j < |infl|
    ensures SlotIndex(v, j, stride) < |slotBones|
    ensures slotBones[SlotIndex(v, j, stride)] == infl[j].bone
    ensures slotWeights[SlotIndex(v, j, stride)] == infl[j].weight
  {
    SlotIndexInRange(v, j, stride, |counts|);
  }

  /** A well-formed table: each row's meaningful slots name a bone below `stride`
      with a positive weight, and the rest of the row is zero filler. */
  ghost predicate TableShaped(counts: seq<nat>, slotBones: seq<nat>, slotWeights: seq<real>, stride: nat)
  {
    Sized(counts, slotBones, slotWeights, stride) &&
    forall v :: 0 <= v < |counts| ==> (
      counts[v] <= stride &&
      forall j :: 0 <= j < stride ==> (
        SlotIndexInRange(v, j, stride, |counts|);
        var k := SlotIndex(v, j, stride);
        if j < counts[v] then slotBones[k] < stride && slotWeights[k] > 0.0
        else slotBones[k] == 0 && slotWeights[k] == 0.0))
  }

  /** The table of no vertices is well formed for any stride. */
  lemma EmptyTableShaped(stride: nat)
    ensures TableShaped([], [], [], stride)
  {
  }

  /** A freshly zeroed table holds, for every vertex, the empty influence list. */
  lemma ZeroTableHoldsNothing(counts: seq<nat>, slotBones: seq<nat>, slotWeights: seq<real>, stride: nat)
    requires Sized(counts, slotBones, slotWeights, stride)
    requires forall v :: 0 <= v < |counts| ==> counts[v] == 0
    requires forall k :: 0 <= k < |slotBones| ==> slotBones[k] == 0 && slotWeights[k] == 0.0
    ensures forall v :: 0 <= v < |counts| ==> RowHolds(counts, slotBones, slotWeights, stride, v, [])
  {
    forall v | 0 <= v < |counts| ensures RowHolds(counts, slotBones, slotWeights, stride, v, []) {
      forall j | 0 <= j < stride
        ensures SlotIndex(v, j, stride) < |slotBones| &&
          slotBones[SlotIndex(v, j, stride)] == 0 && slotWeights[SlotIndex(v, j, stride)] == 0.0
      {
        SlotIndexInRange(v, j, stride, |counts|);
      }
    }
  }

  /** Every row holds its vertex's influences found before entry i of bone b is visited. */
  ghost predicate RowsHoldProgress(counts: seq<nat>, slotBones: seq<nat>, slotWeights: seq<real>,
                                   stride: nat, bones: seq<Bone>, b: nat, i: nat)
    requires Sized(counts, slotBones, slotWeights, stride)
    requires AllWellFormed(bones) && b < |bones| && i <= |bones[b].vertexIds|
  {
    forall v :: 0 <= v < |counts| ==>
      RowHolds(counts, slotBones, slotWeights, stride, v, Progress(bones, v, b, i))
  }

  /** Recording the influence of entry i of bone b on vertex vId in slot counts[vId]
      of vId's row, and bumping counts[vId], turns a table that holds every vertex's
      progress before that entry into one that holds its progress after it. */
  lemma RecordInfluence(counts: seq<nat>, slotBones: seq<nat>, slotWeights: seq<real>,
                        counts': seq<nat>, slotBones': seq<nat>, slotWeights': seq<real>,
                        stride: nat, bones: seq<Bone>, b: nat, i: nat)
    requires AllWellFormed(bones) && b < |bones| && i < |bones[b].vertexIds|
    requires Sized(counts, slotBones, slotWeights, stride)
    requires bones[b].vertexWeights[i] > 0.0
    requires bones[b].vertexIds[i] < |counts| && counts[bones[b].vertexIds[i]] < stride
    requires forall v :: 0 <= v < |counts| ==>
      RowHolds(counts, slotBones, slotWeights, stride, v, Progress(bones, v, b, i))
    requires
      var vId := bones[b].vertexIds[i];
      var k := SlotIndex(vId, counts[vId], stride);
      k < |slotBones| &&
      counts' == counts[vId := counts[vId] + 1] &&
      slotBones' == slotBones[k := b] && slotWeights' == slotWeights[k := bones[b].vertexWeights[i]]
    ensures Sized(counts', slotBones', slotWeights', stride)
    ensures RowsHoldProgress(counts', slotBones', slotWeights', stride, bones, b, i + 1)
  {
    var next := i + 1;
    var vId := bones[b].vertexIds[i];
    var j := counts[vId];
    forall v | 0 <= v < |counts'|
      ensures RowHolds(counts', slotBones', slotWeights', stride, v, Progress(bones, v, b, next))
    {
      ProgressStep(bones, v, b, i);
      var before, after := Progress(bones, v, b, i), Progress(bones, v, b, next);
      assert RowHolds(counts, slotBones, slotWeights, stride, v, before);
      forall q | 0 <= q < stride
        ensures SlotIndex(v, q, stride) < |slotBones| &&
          var kq := SlotIndex(v, q, stride);
          if q < |after| then slotBones'[kq] == after[q].bone && slotWeights'[kq] == after[q].weight
          else slotBones'[kq] == 0 && slotWeights'[kq] == 0.0
      {
        SlotIndexInRange(v, q, stride, |counts|);
        SlotIndexInjective(v, q, vId, j, stride);
      }
    }
  }

  /** A table whose every row holds that vertex's influences is well formed. */
  lemma MatchedTableIsShaped(counts: seq<nat>, slotBones: seq<nat>, slotWeights: seq<real>,
                             bones: seq<Bone>)
    requires AllWellFormed(bones) && Sized(counts, slotBones, slotWeights, |bones|)
    requires forall v :: 0 <= v < |counts| ==>
      RowHolds(counts, slotBones, slotWeights, |bones|, v, VertexInfluences(bones, v))
    ensures TableShaped(counts, slotBones, slotWeights, |bones|)
  {
    forall v | 0 <= v < |counts|
      ensures counts[v] <= |bones| &&
        forall j :: 0 <= j < |bones| ==> (
          SlotIndexInRange(v, j, |bones|, |counts|);
          var k := SlotIndex(v, j, |bones|);
          if j < counts[v] then slotBones[k] < |bones| && slotWeights[k] > 0.0
          else slotBones[k] == 0 && slotWeights[k] == 0.0)
    {
      InfluencesAreValid(bones, v);
      assert RowHolds(counts, slotBones, slotWeights, |bones|, v, VertexInfluences(bones, v));
    }
  }

  /** In a table whose every row holds that vertex's influences, each count is the number
      of (bone, list index) pairs that give the vertex a positive weight. */
  lemma MatchedCountsArePairCounts(counts: seq<nat>, slotBones: seq<nat>, slotWeights: seq<real>,
                                   bones: seq<Bone>)
    requires AllWellFormed(bones) && Sized(counts, slotBones, slotWeights, |bones|)
    requires forall v :: 0 <= v < |counts| ==>
      RowHolds(counts, slotBones, slotWeights, |bones|, v, VertexInfluences(bones, v))
    ensures forall v :: 0 <= v < |counts| ==> counts[v] == |PositivePairs(bones, v)|
  {
    forall v | 0 <= v < |counts| ensures counts[v] == |PositivePairs(bones, v)| {
      assert RowHolds(counts, slotBones, slotWeights, |bones|, v, VertexInfluences(bones, v));
      InfluenceCountIsPairCount(bones, v);
    }
  }

  /** One step of the inner loop: entry i of bone b, appended to its vertex's row
      when its weight is positive and skipped otherwise. */
  method RecordEntry(bones: seq<Bone>, b: nat, i: nat,
                     counts: array<nat>, slotBones: array<nat>, slotWeights: array<real>)
    requires InfluenceFits(bones) && b < |bones| && i < |bones[b].vertexIds|
    requires counts.Length == LastVertexId(bones) + 1
    requires counts != slotBones && Sized(counts[..], slotBones[..], slotWeights[..], |bones|)
    requires RowsHoldProgress(counts[..], slotBones[..], slotWeights[..], |bones|, bones, b, i)
    modifies counts, slotBones, slotWeights
    ensures Sized(counts[..], slotBones[..], slotWeights[..], |bones|)
    ensures RowsHoldProgress(counts[..], slotBones[..], slotWeights[..], |bones|, bones, b, i + 1)
  {
    ghost var next := i + 1;
    var stride, numVertices := |bones|, counts.Length;
    if bones[b].vertexWeights[i] > 0.0 {
      var vId := bones[b].vertexIds[i];
      LastVertexIdBounds(bones);
      var j := counts[vId];
      ProgressStep(bones, vId, b, i);
      ProgressWithinTotal(bones, vId, b, next);
      SlotIndexInRange(vId, j, stride, numVertices);
      ghost var counts0, slotBones0, slotWeights0 := counts[..], slotBones[..], slotWeights[..];
      counts[vId] := j + 1;
      var index := SlotIndex(vId, j, stride);
      slotBones[index] := b;
      slotWeights[index] := bones[b].vertexWeights[i];
      RecordInfluence(counts0, slotBones0, slotWeights0, counts[..], slotBones[..], slotWeights[..],
                      stride, bones, b, i);
    } else {
      forall v | 0 <= v < numVertices
        ensures RowHolds(counts[..], slotBones[..], slotWeights[..], stride, v, Progress(bones, v, b, next))
      {
        ProgressStep(bones, v, b, i);
      }
    }
  }

  /** The inner loop of the reorganisation: visits bone b's entries in list order and
      appends each positive-weight one to its vertex's row. */
  method RecordBone(bones: seq<Bone>, b: nat, counts: array<nat>, slotBones: array<nat>, slotWeights: array<real>)
    requires InfluenceFits(bones) && b < |bones| && counts.Length == LastVertexId(bones) + 1
    requires counts != slotBones && Sized(counts[..], slotBones[..], slotWeights[..], |bones|)
    requires forall v :: 0 <= v < counts.Length ==>
      RowHolds(counts[..], slotBones[..], slotWeights[..], |bones|, v, InfluencesUpTo(bones, v, b))
    modifies counts, slotBones, slotWeights
    ensures Sized(counts[..], slotBones[..], slotWeights[..], |bones|)
    ensures forall v :: 0 <= v < counts.Length ==>
      RowHolds(counts[..], slotBones[..], slotWeights[..], |bones|, v,
               Progress(bones, v, b, |bones[b].vertexIds|))
  {
    var stride, numVertices := |bones|, counts.Length;
    ProgressStart(bones, b);
    for i := 0 to |bones[b].vertexIds|
      invariant Sized(counts[..], slotBones[..], slotWeights[..], stride)
      invariant RowsHoldProgress(counts[..], slotBones[..], slotWeights[..], stride, bones, b, i)
    {
      RecordEntry(bones, b, i, counts, slotBones, slotWeights);
    }
  }

  /** Builds the dense table: zeroed rows of |bones| slots for numVertices vertices,
      then every bone's influences appended in bone order. */
  method FillRows(bones: seq<Bone>, numVertices: nat)
    returns (counts: array<nat>, slotBones: array<nat>, slotWeights: array<real>)
    requires InfluenceFits(bones) && numVertices == LastVertexId(bones) + 1
    ensures fresh(counts) && fresh(slotBones) && fresh(slotWeights) && counts != slotBones
    ensures counts.Length == numVertices && Sized(counts[..], slotBones[..], slotWeights[..], |bones|)
    ensures forall v :: 0 <= v < numVertices ==>
      RowHolds(counts[..], slotBones[..], slotWeights[..], |bones|, v, VertexInfluences(bones, v))
  {
    var stride := |bones|;
    counts := new nat[numVertices](_ => 0);
    slotBones := new nat[numVertices * stride](_ => 0);
    slotWeights := new real[numVertices * stride](_ => 0.0);
    ZeroTableHoldsNothing(counts[..], slotBones[..], slotWeights[..], stride);
    for boneId := 0 to stride
      invariant Sized(counts[..], slotBones[..], slotWeights[..], stride)
      invariant forall v :: 0 <= v < numVertices ==>
        RowHolds(counts[..], slotBones[..], slotWeights[..], stride, v, InfluencesUpTo(bones, v, boneId))
    {
      RecordBone(bones, boneId, counts, slotBones, slotWeights);
      ghost var next := boneId + 1;
      ProgressComplete(bones, boneId);
      forall v | 0 <= v < numVertices
        ensures RowHolds(counts[..], slotBones[..], slotWeights[..], stride, v, InfluencesUpTo(bones, v, next))
      {
        assert Progress(bones, v, boneId, |bones[boneId].vertexIds|) == InfluencesUpTo(bones, v, next);
      }
    }
  }

  /** The largest per-vertex count: the loop that sets maxNumVertexBones. */
  method MaxCount(counts: array<nat>) returns (maxCount: nat)
    ensures maxCount == MaxOf(counts[..])
  {
    maxCount := 0;
    for v := 0 to counts.Length
      invariant maxCount == MaxOf(counts[..v])
    {
      assert counts[..v + 1][..v] == counts[..v];
      maxCount := Max(maxCount, counts[v]);
    }
    assert counts[..counts.Length] == counts[..];
  }

  /** A three-row, two-slot table holding the rows of the two-bone example counts
      [1, 2, 1], and vertex 1's slots (positions 2 and 3) hold bone 0 with weight 0.4
      then bone 1 with weight 0.6. */
  lemma ExampleTable(counts: seq<nat>, slotBones: seq<nat>, slotWeights: seq<real>)
    requires Sized(counts, slotBones, slotWeights, 2) && |counts| == 3
    requires forall v :: 0 <= v < 3 ==>
      RowHolds(counts, slotBones, slotWeights, 2, v, VertexInfluences(ExampleBones, v))
    ensures counts == [1, 2, 1] && MaxOf(counts) == 2
    ensures slotBones[2] == 0 && slotWeights[2] == 0.4
    ensures slotBones[3] == 1 && slotWeights[3] == 0.6
  {
    ExampleInfluences();
    assert RowHolds(counts, slotBones, slotWeights, 2, 0, VertexInfluences(ExampleBones, 0));
    var row := VertexInfluences(ExampleBones, 1);
    assert RowHolds(counts, slotBones, slotWeights, 2, 1, row);
    assert RowHolds(counts, slotBones, slotWeights, 2, 2, VertexInfluences(ExampleBones, 2));
    assert counts == [1, 2, 1];
    assert counts[..2] == [1, 2] && counts[..2][..1] == [1];
    assert MaxOf([1, 2]) == 2;
    RowSlot(counts, slotBones, slotWeights, 2, 1, row, 0);
    RowSlot(counts, slotBones, slotWeights, 2, 1, row, 1);
  }
}
