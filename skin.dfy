/** The skin: per-frame bone transforms, the bones' influence lists, and the dense
    per-vertex influence table built from them. */
module Geometry {
  import opened BoneInfluence
  import opened InfluenceTable
  import opened Matrices
  import FrameTiming

  /** A bone slot: None until the importer hands the skin that bone. */
  datatype Option<T> = None | Some(value: T)

  /** The 16 scalars of a 4x4 transform, copied verbatim. */
  type Matrix4x4 = m: seq<real> | |m| == MatrixSize witness seq(16, _ => 0.0)

  /** Outcome of setting the duration: refused values raise an invalid-argument error. */
  datatype Outcome = Pass | InvalidArgument(name: string)

  predicate AllPopulated(slots: seq<Option<Bone>>) {
    forall b :: 0 <= b < |slots| ==> slots[b].Some?
  }

  /** The bones of fully populated slots. */
  function Populated(slots: seq<Option<Bone>>): (bones: seq<Bone>)
    requires AllPopulated(slots)
  {
    seq(|slots|, b requires 0 <= b < |slots| => slots[b].value)
  }

  /** numFrames distinct, freshly allocated buffers of size zeroed scalars each. */
  method NewFrames(numFrames: nat, size: nat) returns (frames: seq<array<real>>)
    ensures |frames| == numFrames
    ensures forall f :: 0 <= f < numFrames ==> fresh(frames[f]) && frames[f].Length == size
    ensures forall f, k :: 0 <= f < numFrames && 0 <= k < size ==> frames[f][k] == 0.0
    ensures forall f, g :: 0 <= f < g < numFrames ==> frames[f] != frames[g]
  {
    frames := [];
    while |frames| < numFrames
      invariant |frames| <= numFrames
      invariant forall f :: 0 <= f < |frames| ==> fresh(frames[f]) && frames[f].Length == size
      invariant forall f, k :: 0 <= f < |frames| && 0 <= k < size ==> frames[f][k] == 0.0
      invariant forall f, g :: 0 <= f < g < |frames| ==> frames[f] != frames[g]
    {
      var buffer := new real[size](_ => 0.0);
      frames := frames + [buffer];
    }
  }

  /** The body of reorganizeByVertices once the number of vertices is known: the dense
      table, every row holding that vertex's influences, and its longest row. */
  method BuildTable(bones: seq<Bone>, numVertices: nat)
    returns (counts: array<nat>, slotBones: array<nat>, slotWeights: array<real>, maxCount: nat)
    requires InfluenceFits(bones) && numVertices == LastVertexId(bones) + 1
    ensures fresh(counts) && fresh(slotBones) && fresh(slotWeights) && counts != slotBones
    ensures counts.Length == numVertices
    ensures TableShaped(counts[..], slotBones[..], slotWeights[..], |bones|)
    ensures forall v :: 0 <= v < counts.Length ==>
      RowHolds(counts[..], slotBones[..], slotWeights[..], |bones|, v, VertexInfluences(bones, v))
    ensures forall v :: 0 <= v < counts.Length ==> counts[v] == |PositivePairs(bones, v)|
    ensures maxCount == MaxOf(counts[..]) && maxCount <= |bones|
  {
    counts, slotBones, slotWeights := FillRows(bones, numVertices);
    maxCount := MaxCount(counts);
    MatchedTableIsShaped(counts[..], slotBones[..], slotWeights[..], bones);
    MatchedCountsArePairCounts(counts[..], slotBones[..], slotWeights[..], bones);
    MaxOfIsLeast(counts[..], |bones|);
  }

  /** The inner loop of lastVertexId: folds one bone's vertex ids into the running
      maximum acc of the ids seen so far. */
  method MaxWithIds(acc: nat, ghost seen: seq<nat>, ids: seq<nat>) returns (m: nat)
    requires acc == MaxOf(seen)
    ensures m == MaxOf(seen + ids)
  {
    m := acc;
    assert seen + ids[..0] == seen;
    for i := 0 to |ids|
      invariant m == MaxOf(seen + ids[..i])
    {
      assert (seen + ids[..i + 1])[..|seen| + i] == seen + ids[..i];
      m := Max(m, ids[i]);
    }
    assert ids[..|ids|] == ids;
  }

  class Skin {
    /** The bone count fixed at construction; it is the stride of the vertex tables. */
    const numBones: nat
    var bones: seq<Option<Bone>>
    var duration: real
    var timeFactor: real
    /** One buffer of numBones * 16 scalars per frame. */
    var boneMatricesPerFrame: seq<array<real>>
    var maxNumVertexBones: nat
    /** Per vertex, how many of its row's slots are meaningful. */
    var numVertexBones: array<nat>
    /** Rows of numBones slots per vertex: a bone index, and beside it the weight. */
    var vertexBones: array<nat>
    var vertexBoneWeights: array<real>
    ghost var Repr: set<object>

    /** The number of frames, the length of boneMatricesPerFrame. */
    function NumFrames(): (n: nat)
      reads this
    {
      |boneMatricesPerFrame|
    }

    /** Each frame buffer has room for every bone's matrix, and no two frames share one. */
    ghost predicate FramesValid()
      reads this
    {
      (forall f :: 0 <= f < |boneMatricesPerFrame| ==>
        boneMatricesPerFrame[f] != vertexBoneWeights &&
        boneMatricesPerFrame[f].Length == numBones * MatrixSize) &&
      (forall f, g :: 0 <= f < g < |boneMatricesPerFrame| ==>
        boneMatricesPerFrame[f] != boneMatricesPerFrame[g])
    }

    /** The dense table is well formed and maxNumVertexBones is its longest row. */
    ghost predicate TableValid()
      reads this, numVertexBones, vertexBones, vertexBoneWeights
    {
      TableShaped(numVertexBones[..], vertexBones[..], vertexBoneWeights[..], numBones) &&
      maxNumVertexBones == MaxOf(numVertexBones[..])
    }

    /** Either no duration is set, or a valid one is with its time factor derived from it. */
    ghost predicate TimingValid()
      reads this
    {
      (duration == 0.0 && timeFactor == 0.0) ||
      (duration >= FrameTiming.Epsilon && timeFactor == NumFrames() as real / duration)
    }

    ghost predicate Valid()
      reads this, Repr
    {
      this in Repr && numVertexBones in Repr && vertexBones in Repr && vertexBoneWeights in Repr &&
      (forall f :: 0 <= f < |boneMatricesPerFrame| ==> boneMatricesPerFrame[f] in Repr) &&
      numVertexBones != vertexBones &&
      FramesValid() && TableValid() && TimingValid()
    }

    /** A skin with numBones empty bone slots and numFrames zeroed frame buffers. */
    constructor (numBones: nat, numFrames: nat)
      ensures Valid() && fresh(Repr)
      ensures this.numBones == numBones && bones == seq(numBones, _ => None)
      ensures |boneMatricesPerFrame| == numFrames
      ensures forall f, k :: 0 <= f < numFrames && 0 <= k < numBones * MatrixSize ==>
        boneMatricesPerFrame[f][k] == 0.0
      ensures duration == 0.0 && timeFactor == 0.0 && maxNumVertexBones == 0
      ensures numVertexBones.Length == 0 && vertexBones.Length == 0 && vertexBoneWeights.Length == 0
    {
      var frames := NewFrames(numFrames, numBones * MatrixSize);
      this.numBones := numBones;
      bones := seq(numBones, _ => None);
      duration, timeFactor := 0.0, 0.0;
      boneMatricesPerFrame := frames;
      maxNumVertexBones := 0;
      numVertexBones := new nat[0];
      vertexBones := new nat[0];
      vertexBoneWeights := new real[0];
      new;
      Repr := {this, numVertexBones, vertexBones, vertexBoneWeights} +
        set f | 0 <= f < |frames| :: frames[f] as object;
    }

    /** Hands the skin the bone with index boneId (the header's bone setter). */
    method SetBone(boneId: nat, bone: Bone)
      requires Valid() && boneId < |bones|
      modifies this`bones
      ensures Valid()
      ensures bones == old(bones)[boneId := Some(bone)]
    {
      bones := bones[boneId := Some(bone)];
    }

    /** Empties bones, frame buffers and vertex tables and zeroes the scalars. */
    method Clear()
      modifies this
      ensures Valid() && Repr == {this, numVertexBones, vertexBones, vertexBoneWeights}
      ensures fresh(numVertexBones) && fresh(vertexBones) && fresh(vertexBoneWeights)
      ensures bones == [] && boneMatricesPerFrame == []
      ensures duration == 0.0 && timeFactor == 0.0 && maxNumVertexBones == 0
      ensures numVertexBones.Length == 0 && vertexBones.Length == 0 && vertexBoneWeights.Length == 0
    {
      var counts := new nat[0];
      var slotBones := new nat[0];
      var slotWeights := new real[0];
      assert counts[..] == [] && slotBones[..] == [] && slotWeights[..] == [];
      EmptyTableShaped(numBones);
      bones, boneMatricesPerFrame, duration, timeFactor, maxNumVertexBones := [], [], 0.0, 0.0, 0;
      numVertexBones, vertexBones, vertexBoneWeights := counts, slotBones, slotWeights;
      Repr := {this, counts, slotBones, slotWeights};
    }

    /** Sets the animation's duration and the frames-per-second factor derived from it;
        a value below Epsilon is refused and changes nothing. */
    method Duration(value: real) returns (outcome: Outcome)
      requires Valid()
      modifies this`duration, this`timeFactor
      ensures Valid()
      ensures outcome.InvalidArgument? <==> value < FrameTiming.Epsilon
      ensures outcome.InvalidArgument? ==> duration == old(duration) && timeFactor == old(timeFactor)
      ensures outcome.Pass? ==> duration == value && timeFactor == NumFrames() as real / value
    {
      if value < FrameTiming.Epsilon {
        return InvalidArgument("value");
      }
      duration := value;
      timeFactor := NumFrames() as real / duration;
      outcome := Pass;
    }

    /** Copies the 16 scalars of value over bone boneId's matrix in frame frameId. */
    method Matrix(frameId: nat, boneId: nat, value: Matrix4x4)
      requires Valid() && frameId < NumFrames() && boneId < numBones
      modifies boneMatricesPerFrame[frameId]
      ensures Valid()
      ensures boneMatricesPerFrame[frameId][..] ==
        WithBlock(old(boneMatricesPerFrame[frameId][..]), MatrixSize * boneId, value)
      ensures BoneMatrix(boneMatricesPerFrame[frameId][..], boneId) == value
      ensures forall f :: 0 <= f < NumFrames() && f != frameId ==>
        boneMatricesPerFrame[f][..] == old(boneMatricesPerFrame[f][..])
    {
      var buffer := boneMatricesPerFrame[frameId];
      var offset := MatrixSize * boneId;
      ghost var before := buffer[..];
      for k := 0 to MatrixSize
        invariant buffer.Length == |before|
        invariant forall q :: 0 <= q < buffer.Length ==>
          buffer[q] == if offset <= q < offset + k then value[q - offset] else before[q]
      {
        buffer[offset + k] := value[k];
      }
      assert buffer[..] == WithBlock(before, offset, value);
      WriteThenRead(before, boneId, boneId, value);
    }

    /** The largest vertex id any bone lists; 0 when there is none. */
    method LastVertexId() returns (lastId: nat)
      requires AllPopulated(bones)
      ensures lastId == BoneInfluence.LastVertexId(Populated(bones))
    {
      ghost var all := Populated(bones);
      lastId := 0;
      for boneId := 0 to |bones|
        invariant lastId == MaxOf(IdsUpTo(all, boneId))
      {
        lastId := MaxWithIds(lastId, IdsUpTo(all, boneId), bones[boneId].value.vertexIds);
      }
    }

    /** Rebuilds the dense table from the bones: row v lists every positive-weight
        influence on vertex v, in (bone, list index) order, and maxNumVertexBones is
        the longest row. */
    method ReorganizeByVertices()
      requires Valid() && AllPopulated(bones) && |bones| == numBones
      requires InfluenceFits(Populated(bones))
      modifies this`numVertexBones, this`vertexBones, this`vertexBoneWeights, this`maxNumVertexBones, this`Repr
      ensures Valid() && Repr == old(Repr) + {numVertexBones, vertexBones, vertexBoneWeights}
      ensures fresh(numVertexBones) && fresh(vertexBones) && fresh(vertexBoneWeights)
      ensures numVertexBones.Length == BoneInfluence.LastVertexId(Populated(bones)) + 1
      ensures vertexBones.Length == vertexBoneWeights.Length == numVertexBones.Length * numBones
      ensures forall v :: 0 <= v < numVertexBones.Length ==>
        RowHolds(numVertexBones[..], vertexBones[..], vertexBoneWeights[..], numBones, v,
                 VertexInfluences(Populated(bones), v))
      ensures forall v :: 0 <= v < numVertexBones.Length ==>
        numVertexBones[v] == |PositivePairs(Populated(bones), v)|
      ensures maxNumVertexBones == MaxOf(numVertexBones[..]) && maxNumVertexBones <= numBones
    {
      var lastId := LastVertexId();
      var counts, slotBones, slotWeights, maxCount := BuildTable(Populated(bones), lastId + 1);
      numVertexBones, vertexBones, vertexBoneWeights := counts, slotBones, slotWeights;
      maxNumVertexBones := maxCount;
      Repr := Repr + {counts, slotBones, slotWeights};
    }

    /** The frame to show at `time`. */
    function GetFrameId(time: real): (frame: nat)
      reads this, Repr
      requires Valid() && time >= 0.0
      requires duration >= FrameTiming.Epsilon ==> NumFrames() > 0
      ensures duration < FrameTiming.Epsilon ==> frame == 0
      ensures duration >= FrameTiming.Epsilon ==> frame < NumFrames()
    {
      FrameTiming.FrameId(time, duration, timeFactor, NumFrames())
    }

    /** The bone of slot j of vertex vertexId: a bone index for a meaningful slot,
        zero filler past the vertex's count. */
    function VertexBoneId(vertexId: nat, j: nat): (boneId: nat)
      reads this, Repr
      requires Valid() && vertexId < numVertexBones.Length && j < numBones
      ensures j < numVertexBones[vertexId] ==> boneId < numBones
      ensures numVertexBones[vertexId] <= j ==> boneId == 0
    {
      SlotIndexInRange(vertexId, j, numBones, numVertexBones.Length);
      vertexBones[SlotIndex(vertexId, j, numBones)]
    }

    /** The weight of slot j of vertex vertexId: positive for a meaningful slot,
        zero filler past the vertex's count. */
    function VertexBoneWeight(vertexId: nat, j: nat): (weight: real)
      reads this, Repr
      requires Valid() && vertexId < numVertexBones.Length && j < numBones
      ensures j < numVertexBones[vertexId] ==> weight > 0.0
      ensures numVertexBones[vertexId] <= j ==> weight == 0.0
    {
      SlotIndexInRange(vertexId, j, numBones, numVertexBones.Length);
      vertexBoneWeights[SlotIndex(vertexId, j, numBones)]
    }

    /** Both halves of slot j of vertex vertexId at once. */
    method VertexBoneData(vertexId: nat, j: nat) returns (boneId: nat, boneWeight: real)
      requires Valid() && vertexId < numVertexBones.Length && j < numBones
      ensures boneId == VertexBoneId(vertexId, j) && boneWeight == VertexBoneWeight(vertexId, j)
      ensures j < numVertexBones[vertexId] ==> boneId < numBones && boneWeight > 0.0
    {
      SlotIndexInRange(vertexId, j, numBones, numVertexBones.Length);
      var index := SlotIndex(vertexId, j, numBones);
      boneId := vertexBones[index];
      boneWeight := vertexBoneWeights[index];
    }

    /** Releases the bones; the frame buffers and the dense table stay as they are. */
    method DisposeBones()
      requires Valid()
      modifies this`bones
      ensures Valid()
      ensures bones == []
    {
      bones := [];
    }
  }

  /** A two-bone skin without frames whose slots hold the two-bone example. */
  method ExampleSkin() returns (skin: Skin)
    ensures fresh(skin.Repr) && skin.Valid()
    ensures skin.numBones == 2 && AllPopulated(skin.bones) && |skin.bones| == 2
    ensures Populated(skin.bones) == ExampleBones
  {
    skin := new Skin(2, 0);
    skin.SetBone(0, ExampleBones[0]);
    skin.SetBone(1, ExampleBones[1]);
    assert Populated(skin.bones) == ExampleBones;
  }

  /** The two-bone example run through a skin: after reorganizing, the counts are
      [1, 2, 1], the longest row is two, and vertex 1's slots list bone 0 with weight 0.4
      and then bone 1 with weight 0.6. */
  method ReorganizeExample() returns (counts: seq<nat>, maxCount: nat,
                                       first: (nat, real), second: (nat, real))
    ensures counts == [1, 2, 1] && maxCount == 2
    ensures first == (0, 0.4) && second == (1, 0.6)
  {
    var skin := ExampleSkin();
    ExampleInfluences();
    skin.ReorganizeByVertices();
    ExampleTable(skin.numVertexBones[..], skin.vertexBones[..], skin.vertexBoneWeights[..]);
    counts, maxCount := skin.numVertexBones[..], skin.maxNumVertexBones;
    var b0, w0 := skin.VertexBoneData(1, 0);
    var b1, w1 := skin.VertexBoneData(1, 1);
    first, second := (b0, w0), (b1, w1);
  }
}
