/** Bones as the importer fills them in, and the vertex-centric view of their influences
    that the dense per-vertex table is built from. */
module BoneInfluence {

  /** A bone moves vertex vertexIds[i] with weight vertexWeights[i]. */
  datatype Bone = Bone(vertexIds: seq<nat>, vertexWeights: seq<real>)
  {
    /** The two lists are index-aligned. */
    predicate WellFormed() { |vertexIds| == |vertexWeights| }

    /** The bone lists no vertex twice. */
    predicate DistinctIds() {
      forall i, k :: 0 <= i < k < |vertexIds| ==> vertexIds[i] != vertexIds[k]
    }
  }

  /** One entry of the dense table: a bone index and the weight it gives the vertex. */
  datatype Influence = Influence(bone: nat, weight: real)

  predicate AllWellFormed(bones: seq<Bone>) {
    forall b :: 0 <= b < |bones| ==> bones[b].WellFormed()
  }

  predicate AllDistinctIds(bones: seq<Bone>) {
    forall b :: 0 <= b < |bones| ==> bones[b].DistinctIds()
  }

  function Max(a: nat, b: nat): (m: nat) { if a < b then b else a }

  /** The largest element of s, or 0 when s is empty: std::max folded from 0. */
  function MaxOf(s: seq<nat>): (m: nat)
  {
    if |s| == 0 then 0 else Max(MaxOf(s[..|s| - 1]), s[|s| - 1])
  }

  lemma {:induction false} MaxOfIsUpperBound(s: seq<nat>)
    ensures forall k :: 0 <= k < |s| ==> s[k] <= MaxOf(s)
  {
    if |s| > 0 {
      MaxOfIsUpperBound(s[..|s| - 1]);
      assert forall k :: 0 <= k < |s| - 1 ==> s[..|s| - 1][k] == s[k];
    }
  }

  lemma {:induction false} MaxOfIsAttained(s: seq<nat>)
    ensures MaxOf(s) == 0 || exists k :: 0 <= k < |s| && s[k] == MaxOf(s)
  {
    if |s| > 0 {
      var init := s[..|s| - 1];
      MaxOfIsAttained(init);
      if MaxOf(s) != s[|s| - 1] && MaxOf(init) != 0 {
        var k :| 0 <= k < |init| && init[k] == MaxOf(init);
        assert s[k] == MaxOf(s);
      }
    }
  }

  lemma {:induction false} MaxOfIsLeast(s: seq<nat>, c: nat)
    requires forall k :: 0 <= k < |s| ==> s[k] <= c
    ensures MaxOf(s) <= c
  {
    if |s| > 0 {
      var init := s[..|s| - 1];
      assert forall k :: 0 <= k < |init| ==> init[k] == s[k];
      MaxOfIsLeast(init, c);
    }
  }

  /** The vertex ids of bones[..b], bone by bone, each in list order. */
  function IdsUpTo(bones: seq<Bone>, b: nat): (ids: seq<nat>)
    requires b <= |bones|
  {
    if b == 0 then [] else IdsUpTo(bones, b - 1) + bones[b - 1].vertexIds
  }

  /** The largest vertex id any bone lists, 0 when none lists any. */
  function LastVertexId(bones: seq<Bone>): (last: nat)
  {
    MaxOf(IdsUpTo(bones, |bones|))
  }

  /** Vertex id x lies in IdsUpTo(bones, b) exactly when one of bones[..b] lists it. */
  lemma {:induction false} IdsUpToElements(bones: seq<Bone>, b: nat)
    requires b <= |bones|
    ensures forall x :: x in IdsUpTo(bones, b) <==>
      exists c, i :: 0 <= c < b && 0 <= i < |bones[c].vertexIds| && bones[c].vertexIds[i] == x
  {
    if b > 0 {
      IdsUpToElements(bones, b - 1);
      forall x | x in IdsUpTo(bones, b)
        ensures exists c, i :: 0 <= c < b && 0 <= i < |bones[c].vertexIds| && bones[c].vertexIds[i] == x
      {
        if x !in IdsUpTo(bones, b - 1) {
          var i :| 0 <= i < |bones[b - 1].vertexIds| && bones[b - 1].vertexIds[i] == x;
        }
      }
      forall x, c, i | 0 <= c < b && 0 <= i < |bones[c].vertexIds| && bones[c].vertexIds[i] == x
        ensures x in IdsUpTo(bones, b)
      {
        if c == b - 1 {
          assert x in bones[b - 1].vertexIds;
        }
      }
    }
  }

  /** Every vertex id a bone lists is at most LastVertexId, so it is below
      LastVertexId + 1, the number of vertices the table is sized for. */
  lemma LastVertexIdBounds(bones: seq<Bone>)
    ensures forall b, i :: 0 <= b < |bones| && 0 <= i < |bones[b].vertexIds| ==>
      bones[b].vertexIds[i] <= LastVertexId(bones)
  {
    var all := IdsUpTo(bones, |bones|);
    IdsUpToElements(bones, |bones|);
    MaxOfIsUpperBound(all);
    forall b, i | 0 <= b < |bones| && 0 <= i < |bones[b].vertexIds|
      ensures bones[b].vertexIds[i] <= LastVertexId(bones)
    {
      var x := bones[b].vertexIds[i];
      assert x in all;
      var k :| 0 <= k < |all| && all[k] == x;
    }
  }

  /** LastVertexId is 0 or an id that some bone lists. */
  lemma LastVertexIdAttained(bones: seq<Bone>)
    ensures LastVertexId(bones) == 0 ||
      exists b, i :: 0 <= b < |bones| && 0 <= i < |bones[b].vertexIds| &&
        bones[b].vertexIds[i] == LastVertexId(bones)
  {
    var all := IdsUpTo(bones, |bones|);
    IdsUpToElements(bones, |bones|);
    MaxOfIsAttained(all);
    if LastVertexId(bones) != 0 {
      var k :| 0 <= k < |all| && all[k] == LastVertexId(bones);
      assert all[k] in all;
    }
  }

  /** The positive-weight influences of bone (index boneId) on vertex v among its
      first n entries, in list order. */
  function BoneInfluences(bone: Bone, boneId: nat, v: nat, n: nat): (infl: seq<Influence>)
    requires bone.WellFormed() && n <= |bone.vertexIds|
  {
    if n == 0 then [] else
      var found := if bone.vertexIds[n - 1] == v && bone.vertexWeights[n - 1] > 0.0
                   then [Influence(boneId, bone.vertexWeights[n - 1])] else [];
      BoneInfluences(bone, boneId, v, n - 1) + found
  }

  /** The positive-weight influences on v of bones[..b], in (bone, list index) order. */
  function InfluencesUpTo(bones: seq<Bone>, v: nat, b: nat): (infl: seq<Influence>)
    requires AllWellFormed(bones) && b <= |bones|
  {
    if b == 0 then [] else
      InfluencesUpTo(bones, v, b - 1) + BoneInfluences(bones[b - 1], b - 1, v, |bones[b - 1].vertexIds|)
  }

  /** Everything that influences vertex v, in the order the dense table lists it. */
  function VertexInfluences(bones: seq<Bone>, v: nat): (infl: seq<Influence>)
    requires AllWellFormed(bones)
  {
    InfluencesUpTo(bones, v, |bones|)
  }

  /** The influences on v found before entry i of bone b is visited. */
  function Progress(bones: seq<Bone>, v: nat, b: nat, i: nat): (infl: seq<Influence>)
    requires AllWellFormed(bones) && b < |bones| && i <= |bones[b].vertexIds|
  {
    InfluencesUpTo(bones, v, b) + BoneInfluences(bones[b], b, v, i)
  }

  /** Every vertex's influences fit in a row of |bones| slots. */
  predicate InfluenceFits(bones: seq<Bone>)
  {
    AllWellFormed(bones) &&
    forall v :: 0 <= v <= LastVertexId(bones) ==> |VertexInfluences(bones, v)| <= |bones|
  }

  /** The (bone, list index) pairs of bones[..b] that give v a positive weight. */
  ghost function PairsUpTo(bones: seq<Bone>, v: nat, b: nat): (pairs: set<(nat, nat)>)
    requires AllWellFormed(bones) && b <= |bones|
  {
    set c: nat, i: nat | c < b && i < |bones[c].vertexIds| &&
      bones[c].vertexIds[i] == v && bones[c].vertexWeights[i] > 0.0 :: (c, i)
  }

  /** The pairs of bone c among its first n entries that give v a positive weight. */
  ghost function BonePairs(bones: seq<Bone>, v: nat, c: nat, n: nat): (pairs: set<(nat, nat)>)
    requires AllWellFormed(bones) && c < |bones| && n <= |bones[c].vertexIds|
  {
    set i: nat | i < n && bones[c].vertexIds[i] == v && bones[c].vertexWeights[i] > 0.0 :: (c, i)
  }

  /** All (bone, list index) pairs that give v a positive weight. */
  ghost function PositivePairs(bones: seq<Bone>, v: nat): (pairs: set<(nat, nat)>)
    requires AllWellFormed(bones)
  {
    PairsUpTo(bones, v, |bones|)
  }

  /** Bone c's pairs among its first n + 1 entries are those among its first n, plus
      (c, n) when entry n names v with a positive weight. */
  lemma BonePairsStep(bones: seq<Bone>, v: nat, c: nat, n: nat)
    requires AllWellFormed(bones) && c < |bones| && n < |bones[c].vertexIds|
    ensures bones[c].vertexIds[n] == v && bones[c].vertexWeights[n] > 0.0 ==>
      BonePairs(bones, v, c, n + 1) == BonePairs(bones, v, c, n) + {(c, n)} &&
      (c, n) !in BonePairs(bones, v, c, n)
    ensures !(bones[c].vertexIds[n] == v && bones[c].vertexWeights[n] > 0.0) ==>
      BonePairs(bones, v, c, n + 1) == BonePairs(bones, v, c, n)
  {
    var hit := bones[c].vertexIds[n] == v && bones[c].vertexWeights[n] > 0.0;
    var older, newer := BonePairs(bones, v, c, n), BonePairs(bones, v, c, n + 1);
    forall p | p in newer ensures p in older || (hit && p == (c, n)) {
      if p.1 < n {
        assert p in older;
      }
    }
    forall p | p in older ensures p in newer { }
    if hit {
      assert (c, n) in newer;
    }
  }

  lemma {:induction false} BoneInfluencesCount(bones: seq<Bone>, v: nat, c: nat, n: nat)
    requires AllWellFormed(bones) && c < |bones| && n <= |bones[c].vertexIds|
    ensures |BoneInfluences(bones[c], c, v, n)| == |BonePairs(bones, v, c, n)|
  {
    if n > 0 {
      BoneInfluencesCount(bones, v, c, n - 1);
      BonePairsStep(bones, v, c, n - 1);
    }
  }

  /** The pairs of bones[..c + 1] are those of bones[..c] plus bone c's own, and the two
      parts share no pair. */
  lemma PairsUpToStep(bones: seq<Bone>, v: nat, c: nat)
    requires AllWellFormed(bones) && c < |bones|
    ensures PairsUpTo(bones, v, c + 1) == PairsUpTo(bones, v, c) + BonePairs(bones, v, c, |bones[c].vertexIds|)
    ensures PairsUpTo(bones, v, c) * BonePairs(bones, v, c, |bones[c].vertexIds|) == {}
  {
    var older, last := PairsUpTo(bones, v, c), BonePairs(bones, v, c, |bones[c].vertexIds|);
    var next := c + 1;
    forall p | p in PairsUpTo(bones, v, next) ensures p in older + last {
      if p.0 < c {
        assert p in older;
      } else {
        assert p in last;
      }
    }
    forall p | p in older + last ensures p in PairsUpTo(bones, v, next) { }
    forall p | p in last ensures p !in older { }
  }

  lemma {:induction false} InfluencesUpToCount(bones: seq<Bone>, v: nat, b: nat)
    requires AllWellFormed(bones) && b <= |bones|
    ensures |InfluencesUpTo(bones, v, b)| == |PairsUpTo(bones, v, b)|
  {
    if b > 0 {
      var c := b - 1;
      InfluencesUpToCount(bones, v, c);
      BoneInfluencesCount(bones, v, c, |bones[c].vertexIds|);
      PairsUpToStep(bones, v, c);
    }
  }

  /** The number of influences on v is the number of (bone, list index) pairs that
      name v with a positive weight. */
  lemma InfluenceCountIsPairCount(bones: seq<Bone>, v: nat)
    requires AllWellFormed(bones)
    ensures |VertexInfluences(bones, v)| == |PositivePairs(bones, v)|
  {
    InfluencesUpToCount(bones, v, |bones|);
  }

  lemma {:induction false} BoneInfluencesValid(bone: Bone, boneId: nat, v: nat, n: nat)
    requires bone.WellFormed() && n <= |bone.vertexIds|
    ensures forall j :: 0 <= j < |BoneInfluences(bone, boneId, v, n)| ==>
      BoneInfluences(bone, boneId, v, n)[j].bone == boneId &&
      BoneInfluences(bone, boneId, v, n)[j].weight > 0.0
  {
    if n > 0 {
      BoneInfluencesValid(bone, boneId, v, n - 1);
    }
  }

  lemma {:induction false} InfluencesUpToValid(bones: seq<Bone>, v: nat, b: nat)
    requires AllWellFormed(bones) && b <= |bones|
    ensures forall j :: 0 <= j < |InfluencesUpTo(bones, v, b)| ==>
      InfluencesUpTo(bones, v, b)[j].bone < b && InfluencesUpTo(bones, v, b)[j].weight > 0.0
  {
    if b > 0 {
      InfluencesUpToValid(bones, v, b - 1);
      BoneInfluencesValid(bones[b - 1], b - 1, v, |bones[b - 1].vertexIds|);
    }
  }

  /** Every influence names an existing bone and carries a positive weight:
      zero and negative weights never reach the table. */
  lemma InfluencesAreValid(bones: seq<Bone>, v: nat)
    requires AllWellFormed(bones)
    ensures forall j :: 0 <= j < |VertexInfluences(bones, v)| ==>
      VertexInfluences(bones, v)[j].bone < |bones| && VertexInfluences(bones, v)[j].weight > 0.0
  {
    InfluencesUpToValid(bones, v, |bones|);
  }

  lemma {:induction false} InfluencesUpToOrdered(bones: seq<Bone>, v: nat, b: nat)
    requires AllWellFormed(bones) && b <= |bones|
    ensures forall j, k :: 0 <= j < k < |InfluencesUpTo(bones, v, b)| ==>
      InfluencesUpTo(bones, v, b)[j].bone <= InfluencesUpTo(bones, v, b)[k].bone
  {
    if b > 0 {
      InfluencesUpToOrdered(bones, v, b - 1);
      InfluencesUpToValid(bones, v, b - 1);
      BoneInfluencesValid(bones[b - 1], b - 1, v, |bones[b - 1].vertexIds|);
    }
  }

  /** Influences are listed in bone-iteration order: bone indices never decrease. */
  lemma InfluencesInBoneOrder(bones: seq<Bone>, v: nat)
    requires AllWellFormed(bones)
    ensures forall j, k :: 0 <= j < k < |VertexInfluences(bones, v)| ==>
      VertexInfluences(bones, v)[j].bone <= VertexInfluences(bones, v)[k].bone
  {
    InfluencesUpToOrdered(bones, v, |bones|);
  }

  /** A bone contributes an influence on v only from an entry that names v. */
  lemma {:induction false} BoneInfluencesNameVertex(bone: Bone, boneId: nat, v: nat, n: nat)
    requires bone.WellFormed() && n <= |bone.vertexIds|
    ensures BoneInfluences(bone, boneId, v, n) != [] ==>
      exists i :: 0 <= i < n && bone.vertexIds[i] == v
  {
    if n > 0 {
      BoneInfluencesNameVertex(bone, boneId, v, n - 1);
    }
  }

  /** A bone that lists no vertex twice gives each vertex at most one influence. */
  lemma {:induction false} DistinctBoneInfluencesAtMostOne(bone: Bone, boneId: nat, v: nat, n: nat)
    requires bone.WellFormed() && bone.DistinctIds() && n <= |bone.vertexIds|
    ensures |BoneInfluences(bone, boneId, v, n)| <= 1
  {
    if n > 0 {
      DistinctBoneInfluencesAtMostOne(bone, boneId, v, n - 1);
      BoneInfluencesNameVertex(bone, boneId, v, n - 1);
    }
  }

  lemma {:induction false} DistinctInfluencesUpTo(bones: seq<Bone>, v: nat, b: nat)
    requires AllWellFormed(bones) && AllDistinctIds(bones) && b <= |bones|
    ensures |InfluencesUpTo(bones, v, b)| <= b
    ensures forall j, k :: 0 <= j < k < |InfluencesUpTo(bones, v, b)| ==>
      InfluencesUpTo(bones, v, b)[j].bone < InfluencesUpTo(bones, v, b)[k].bone
  {
    if b > 0 {
      var c := b - 1;
      DistinctInfluencesUpTo(bones, v, c);
      InfluencesUpToValid(bones, v, c);
      DistinctBoneInfluencesAtMostOne(bones[c], c, v, |bones[c].vertexIds|);
      BoneInfluencesValid(bones[c], c, v, |bones[c].vertexIds|);
    }
  }

  /** When no bone lists a vertex twice, each vertex's influences have strictly
      increasing bone indices, so every vertex fits in a row of |bones| slots. */
  lemma DistinctIdsFit(bones: seq<Bone>)
    requires AllWellFormed(bones) && AllDistinctIds(bones)
    ensures InfluenceFits(bones)
    ensures forall v, j, k :: 0 <= j < k < |VertexInfluences(bones, v)| ==>
      VertexInfluences(bones, v)[j].bone < VertexInfluences(bones, v)[k].bone
  {
    forall v: nat ensures |VertexInfluences(bones, v)| <= |bones| &&
      forall j, k :: 0 <= j < k < |VertexInfluences(bones, v)| ==>
        VertexInfluences(bones, v)[j].bone < VertexInfluences(bones, v)[k].bone
    {
      DistinctInfluencesUpTo(bones, v, |bones|);
    }
  }

  lemma {:induction false} InfluencesUpToNameVertex(bones: seq<Bone>, v: nat, b: nat)
    requires AllWellFormed(bones) && b <= |bones|
    ensures InfluencesUpTo(bones, v, b) != [] ==>
      exists c, i :: 0 <= c < b && 0 <= i < |bones[c].vertexIds| && bones[c].vertexIds[i] == v
  {
    if b > 0 {
      InfluencesUpToNameVertex(bones, v, b - 1);
      BoneInfluencesNameVertex(bones[b - 1], b - 1, v, |bones[b - 1].vertexIds|);
    }
  }

  /** A vertex past LastVertexId has no influence, so a table with
      LastVertexId + 1 rows drops none. */
  lemma NoInfluenceBeyondLastVertex(bones: seq<Bone>, v: nat)
    requires AllWellFormed(bones) && v > LastVertexId(bones)
    ensures VertexInfluences(bones, v) == []
  {
    InfluencesUpToNameVertex(bones, v, |bones|);
    LastVertexIdBounds(bones);
  }

  /** Visiting entry i of bone b appends its influence on v, if it has one. */
  lemma ProgressStep(bones: seq<Bone>, v: nat, b: nat, i: nat)
    requires AllWellFormed(bones) && b < |bones| && i < |bones[b].vertexIds|
    ensures Progress(bones, v, b, i + 1) == Progress(bones, v, b, i) +
      (if bones[b].vertexIds[i] == v && bones[b].vertexWeights[i] > 0.0
       then [Influence(b, bones[b].vertexWeights[i])] else [])
  {
    var extra := if bones[b].vertexIds[i] == v && bones[b].vertexWeights[i] > 0.0
                 then [Influence(b, bones[b].vertexWeights[i])] else [];
    assert BoneInfluences(bones[b], b, v, i + 1) == BoneInfluences(bones[b], b, v, i) + extra;
    assert InfluencesUpTo(bones, v, b) + (BoneInfluences(bones[b], b, v, i) + extra) ==
      (InfluencesUpTo(bones, v, b) + BoneInfluences(bones[b], b, v, i)) + extra;
  }

  lemma {:induction false} BoneInfluencesGrow(bone: Bone, boneId: nat, v: nat, i: nat, n: nat)
    requires bone.WellFormed() && i <= n <= |bone.vertexIds|
    ensures |BoneInfluences(bone, boneId, v, i)| <= |BoneInfluences(bone, boneId, v, n)|
  {
    if i < n {
      BoneInfluencesGrow(bone, boneId, v, i, n - 1);
    }
  }

  lemma {:induction false} InfluencesUpToGrow(bones: seq<Bone>, v: nat, b: nat, c: nat)
    requires AllWellFormed(bones) && b <= c <= |bones|
    ensures |InfluencesUpTo(bones, v, b)| <= |InfluencesUpTo(bones, v, c)|
  {
    if b < c {
      InfluencesUpToGrow(bones, v, b, c - 1);
    }
  }

  /** What is found part-way through never outnumbers the final influence list. */
  lemma ProgressWithinTotal(bones: seq<Bone>, v: nat, b: nat, i: nat)
    requires AllWellFormed(bones) && b < |bones| && i <= |bones[b].vertexIds|
    ensures |Progress(bones, v, b, i)| <= |VertexInfluences(bones, v)|
  {
    BoneInfluencesGrow(bones[b], b, v, i, |bones[b].vertexIds|);
    InfluencesUpToGrow(bones, v, b + 1, |bones|);
  }

  /** Before bone b is visited, the progress on every vertex is what bones[..b] gave it. */
  lemma ProgressStart(bones: seq<Bone>, b: nat)
    requires AllWellFormed(bones) && b < |bones|
    ensures forall v :: Progress(bones, v, b, 0) == InfluencesUpTo(bones, v, b)
  {
    forall v ensures Progress(bones, v, b, 0) == InfluencesUpTo(bones, v, b) {
      assert InfluencesUpTo(bones, v, b) + [] == InfluencesUpTo(bones, v, b);
    }
  }

  /** After all of bone b is visited, the progress on every vertex is what bones[..b + 1] gave it. */
  lemma ProgressComplete(bones: seq<Bone>, b: nat)
    requires AllWellFormed(bones) && b < |bones|
    ensures forall v :: Progress(bones, v, b, |bones[b].vertexIds|) == InfluencesUpTo(bones, v, b + 1)
  {
  }

  /** Two bones over three vertices: bone 0 weighs vertices 0 and 1 with 1.0 and 0.4,
      bone 1 weighs vertices 1 and 2 with 0.6 and 1.0. */
  const ExampleBones: seq<Bone> := [Bone([0, 1], [1.0, 0.4]), Bone([1, 2], [0.6, 1.0])]

  /** In the two-bone example, vertex 1 is shared: it lists bone 0 before bone 1, and
      every vertex's influences fit in a row of two slots. */
  lemma ExampleInfluences()
    ensures AllWellFormed(ExampleBones) && LastVertexId(ExampleBones) == 2
    ensures VertexInfluences(ExampleBones, 0) == [Influence(0, 1.0)]
    ensures VertexInfluences(ExampleBones, 1) == [Influence(0, 0.4), Influence(1, 0.6)]
    ensures VertexInfluences(ExampleBones, 2) == [Influence(1, 1.0)]
    ensures InfluenceFits(ExampleBones)
  {
    var ids := [0, 1, 1, 2];
    assert IdsUpTo(ExampleBones, 2) == ids;
    assert ids[..3] == [0, 1, 1] && ids[..3][..2] == [0, 1] && ids[..3][..2][..1] == [0];
    assert MaxOf([0, 1]) == 1;
    assert InfluencesUpTo(ExampleBones, 0, 1) == [Influence(0, 1.0)];
    assert InfluencesUpTo(ExampleBones, 1, 1) == [Influence(0, 0.4)];
    assert InfluencesUpTo(ExampleBones, 2, 1) == [];
  }
}
